# TestVar access-control model

TestVar is a Django REST framework flashcard service. Users own
**collections**. A collection holds **sets**, a set holds **cards**, and users
write **comments** on sets. This project models the service's access-control
core in Dafny and proves properties about it:

- the permission gates of the five API viewsets;
- the `get_queryset` visibility filters;
- the `create` / `update` / `destroy` guards, and the generic ModelViewSet
  behaviour they hand over to;
- the serializers' field rules and their `create` / `update` / `__init__`
  overrides;
- the `Difficulty` enumeration and the required card fields.

Modules, one per file:

- `wrappers.dfy` (`Wrappers`): `Option` and `Result`.
- `strings.dfy` (`Strings`): `str.strip()` with Python's whitespace, as the
  REST framework's character fields use it; blank and NUL detection;
  `str(n)` of a non-negative integer; and `str.title()` for the difficulty
  labels.
- `models.dfy` (`Models`): flashcard/models.py. Covers the enumeration, its
  `choices` list with values and labels, and the card rules that serializer
  validation derives from the model's fields.
- `store.dfy` (`Store`): the database as one map per table, from primary
  key to row, with rows linked by key. `Linked` is referential integrity.
  Also covers the requesting `Actor` and the deletes, which follow the
  foreign-key cascades.
- `serializers.dfy` (`Serializers`): api/serializers.py. Each serializer is a
  table of field specifications. `Validate` is `is_valid()` followed by
  `validated_data`/`errors`. `FormValues` is how the fields read a
  form-encoded request (`Field.get_value`). The overrides are methods that
  adjust `validated_data` before the row is built. `UserSerializer` and
  `CommentSerializer` are classes, because their `__init__` changes
  `self.fields`.
- `visibility.dfy` (`Visibility`): the four `get_queryset` filters. Each is
  written as the join the ORM performs.
- `views.dfy` (`Views`): one handler per viewset action. Each handler takes
  the store and returns its `Reply` together with the new store. `Dispatch`
  applies the permission class and then routes the request.

A handler's reply corresponds to the HTTP outcome as follows:

| Reply | HTTP outcome |
|---|---|
| `Forbidden` | the permission class refused the request |
| `NotAllowed` | a guard's `HttpResponseNotAllowed` |
| `NotFound` | `get_object_or_404` or `get_object` found nothing |
| `Invalid(errors)` | a 400 naming the fields in `errors` |
| `Listed`, `Shown`, `Created`, `Updated`, `Deleted` | success |

Each handler is specified by an outcome predicate (`CreateFlashcardOutcome`,
`UpdateCommentOutcome`, ...). The predicate is a decision tree that follows
the guards of the viewset in the source's order. Each leaf gives the reply
together with the whole new store. Refusal leaves carry the errors of
validation, and success leaves carry the row that was added, replaced or
removed. Lemmas about each outcome then prove:

- the store stays linked;
- every refusal leaves the store unchanged;
- the handler's ownership, text and password properties hold.

The router's outcome predicates (`CreateOutcome`, `UpdateOutcome`,
`DestroyOutcome`, `ActionOutcome`) are built from the handlers'. `Dispatch`
therefore proves that a permitted request reaches its viewset's handler
with the request data as its fields read it.

Three invariants hold across every request to the API, and `Dispatch`
proves each of them. The template views in flashcard/views.py are not part
of this model; their `FlashcardSetCreateView`, for one, saves sets with no
quota check.

- `CardsValid`: every card has a non-blank question and answer and an
  admitted difficulty.
- `WithinQuota`: no day has more than 20 sets created on it.
- `SuperusersKept`: no request makes anyone a superuser.

## Model

| member | source | states |
|---|---|---|
| `Views.Dispatch` | api/views.py:11-113 | Refused (`Forbidden`) exactly when the endpoint's permission class refuses the actor, so an anonymous request is always refused. A permitted request meets its action's outcome. Listing returns the viewset's filtered queryset. Retrieving shows a row exactly when it is in that queryset and otherwise answers not found, and neither changes anything. A create, update or destroy is what its viewset's handler does with the request data: a JSON body as sent, or a form as the fields read it. No refused request changes the store. Every request keeps the store linked, every card admissible and every day within the set limit, and makes no one a superuser. |
| `Views.HandleCreate` | api/views.py:22-54 | A permitted create does exactly what the endpoint's create handler does (`CreateOutcome`). It is never answered `Forbidden`, any refusal leaves the store unchanged, and it keeps the three invariants and linkage. |
| `Views.HandleUpdate` | api/views.py:56-102 | The same, for updates (PUT and PATCH) and `UpdateOutcome`. |
| `Views.HandleDestroy` | api/views.py:81-108 | The same, for deletes and `DestroyOutcome`. |
| `Views.CreateKeeps` | api/views.py:11-113 | Whatever a create on any endpoint does saves nothing on refusal and keeps the invariants. |
| `Views.UpdateKeeps` | api/views.py:11-113 | The same, for updates. |
| `Views.DestroyKeeps` | api/views.py:11-113 | The same, for deletes. |
| `Views.FormKeepsGuardKeys` | api/views.py:23-57 | The keys the guards read with `request.data.get` (`flashcard_set` and `flashcard_collection`) are required fields. A form therefore yields them as sent, and the guards decide alike on the raw body and on what the fields read. |
| `Views.CreateFlashcard` | api/views.py:22-29 | Not found when the request names no set, or names a key missing from the whole set table. Then, not allowed when the requester does not own the set's collection; superusers are not exempt. Then, invalid with exactly validation's errors. Otherwise created: the new store is the old one plus one card, at a fresh key, built from the validated data. |
| `Views.CreateFlashcardKeeps` | api/views.py:22-29 | After a create, every card stays admissible and the store stays linked; a refusal saves nothing. |
| `Views.CreatedCardInOwnedSet` | api/views.py:23-29 | A created card sits in the set the request named, and that set belongs to the requester. |
| `Views.UpdateFlashcard` | api/views.py:11-20 | Generic update: not found when the card is outside the requester's queryset. Otherwise invalid with validation's errors, or updated: the card is replaced by the validated data applied to it. There is no ownership check. |
| `Views.UpdateFlashcardKeeps` | api/views.py:11-20 | An updated card stays admissible and in an existing set (possibly another one); a refusal saves nothing. |
| `Views.DestroyFlashcard` | api/views.py:11-20 | Generic delete: not found when the card is hidden; otherwise exactly that card is removed. |
| `Views.DestroyFlashcardKeeps` | api/views.py:11-20 | Removing a card keeps the store linked and the invariants. |
| `Views.CreateFlashcardSet` | api/views.py:45-54 | With 20 or more sets created today the answer is not allowed, whatever the payload. Only below that limit is the collection looked up: not found when it is missing or unnamed. Next, a non-owner is not allowed, superusers included. Next, invalid with validation's errors. Otherwise created: one new set at a fresh key, built from the validated data and stamped with `now`. |
| `Views.CreateFlashcardSetKeeps` | api/views.py:45-54 | A create keeps the store linked and every day within the limit; a refusal saves nothing. |
| `Views.CreatedSetInOwnedCollection` | api/views.py:45-54 | A created set lies in the collection the request named, which is the requester's. Its `created_at` is `now`, and today then has at most 20 sets. |
| `Views.CreateFlashcardSetReplies` | api/views.py:45-54 | Not allowed exactly when today already has 20 sets, or when the named collection exists and is not the requester's. An invalid reply carries exactly validation's errors. |
| `Views.UpdateFlashcardSet` | api/views.py:56-62 | Checks the collection named in the request before the set itself. A missing or unnamed collection gives not found, even for a PATCH. Someone else's collection gives not allowed. Then a hidden set is not found, and invalid data gives validation's errors. Otherwise the set is updated: title, description and collection come from the validated data or are kept. `created_at` is kept and `updated_at` becomes `now`. |
| `Views.UpdateFlashcardSetKeeps` | api/views.py:56-62 | An update keeps the store linked and every day within the limit; a refusal saves nothing. |
| `Views.UpdatedSetInOwnedCollection` | api/views.py:56-62 | An updated set lies in the collection the request named, which is the requester's. Its `created_at` is kept, so every day's count of sets is unchanged. |
| `Views.UpdateFlashcardSetReplies` | api/views.py:56-62 | When the named collection is the requester's but the set is outside their queryset, the answer is not found (`get_object`). An invalid reply carries exactly validation's errors. |
| `Views.DestroyFlashcardSet` | api/views.py:34-43 | Generic delete: not found when the set is hidden. Otherwise the set goes, with its cards and comments (`Store.RemoveSet`). |
| `Views.DestroyFlashcardSetKeeps` | api/views.py:34-43 | Deleting a set keeps the store linked and every day within the limit. |
| `Views.CreateFlashcardCollection` | api/views.py:64-67 | Generic create: invalid with validation's errors, or created. The requester is the owner, and the title, description and `public` flag come from the validated data or take their defaults. |
| `Views.CreateFlashcardCollectionKeeps` | api/views.py:64-67 | A created collection belongs to an existing user, so the store stays linked; a refusal saves nothing. |
| `Views.UpdateFlashcardCollection` | api/views.py:75-79 | Not found when the collection is hidden. Next, not allowed when it is visible but not the requester's, superusers included. Next, invalid with validation's errors. Otherwise the validated fields are applied to it. |
| `Views.UpdateFlashcardCollectionKeeps` | api/views.py:75-79 | An update keeps the store linked; a refusal saves nothing. |
| `Views.UpdatedCollectionKeepsOwner` | api/views.py:75-79 | An updated collection keeps its owner: `user` is read-only. |
| `Views.DestroyFlashcardCollection` | api/views.py:81-85 | Not found when the collection is hidden. Next, not allowed when it is visible but not the requester's. Otherwise the collection goes with its sets, cards and comments (`Store.RemoveCollection`). |
| `Views.DestroyFlashcardCollectionKeeps` | api/views.py:81-85 | Deleting a collection keeps the store linked and every day within the limit. |
| `Views.CreateComment` | api/views.py:87-90 | Generic create: invalid with validation's errors, or created. The new comment's text and set come from the validated data, and its author is the requester. |
| `Views.CreateCommentKeeps` | api/views.py:87-90 | A created comment is on an existing set by an existing user; a refusal saves nothing. |
| `Views.CreatedCommentOnNamedSet` | api/serializers.py:60-72 | A created comment is on the set the request named, which is checked against the whole set table, not the requester's queryset. Its text is the request's text stripped, and it is not blank. |
| `Views.UpdateComment` | api/views.py:98-102 | Not found when the comment is hidden. Next, not allowed when it is visible but not the requester's, superusers included. Next, invalid with the errors of the instance field table. Otherwise updated, with the validated data applied. |
| `Views.UpdateCommentKeeps` | api/views.py:98-102 | An update keeps the store linked; a refusal saves nothing. |
| `Views.UpdatedCommentText` | api/serializers.py:63-78 | An updated comment keeps its set and its author. New text replaces the old one stripped and not blank, and the text is kept when the request has none. |
| `Views.UpdateCommentReplies` | api/views.py:98-102 | Updated exactly when the comment exists, the requester is its author, and the data validates. An invalid reply carries exactly validation's errors. |
| `Views.DestroyComment` | api/views.py:104-108 | Not found when the comment is hidden. Next, not allowed when it is visible but not the requester's. Otherwise exactly that comment is removed. |
| `Views.DestroyCommentKeeps` | api/views.py:104-108 | Removing a comment keeps the store linked and the invariants. |
| `Views.CreateUser` | api/views.py:110-113 | Generic create with the POST field table: invalid with validation's errors, or created. The new user's username, password and `is_staff` come from the validated data, and `is_superuser` is false. |
| `Views.CreateUserKeeps` | api/views.py:110-113 | A create makes no one a superuser and keeps the store linked; a refusal saves nothing. |
| `Views.CreatedUserFromPayload` | api/serializers.py:40-58 | A sign-up without a password is refused on `password`. A created user is not a superuser. Its username and password are the request's, stripped and not blank, and the password is stored unhashed. |
| `Views.UpdateUser` | api/views.py:110-113 | Not found when the user is missing. Next, invalid with validation's errors. Otherwise the username and `is_staff` come from the validated data or are kept. A given password is replaced by its hash, the stored password stays without one, and `is_superuser` is kept. |
| `Views.UpdateUserKeeps` | api/views.py:110-113 | An update keeps everyone's superuser flag and the store linked; a refusal saves nothing. |
| `Views.UpdatedUserPassword` | api/serializers.py:41-52 | A blank password, or one holding a NUL, is refused on `password`. An accepted one is stored as the hash of its stripped text. Without one, the stored password stays. |
| `Views.DestroyUser` | api/views.py:110-113 | Not found when the user is missing. Otherwise the user goes with their collections and comments (`Store.RemoveUser`). |
| `Views.DestroyUserKeeps` | api/views.py:110-113 | Deleting a user keeps the store linked and every day within the limit. |
| `Views.UserReplaced` | api/serializers.py:45 | Replacing a user row without touching `is_superuser` keeps the store linked and grants no one superuser status. |
| `Views.QuotaAfterInsert` | api/views.py:46-47 | A new set, added on a day below 20, keeps every day within the limit. |
| `Views.QuotaAfterRemoval` | api/views.py:46-47 | Deleting sets keeps every day within the limit. |
| `Views.QuotaAfterChange` | api/serializers.py:24-27 | An update that keeps `created_at` leaves every day's count of sets unchanged, and so keeps every day within the limit. |
| `Views.SetInserted` | api/views.py:45-54 | A new set in an existing collection, on a day below the limit, keeps the store linked and within the limit. The day then has at most 20 sets, and the set's owner is its collection's owner. |
| `Views.SetReplaced` | api/views.py:56-62 | Replacing a set by one in an existing collection with the same `created_at` keeps the store linked and the invariants. The set's owner becomes the new collection's owner. |
| `Views.CardSaved` | flashcard/models.py:10-15 | Saving a card in an existing set, admissible whenever every card already is, keeps the invariants. |
| `Visibility.SuperuserSeesEverything` | api/views.py:16-96 | A superuser's four querysets are the whole tables, and so they contain everything any other actor sees. |
| `Visibility.CollectionVisibleIff` | api/views.py:69-73 | A non-superuser sees a collection exactly when they own it or it is public. |
| `Visibility.PublicCollectionVisibleToAll` | api/views.py:69-73 | A public collection is in every signed-in actor's queryset. The filter is never reached for the anonymous user: `Dispatch` answers `Forbidden` first. |
| `Visibility.SetInheritsCollection` | api/views.py:39-43 | A set is visible exactly when its collection is. |
| `Visibility.CardInheritsSet` | api/views.py:16-20 | A card is visible exactly when its set is, and exactly when its set's collection is. |
| `Visibility.CommentVisibleIff` | api/views.py:92-96 | A comment is visible exactly to superusers, to its author, and to everyone when its set's collection is public. |
| `Visibility.AuthorSeesOwnComment` | api/views.py:92-96 | An author sees their own comment, even on a private set. |
| `Serializers.ValidateAgrees` | api/serializers.py:6-67 | Two requests that agree on every declared writable field validate to the same result. |
| `Serializers.ValidateIgnoresKey` | api/serializers.py:13-45 | Setting or removing a read-only or undeclared key in the request does not change what validation yields. The owner, author, timestamps and superuser flag therefore never come from the payload. |
| `Serializers.ServerAssignedFieldsReadOnly` | api/serializers.py:8-62 | Card `user`, set `owner`, `created_at` and `updated_at`, collection `user`, comment `user` and `is_superuser` are read-only in their field tables, both with and without the POST adjustment. |
| `Serializers.ReadOnlyNotValidated` | api/serializers.py:13-45 | A read-only or undeclared field never reaches the validated data. |
| `Serializers.FlagFromPayload` | api/serializers.py:29-44 | A boolean such as `public` or `is_staff` is refused exactly when it is neither a boolean nor `0` or `1`; once validated it is true exactly when `true` or `1` was sent. |
| `Serializers.TextFromPayload` | api/serializers.py:41-63 | Character input that passes validation arrives as its text, or the digits of its number, stripped. |
| `Serializers.BlankCommentRefused` | api/serializers.py:63 | A comment given as text or a number is an error exactly when it is blank (empty or Python whitespace only) or holds a NUL. |
| `Serializers.NewCardValid` | flashcard/models.py:10-15 | Data that passes full validation builds a card with non-blank question and answer and an admitted difficulty, in an existing set. |
| `Serializers.ApplyCardValid` | flashcard/models.py:10-15 | Applying validated data (partial or not) to an admissible card keeps it admissible. Its set is kept, or becomes another existing set. |
| `Serializers.SetValidated` | api/serializers.py:15-22 | Validated set data never carries `created_at` or `updated_at`. It carries the collection exactly as the request names it. |
| `Serializers.UpdateSet` | api/serializers.py:24-27 | The saved set has `updated_at == now`, whatever the data says. Title, description and collection come from the data or are kept, and `created_at` is kept. |
| `Serializers.CreateCollection` | api/serializers.py:35-38 | The new collection's owner is the requester. Title, description and `public` come from the data or take their defaults. |
| `Serializers.FormEmptyIsAbsent` | api/serializers.py:41 | In a form, an empty string in an optional field that neither allows blank nor is a boolean reads exactly as leaving the field out. |
| `Serializers.FormKeepsRequired` | api/serializers.py:7-16 | In a form, a required non-boolean field reads as sent, and stays absent when left out. |
| `Serializers.FormAbsentFlag` | api/serializers.py:44 | In a form, a boolean field left out reads as false on a full request and stays absent on a partial one. |
| `Serializers.FormUserUpdate` | api/serializers.py:40-52 | A form update with `password` empty validates exactly as one without a password, so no password is set. A full form update without `is_staff` sets the flag to false. |
| `Serializers.UserUpdateValidated` | api/serializers.py:40-45 | In an update, a text password that is blank or holds a NUL fails the character field. Any accepted password reaches the validated data stripped and counts as given. `is_superuser` never reaches the validated data. |
| `Serializers.UserCreateValidated` | api/serializers.py:40-58 | Sign-up data that validates carries the request's username and password, both stripped and not blank, and never `is_superuser`. |
| `Serializers.UserSerializer.constructor` | api/serializers.py:54-58 | The password field is required exactly on a POST request. Every other field keeps its declaration. |
| `Serializers.UserSerializer.Update` | api/serializers.py:47-52 | A given (non-empty) password is replaced by its hash, and an absent or empty one keeps the stored password. The other attributes come from the data or are kept. |
| `Serializers.CommentUpdateValidated` | api/serializers.py:74-78 | For an existing comment, neither its set nor its author reaches the validated data. Text in the request arrives stripped and not blank, and text missing from the request stays missing. |
| `Serializers.CommentSerializer.constructor` | api/serializers.py:74-78 | With an instance, `flashcard_set` becomes read-only. Every other field keeps its declaration. |
| `Serializers.CommentSerializer.Create` | api/serializers.py:69-72 | The author is the requester. The text and set come from the validated data. |
| `Store.RemoveSet` | api/views.py:34-36 | Deleting a set removes it and exactly the cards and comments on it. Every other row is unchanged and the store stays linked. |
| `Store.RemoveCollection` | api/views.py:81-85 | Deleting a collection removes it, exactly its sets, and the cards and comments on those sets. Every other row is unchanged and the store stays linked. |
| `Store.RemoveUser` | api/views.py:110-113 | Deleting a user removes them and exactly the collections they own. Exactly the sets of the remaining collections stay, and exactly the cards on the remaining sets. Exactly the comments on the remaining sets by other authors stay. Every remaining row is unchanged, and the store stays linked. |
| `Store.DropUser` | api/views.py:110-113 | Removing a user row and their comments changes nothing else. It keeps the store linked when the user owns no collection. |
| `Store.CreatedOnInsert` | api/views.py:46-47 | A new set under a fresh key adds exactly that key to its own day's sets, so that day's count grows by one and no other day's count changes. |
| `Store.CreatedOnShrinks` | api/views.py:46-47 | A store whose sets are some of another's, with the same creation times, has a subset of its sets on every day, and no larger a count. |
| `Models.ChoicesAreExactly` | flashcard/models.py:5-15 | The choices are exactly `easy`/`Easy`, `medium`/`Medium`, `hard`/`Hard`. |
| `Models.Parse` | flashcard/models.py:5-8 | A stored string is read back as the member with that value. No member has the value of a string that reads back as nothing. |
| `Models.IsChoiceIffParses` | flashcard/models.py:13-15 | A difficulty string is admitted exactly when it is some member's value, and every member's value reads back as that member. |
| `Strings.TitleOfWord` | flashcard/models.py:14 | `title()` of a word of letters is its first letter upper-cased and the rest lower-cased. |
| `Strings.TrimEmptyIffBlank` | api/serializers.py:63 | Stripping Python whitespace leaves nothing exactly when the string is blank. This is how a character field with `allow_blank=False` detects blank input. |
| `Strings.DecimalIsText` | api/serializers.py:41-63 | `str(n)` of a number is never blank, holds no NUL and is unchanged by stripping, so a character field accepts a number as its digits. |

## Where the code and its tests disagree

The model follows the code.

- The outcome of a PUT to a user with `"password": ""` depends on how the
  body is encoded. In a JSON body it is a validation error: the password
  field is a `CharField` that does not allow blank input, so it fails
  before `UserSerializer.update` (with its `if password:`) ever runs. In a
  form body, which is how the tests at
  api/tests/test_endpoint_users.py:132-150 send it, the optional field reads
  the empty string as absent. The update then succeeds and keeps the stored
  password, as the tests expect (`Serializers.FormUserUpdate`). A full form
  update that leaves out `is_staff` sets it to false.
- A user created through the API stores the validated password (stripped
  of surrounding whitespace) without hashing, because the generic create does not call `set_password`.
- A set update checks only the collection named in the request. It does
  not check the collection the set is in now. A PATCH that names no
  collection is therefore not found.
- Cards can be updated and deleted, and sets deleted, by anyone who can
  see them. A card can be moved to any existing set. A set update needs
  only that the requester own the collection named in the request
  (api/views.py:56-60), so anyone can move a set they can see into a
  collection of their own. The tests at
  api/tests/endpoints/test_endpoint_flashcard.py:177-226 expect owner-only
  access to cards.
- A comment can be created on any existing set, including one the author
  cannot see.
- The owner of a private collection does not see other users' comments on
  its sets.
- Superusers get no exemption from the guards. They cannot add cards or
  sets to other users' collections, nor edit or delete other users'
  collections and comments.

## Left out

- How requests are carried is not modelled: the ORM, HTTP, routing,
  pagination and rendering. The store is a value, and each handler returns
  the new store.
- Status codes are not modelled. `HttpResponseNotAllowed` is a 405 where the
  tests expect 403, and the model only distinguishes the `Reply` cases.
- The clock and the password hash are parameters: `now` and `hasher`.
  Whether the clock's date matches the stored timestamp's date is assumed,
  not modelled.
- Concurrency is not modelled. In particular, the quota check and the
  insert that follows it are not atomic.
- flashcard/views.py and home/views.py are not part of this model. They hold
  template views, login and registration, a set filter by collection, and
  `form_valid`.
- The set, collection and comment models are not part of this model.
  flashcard/models.py has no collection model at all. Its set and comment
  models are commented-out drafts whose fields differ from the ones the API
  uses: a set has `name` and `cards`, a comment has `set` and `author`. Its
  `FlashCard` has no key to a set. The model takes the field names and the
  card → set → collection → user keys from the serializers'
  `fields` lists and the `get_queryset` filters in api/views.py. It assumes:
  - `created_at` and `updated_at` are automatic timestamps, so the serializer
    makes them read-only. The `read_only_fields` entry `"update_at"`
    therefore changes nothing.
  - a collection's title is required and not blank; its description is
    optional and may be blank; `public` defaults to false;
  - a set's title is required and not blank; its description is optional
    and may be blank;
  - every foreign key cascades on delete.
- A request whose primary key is missing or malformed is treated as naming
  no row, and so is not found. A malformed key would be a server error in
  the source.
- Username uniqueness, `max_length` and the user-name character validators
  are not modelled. The user field table keeps only the rules the policy
  depends on.
- `Serializers.Accepts`: request values are typed (text, boolean,
  non-negative integer); a boolean field takes `true`, `false`, `1` and `0`.
  The model does not cover floats, negative integers, `null` with
  `allow_null`, or the string spellings a field would parse (`"true"` or
  `"yes"` for a boolean, `"3"` for a primary key). A form's
  booleans and keys are taken as already parsed.
- The view guards read `request.data.get` on the raw body, while the
  handlers receive the data as the fields read it.
  `Views.FormKeepsGuardKeys` shows that the two agree on every key a guard
  reads.
- Rendering of the derived read-only fields is not modelled: the card's
  `user`, the set's `owner`, and the reverse relations. The model states
  only that these fields can never be written.
- Rules that only the tests assert, with no code implementing them, are
  not modelled:
  - reviews;
  - protecting superusers from deletion, and self-delete;
  - open registration;
  - owner-only card edits;
  - superuser collection deletes;
  - anonymous listing.
- `APIVersionView` is not modelled: it returns a fixed string.
