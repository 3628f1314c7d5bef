/**
 * api/serializers.py: which request fields each serializer accepts, how it
 * validates them, and its `create`/`update`/`__init__` overrides.
 *
 * A serializer turns `request.data` into `validated_data` by walking its
 * declared fields: read-only fields and undeclared keys are ignored, a
 * writable field that is present must be acceptable for its kind, and a
 * required writable field must be present unless the request is partial
 * (PATCH). Character fields take text or a number (read as its decimal
 * digits), refuse input holding a NUL character, strip surrounding
 * whitespace and, unless `allow_blank=True`, refuse input that is blank.
 * All field errors are reported together. A form-encoded request is first
 * read field by field as `Field.get_value` reads it (`FormValues`).
 */
module Serializers {
  import opened Wrappers
  import opened Strings
  import opened Store
  import Models

  /**
   * A value of `request.data` or of `validated_data`: text, a boolean, a
   * non-negative integer (a row key when the field is a primary key), a
   * timestamp or a user object.
   */
  datatype Value = Str(s: string) | Flag(b: bool) | Num(n: nat) | Stamp(t: DateTime) | UserObj(user: Id)

  type Data = map<string, Value>

  datatype Kind =
    | CharKind(allowBlank: bool)
    | ChoiceKind(choices: seq<string>)
    | BooleanKind
    | PkKind(table: Table)   // PrimaryKeyRelatedField over every row of the table
    | Derived                // ReadOnlyField, reverse relations, `id`

  datatype FieldSpec = FieldSpec(kind: Kind, required: bool, readOnly: bool)

  type Fields = map<string, FieldSpec>

  function Writable(kind: Kind, required: bool): FieldSpec {
    FieldSpec(kind, required, false)
  }

  const ReadOnly: FieldSpec := FieldSpec(Derived, false, true)

  /** FlashCardSerializer: `user` is the set's collection owner's username, never input. */
  function CardFields(): Fields {
    map[
      "id" := ReadOnly,
      "question" := Writable(CharKind(false), true),
      "answer" := Writable(CharKind(false), true),
      "difficulty" := Writable(ChoiceKind(Models.ChoiceValues()), true),
      "flashcard_set" := Writable(PkKind(Sets), true),
      "user" := ReadOnly]
  }

  /**
   * FlashcardSetSerializer: `owner` is derived; `created_at` and `updated_at`
   * are automatic timestamps and so not writable.
   */
  function SetFields(): Fields {
    map[
      "id" := ReadOnly,
      "title" := Writable(CharKind(false), true),
      "description" := Writable(CharKind(true), false),
      "created_at" := ReadOnly,
      "updated_at" := ReadOnly,
      "owner" := ReadOnly,
      "flashcard_collection" := Writable(PkKind(Collections), true),
      "comments" := ReadOnly,
      "flashcard" := ReadOnly]
  }

  /** FlashcardCollectionSerializer: `user` and `flashcard_set` are read-only. */
  function CollectionFields(): Fields {
    map[
      "id" := ReadOnly,
      "title" := Writable(CharKind(false), true),
      "description" := Writable(CharKind(true), false),
      "public" := Writable(BooleanKind, false),
      "user" := ReadOnly,
      "flashcard_set" := ReadOnly]
  }

  /** UserSerializer as declared, before `__init__` adjusts `password`. */
  function UserFields(): Fields {
    map[
      "id" := ReadOnly,
      "username" := Writable(CharKind(false), true),
      "password" := Writable(CharKind(false), false),
      "is_superuser" := ReadOnly,
      "is_staff" := Writable(BooleanKind, false),
      "comment" := ReadOnly]
  }

  /** The user serializer's fields on a POST request: the password is required. */
  function SignUpFields(): Fields {
    UserFields()["password" := Writable(CharKind(false), true)]
  }

  /** CommentSerializer as declared, before `__init__` adjusts `flashcard_set`. */
  function CommentFields(): Fields {
    map[
      "id" := ReadOnly,
      "comment" := Writable(CharKind(false), true),
      "flashcard_set" := Writable(PkKind(Sets), true),
      "user" := ReadOnly]
  }

  /** CommentSerializer once `__init__` has seen an existing comment: the set is read-only too. */
  function EditCommentFields(): Fields {
    CommentFields()["flashcard_set" := CommentFields()["flashcard_set"].(readOnly := true)]
  }

  /**
   * The fields the server fills in and a client can never write: the
   * derived owner names, the set timestamps, the collection owner, the
   * comment author and the superuser flag.
   */
  lemma ServerAssignedFieldsReadOnly()
    ensures CardFields()["user"].readOnly && SetFields()["owner"].readOnly
    ensures SetFields()["created_at"].readOnly && SetFields()["updated_at"].readOnly
    ensures CollectionFields()["user"].readOnly && CommentFields()["user"].readOnly
    ensures UserFields()["is_superuser"].readOnly && SignUpFields()["is_superuser"].readOnly
  {
  }

  /** What a character field reads from text or from a number: the text itself, or `str(n)`. */
  function CharInput(v: Value): string {
    match v
    case Str(s) => s
    case Num(n) => Decimal(n)
    case _ => []
  }

  /**
   * Whether a field of this kind accepts the value: character input is text
   * or a number, holds no NUL and, unless blank is allowed, is not blank;
   * a choice is text among the choices; a boolean is `true`, `false`, `1`
   * or `0`; a primary key names an existing row.
   */
  function Accepts(st: Store, kind: Kind, v: Value): bool {
    match kind
    case CharKind(allowBlank) => (v.Str? || v.Num?) && NoNul(CharInput(v)) && (allowBlank || !Blank(CharInput(v)))
    case ChoiceKind(choices) => v.Str? && v.s in choices
    case BooleanKind => v.Flag? || (v.Num? && v.n <= 1)
    case PkKind(t) => v.Num? && v.n in Keys(st, t)
    case Derived => false
  }

  /**
   * The validated form of an accepted value: character input becomes stripped
   * text, and the integer `1` or `0` given for a boolean becomes `true` or `false`.
   */
  function Internal(kind: Kind, v: Value): Value {
    if kind.CharKind? && (v.Str? || v.Num?) then Str(Trim(CharInput(v)))
    else if kind.BooleanKind? && v.Num? then Flag(v.n == 1)
    else v
  }

  /** Whether the field named `name` reports an error for this payload. */
  predicate FieldFails(st: Store, f: FieldSpec, name: string, payload: Data, partial: bool) {
    !f.readOnly && (if name in payload then !Accepts(st, f.kind, payload[name]) else f.required && !partial)
  }

  /** `serializer.is_valid()` followed by `serializer.validated_data` (or `serializer.errors`). */
  function Validate(st: Store, fields: Fields, payload: Data, partial: bool): (r: Result<Data, set<string>>)
    ensures r.Success? <==> forall name :: name in fields ==> !FieldFails(st, fields[name], name, payload, partial)
    ensures r.Failure? ==> r.error != {}
    ensures r.Failure? ==> forall name :: name in r.error <==> name in fields && FieldFails(st, fields[name], name, payload, partial)
    ensures r.Success? ==> forall name :: name in r.value <==> name in fields && !fields[name].readOnly && name in payload
    ensures r.Success? ==> forall name :: name in r.value ==>
              Accepts(st, fields[name].kind, payload[name]) && r.value[name] == Internal(fields[name].kind, payload[name])
  {
    var errors := set name | name in fields && FieldFails(st, fields[name], name, payload, partial);
    if errors != {} then Failure(errors)
    else
      assert forall name :: name in fields ==> name !in errors;
      Success(map name | name in fields && !fields[name].readOnly && name in payload :: Internal(fields[name].kind, payload[name]))
  }

  /**
   * What the client sends under a read-only or undeclared key makes no
   * difference to validation: such keys are never taken from the payload.
   */
  lemma ValidateIgnoresKey(st: Store, fields: Fields, payload: Data, partial: bool, name: string, v: Value)
    requires name !in fields || fields[name].readOnly
    ensures Validate(st, fields, payload[name := v], partial) == Validate(st, fields, payload, partial)
    ensures Validate(st, fields, payload - {name}, partial) == Validate(st, fields, payload, partial)
  {
    ValidateAgrees(st, fields, payload[name := v], payload, partial);
    ValidateAgrees(st, fields, payload - {name}, payload, partial);
  }

  /** Two requests that agree on every writable declared field validate alike. */
  lemma ValidateAgrees(st: Store, fields: Fields, p: Data, q: Data, partial: bool)
    requires forall n :: n in fields && !fields[n].readOnly ==> (n in p <==> n in q) && (n in p ==> p[n] == q[n])
    ensures Validate(st, fields, p, partial) == Validate(st, fields, q, partial)
  {
    forall n | n in fields
      ensures FieldFails(st, fields[n], n, p, partial) == FieldFails(st, fields[n], n, q, partial)
    {
    }
    var rp, rq := Validate(st, fields, p, partial), Validate(st, fields, q, partial);
    if rp.Success? {
      assert rp.value.Keys == rq.value.Keys;
      assert rp.value == rq.value;
    } else {
      assert rp.error == rq.error;
    }
  }

  /** Accepted non-blank character input stays non-blank once stripped. */
  lemma InternalTextNotBlank(s: string)
    requires !Blank(s)
    ensures !Blank(Trim(s))
  {
    TrimEmptyIffBlank(s);
    TrimmedBlankIsEmpty(s);
  }

  /**
   * A blank comment (empty or only whitespace) or one holding a NUL is refused
   * with an error on `comment`, and any other text or number raises no error
   * there.
   */
  lemma BlankCommentRefused(st: Store, fields: Fields, payload: Data, partial: bool)
    requires "comment" in fields && fields["comment"] == CommentFields()["comment"]
    requires "comment" in payload && (payload["comment"].Str? || payload["comment"].Num?)
    ensures Validate(st, fields, payload, partial).Failure? && "comment" in Validate(st, fields, payload, partial).error
            <==> Blank(CharInput(payload["comment"])) || !NoNul(CharInput(payload["comment"]))
  {
    var r := Validate(st, fields, payload, partial);
    if Blank(CharInput(payload["comment"])) || !NoNul(CharInput(payload["comment"])) {
      assert FieldFails(st, fields["comment"], "comment", payload, partial);
    }
  }

  // Helpers that read one attribute out of `validated_data`, or keep `otherwise`.

  function TextOf(d: Data, key: string, otherwise: string): string {
    if key in d && d[key].Str? then d[key].s else otherwise
  }

  function FlagOf(d: Data, key: string, otherwise: bool): bool {
    if key in d && d[key].Flag? then d[key].b else otherwise
  }

  function PkOf(d: Data, key: string, otherwise: Id): Id {
    if key in d && d[key].Num? then d[key].n else otherwise
  }

  function StampOf(d: Data, key: string, otherwise: DateTime): DateTime {
    if key in d && d[key].Stamp? then d[key].t else otherwise
  }

  function UserOf(d: Data, key: string, otherwise: Id): Id {
    if key in d && d[key].UserObj? then d[key].user else otherwise
  }

  // `ModelSerializer.create`: `Model.objects.create(**validated_data)`. An
  // attribute that is absent takes the model default; a required foreign key
  // is always present after validation, so its stand-in default is never used.

  function NewCard(d: Data): CardRow {
    CardRow(TextOf(d, "question", ""), TextOf(d, "answer", ""), TextOf(d, "difficulty", ""), PkOf(d, "flashcard_set", 0))
  }

  /** `created_at` and `updated_at` are stamped by the model when the row is added. */
  function NewSet(d: Data, now: DateTime): SetRow {
    SetRow(TextOf(d, "title", ""), TextOf(d, "description", ""), PkOf(d, "flashcard_collection", 0), now, now)
  }

  function NewCollection(d: Data): CollectionRow {
    CollectionRow(TextOf(d, "title", ""), TextOf(d, "description", ""), FlagOf(d, "public", false), UserOf(d, "user", 0))
  }

  function NewComment(d: Data): CommentRow {
    CommentRow(TextOf(d, "comment", ""), PkOf(d, "flashcard_set", 0), UserOf(d, "user", 0))
  }

  /** The password is stored as given: the generic create does not hash it. */
  function NewUser(d: Data): UserRow {
    UserRow(TextOf(d, "username", ""), TextOf(d, "password", ""), FlagOf(d, "is_staff", false), FlagOf(d, "is_superuser", false))
  }

  // `ModelSerializer.update`: `setattr(instance, attr, value)` for every item
  // of `validated_data`, then `instance.save()`.

  function ApplyCard(row: CardRow, d: Data): CardRow {
    CardRow(TextOf(d, "question", row.question), TextOf(d, "answer", row.answer),
            TextOf(d, "difficulty", row.difficulty), PkOf(d, "flashcard_set", row.flashcardSet))
  }

  function ApplySet(row: SetRow, d: Data): SetRow {
    SetRow(TextOf(d, "title", row.title), TextOf(d, "description", row.description),
           PkOf(d, "flashcard_collection", row.collection),
           StampOf(d, "created_at", row.createdAt), StampOf(d, "updated_at", row.updatedAt))
  }

  function ApplyCollection(row: CollectionRow, d: Data): CollectionRow {
    CollectionRow(TextOf(d, "title", row.title), TextOf(d, "description", row.description),
                  FlagOf(d, "public", row.public), UserOf(d, "user", row.owner))
  }

  function ApplyComment(row: CommentRow, d: Data): CommentRow {
    CommentRow(TextOf(d, "comment", row.text), PkOf(d, "flashcard_set", row.flashcardSet), UserOf(d, "user", row.author))
  }

  function ApplyUser(row: UserRow, d: Data): UserRow {
    UserRow(TextOf(d, "username", row.username), TextOf(d, "password", row.password),
            FlagOf(d, "is_staff", row.isStaff), FlagOf(d, "is_superuser", row.isSuperuser))
  }

  /**
   * Card data that passed a full (non-partial) validation builds a card the
   * model admits, in an existing set.
   */
  lemma NewCardValid(st: Store, payload: Data)
    requires Validate(st, CardFields(), payload, false).Success?
    ensures var row := NewCard(Validate(st, CardFields(), payload, false).value);
            Models.ValidCard(row.question, row.answer, row.difficulty) && row.flashcardSet in st.sets
  {
    NewCardAdmitted(st, payload);
    NewCardInExistingSet(st, payload);
  }

  lemma NewCardAdmitted(st: Store, payload: Data)
    requires Validate(st, CardFields(), payload, false).Success?
    ensures var row := NewCard(Validate(st, CardFields(), payload, false).value);
            Models.ValidCard(row.question, row.answer, row.difficulty)
  {
    var fields := CardFields();
    RequiredTextPresent(st, fields, payload, "question");
    RequiredTextPresent(st, fields, payload, "answer");
    RequiredChoicePresent(st, fields, payload, "difficulty", Models.ChoiceValues());
  }

  lemma NewCardInExistingSet(st: Store, payload: Data)
    requires Validate(st, CardFields(), payload, false).Success?
    ensures NewCard(Validate(st, CardFields(), payload, false).value).flashcardSet in st.sets
  {
    RequiredPkPresent(st, CardFields(), payload, "flashcard_set", Sets);
  }

  /** A required choice field of a fully validated payload holds one of the choices. */
  lemma RequiredChoicePresent(st: Store, fields: Fields, payload: Data, name: string, choices: seq<string>)
    requires name in fields && fields[name] == Writable(ChoiceKind(choices), true)
    requires Validate(st, fields, payload, false).Success?
    ensures var d := Validate(st, fields, payload, false).value;
            name in d && d[name].Str? && d[name].s in choices
  {
    assert !FieldFails(st, fields[name], name, payload, false);
  }

  /** A required primary-key field of a fully validated payload names an existing row. */
  lemma RequiredPkPresent(st: Store, fields: Fields, payload: Data, name: string, t: Table)
    requires name in fields && fields[name] == Writable(PkKind(t), true)
    requires Validate(st, fields, payload, false).Success?
    ensures var d := Validate(st, fields, payload, false).value;
            name in d && d[name].Num? && d[name].n in Keys(st, t)
  {
    assert !FieldFails(st, fields[name], name, payload, false);
  }

  /** A required, non-blank character field of a fully validated payload holds non-blank text. */
  lemma RequiredTextPresent(st: Store, fields: Fields, payload: Data, name: string)
    requires name in fields && fields[name] == Writable(CharKind(false), true)
    requires Validate(st, fields, payload, false).Success?
    ensures var d := Validate(st, fields, payload, false).value;
            name in d && d[name].Str? && !Blank(d[name].s)
  {
    assert !FieldFails(st, fields[name], name, payload, false);
    InternalTextNotBlank(CharInput(payload[name]));
  }

  /** A present, non-blank character field of a validated payload holds non-blank text. */
  lemma PresentTextNotBlank(st: Store, fields: Fields, payload: Data, partial: bool, name: string)
    requires name in fields && fields[name].kind == CharKind(false)
    requires Validate(st, fields, payload, partial).Success?
    ensures var d := Validate(st, fields, payload, partial).value;
            name in d ==> d[name].Str? && !Blank(d[name].s)
  {
    var d := Validate(st, fields, payload, partial).value;
    if name in d {
      InternalTextNotBlank(CharInput(payload[name]));
    }
  }

  /** A present primary-key field of a validated payload names an existing row. */
  lemma PresentPkExists(st: Store, fields: Fields, payload: Data, partial: bool, name: string, t: Table)
    requires name in fields && fields[name].kind == PkKind(t)
    requires Validate(st, fields, payload, partial).Success?
    ensures var d := Validate(st, fields, payload, partial).value;
            name in d ==> d[name].Num? && d[name].n in Keys(st, t)
  {
  }

  /** A primary key named in the request is, once validated, the same key. */
  lemma PkFromPayload(st: Store, fields: Fields, payload: Data, partial: bool, name: string)
    requires name in fields && fields[name].kind.PkKind? && !fields[name].readOnly
    requires name in payload && payload[name].Num?
    requires Validate(st, fields, payload, partial).Success?
    ensures var d := Validate(st, fields, payload, partial).value;
            name in d && d[name] == payload[name]
  {
  }

  /** Character input named in the request is, once validated, its text with surrounding whitespace stripped. */
  lemma TextFromPayload(st: Store, fields: Fields, payload: Data, partial: bool, name: string)
    requires name in fields && fields[name].kind.CharKind? && !fields[name].readOnly
    requires name in payload
    requires Validate(st, fields, payload, partial).Success?
    ensures var d := Validate(st, fields, payload, partial).value;
            name in d && d[name] == Str(Trim(CharInput(payload[name])))
  {
  }

  /**
   * A boolean named in the request is refused exactly when it is neither a
   * boolean nor the integer `0` or `1`; once validated it reads as true
   * exactly when the request sent `true` or `1`.
   */
  lemma FlagFromPayload(st: Store, fields: Fields, payload: Data, partial: bool, name: string, otherwise: bool)
    requires name in fields && fields[name].kind.BooleanKind? && !fields[name].readOnly
    requires name in payload
    ensures var r := Validate(st, fields, payload, partial);
            r.Failure? && name in r.error <==> !payload[name].Flag? && !(payload[name].Num? && payload[name].n <= 1)
    ensures var r := Validate(st, fields, payload, partial);
            r.Success? ==> FlagOf(r.value, name, otherwise) == (payload[name] == Flag(true) || payload[name] == Num(1))
  {
  }

  /** A read-only or undeclared field never reaches the validated data. */
  lemma ReadOnlyNotValidated(st: Store, fields: Fields, payload: Data, partial: bool, name: string)
    requires name !in fields || fields[name].readOnly
    requires Validate(st, fields, payload, partial).Success?
    ensures name !in Validate(st, fields, payload, partial).value
  {
  }

  // ---- form-encoded requests

  /** Whether the field's `allow_blank` is set. */
  predicate AllowsBlank(kind: Kind) {
    kind.CharKind? && kind.allowBlank
  }

  /**
   * What one field reads from a form-encoded (multipart or url-encoded)
   * request, by `Field.get_value`: on a full request an absent boolean reads
   * as false (its `default_empty_html`); an empty string in an optional
   * field that does not allow blank reads as absent. Anything else reads as
   * sent; read-only and undeclared keys are passed on unread.
   */
  function FormValue(fields: Fields, payload: Data, partial: bool, name: string): Option<Value> {
    if name !in fields || fields[name].readOnly then
      if name in payload then Some(payload[name]) else None
    else if name !in payload then
      if !partial && fields[name].kind.BooleanKind? then Some(Flag(false)) else None
    else if payload[name] == Str("") && !fields[name].required && !AllowsBlank(fields[name].kind) then None
    else Some(payload[name])
  }

  /** `request.data` of a form-encoded request, as the serializer's fields read it. */
  function FormValues(fields: Fields, payload: Data, partial: bool): Data {
    map name | name in payload.Keys + fields.Keys && FormValue(fields, payload, partial, name).Some? ::
      FormValue(fields, payload, partial, name).value
  }

  /**
   * In a form, an empty string in an optional field that neither allows
   * blank nor is a boolean reads exactly as leaving the field out.
   */
  lemma FormEmptyIsAbsent(fields: Fields, payload: Data, partial: bool, name: string)
    requires name in fields && !fields[name].readOnly && !fields[name].required
    requires !AllowsBlank(fields[name].kind) && !fields[name].kind.BooleanKind?
    ensures FormValues(fields, payload[name := Str("")], partial) == FormValues(fields, payload - {name}, partial)
  {
    var p, q := payload[name := Str("")], payload - {name};
    assert forall n :: FormValue(fields, p, partial, n) == FormValue(fields, q, partial, n);
    assert FormValues(fields, p, partial).Keys == FormValues(fields, q, partial).Keys;
  }

  /** In a form, a required field other than a boolean reads as sent, and stays absent when left out. */
  lemma FormKeepsRequired(fields: Fields, payload: Data, partial: bool, name: string)
    requires name in fields && fields[name].required && !fields[name].kind.BooleanKind?
    ensures name in FormValues(fields, payload, partial) <==> name in payload
    ensures name in payload ==> FormValues(fields, payload, partial)[name] == payload[name]
  {
  }

  /**
   * In a form, a boolean field that is left out reads as false on a full
   * request and stays absent on a partial one.
   */
  lemma FormAbsentFlag(fields: Fields, payload: Data, partial: bool, name: string)
    requires name in fields && !fields[name].readOnly && fields[name].kind.BooleanKind? && name !in payload
    ensures !partial ==> name in FormValues(fields, payload, partial) && FormValues(fields, payload, partial)[name] == Flag(false)
    ensures partial ==> name !in FormValues(fields, payload, partial)
  {
  }

  /**
   * A form-encoded update of a user with an empty password validates as
   * one without a password, so it names no password to set; a full form
   * update without `is_staff` sets the flag to false.
   */
  lemma FormUserUpdate(st: Store, payload: Data, partial: bool)
    ensures var v := Validate(st, UserFields(), FormValues(UserFields(), payload["password" := Str("")], partial), partial);
            && v == Validate(st, UserFields(), FormValues(UserFields(), payload - {"password"}, partial), partial)
            && (v.Success? ==> !PasswordGiven(v.value))
    ensures var v := Validate(st, UserFields(), FormValues(UserFields(), payload, false), false);
            v.Success? && "is_staff" !in payload ==> FlagOf(v.value, "is_staff", true) == false
  {
    var fields := UserFields();
    FormEmptyIsAbsent(fields, payload, partial, "password");
    var q := FormValues(fields, payload - {"password"}, partial);
    assert "password" !in q by {
      assert FormValue(fields, payload - {"password"}, partial, "password").None?;
    }
    if "is_staff" !in payload {
      FormAbsentFlag(fields, payload, false, "is_staff");
    }
  }

  /** Updating a card the model admits with validated data, partial or not, keeps it admissible. */
  lemma ApplyCardValid(st: Store, row: CardRow, payload: Data, partial: bool)
    requires Models.ValidCard(row.question, row.answer, row.difficulty)
    requires Validate(st, CardFields(), payload, partial).Success?
    ensures var row' := ApplyCard(row, Validate(st, CardFields(), payload, partial).value);
            Models.ValidCard(row'.question, row'.answer, row'.difficulty)
            && (row'.flashcardSet == row.flashcardSet || row'.flashcardSet in st.sets)
  {
    ApplyCardAdmitted(st, row, payload, partial);
    ApplyCardInExistingSet(st, row, payload, partial);
  }

  lemma ApplyCardAdmitted(st: Store, row: CardRow, payload: Data, partial: bool)
    requires Models.ValidCard(row.question, row.answer, row.difficulty)
    requires Validate(st, CardFields(), payload, partial).Success?
    ensures var row' := ApplyCard(row, Validate(st, CardFields(), payload, partial).value);
            Models.ValidCard(row'.question, row'.answer, row'.difficulty)
  {
    var fields := CardFields();
    PresentTextNotBlank(st, fields, payload, partial, "question");
    PresentTextNotBlank(st, fields, payload, partial, "answer");
    PresentChoiceAdmitted(st, fields, payload, partial, "difficulty", Models.ChoiceValues());
  }

  lemma ApplyCardInExistingSet(st: Store, row: CardRow, payload: Data, partial: bool)
    requires Validate(st, CardFields(), payload, partial).Success?
    ensures var row' := ApplyCard(row, Validate(st, CardFields(), payload, partial).value);
            row'.flashcardSet == row.flashcardSet || row'.flashcardSet in st.sets
  {
    PresentPkExists(st, CardFields(), payload, partial, "flashcard_set", Sets);
  }

  /** A present choice field of a validated payload holds one of the choices. */
  lemma PresentChoiceAdmitted(st: Store, fields: Fields, payload: Data, partial: bool, name: string, choices: seq<string>)
    requires name in fields && fields[name].kind == ChoiceKind(choices)
    requires Validate(st, fields, payload, partial).Success?
    ensures var d := Validate(st, fields, payload, partial).value;
            name in d ==> d[name].Str? && d[name].s in choices
  {
  }

  /**
   * What the set field table lets through: never the timestamps, and the
   * collection exactly as the request names it.
   */
  lemma SetValidated(st: Store, payload: Data, partial: bool)
    requires Validate(st, SetFields(), payload, partial).Success?
    ensures var d := Validate(st, SetFields(), payload, partial).value;
            && "created_at" !in d && "updated_at" !in d
            && ("flashcard_collection" in payload && payload["flashcard_collection"].Num? ==>
                  "flashcard_collection" in d && d["flashcard_collection"] == payload["flashcard_collection"])
  {
    ReadOnlyNotValidated(st, SetFields(), payload, partial, "created_at");
    ReadOnlyNotValidated(st, SetFields(), payload, partial, "updated_at");
    if "flashcard_collection" in payload && payload["flashcard_collection"].Num? {
      PkFromPayload(st, SetFields(), payload, partial, "flashcard_collection");
    }
  }

  /** `FlashcardSetSerializer.update`: stamps `updated_at`, whatever the payload says. */
  method UpdateSet(instance: SetRow, validated: Data, now: DateTime) returns (saved: SetRow)
    ensures saved.updatedAt == now
    ensures saved.title == TextOf(validated, "title", instance.title)
    ensures saved.description == TextOf(validated, "description", instance.description)
    ensures saved.collection == PkOf(validated, "flashcard_collection", instance.collection)
    ensures "created_at" !in validated ==> saved.createdAt == instance.createdAt
  {
    var data := validated;
    data := data["updated_at" := Stamp(now)];
    saved := ApplySet(instance, data);
  }

  /** `FlashcardCollectionSerializer.create`: the owner is the requesting user. */
  method CreateCollection(validated: Data, requester: Id) returns (row: CollectionRow)
    ensures row.owner == requester
    ensures row.title == TextOf(validated, "title", "")
    ensures row.description == TextOf(validated, "description", "")
    ensures row.public == FlagOf(validated, "public", false)
  {
    var data := validated;
    data := data["user" := UserObj(requester)];
    row := NewCollection(data);
  }

  datatype HttpMethod = Get | Post | Put | Patch | Delete

  /** The update data names a password that `if password:` treats as given. */
  predicate PasswordGiven(d: Data) {
    "password" in d && d["password"].Str? && d["password"].s != ""
  }

  /**
   * What the user field table makes of a password in an update request: a
   * blank one, or one holding a NUL, is an error of the character field; an
   * accepted one reaches the validated data stripped, and so counts as given.
   * The superuser flag never reaches the validated data.
   */
  lemma UserUpdateValidated(st: Store, payload: Data, partial: bool)
    ensures var v := Validate(st, UserFields(), payload, partial);
            "password" in payload && payload["password"].Str? && (Blank(payload["password"].s) || !NoNul(payload["password"].s)) ==>
              v.Failure? && "password" in v.error
    ensures var v := Validate(st, UserFields(), payload, partial);
            v.Success? && "password" in payload ==>
              PasswordGiven(v.value) && v.value["password"].s == Trim(CharInput(payload["password"]))
    ensures var v := Validate(st, UserFields(), payload, partial);
            v.Success? ==> "is_superuser" !in v.value && ("password" !in payload ==> !PasswordGiven(v.value))
  {
    var v := Validate(st, UserFields(), payload, partial);
    if "password" in payload {
      if payload["password"].Str? && (Blank(payload["password"].s) || !NoNul(payload["password"].s)) {
        assert FieldFails(st, UserFields()["password"], "password", payload, partial);
      }
      if v.Success? {
        TextFromPayload(st, UserFields(), payload, partial, "password");
        PresentTextNotBlank(st, UserFields(), payload, partial, "password");
      }
    }
  }

  /**
   * What the sign-up field table lets through: the username and the
   * password, both stripped and non-blank, and never the superuser flag.
   */
  lemma UserCreateValidated(st: Store, payload: Data)
    requires Validate(st, SignUpFields(), payload, false).Success?
    ensures var d := Validate(st, SignUpFields(), payload, false).value;
            && "is_superuser" !in d && "password" in payload && "username" in payload
            && TextOf(d, "password", "") == Trim(CharInput(payload["password"])) && !Blank(TextOf(d, "password", ""))
            && TextOf(d, "username", "") == Trim(CharInput(payload["username"])) && !Blank(TextOf(d, "username", ""))
  {
    var fields := SignUpFields();
    ReadOnlyNotValidated(st, fields, payload, false, "is_superuser");
    RequiredTextPresent(st, fields, payload, "password");
    RequiredTextPresent(st, fields, payload, "username");
    TextFromPayload(st, fields, payload, false, "password");
    TextFromPayload(st, fields, payload, false, "username");
  }

  class UserSerializer {
    var fields: Fields

    /** `__init__`: on a POST request the password becomes required. */
    constructor (request: Option<HttpMethod>)
      ensures fields.Keys == UserFields().Keys
      ensures fields["password"] == Writable(CharKind(false), request == Some(Post))
      ensures forall name :: name in fields && name != "password" ==> fields[name] == UserFields()[name]
      ensures fields == if request == Some(Post) then SignUpFields() else UserFields()
    {
      fields := UserFields();
      new;
      if request.Some? && request.value == Post {
        fields := fields["password" := fields["password"].(required := true)];
      }
    }

    /**
     * `update`: the password is taken out of the data; a non-empty one
     * replaces the stored hash, an absent or empty one leaves it as it was.
     * The remaining attributes are then assigned as usual.
     */
    method Update(instance: UserRow, validated: Data, hasher: string -> string) returns (saved: UserRow)
      ensures PasswordGiven(validated) ==> saved.password == hasher(validated["password"].s)
      ensures !PasswordGiven(validated) ==> saved.password == instance.password
      ensures saved.username == TextOf(validated, "username", instance.username)
      ensures saved.isStaff == FlagOf(validated, "is_staff", instance.isStaff)
      ensures saved.isSuperuser == FlagOf(validated, "is_superuser", instance.isSuperuser)
    {
      var data := validated;
      var password: Option<Value> := None;
      if "password" in data {
        password := Some(data["password"]);
        data := data - {"password"};
      }
      var row := instance;
      if password.Some? && password.value.Str? && password.value.s != "" {
        row := row.(password := hasher(password.value.s));
      }
      saved := ApplyUser(row, data);
    }
  }

  /**
   * What the field table of an existing comment lets through: never its set
   * or its author, and the text stripped and non-blank when the request
   * carries text.
   */
  lemma CommentUpdateValidated(st: Store, payload: Data, partial: bool)
    requires Validate(st, EditCommentFields(), payload, partial).Success?
    ensures var d := Validate(st, EditCommentFields(), payload, partial).value;
            && "flashcard_set" !in d && "user" !in d
            && ("comment" !in payload ==> "comment" !in d)
            && ("comment" in payload ==>
                  "comment" in d && d["comment"] == Str(Trim(CharInput(payload["comment"]))) && !Blank(Trim(CharInput(payload["comment"]))))
  {
    var fields := EditCommentFields();
    ReadOnlyNotValidated(st, fields, payload, partial, "flashcard_set");
    ReadOnlyNotValidated(st, fields, payload, partial, "user");
    if "comment" in payload {
      TextFromPayload(st, fields, payload, partial, "comment");
      PresentTextNotBlank(st, fields, payload, partial, "comment");
    }
  }

  class CommentSerializer {
    var fields: Fields

    /** `__init__`: once the comment exists, its set can no longer be written. */
    constructor (hasInstance: bool)
      ensures fields.Keys == CommentFields().Keys
      ensures fields["flashcard_set"] == CommentFields()["flashcard_set"].(readOnly := hasInstance)
      ensures forall name :: name in fields && name != "flashcard_set" ==> fields[name] == CommentFields()[name]
      ensures fields == if hasInstance then EditCommentFields() else CommentFields()
    {
      fields := CommentFields();
      new;
      if hasInstance {
        fields := fields["flashcard_set" := fields["flashcard_set"].(readOnly := true)];
      }
    }

    /** `create`: the author is the requesting user. */
    method Create(validated: Data, requester: Id) returns (row: CommentRow)
      ensures row.author == requester
      ensures row.text == TextOf(validated, "comment", "")
      ensures row.flashcardSet == PkOf(validated, "flashcard_set", 0)
    {
      var data := validated;
      data := data["user" := UserObj(requester)];
      row := NewComment(data);
    }
  }
}
