/**
 * api/views.py: the five model viewsets. Each request first meets the
 * viewset's permission class; then the action runs, either the generic
 * ModelViewSet behaviour or the viewset's own `create`/`update`/`destroy`
 * guard, which refuses or hands over to the generic behaviour.
 *
 * The generic behaviour is the REST framework's:
 *  - list: the filtered queryset;
 *  - retrieve, update, destroy: `get_object()` finds the target in the
 *    filtered queryset or answers 404;
 *  - create and update: the serializer validates the request data (partial
 *    for PATCH) and saves, or answers 400 with the field errors.
 *
 * A handler here takes the store as a value and returns its reply together
 * with the store after the request.
 */
module Views {
  import opened Wrappers
  import opened Strings
  import opened Store
  import opened Serializers
  import opened Visibility
  import Models

  datatype Endpoint =
    | FlashcardViewSet
    | FlashcardSetViewSet
    | FlashcardCollectionViewSet
    | CommentViewSet
    | UserViewSet

  datatype Action =
    | List
    | Retrieve(id: Id)
    | Create(payload: Data, form: bool)                // `form`: a form-encoded body, otherwise JSON
    | Update(id: Id, payload: Data, partial: bool, form: bool)   // PUT, or PATCH when `partial`
    | Destroy(id: Id)

  datatype Reply =
    | Forbidden                      // the permission class refused the request
    | NotAllowed                     // a guard answered `HttpResponseNotAllowed`
    | NotFound                       // `get_object_or_404` or `get_object` found nothing
    | Invalid(errors: set<string>)   // the serializer refused these fields
    | Listed(ids: set<Id>)
    | Shown(id: Id)
    | Created(id: Id)
    | Updated(id: Id)
    | Deleted

  /** Replies after which nothing was saved. */
  predicate Refusal(r: Reply) {
    r.Forbidden? || r.NotAllowed? || r.NotFound? || r.Invalid?
  }

  /** A handler's reply is never the permission class's, and after a refusal nothing was saved. */
  predicate HandlerReply(reply: Reply, st: Store, st': Store) {
    !reply.Forbidden? && (Refusal(reply) ==> st' == st)
  }

  /** At most this many sets may be created on one day; the source refuses when the count is above 19. */
  const DailySetLimit := 20

  /** `permission_classes`: `IsAdminUser` on the users endpoint, `IsAuthenticated` elsewhere. */
  predicate HasPermission(ep: Endpoint, a: Actor) {
    if ep == UserViewSet then a.User? && a.isStaff else a.User?
  }

  /** `request.data.get(key)` used as a primary key. */
  function PayloadPk(payload: Data, key: string): Option<Id> {
    if key in payload && payload[key].Num? then Some(payload[key].n) else None
  }

  /** The owner of a set: the user of its collection. */
  function SetOwner(st: Store, s: Id): Id
    requires Linked(st) && s in st.sets
  {
    st.collections[st.sets[s].collection].owner
  }

  // ---- invariants every request keeps

  /** No day has more sets created on it than the daily limit. */
  ghost predicate WithinQuota(st: Store) {
    forall d :: |CreatedOn(st, d)| <= DailySetLimit
  }

  /** Every card has a non-blank question and answer and one of the difficulty choices. */
  ghost predicate CardsValid(st: Store) {
    forall k :: k in st.cards ==> Models.ValidCard(st.cards[k].question, st.cards[k].answer, st.cards[k].difficulty)
  }

  /** Superuser status is never granted: a superuser after a request was one before it. */
  ghost predicate SuperusersKept(st: Store, st': Store) {
    forall u :: u in st'.users ==> st'.users[u].isSuperuser == (u in st.users && st.users[u].isSuperuser)
  }

  /**
   * The invariants a request keeps: the store stays linked, cards stay
   * admissible, no day goes over the limit and no one becomes a superuser.
   */
  ghost predicate KeepsInvariants(st: Store, st': Store) {
    Linked(st') && (CardsValid(st) ==> CardsValid(st')) && (WithinQuota(st) ==> WithinQuota(st')) && SuperusersKept(st, st')
  }

  /** A request that saves nothing keeps the invariants. */
  lemma NothingSaved(st: Store)
    requires Linked(st)
    ensures KeepsInvariants(st, st)
  {
  }

  /** Replacing a user row without touching its superuser flag keeps the store linked and grants nothing. */
  lemma UserReplaced(st: Store, id: Id, row: UserRow)
    requires Linked(st) && id in st.users && row.isSuperuser == st.users[id].isSuperuser
    ensures Linked(st.(users := st.users[id := row]))
    ensures SuperusersKept(st, st.(users := st.users[id := row]))
  {
    LinkedWithUser(st, id, row);
  }

  lemma QuotaSameSets(st: Store, st': Store)
    requires st'.sets == st.sets
    ensures WithinQuota(st) ==> WithinQuota(st')
  {
    assert forall d :: CreatedOn(st', d) == CreatedOn(st, d);
  }

  /** Removing sets and keeping the others unchanged keeps every day within the limit. */
  lemma QuotaAfterRemoval(st: Store, st': Store)
    requires st'.sets.Keys <= st.sets.Keys
    requires forall s :: s in st'.sets ==> st'.sets[s] == st.sets[s]
    ensures WithinQuota(st) ==> WithinQuota(st')
  {
    forall d ensures |CreatedOn(st', d)| <= |CreatedOn(st, d)| {
      CreatedOnShrinks(st, st', d);
    }
  }

  /**
   * Adding one set below the limit of its creation day keeps every day
   * within the limit.
   */
  lemma QuotaAfterInsert(st: Store, id: Id, row: SetRow)
    requires id !in st.sets
    requires |CreatedOn(st, row.createdAt.date)| < DailySetLimit
    ensures WithinQuota(st) ==> WithinQuota(st.(sets := st.sets[id := row]))
  {
    var st' := st.(sets := st.sets[id := row]);
    if WithinQuota(st) {
      forall d ensures |CreatedOn(st', d)| <= DailySetLimit {
        CreatedOnInsert(st, id, row, d);
      }
    }
  }

  /** Replacing a set by one with the same creation time changes no day's count. */
  lemma QuotaAfterChange(st: Store, id: Id, row: SetRow)
    requires id in st.sets && row.createdAt == st.sets[id].createdAt
    ensures forall d :: |CreatedOn(st.(sets := st.sets[id := row]), d)| == |CreatedOn(st, d)|
    ensures WithinQuota(st) ==> WithinQuota(st.(sets := st.sets[id := row]))
  {
    var st' := st.(sets := st.sets[id := row]);
    forall d ensures |CreatedOn(st', d)| == |CreatedOn(st, d)| {
      CreatedOnShrinks(st, st', d);
      CreatedOnShrinks(st', st, d);
    }
  }

  /**
   * Saving a card, in a set of the store, that is admissible whenever every
   * card already is: the invariants hold.
   */
  lemma CardSaved(st: Store, id: Id, row: CardRow)
    requires Linked(st) && row.flashcardSet in st.sets
    requires CardsValid(st) ==> Models.ValidCard(row.question, row.answer, row.difficulty)
    ensures KeepsInvariants(st, st.(cards := st.cards[id := row]))
  {
    LinkedWithCard(st, id, row);
    QuotaSameSets(st, st.(cards := st.cards[id := row]));
  }

  /** Saving a collection owned by a user of the store: the invariants hold. */
  lemma CollectionSaved(st: Store, id: Id, row: CollectionRow)
    requires Linked(st) && row.owner in st.users
    ensures KeepsInvariants(st, st.(collections := st.collections[id := row]))
  {
    LinkedWithCollection(st, id, row);
    QuotaSameSets(st, st.(collections := st.collections[id := row]));
  }

  /** Saving a comment on a set of the store by a user of the store: the invariants hold. */
  lemma CommentSaved(st: Store, id: Id, row: CommentRow)
    requires Linked(st) && row.flashcardSet in st.sets && row.author in st.users
    ensures KeepsInvariants(st, st.(comments := st.comments[id := row]))
  {
    LinkedWithComment(st, id, row);
    QuotaSameSets(st, st.(comments := st.comments[id := row]));
  }

  /**
   * Saving a new set, in a collection of the store, on a day still below the
   * limit: the store stays linked and within the limit; the set's owner is
   * its collection's owner.
   */
  lemma SetInserted(st: Store, id: Id, row: SetRow)
    requires Linked(st) && id !in st.sets && row.collection in st.collections
    requires |CreatedOn(st, row.createdAt.date)| < DailySetLimit
    ensures var st' := st.(sets := st.sets[id := row]);
            && Linked(st') && SetOwner(st', id) == st.collections[row.collection].owner
            && |CreatedOn(st', row.createdAt.date)| <= DailySetLimit
            && (WithinQuota(st) ==> WithinQuota(st'))
  {
    QuotaAfterInsert(st, id, row);
    CreatedOnInsert(st, id, row, row.createdAt.date);
    LinkedWithSet(st, id, row);
  }

  /**
   * Replacing a set by one in a collection of the store, with the same
   * creation time: the store stays linked and within the limit.
   */
  lemma SetReplaced(st: Store, id: Id, row: SetRow)
    requires Linked(st) && id in st.sets && row.collection in st.collections
    requires row.createdAt == st.sets[id].createdAt
    ensures var st' := st.(sets := st.sets[id := row]);
            && Linked(st') && SetOwner(st', id) == st.collections[row.collection].owner
            && KeepsInvariants(st, st')
  {
    QuotaAfterChange(st, id, row);
    LinkedWithSet(st, id, row);
  }

  // ---- FlashcardViewSet

  /**
   * `FlashcardViewSet.create`: the set named in the request is looked up
   * among all sets; anyone but the owner of its collection is refused,
   * superusers included; only then is the card validated and saved.
   */
  ghost predicate CreateFlashcardOutcome(st: Store, a: Actor, payload: Data, reply: Reply, st': Store)
    requires Linked(st)
  {
    var s := PayloadPk(payload, "flashcard_set");
    if s.None? || s.value !in st.sets then reply == NotFound && st' == st
    else if !Is(a, SetOwner(st, s.value)) then reply == NotAllowed && st' == st
    else
      var v := Validate(st, CardFields(), payload, false);
      if v.Failure? then reply == Invalid(v.error) && st' == st
      else reply.Created? && reply.id !in st.cards && st' == st.(cards := st.cards[reply.id := NewCard(v.value)])
  }

  method CreateFlashcard(st: Store, a: Actor, payload: Data) returns (reply: Reply, st': Store)
    requires Linked(st)
    ensures CreateFlashcardOutcome(st, a, payload, reply, st')
  {
    var s := PayloadPk(payload, "flashcard_set");
    if s.None? || s.value !in st.sets {
      return NotFound, st;
    }
    if !Is(a, SetOwner(st, s.value)) {
      return NotAllowed, st;
    }
    var v := Validate(st, CardFields(), payload, false);
    if v.Failure? {
      return Invalid(v.error), st;
    }
    var id := FreshId(st.cards.Keys);
    st' := st.(cards := st.cards[id := NewCard(v.value)]);
    reply := Created(id);
  }

  /** A created card is admissible and in an existing set; refusals save nothing. */
  lemma CreateFlashcardKeeps(st: Store, a: Actor, payload: Data, reply: Reply, st': Store)
    requires Linked(st) && CreateFlashcardOutcome(st, a, payload, reply, st')
    ensures HandlerReply(reply, st, st') && KeepsInvariants(st, st')
  {
    if reply.Created? {
      NewCardValid(st, payload);
      CardSaved(st, reply.id, st'.cards[reply.id]);
    } else {
      NothingSaved(st);
    }
  }

  /** A created card lies in the set the request named, which the requester owns. */
  lemma CreatedCardInOwnedSet(st: Store, a: Actor, payload: Data, reply: Reply, st': Store)
    requires Linked(st) && CreateFlashcardOutcome(st, a, payload, reply, st')
    ensures reply.Created? ==>
              reply.id in st'.cards && Some(st'.cards[reply.id].flashcardSet) == PayloadPk(payload, "flashcard_set") &&
              Is(a, SetOwner(st', st'.cards[reply.id].flashcardSet))
  {
    if reply.Created? {
      PkFromPayload(st, CardFields(), payload, false, "flashcard_set");
    }
  }

  /**
   * Generic update of a card: any card the requester can see, with no
   * ownership check; the card may even be moved to any existing set.
   */
  ghost predicate UpdateFlashcardOutcome(st: Store, a: Actor, id: Id, payload: Data, partial: bool, reply: Reply, st': Store) {
    if id !in VisibleCards(st, a) then reply == NotFound && st' == st
    else
      var v := Validate(st, CardFields(), payload, partial);
      if v.Failure? then reply == Invalid(v.error) && st' == st
      else reply == Updated(id) && st' == st.(cards := st.cards[id := ApplyCard(st.cards[id], v.value)])
  }

  method UpdateFlashcard(st: Store, a: Actor, id: Id, payload: Data, partial: bool) returns (reply: Reply, st': Store)
    ensures UpdateFlashcardOutcome(st, a, id, payload, partial, reply, st')
  {
    if id !in VisibleCards(st, a) {
      return NotFound, st;
    }
    var v := Validate(st, CardFields(), payload, partial);
    if v.Failure? {
      return Invalid(v.error), st;
    }
    st' := st.(cards := st.cards[id := ApplyCard(st.cards[id], v.value)]);
    reply := Updated(id);
  }

  /** An updated card stays admissible and in an existing set; refusals save nothing. */
  lemma UpdateFlashcardKeeps(st: Store, a: Actor, id: Id, payload: Data, partial: bool, reply: Reply, st': Store)
    requires Linked(st) && UpdateFlashcardOutcome(st, a, id, payload, partial, reply, st')
    ensures HandlerReply(reply, st, st') && KeepsInvariants(st, st')
  {
    if reply.Updated? {
      UpdatedCardSaved(st, id, payload, partial);
    } else {
      NothingSaved(st);
    }
  }

  /** Saving a card with a validated update applied keeps the invariants. */
  lemma UpdatedCardSaved(st: Store, id: Id, payload: Data, partial: bool)
    requires Linked(st) && id in st.cards && Validate(st, CardFields(), payload, partial).Success?
    ensures KeepsInvariants(st, st.(cards := st.cards[id := ApplyCard(st.cards[id], Validate(st, CardFields(), payload, partial).value)]))
  {
    var row := st.cards[id];
    ApplyCardInExistingSet(st, row, payload, partial);
    if CardsValid(st) {
      ApplyCardValid(st, row, payload, partial);
    }
    CardSaved(st, id, ApplyCard(row, Validate(st, CardFields(), payload, partial).value));
  }

  /** Generic destroy of a card: any card the requester can see. */
  ghost predicate DestroyFlashcardOutcome(st: Store, a: Actor, id: Id, reply: Reply, st': Store) {
    if id !in VisibleCards(st, a) then reply == NotFound && st' == st
    else reply == Deleted && st' == st.(cards := st.cards - {id})
  }

  method DestroyFlashcard(st: Store, a: Actor, id: Id) returns (reply: Reply, st': Store)
    ensures DestroyFlashcardOutcome(st, a, id, reply, st')
  {
    if id !in VisibleCards(st, a) {
      return NotFound, st;
    }
    st' := st.(cards := st.cards - {id});
    reply := Deleted;
  }

  /** Removing a card leaves no dangling reference. */
  lemma DestroyFlashcardKeeps(st: Store, a: Actor, id: Id, reply: Reply, st': Store)
    requires Linked(st) && DestroyFlashcardOutcome(st, a, id, reply, st')
    ensures HandlerReply(reply, st, st') && KeepsInvariants(st, st')
  {
    NothingSaved(st);
    LinkedWithoutLeaf(st, id, id);
    QuotaSameSets(st, st');
  }

  // ---- FlashcardSetViewSet

  /**
   * `FlashcardSetViewSet.create`, in the source's order: the daily limit over
   * all sets, then the named collection among all collections, then its
   * owner (superusers included), then validation.
   */
  ghost predicate CreateFlashcardSetOutcome(st: Store, a: Actor, payload: Data, now: DateTime, reply: Reply, st': Store) {
    var c := PayloadPk(payload, "flashcard_collection");
    if |CreatedOn(st, now.date)| >= DailySetLimit then reply == NotAllowed && st' == st
    else if c.None? || c.value !in st.collections then reply == NotFound && st' == st
    else if !Is(a, st.collections[c.value].owner) then reply == NotAllowed && st' == st
    else
      var v := Validate(st, SetFields(), payload, false);
      if v.Failure? then reply == Invalid(v.error) && st' == st
      else reply.Created? && reply.id !in st.sets && st' == st.(sets := st.sets[reply.id := NewSet(v.value, now)])
  }

  method CreateFlashcardSet(st: Store, a: Actor, payload: Data, now: DateTime) returns (reply: Reply, st': Store)
    ensures CreateFlashcardSetOutcome(st, a, payload, now, reply, st')
  {
    if |CreatedOn(st, now.date)| > DailySetLimit - 1 {
      return NotAllowed, st;
    }
    var c := PayloadPk(payload, "flashcard_collection");
    if c.None? || c.value !in st.collections {
      return NotFound, st;
    }
    if !Is(a, st.collections[c.value].owner) {
      return NotAllowed, st;
    }
    var v := Validate(st, SetFields(), payload, false);
    if v.Failure? {
      return Invalid(v.error), st;
    }
    var id := FreshId(st.sets.Keys);
    st' := st.(sets := st.sets[id := NewSet(v.value, now)]);
    reply := Created(id);
  }

  /** A created set lies in an existing collection and its day stays within the limit; refusals save nothing. */
  lemma CreateFlashcardSetKeeps(st: Store, a: Actor, payload: Data, now: DateTime, reply: Reply, st': Store)
    requires Linked(st) && CreateFlashcardSetOutcome(st, a, payload, now, reply, st')
    ensures HandlerReply(reply, st, st') && KeepsInvariants(st, st')
  {
    if reply.Created? {
      SetValidated(st, payload, false);
      SetInserted(st, reply.id, st'.sets[reply.id]);
    } else {
      NothingSaved(st);
    }
  }

  /**
   * A created set lies in the collection the request named, which the
   * requester owns; it is stamped with the clock, and its day stays within
   * the limit.
   */
  lemma CreatedSetInOwnedCollection(st: Store, a: Actor, payload: Data, now: DateTime, reply: Reply, st': Store)
    requires Linked(st) && CreateFlashcardSetOutcome(st, a, payload, now, reply, st')
    ensures reply.Created? ==>
              reply.id in st'.sets && Some(st'.sets[reply.id].collection) == PayloadPk(payload, "flashcard_collection") &&
              st'.sets[reply.id].createdAt == now && Is(a, SetOwner(st', reply.id)) &&
              |CreatedOn(st', now.date)| <= DailySetLimit
  {
    if reply.Created? {
      SetValidated(st, payload, false);
      SetInserted(st, reply.id, st'.sets[reply.id]);
    }
  }
  /**
   * Which refusal a set create gets: not allowed exactly when the day is full
   * or the named collection exists and is someone else's; invalid exactly
   * with validation's errors.
   */
  lemma CreateFlashcardSetReplies(st: Store, a: Actor, payload: Data, now: DateTime, reply: Reply, st': Store)
    requires CreateFlashcardSetOutcome(st, a, payload, now, reply, st')
    ensures var c := PayloadPk(payload, "flashcard_collection");
            reply.NotAllowed? <==>
              |CreatedOn(st, now.date)| >= DailySetLimit ||
              (c.Some? && c.value in st.collections && !Is(a, st.collections[c.value].owner))
    ensures reply.Invalid? ==> reply.errors == Validate(st, SetFields(), payload, false).error
  {
  }


  /**
   * `FlashcardSetViewSet.update`: before the set itself is looked up, the
   * collection named in the request must exist and belong to the requester.
   * Only that destination collection is checked, not the set's current one.
   * The serializer then stamps `updated_at`.
   */
  ghost predicate UpdateFlashcardSetOutcome(st: Store, a: Actor, id: Id, payload: Data, partial: bool, now: DateTime,
                                           reply: Reply, st': Store) {
    var c := PayloadPk(payload, "flashcard_collection");
    if c.None? || c.value !in st.collections then reply == NotFound && st' == st
    else if !Is(a, st.collections[c.value].owner) then reply == NotAllowed && st' == st
    else if id !in VisibleSets(st, a) then reply == NotFound && st' == st
    else
      var v := Validate(st, SetFields(), payload, partial);
      if v.Failure? then reply == Invalid(v.error) && st' == st
      else
        var s := st.sets[id];
        reply == Updated(id) &&
        st' == st.(sets := st.sets[id := SetRow(TextOf(v.value, "title", s.title), TextOf(v.value, "description", s.description),
                                                PkOf(v.value, "flashcard_collection", s.collection), s.createdAt, now)])
  }

  method UpdateFlashcardSet(st: Store, a: Actor, id: Id, payload: Data, partial: bool, now: DateTime)
    returns (reply: Reply, st': Store)
    ensures UpdateFlashcardSetOutcome(st, a, id, payload, partial, now, reply, st')
  {
    var c := PayloadPk(payload, "flashcard_collection");
    if c.None? || c.value !in st.collections {
      return NotFound, st;
    }
    if !Is(a, st.collections[c.value].owner) {
      return NotAllowed, st;
    }
    if id !in VisibleSets(st, a) {
      return NotFound, st;
    }
    var v := Validate(st, SetFields(), payload, partial);
    if v.Failure? {
      return Invalid(v.error), st;
    }
    SetValidated(st, payload, partial);
    var row := Serializers.UpdateSet(st.sets[id], v.value, now);
    st' := st.(sets := st.sets[id := row]);
    reply := Updated(id);
  }

  /** An updated set lies in an existing collection and keeps its creation time; refusals save nothing. */
  lemma UpdateFlashcardSetKeeps(st: Store, a: Actor, id: Id, payload: Data, partial: bool, now: DateTime,
                                reply: Reply, st': Store)
    requires Linked(st) && UpdateFlashcardSetOutcome(st, a, id, payload, partial, now, reply, st')
    ensures HandlerReply(reply, st, st') && KeepsInvariants(st, st')
  {
    if reply.Updated? {
      SetValidated(st, payload, partial);
      SetReplaced(st, id, st'.sets[id]);
    } else {
      NothingSaved(st);
    }
  }

  /**
   * An updated set lies in the collection the request named, which the
   * requester owns; it keeps its creation time, so no day's count changes.
   */
  lemma UpdatedSetInOwnedCollection(st: Store, a: Actor, id: Id, payload: Data, partial: bool, now: DateTime,
                                reply: Reply, st': Store)
    requires Linked(st) && UpdateFlashcardSetOutcome(st, a, id, payload, partial, now, reply, st')
    ensures reply.Updated? ==>
              id in st'.sets && Some(st'.sets[id].collection) == PayloadPk(payload, "flashcard_collection") &&
              Is(a, SetOwner(st', id))
    ensures reply.Updated? ==> forall d :: |CreatedOn(st', d)| == |CreatedOn(st, d)|
  {
    if reply.Updated? {
      SetValidated(st, payload, partial);
      QuotaAfterChange(st, id, st'.sets[id]);
    }
  }

  /**
   * A set the requester cannot see is not found once the named collection
   * is theirs, and an invalid update carries validation's errors.
   */
  lemma UpdateFlashcardSetReplies(st: Store, a: Actor, id: Id, payload: Data, partial: bool, now: DateTime,
                                  reply: Reply, st': Store)
    requires UpdateFlashcardSetOutcome(st, a, id, payload, partial, now, reply, st')
    ensures var c := PayloadPk(payload, "flashcard_collection");
            c.Some? && c.value in st.collections && Is(a, st.collections[c.value].owner) && id !in VisibleSets(st, a) ==>
              reply == NotFound
    ensures reply.Invalid? ==> reply.errors == Validate(st, SetFields(), payload, partial).error
  {
  }


  /** Generic destroy of a set: any set the requester can see; its cards and comments go with it. */
  ghost predicate DestroyFlashcardSetOutcome(st: Store, a: Actor, id: Id, reply: Reply, st': Store) {
    if id !in VisibleSets(st, a) then reply == NotFound && st' == st
    else reply == Deleted && st' == RemoveSet(st, id)
  }

  method DestroyFlashcardSet(st: Store, a: Actor, id: Id) returns (reply: Reply, st': Store)
    ensures DestroyFlashcardSetOutcome(st, a, id, reply, st')
  {
    if id !in VisibleSets(st, a) {
      return NotFound, st;
    }
    st' := RemoveSet(st, id);
    reply := Deleted;
  }

  /** Removing a set with its cards and comments leaves no dangling reference. */
  lemma DestroyFlashcardSetKeeps(st: Store, a: Actor, id: Id, reply: Reply, st': Store)
    requires Linked(st) && DestroyFlashcardSetOutcome(st, a, id, reply, st')
    ensures HandlerReply(reply, st, st') && KeepsInvariants(st, st')
  {
    NothingSaved(st);
    QuotaAfterRemoval(st, st');
  }

  // ---- FlashcardCollectionViewSet

  /** Generic create of a collection; the serializer makes the requester its owner. */
  ghost predicate CreateFlashcardCollectionOutcome(st: Store, a: Actor, payload: Data, reply: Reply, st': Store)
    requires a.User?
  {
    var v := Validate(st, CollectionFields(), payload, false);
    if v.Failure? then reply == Invalid(v.error) && st' == st
    else
      var d := v.value;
      reply.Created? && reply.id !in st.collections &&
      st' == st.(collections := st.collections[reply.id := CollectionRow(TextOf(d, "title", ""), TextOf(d, "description", ""),
                                                                         FlagOf(d, "public", false), a.id)])
  }

  method CreateFlashcardCollection(st: Store, a: Actor, payload: Data) returns (reply: Reply, st': Store)
    requires a.User?
    ensures CreateFlashcardCollectionOutcome(st, a, payload, reply, st')
  {
    var v := Validate(st, CollectionFields(), payload, false);
    if v.Failure? {
      return Invalid(v.error), st;
    }
    var row := Serializers.CreateCollection(v.value, a.id);
    var id := FreshId(st.collections.Keys);
    st' := st.(collections := st.collections[id := row]);
    reply := Created(id);
  }

  /** A created collection belongs to an existing user; refusals save nothing. */
  lemma CreateFlashcardCollectionKeeps(st: Store, a: Actor, payload: Data, reply: Reply, st': Store)
    requires Linked(st) && Knows(st, a) && a.User? && CreateFlashcardCollectionOutcome(st, a, payload, reply, st')
    ensures HandlerReply(reply, st, st') && KeepsInvariants(st, st')
  {
    if reply.Created? {
      CollectionSaved(st, reply.id, st'.collections[reply.id]);
    } else {
      NothingSaved(st);
    }
  }

  /**
   * `FlashcardCollectionViewSet.update`: a collection the requester cannot
   * see is not found; one they can see but do not own is refused,
   * superusers included.
   */
  ghost predicate UpdateFlashcardCollectionOutcome(st: Store, a: Actor, id: Id, payload: Data, partial: bool,
                                                  reply: Reply, st': Store) {
    if id !in VisibleCollections(st, a) then reply == NotFound && st' == st
    else if !Is(a, st.collections[id].owner) then reply == NotAllowed && st' == st
    else
      var v := Validate(st, CollectionFields(), payload, partial);
      if v.Failure? then reply == Invalid(v.error) && st' == st
      else reply == Updated(id) && st' == st.(collections := st.collections[id := ApplyCollection(st.collections[id], v.value)])
  }

  method UpdateFlashcardCollection(st: Store, a: Actor, id: Id, payload: Data, partial: bool)
    returns (reply: Reply, st': Store)
    ensures UpdateFlashcardCollectionOutcome(st, a, id, payload, partial, reply, st')
  {
    if id !in VisibleCollections(st, a) {
      return NotFound, st;
    }
    if !Is(a, st.collections[id].owner) {
      return NotAllowed, st;
    }
    var v := Validate(st, CollectionFields(), payload, partial);
    if v.Failure? {
      return Invalid(v.error), st;
    }
    st' := st.(collections := st.collections[id := ApplyCollection(st.collections[id], v.value)]);
    reply := Updated(id);
  }

  /** An updated collection keeps an existing owner; refusals save nothing. */
  lemma UpdateFlashcardCollectionKeeps(st: Store, a: Actor, id: Id, payload: Data, partial: bool, reply: Reply, st': Store)
    requires Linked(st) && UpdateFlashcardCollectionOutcome(st, a, id, payload, partial, reply, st')
    ensures HandlerReply(reply, st, st') && KeepsInvariants(st, st')
  {
    if reply.Updated? {
      CollectionSaved(st, id, st'.collections[id]);
    } else {
      NothingSaved(st);
    }
  }

  /** The owner of a collection is read-only: an update keeps it. */
  lemma UpdatedCollectionKeepsOwner(st: Store, a: Actor, id: Id, payload: Data, partial: bool, reply: Reply, st': Store)
    requires Linked(st) && UpdateFlashcardCollectionOutcome(st, a, id, payload, partial, reply, st')
    ensures reply.Updated? ==> id in st'.collections && st'.collections[id].owner == st.collections[id].owner
  {
    if reply.Updated? {
      ReadOnlyNotValidated(st, CollectionFields(), payload, partial, "user");
    }
  }

  /**
   * `FlashcardCollectionViewSet.destroy`: as for update, hidden is not
   * found and only the owner may delete; the collection's sets, cards and
   * comments go with it.
   */
  ghost predicate DestroyFlashcardCollectionOutcome(st: Store, a: Actor, id: Id, reply: Reply, st': Store) {
    if id !in VisibleCollections(st, a) then reply == NotFound && st' == st
    else if !Is(a, st.collections[id].owner) then reply == NotAllowed && st' == st
    else reply == Deleted && st' == RemoveCollection(st, id)
  }

  method DestroyFlashcardCollection(st: Store, a: Actor, id: Id) returns (reply: Reply, st': Store)
    ensures DestroyFlashcardCollectionOutcome(st, a, id, reply, st')
  {
    if id !in VisibleCollections(st, a) {
      return NotFound, st;
    }
    if !Is(a, st.collections[id].owner) {
      return NotAllowed, st;
    }
    st' := RemoveCollection(st, id);
    reply := Deleted;
  }

  /** Removing a collection with everything under it leaves no dangling reference. */
  lemma DestroyFlashcardCollectionKeeps(st: Store, a: Actor, id: Id, reply: Reply, st': Store)
    requires Linked(st) && DestroyFlashcardCollectionOutcome(st, a, id, reply, st')
    ensures HandlerReply(reply, st, st') && KeepsInvariants(st, st')
  {
    NothingSaved(st);
    QuotaAfterRemoval(st, st');
  }

  // ---- CommentViewSet

  /**
   * Generic create of a comment: the serializer makes the requester its
   * author. The set is looked up among all sets, so a comment can be put on
   * a set the requester cannot see.
   */
  ghost predicate CreateCommentOutcome(st: Store, a: Actor, payload: Data, reply: Reply, st': Store)
    requires a.User?
  {
    var v := Validate(st, CommentFields(), payload, false);
    if v.Failure? then reply == Invalid(v.error) && st' == st
    else
      reply.Created? && reply.id !in st.comments &&
      st' == st.(comments := st.comments[reply.id := CommentRow(TextOf(v.value, "comment", ""),
                                                                PkOf(v.value, "flashcard_set", 0), a.id)])
  }

  method CreateComment(st: Store, a: Actor, payload: Data) returns (reply: Reply, st': Store)
    requires a.User?
    ensures CreateCommentOutcome(st, a, payload, reply, st')
  {
    var serializer := new CommentSerializer(false);
    var v := Validate(st, serializer.fields, payload, false);
    if v.Failure? {
      return Invalid(v.error), st;
    }
    var row := serializer.Create(v.value, a.id);
    var id := FreshId(st.comments.Keys);
    st' := st.(comments := st.comments[id := row]);
    reply := Created(id);
  }

  /** A created comment is on an existing set by an existing user; refusals save nothing. */
  lemma CreateCommentKeeps(st: Store, a: Actor, payload: Data, reply: Reply, st': Store)
    requires Linked(st) && Knows(st, a) && a.User? && CreateCommentOutcome(st, a, payload, reply, st')
    ensures HandlerReply(reply, st, st') && KeepsInvariants(st, st')
  {
    if reply.Created? {
      RequiredPkPresent(st, CommentFields(), payload, "flashcard_set", Sets);
      CommentSaved(st, reply.id, st'.comments[reply.id]);
    } else {
      NothingSaved(st);
    }
  }

  /** A created comment is on the existing set the request named, with the request's text stripped and not blank. */
  lemma CreatedCommentOnNamedSet(st: Store, a: Actor, payload: Data, reply: Reply, st': Store)
    requires Linked(st) && Knows(st, a) && a.User? && CreateCommentOutcome(st, a, payload, reply, st')
    ensures reply.Created? ==>
              var row := st'.comments[reply.id];
              row.flashcardSet in st.sets && PayloadPk(payload, "flashcard_set") == Some(row.flashcardSet) &&
              "comment" in payload && row.text == Trim(CharInput(payload["comment"])) && !Blank(row.text)
  {
    if reply.Created? {
      RequiredTextPresent(st, CommentFields(), payload, "comment");
      RequiredPkPresent(st, CommentFields(), payload, "flashcard_set", Sets);
      TextFromPayload(st, CommentFields(), payload, false, "comment");
    }
  }

  /**
   * `CommentViewSet.update`: a hidden comment is not found; anyone but its
   * author is refused, superusers included. Only the text can change: the
   * set is read-only once the comment exists, and so is the author.
   */
  ghost predicate UpdateCommentOutcome(st: Store, a: Actor, id: Id, payload: Data, partial: bool, reply: Reply, st': Store) {
    if id !in VisibleComments(st, a) then reply == NotFound && st' == st
    else if !Is(a, st.comments[id].author) then reply == NotAllowed && st' == st
    else
      var v := Validate(st, EditCommentFields(), payload, partial);
      if v.Failure? then reply == Invalid(v.error) && st' == st
      else reply == Updated(id) && st' == st.(comments := st.comments[id := ApplyComment(st.comments[id], v.value)])
  }

  method UpdateComment(st: Store, a: Actor, id: Id, payload: Data, partial: bool) returns (reply: Reply, st': Store)
    ensures UpdateCommentOutcome(st, a, id, payload, partial, reply, st')
  {
    if id !in VisibleComments(st, a) {
      return NotFound, st;
    }
    if !Is(a, st.comments[id].author) {
      return NotAllowed, st;
    }
    var serializer := new CommentSerializer(true);
    var v := Validate(st, serializer.fields, payload, partial);
    if v.Failure? {
      return Invalid(v.error), st;
    }
    st' := st.(comments := st.comments[id := ApplyComment(st.comments[id], v.value)]);
    reply := Updated(id);
  }

  /** An updated comment keeps its set and author; refusals save nothing. */
  lemma UpdateCommentKeeps(st: Store, a: Actor, id: Id, payload: Data, partial: bool, reply: Reply, st': Store)
    requires Linked(st) && UpdateCommentOutcome(st, a, id, payload, partial, reply, st')
    ensures HandlerReply(reply, st, st') && KeepsInvariants(st, st')
  {
    if reply.Updated? {
      CommentUpdateValidated(st, payload, partial);
      CommentSaved(st, id, st'.comments[id]);
    } else {
      NothingSaved(st);
    }
  }

  /**
   * An updated comment keeps its set and its author; its text becomes the
   * request's, stripped and not blank, or stays when the request has none.
   */
  lemma UpdatedCommentText(st: Store, a: Actor, id: Id, payload: Data, partial: bool, reply: Reply, st': Store)
    requires Linked(st) && UpdateCommentOutcome(st, a, id, payload, partial, reply, st')
    ensures reply.Updated? ==>
              id in st'.comments &&
              st'.comments[id].flashcardSet == st.comments[id].flashcardSet &&
              st'.comments[id].author == st.comments[id].author
    ensures reply.Updated? && "comment" in payload ==>
              st'.comments[id].text == Trim(CharInput(payload["comment"])) && !Blank(st'.comments[id].text)
    ensures reply.Updated? && "comment" !in payload ==> st'.comments[id].text == st.comments[id].text
  {
    if reply.Updated? {
      CommentUpdateValidated(st, payload, partial);
    }
  }
  /**
   * The author's valid update of their comment succeeds, and only it does;
   * an invalid one carries validation's errors.
   */
  lemma UpdateCommentReplies(st: Store, a: Actor, id: Id, payload: Data, partial: bool, reply: Reply, st': Store)
    requires UpdateCommentOutcome(st, a, id, payload, partial, reply, st')
    ensures reply.Updated? <==>
              id in st.comments && Is(a, st.comments[id].author) && Validate(st, EditCommentFields(), payload, partial).Success?
    ensures reply.Invalid? ==> reply.errors == Validate(st, EditCommentFields(), payload, partial).error
  {
    if id in st.comments && Is(a, st.comments[id].author) {
      AuthorSeesOwnComment(st, a, id);
    }
  }


  /** `CommentViewSet.destroy`: a hidden comment is not found; only its author may delete it. */
  ghost predicate DestroyCommentOutcome(st: Store, a: Actor, id: Id, reply: Reply, st': Store) {
    if id !in VisibleComments(st, a) then reply == NotFound && st' == st
    else if !Is(a, st.comments[id].author) then reply == NotAllowed && st' == st
    else reply == Deleted && st' == st.(comments := st.comments - {id})
  }

  method DestroyComment(st: Store, a: Actor, id: Id) returns (reply: Reply, st': Store)
    ensures DestroyCommentOutcome(st, a, id, reply, st')
  {
    if id !in VisibleComments(st, a) {
      return NotFound, st;
    }
    if !Is(a, st.comments[id].author) {
      return NotAllowed, st;
    }
    st' := st.(comments := st.comments - {id});
    reply := Deleted;
  }

  /** Removing a comment leaves no dangling reference. */
  lemma DestroyCommentKeeps(st: Store, a: Actor, id: Id, reply: Reply, st': Store)
    requires Linked(st) && DestroyCommentOutcome(st, a, id, reply, st')
    ensures HandlerReply(reply, st, st') && KeepsInvariants(st, st')
  {
    NothingSaved(st);
    LinkedWithoutLeaf(st, id, id);
    QuotaSameSets(st, st');
  }

  // ---- UserViewSet (generic throughout; every user is in its queryset)

  /**
   * Generic create of a user. The password is required and stored as
   * given, after the character field strips it; the new user is never a
   * superuser.
   */
  ghost predicate CreateUserOutcome(st: Store, payload: Data, reply: Reply, st': Store) {
    var v := Validate(st, SignUpFields(), payload, false);
    if v.Failure? then reply == Invalid(v.error) && st' == st
    else reply.Created? && reply.id !in st.users && st' == st.(users := st.users[reply.id := NewUser(v.value)])
  }

  method CreateUser(st: Store, payload: Data) returns (reply: Reply, st': Store)
    ensures CreateUserOutcome(st, payload, reply, st')
  {
    var serializer := new UserSerializer(Some(Post));
    var v := Validate(st, serializer.fields, payload, false);
    if v.Failure? {
      return Invalid(v.error), st;
    }
    var id := FreshId(st.users.Keys);
    st' := st.(users := st.users[id := NewUser(v.value)]);
    reply := Created(id);
  }

  /** A created user is not a superuser, so no superuser appears; refusals save nothing. */
  lemma CreateUserKeeps(st: Store, payload: Data, reply: Reply, st': Store)
    requires Linked(st) && CreateUserOutcome(st, payload, reply, st')
    ensures HandlerReply(reply, st, st') && KeepsInvariants(st, st')
  {
    NothingSaved(st);
    if reply.Created? {
      UserCreateValidated(st, payload);
      LinkedWithUser(st, reply.id, st'.users[reply.id]);
      QuotaSameSets(st, st');
    }
  }

  /**
   * A sign-up without a password is refused on `password`; a created user
   * is not a superuser, and has the request's username and password,
   * stripped and not blank.
   */
  lemma CreatedUserFromPayload(st: Store, payload: Data, reply: Reply, st': Store)
    requires Linked(st) && CreateUserOutcome(st, payload, reply, st')
    ensures "password" !in payload ==> reply.Invalid? && "password" in reply.errors
    ensures reply.Created? ==>
              var row := st'.users[reply.id];
              !row.isSuperuser && "password" in payload && "username" in payload &&
              row.password == Trim(CharInput(payload["password"])) && !Blank(row.password) &&
              row.username == Trim(CharInput(payload["username"])) && !Blank(row.username)
  {
    if "password" !in payload {
      assert FieldFails(st, SignUpFields()["password"], "password", payload, false);
    }
    if reply.Created? {
      UserCreateValidated(st, payload);
    }
  }

  /**
   * Generic update of a user, through `UserSerializer.update`: a password in
   * the request replaces the stored one (hashed); without one the stored
   * password stays. `is_superuser` is read-only.
   */
  ghost predicate UpdateUserOutcome(st: Store, id: Id, payload: Data, partial: bool, hasher: string -> string,
                                   reply: Reply, st': Store) {
    if id !in st.users then reply == NotFound && st' == st
    else
      var v := Validate(st, UserFields(), payload, partial);
      if v.Failure? then reply == Invalid(v.error) && st' == st
      else
        var u, d := st.users[id], v.value;
        reply == Updated(id) &&
        st' == st.(users := st.users[id := UserRow(TextOf(d, "username", u.username),
                                                   if PasswordGiven(d) then hasher(d["password"].s) else u.password,
                                                   FlagOf(d, "is_staff", u.isStaff), u.isSuperuser)])
  }

  method UpdateUser(st: Store, id: Id, payload: Data, partial: bool, hasher: string -> string)
    returns (reply: Reply, st': Store)
    ensures UpdateUserOutcome(st, id, payload, partial, hasher, reply, st')
  {
    if id !in st.users {
      return NotFound, st;
    }
    var serializer := new UserSerializer(Some(if partial then Patch else Put));
    assert serializer.fields == UserFields();
    var v := Validate(st, UserFields(), payload, partial);
    if v.Failure? {
      return Invalid(v.error), st;
    }
    UserUpdateValidated(st, payload, partial);
    var row := serializer.Update(st.users[id], v.value, hasher);
    st' := st.(users := st.users[id := row]);
    reply := Updated(id);
  }

  /** An update keeps whether a user is a superuser; refusals save nothing. */
  lemma UpdateUserKeeps(st: Store, id: Id, payload: Data, partial: bool, hasher: string -> string, reply: Reply, st': Store)
    requires Linked(st) && UpdateUserOutcome(st, id, payload, partial, hasher, reply, st')
    ensures HandlerReply(reply, st, st') && KeepsInvariants(st, st')
  {
    NothingSaved(st);
    if reply.Updated? {
      UserUpdateValidated(st, payload, partial);
      UserReplaced(st, id, st'.users[id]);
      QuotaSameSets(st, st');
    }
  }

  /**
   * The passwords of a user update: a blank one, or one holding a NUL, is
   * refused by the character field before `update` runs; an accepted one
   * is stored hashed after stripping; without one the stored password stays.
   */
  lemma UpdatedUserPassword(st: Store, id: Id, payload: Data, partial: bool, hasher: string -> string, reply: Reply, st': Store)
    requires Linked(st) && UpdateUserOutcome(st, id, payload, partial, hasher, reply, st')
    ensures id in st.users && "password" in payload && payload["password"].Str? &&
            (Blank(payload["password"].s) || !NoNul(payload["password"].s)) ==>
              reply.Invalid? && "password" in reply.errors
    ensures reply.Updated? && "password" in payload ==>
              st'.users[id].password == hasher(Trim(CharInput(payload["password"])))
    ensures reply.Updated? && "password" !in payload ==> st'.users[id].password == st.users[id].password
  {
    UserUpdateValidated(st, payload, partial);
  }

  /** Generic destroy of a user: their collections go, and so do the comments they wrote. */
  ghost predicate DestroyUserOutcome(st: Store, id: Id, reply: Reply, st': Store) {
    if id !in st.users then reply == NotFound && st' == st
    else reply == Deleted && st' == RemoveUser(st, id)
  }

  method DestroyUser(st: Store, id: Id) returns (reply: Reply, st': Store)
    ensures DestroyUserOutcome(st, id, reply, st')
  {
    if id !in st.users {
      return NotFound, st;
    }
    st' := RemoveUser(st, id);
    reply := Deleted;
  }

  /** Removing a user with their collections and comments leaves no dangling reference. */
  lemma DestroyUserKeeps(st: Store, id: Id, reply: Reply, st': Store)
    requires Linked(st) && DestroyUserOutcome(st, id, reply, st')
    ensures HandlerReply(reply, st, st') && KeepsInvariants(st, st')
  {
    NothingSaved(st);
    QuotaAfterRemoval(st, st');
  }

  // ---- routing

  /** The filtered queryset of each viewset; the users endpoint's is every user. */
  function Queryset(st: Store, a: Actor, ep: Endpoint): set<Id> {
    match ep
    case FlashcardViewSet => VisibleCards(st, a)
    case FlashcardSetViewSet => VisibleSets(st, a)
    case FlashcardCollectionViewSet => VisibleCollections(st, a)
    case CommentViewSet => VisibleComments(st, a)
    case UserViewSet => st.users.Keys
  }

  /** The serializer's fields for a write to this endpoint: creating a row, or changing an existing one. */
  function WriteFields(ep: Endpoint, creating: bool): Fields {
    match ep
    case FlashcardViewSet => CardFields()
    case FlashcardSetViewSet => SetFields()
    case FlashcardCollectionViewSet => CollectionFields()
    case CommentViewSet => if creating then CommentFields() else EditCommentFields()
    case UserViewSet => if creating then SignUpFields() else UserFields()
  }

  /** `request.data` as a handler reads it: a JSON body as sent, a form as its fields read it. */
  function RequestData(ep: Endpoint, creating: bool, payload: Data, partial: bool, form: bool): Data {
    if form then FormValues(WriteFields(ep, creating), payload, partial) else payload
  }

  /**
   * The keys the view guards read with `request.data.get` are required
   * fields, so a form yields them as sent: the guards decide alike on the
   * raw body and on what the fields read.
   */
  lemma FormKeepsGuardKeys(payload: Data, partial: bool, form: bool)
    ensures PayloadPk(RequestData(FlashcardViewSet, true, payload, false, form), "flashcard_set") == PayloadPk(payload, "flashcard_set")
    ensures PayloadPk(RequestData(FlashcardSetViewSet, true, payload, false, form), "flashcard_collection")
            == PayloadPk(payload, "flashcard_collection")
    ensures PayloadPk(RequestData(FlashcardSetViewSet, false, payload, partial, form), "flashcard_collection")
            == PayloadPk(payload, "flashcard_collection")
  {
    FormKeepsRequired(CardFields(), payload, false, "flashcard_set");
    FormKeepsRequired(SetFields(), payload, false, "flashcard_collection");
    FormKeepsRequired(SetFields(), payload, partial, "flashcard_collection");
  }

  /** What a create on each endpoint does, once the permission class has let it through. */
  ghost predicate CreateOutcome(st: Store, a: Actor, ep: Endpoint, payload: Data, now: DateTime, reply: Reply, st': Store)
    requires Linked(st) && a.User?
  {
    match ep
    case FlashcardViewSet => CreateFlashcardOutcome(st, a, payload, reply, st')
    case FlashcardSetViewSet => CreateFlashcardSetOutcome(st, a, payload, now, reply, st')
    case FlashcardCollectionViewSet => CreateFlashcardCollectionOutcome(st, a, payload, reply, st')
    case CommentViewSet => CreateCommentOutcome(st, a, payload, reply, st')
    case UserViewSet => CreateUserOutcome(st, payload, reply, st')
  }

  /** What an update on each endpoint does, once the permission class has let it through. */
  ghost predicate UpdateOutcome(st: Store, a: Actor, ep: Endpoint, id: Id, payload: Data, partial: bool, now: DateTime,
                                hasher: string -> string, reply: Reply, st': Store) {
    match ep
    case FlashcardViewSet => UpdateFlashcardOutcome(st, a, id, payload, partial, reply, st')
    case FlashcardSetViewSet => UpdateFlashcardSetOutcome(st, a, id, payload, partial, now, reply, st')
    case FlashcardCollectionViewSet => UpdateFlashcardCollectionOutcome(st, a, id, payload, partial, reply, st')
    case CommentViewSet => UpdateCommentOutcome(st, a, id, payload, partial, reply, st')
    case UserViewSet => UpdateUserOutcome(st, id, payload, partial, hasher, reply, st')
  }

  /** What a destroy on each endpoint does, once the permission class has let it through. */
  ghost predicate DestroyOutcome(st: Store, a: Actor, ep: Endpoint, id: Id, reply: Reply, st': Store) {
    match ep
    case FlashcardViewSet => DestroyFlashcardOutcome(st, a, id, reply, st')
    case FlashcardSetViewSet => DestroyFlashcardSetOutcome(st, a, id, reply, st')
    case FlashcardCollectionViewSet => DestroyFlashcardCollectionOutcome(st, a, id, reply, st')
    case CommentViewSet => DestroyCommentOutcome(st, a, id, reply, st')
    case UserViewSet => DestroyUserOutcome(st, id, reply, st')
  }

  /** Whatever a create on any endpoint does keeps the invariants, and refusals save nothing. */
  lemma CreateKeeps(st: Store, a: Actor, ep: Endpoint, payload: Data, now: DateTime, reply: Reply, st': Store)
    requires Linked(st) && Knows(st, a) && a.User? && CreateOutcome(st, a, ep, payload, now, reply, st')
    ensures HandlerReply(reply, st, st') && KeepsInvariants(st, st')
  {
    match ep
    case FlashcardViewSet => CreateFlashcardKeeps(st, a, payload, reply, st');
    case FlashcardSetViewSet => CreateFlashcardSetKeeps(st, a, payload, now, reply, st');
    case FlashcardCollectionViewSet => CreateFlashcardCollectionKeeps(st, a, payload, reply, st');
    case CommentViewSet => CreateCommentKeeps(st, a, payload, reply, st');
    case UserViewSet => CreateUserKeeps(st, payload, reply, st');
  }

  /** Whatever an update on any endpoint does keeps the invariants, and refusals save nothing. */
  lemma UpdateKeeps(st: Store, a: Actor, ep: Endpoint, id: Id, payload: Data, partial: bool, now: DateTime,
                    hasher: string -> string, reply: Reply, st': Store)
    requires Linked(st) && UpdateOutcome(st, a, ep, id, payload, partial, now, hasher, reply, st')
    ensures HandlerReply(reply, st, st') && KeepsInvariants(st, st')
  {
    match ep
    case FlashcardViewSet => UpdateFlashcardKeeps(st, a, id, payload, partial, reply, st');
    case FlashcardSetViewSet => UpdateFlashcardSetKeeps(st, a, id, payload, partial, now, reply, st');
    case FlashcardCollectionViewSet => UpdateFlashcardCollectionKeeps(st, a, id, payload, partial, reply, st');
    case CommentViewSet => UpdateCommentKeeps(st, a, id, payload, partial, reply, st');
    case UserViewSet => UpdateUserKeeps(st, id, payload, partial, hasher, reply, st');
  }

  /** Whatever a destroy on any endpoint does keeps the invariants, and refusals save nothing. */
  lemma DestroyKeeps(st: Store, a: Actor, ep: Endpoint, id: Id, reply: Reply, st': Store)
    requires Linked(st) && DestroyOutcome(st, a, ep, id, reply, st')
    ensures HandlerReply(reply, st, st') && KeepsInvariants(st, st')
  {
    match ep
    case FlashcardViewSet => DestroyFlashcardKeeps(st, a, id, reply, st');
    case FlashcardSetViewSet => DestroyFlashcardSetKeeps(st, a, id, reply, st');
    case FlashcardCollectionViewSet => DestroyFlashcardCollectionKeeps(st, a, id, reply, st');
    case CommentViewSet => DestroyCommentKeeps(st, a, id, reply, st');
    case UserViewSet => DestroyUserKeeps(st, id, reply, st');
  }

  /** A create request that passed the permission class, routed to its viewset's handler. */
  method HandleCreate(st: Store, a: Actor, ep: Endpoint, payload: Data, now: DateTime) returns (reply: Reply, st': Store)
    requires Linked(st) && Knows(st, a) && HasPermission(ep, a)
    ensures CreateOutcome(st, a, ep, payload, now, reply, st')
    ensures HandlerReply(reply, st, st')
    ensures KeepsInvariants(st, st')
  {
    match ep {
      case FlashcardViewSet =>
        reply, st' := CreateFlashcard(st, a, payload);
      case FlashcardSetViewSet =>
        reply, st' := CreateFlashcardSet(st, a, payload, now);
      case FlashcardCollectionViewSet =>
        reply, st' := CreateFlashcardCollection(st, a, payload);
      case CommentViewSet =>
        reply, st' := CreateComment(st, a, payload);
      case UserViewSet =>
        reply, st' := CreateUser(st, payload);
    }
    CreateKeeps(st, a, ep, payload, now, reply, st');
  }

  /** An update request that passed the permission class, routed to its viewset's handler. */
  method HandleUpdate(st: Store, a: Actor, ep: Endpoint, id: Id, payload: Data, partial: bool, now: DateTime,
                      hasher: string -> string) returns (reply: Reply, st': Store)
    requires Linked(st) && Knows(st, a) && HasPermission(ep, a)
    ensures UpdateOutcome(st, a, ep, id, payload, partial, now, hasher, reply, st')
    ensures HandlerReply(reply, st, st')
    ensures KeepsInvariants(st, st')
  {
    match ep {
      case FlashcardViewSet =>
        reply, st' := UpdateFlashcard(st, a, id, payload, partial);
      case FlashcardSetViewSet =>
        reply, st' := UpdateFlashcardSet(st, a, id, payload, partial, now);
      case FlashcardCollectionViewSet =>
        reply, st' := UpdateFlashcardCollection(st, a, id, payload, partial);
      case CommentViewSet =>
        reply, st' := UpdateComment(st, a, id, payload, partial);
      case UserViewSet =>
        reply, st' := UpdateUser(st, id, payload, partial, hasher);
    }
    UpdateKeeps(st, a, ep, id, payload, partial, now, hasher, reply, st');
  }

  /** A destroy request that passed the permission class, routed to its viewset's handler. */
  method HandleDestroy(st: Store, a: Actor, ep: Endpoint, id: Id) returns (reply: Reply, st': Store)
    requires Linked(st) && Knows(st, a) && HasPermission(ep, a)
    ensures DestroyOutcome(st, a, ep, id, reply, st')
    ensures HandlerReply(reply, st, st')
    ensures KeepsInvariants(st, st')
  {
    match ep {
      case FlashcardViewSet =>
        reply, st' := DestroyFlashcard(st, a, id);
      case FlashcardSetViewSet =>
        reply, st' := DestroyFlashcardSet(st, a, id);
      case FlashcardCollectionViewSet =>
        reply, st' := DestroyFlashcardCollection(st, a, id);
      case CommentViewSet =>
        reply, st' := DestroyComment(st, a, id);
      case UserViewSet =>
        reply, st' := DestroyUser(st, id);
    }
    DestroyKeeps(st, a, ep, id, reply, st');
  }

  /** What one request does once the permission class has let it through. */
  ghost predicate ActionOutcome(st: Store, a: Actor, ep: Endpoint, act: Action, now: DateTime, hasher: string -> string,
                                reply: Reply, st': Store)
    requires Linked(st) && a.User?
  {
    match act
    case List => reply == Listed(Queryset(st, a, ep)) && st' == st
    case Retrieve(id) => reply == (if id in Queryset(st, a, ep) then Shown(id) else NotFound) && st' == st
    case Create(payload, form) => CreateOutcome(st, a, ep, RequestData(ep, true, payload, false, form), now, reply, st')
    case Update(id, payload, partial, form) =>
      UpdateOutcome(st, a, ep, id, RequestData(ep, false, payload, partial, form), partial, now, hasher, reply, st')
    case Destroy(id) => DestroyOutcome(st, a, ep, id, reply, st')
  }

  /**
   * One request: the permission class, then the action. `now` is the
   * clock and `hasher` is `set_password`'s hash.
   */
  method Dispatch(st: Store, a: Actor, ep: Endpoint, act: Action, now: DateTime, hasher: string -> string)
    returns (reply: Reply, st': Store)
    requires Linked(st) && Knows(st, a)
    ensures reply.Forbidden? <==> !HasPermission(ep, a)
    ensures a.Anonymous? ==> reply == Forbidden
    ensures Refusal(reply) ==> st' == st
    ensures HasPermission(ep, a) ==> ActionOutcome(st, a, ep, act, now, hasher, reply, st')
    ensures Linked(st')
    ensures CardsValid(st) ==> CardsValid(st')
    ensures WithinQuota(st) ==> WithinQuota(st')
    ensures SuperusersKept(st, st')
  {
    if !HasPermission(ep, a) {
      return Forbidden, st;
    }
    match act {
      case List =>
        reply, st' := Listed(Queryset(st, a, ep)), st;
      case Retrieve(id) =>
        reply, st' := if id in Queryset(st, a, ep) then Shown(id) else NotFound, st;
      case Create(payload, form) =>
        reply, st' := HandleCreate(st, a, ep, RequestData(ep, true, payload, false, form), now);
      case Update(id, payload, partial, form) =>
        reply, st' := HandleUpdate(st, a, ep, id, RequestData(ep, false, payload, partial, form), partial, now, hasher);
      case Destroy(id) =>
        reply, st' := HandleDestroy(st, a, ep, id);
    }
  }
}
