/**
 * The `get_queryset` filters of api/views.py: which rows of each table an
 * actor may list or fetch. A superuser sees every row; anyone else sees the
 * collections they own or that are public, and the sets and cards of those
 * collections, reached through the parent chain. Comments are filtered on
 * their own: the actor's own comments, and comments on sets whose collection
 * is public.
 *
 * Each filter is written as the source writes it, as a join along the
 * foreign keys, so a row whose parent is missing matches no condition.
 */
module Visibility {
  import opened Store

  // ---- single-row filters

  /** FlashcardCollectionViewSet.get_queryset */
  predicate CollectionVisible(st: Store, a: Actor, id: Id) {
    id in st.collections &&
    (IsSuperuser(a) || Is(a, st.collections[id].owner) || st.collections[id].public)
  }

  /** FlashcardSetViewSet.get_queryset: `flashcard_collection__user` or `flashcard_collection__public`. */
  predicate SetVisible(st: Store, a: Actor, id: Id) {
    id in st.sets &&
    (IsSuperuser(a) ||
     var c := st.sets[id].collection;
     c in st.collections && (Is(a, st.collections[c].owner) || st.collections[c].public))
  }

  /** FlashcardViewSet.get_queryset: `flashcard_set__flashcard_collection__user` or `...__public`. */
  predicate CardVisible(st: Store, a: Actor, id: Id) {
    id in st.cards &&
    (IsSuperuser(a) ||
     var s := st.cards[id].flashcardSet;
     s in st.sets &&
     var c := st.sets[s].collection;
     c in st.collections && (Is(a, st.collections[c].owner) || st.collections[c].public))
  }

  /** CommentViewSet.get_queryset: `user` or `flashcard_set__flashcard_collection__public`. */
  predicate CommentVisible(st: Store, a: Actor, id: Id) {
    id in st.comments &&
    (IsSuperuser(a) ||
     Is(a, st.comments[id].author) ||
     var s := st.comments[id].flashcardSet;
     s in st.sets &&
     var c := st.sets[s].collection;
     c in st.collections && st.collections[c].public)
  }

  // ---- the filtered querysets, as sets of keys

  function VisibleCollections(st: Store, a: Actor): (r: set<Id>)
    ensures r <= st.collections.Keys
  {
    set id | id in st.collections && CollectionVisible(st, a, id)
  }

  function VisibleSets(st: Store, a: Actor): (r: set<Id>)
    ensures r <= st.sets.Keys
  {
    set id | id in st.sets && SetVisible(st, a, id)
  }

  function VisibleCards(st: Store, a: Actor): (r: set<Id>)
    ensures r <= st.cards.Keys
  {
    set id | id in st.cards && CardVisible(st, a, id)
  }

  function VisibleComments(st: Store, a: Actor): (r: set<Id>)
    ensures r <= st.comments.Keys
  {
    set id | id in st.comments && CommentVisible(st, a, id)
  }

  // ---- properties

  /** A superuser's querysets hold every row, and so everything any other actor sees. */
  lemma SuperuserSeesEverything(st: Store, su: Actor, a: Actor)
    requires IsSuperuser(su)
    ensures VisibleCollections(st, su) == st.collections.Keys && VisibleCollections(st, a) <= VisibleCollections(st, su)
    ensures VisibleSets(st, su) == st.sets.Keys && VisibleSets(st, a) <= VisibleSets(st, su)
    ensures VisibleCards(st, su) == st.cards.Keys && VisibleCards(st, a) <= VisibleCards(st, su)
    ensures VisibleComments(st, su) == st.comments.Keys && VisibleComments(st, a) <= VisibleComments(st, su)
  {
    assert forall id :: id in st.collections ==> CollectionVisible(st, su, id);
    assert forall id :: id in st.sets ==> SetVisible(st, su, id);
    assert forall id :: id in st.cards ==> CardVisible(st, su, id);
    assert forall id :: id in st.comments ==> CommentVisible(st, su, id);
  }

  /**
   * A non-superuser sees a collection exactly when it is theirs or public;
   * a private collection of someone else is hidden (and so not found).
   */
  lemma CollectionVisibleIff(st: Store, a: Actor, id: Id)
    requires id in st.collections && !IsSuperuser(a)
    ensures id in VisibleCollections(st, a) <==> Is(a, st.collections[id].owner) || st.collections[id].public
  {
  }

  /**
   * A public collection is in the queryset of every signed-in actor. The
   * filter is never reached for the anonymous user, whom the permission
   * class refuses first.
   */
  lemma PublicCollectionVisibleToAll(st: Store, a: Actor, id: Id)
    requires id in st.collections && st.collections[id].public
    ensures id in VisibleCollections(st, a)
  {
  }

  /** A set is visible exactly when its collection is. */
  lemma SetInheritsCollection(st: Store, a: Actor, id: Id)
    requires Linked(st) && id in st.sets
    ensures id in VisibleSets(st, a) <==> st.sets[id].collection in VisibleCollections(st, a)
  {
  }

  /** A card is visible exactly when its set is, and so exactly when its set's collection is. */
  lemma CardInheritsSet(st: Store, a: Actor, id: Id)
    requires Linked(st) && id in st.cards
    ensures id in VisibleCards(st, a) <==> st.cards[id].flashcardSet in VisibleSets(st, a)
    ensures id in VisibleCards(st, a) <==> st.sets[st.cards[id].flashcardSet].collection in VisibleCollections(st, a)
  {
    SetInheritsCollection(st, a, st.cards[id].flashcardSet);
  }

  /**
   * A comment is visible to a superuser, to its author, and otherwise
   * exactly when its set's collection is public. Owning the (private)
   * collection is not enough to see someone else's comment in it.
   */
  lemma CommentVisibleIff(st: Store, a: Actor, id: Id)
    requires Linked(st) && id in st.comments
    ensures var c := st.sets[st.comments[id].flashcardSet].collection;
            id in VisibleComments(st, a) <==>
              IsSuperuser(a) || Is(a, st.comments[id].author) || st.collections[c].public
  {
  }

  /** An author keeps seeing their own comment, whatever the privacy of the set it sits on. */
  lemma AuthorSeesOwnComment(st: Store, a: Actor, id: Id)
    requires id in st.comments && Is(a, st.comments[id].author)
    ensures id in VisibleComments(st, a)
  {
  }
}
