/**
 * The relational store the views read and write, reduced to what the access
 * policy looks at: one map per table from primary key to row, each row linked
 * to its parent or owner by key. Deletion follows the foreign keys' cascades.
 * Also the requesting actor, since `request.user` is either the anonymous user
 * or a row of the user table.
 */
module Store {

  type Id = nat

  /** A server clock reading: the calendar date and the time within that date. */
  datatype DateTime = DateTime(date: int, time: nat)

  datatype UserRow = UserRow(username: string, password: string, isStaff: bool, isSuperuser: bool)

  datatype CollectionRow = CollectionRow(title: string, description: string, public: bool, owner: Id)

  datatype SetRow = SetRow(title: string, description: string, collection: Id, createdAt: DateTime, updatedAt: DateTime)

  /** `difficulty` is the text column of flashcard/models.py. */
  datatype CardRow = CardRow(question: string, answer: string, difficulty: string, flashcardSet: Id)

  datatype CommentRow = CommentRow(text: string, flashcardSet: Id, author: Id)

  datatype Store = Store(
    users: map<Id, UserRow>,
    collections: map<Id, CollectionRow>,
    sets: map<Id, SetRow>,
    cards: map<Id, CardRow>,
    comments: map<Id, CommentRow>)

  datatype Table = Users | Collections | Sets | Cards | Comments

  function Keys(st: Store, t: Table): set<Id> {
    match t
    case Users => st.users.Keys
    case Collections => st.collections.Keys
    case Sets => st.sets.Keys
    case Cards => st.cards.Keys
    case Comments => st.comments.Keys
  }

  /** Referential integrity, which the database guarantees for every foreign key. */
  ghost predicate Linked(st: Store) {
    && (forall c :: c in st.collections ==> st.collections[c].owner in st.users)
    && (forall s :: s in st.sets ==> st.sets[s].collection in st.collections)
    && (forall k :: k in st.cards ==> st.cards[k].flashcardSet in st.sets)
    && (forall m :: m in st.comments ==> st.comments[m].flashcardSet in st.sets && st.comments[m].author in st.users)
  }

  /** `request.user`: the anonymous user, or a user row's key with its two flags. */
  datatype Actor = Anonymous | User(id: Id, isSuperuser: bool, isStaff: bool)

  /** `request.user == <user>`: the anonymous user equals no user row. */
  predicate Is(a: Actor, user: Id) {
    a.User? && a.id == user
  }

  predicate IsSuperuser(a: Actor) {
    a.User? && a.isSuperuser
  }

  /** The actor is a user row of the store, with the row's flags. */
  ghost predicate Knows(st: Store, a: Actor) {
    a.User? ==> a.id in st.users && st.users[a.id].isSuperuser == a.isSuperuser && st.users[a.id].isStaff == a.isStaff
  }

  /**
   * The key the database assigns to a new row (an auto-increment primary
   * key): larger than every key in use.
   */
  method FreshId(keys: set<Id>) returns (k: Id)
    ensures k !in keys
    ensures forall j :: j in keys ==> j < k
  {
    k := 0;
    var rest := keys;
    while rest != {}
      invariant rest <= keys
      invariant forall j :: j in keys - rest ==> j < k
      decreases |rest|
    {
      var j :| j in rest;
      if k <= j {
        k := j + 1;
      }
      assert keys - (rest - {j}) == (keys - rest) + {j};
      rest := rest - {j};
    }
    assert keys - rest == keys;
  }

  /** The sets whose `created_at` falls on the given date. */
  function CreatedOn(st: Store, date: int): set<Id> {
    set s | s in st.sets && st.sets[s].createdAt.date == date
  }

  /** Adding a set created on `date` under a fresh key adds exactly that key to the date's sets. */
  lemma CreatedOnInsert(st: Store, id: Id, row: SetRow, date: int)
    requires id !in st.sets
    ensures CreatedOn(st.(sets := st.sets[id := row]), date)
            == if row.createdAt.date == date then CreatedOn(st, date) + {id} else CreatedOn(st, date)
    ensures |CreatedOn(st.(sets := st.sets[id := row]), date)|
            == if row.createdAt.date == date then |CreatedOn(st, date)| + 1 else |CreatedOn(st, date)|
  {
    var st' := st.(sets := st.sets[id := row]);
    if row.createdAt.date == date {
      assert CreatedOn(st', date) == CreatedOn(st, date) + {id};
    } else {
      assert CreatedOn(st', date) == CreatedOn(st, date);
    }
  }

  /** A store whose sets are a subset of another's, with the same creation times, has no more sets on any date. */
  lemma CreatedOnShrinks(st: Store, st': Store, date: int)
    requires st'.sets.Keys <= st.sets.Keys
    requires forall s :: s in st'.sets ==> st'.sets[s].createdAt == st.sets[s].createdAt
    ensures CreatedOn(st', date) <= CreatedOn(st, date)
    ensures |CreatedOn(st', date)| <= |CreatedOn(st, date)|
  {
    SubsetCardinality(CreatedOn(st', date), CreatedOn(st, date));
  }

  lemma {:induction false} SubsetCardinality(a: set<Id>, b: set<Id>)
    requires a <= b
    ensures |a| <= |b|
    decreases |b|
  {
    if a != {} {
      var x :| x in a;
      SubsetCardinality(a - {x}, b - {x});
    }
  }

  // Saving one row whose references exist keeps the store linked.

  lemma LinkedWithUser(st: Store, id: Id, row: UserRow)
    requires Linked(st)
    ensures Linked(st.(users := st.users[id := row]))
  {
  }

  lemma LinkedWithCollection(st: Store, id: Id, row: CollectionRow)
    requires Linked(st) && row.owner in st.users
    ensures Linked(st.(collections := st.collections[id := row]))
  {
  }

  lemma LinkedWithSet(st: Store, id: Id, row: SetRow)
    requires Linked(st) && row.collection in st.collections
    ensures Linked(st.(sets := st.sets[id := row]))
  {
  }

  lemma LinkedWithCard(st: Store, id: Id, row: CardRow)
    requires Linked(st) && row.flashcardSet in st.sets
    ensures Linked(st.(cards := st.cards[id := row]))
  {
  }

  lemma LinkedWithComment(st: Store, id: Id, row: CommentRow)
    requires Linked(st) && row.flashcardSet in st.sets && row.author in st.users
    ensures Linked(st.(comments := st.comments[id := row]))
  {
  }

  /** Deleting a card or a comment, which nothing refers to, keeps the store linked. */
  lemma LinkedWithoutLeaf(st: Store, card: Id, comment: Id)
    requires Linked(st)
    ensures Linked(st.(cards := st.cards - {card}))
    ensures Linked(st.(comments := st.comments - {comment}))
  {
  }

  /** Deleting a set (`on_delete=CASCADE`): its cards and comments go with it. */
  function RemoveSet(st: Store, id: Id): (r: Store)
    ensures r.users == st.users && r.collections == st.collections
    ensures r.sets.Keys == st.sets.Keys - {id}
    ensures forall s :: s in r.sets ==> r.sets[s] == st.sets[s]
    ensures forall k :: k in r.cards <==> k in st.cards && st.cards[k].flashcardSet != id
    ensures forall k :: k in r.cards ==> r.cards[k] == st.cards[k]
    ensures forall m :: m in r.comments <==> m in st.comments && st.comments[m].flashcardSet != id
    ensures forall m :: m in r.comments ==> r.comments[m] == st.comments[m]
    ensures Linked(st) ==> Linked(r)
  {
    PruneLinked(st, {}, {id});
    Prune(st, {}, {id})
  }

  /** The sets of a collection. */
  function SetsOf(st: Store, collection: Id): (r: set<Id>)
    ensures forall s :: s in r <==> s in st.sets && st.sets[s].collection == collection
  {
    set s | s in st.sets && st.sets[s].collection == collection
  }

  /**
   * Deleting the sets in `gone` together with everything hanging off them,
   * and the collections in `goneCollections`.
   */
  function Prune(st: Store, goneCollections: set<Id>, gone: set<Id>): (r: Store)
    ensures r.users == st.users
    ensures forall c :: c in r.collections <==> c in st.collections && c !in goneCollections
    ensures forall s :: s in r.sets <==> s in st.sets && s !in gone
    ensures forall k :: k in r.cards <==> k in st.cards && st.cards[k].flashcardSet !in gone
    ensures forall m :: m in r.comments <==> m in st.comments && st.comments[m].flashcardSet !in gone
    ensures forall c :: c in r.collections ==> r.collections[c] == st.collections[c]
    ensures forall s :: s in r.sets ==> r.sets[s] == st.sets[s]
    ensures forall k :: k in r.cards ==> r.cards[k] == st.cards[k]
    ensures forall m :: m in r.comments ==> r.comments[m] == st.comments[m]
  {
    st.(collections := st.collections - goneCollections,
        sets := st.sets - gone,
        cards := map k | k in st.cards && st.cards[k].flashcardSet !in gone :: st.cards[k],
        comments := map m | m in st.comments && st.comments[m].flashcardSet !in gone :: st.comments[m])
  }

  /** Pruning keeps the store linked when every set of a pruned collection is pruned too. */
  lemma PruneLinked(st: Store, goneCollections: set<Id>, gone: set<Id>)
    requires forall s :: s in st.sets && st.sets[s].collection in goneCollections ==> s in gone
    ensures Linked(st) ==> Linked(Prune(st, goneCollections, gone))
  {
  }

  /**
   * Deleting a collection: its sets go, and with them their cards and
   * comments, so no remaining row refers to the collection or its sets.
   */
  function RemoveCollection(st: Store, id: Id): (r: Store)
    ensures r.users == st.users
    ensures r.collections.Keys == st.collections.Keys - {id}
    ensures forall s :: s in r.sets <==> s in st.sets && st.sets[s].collection != id
    ensures r.sets.Keys <= st.sets.Keys && r.cards.Keys <= st.cards.Keys && r.comments.Keys <= st.comments.Keys
    ensures Linked(st) ==> forall k :: k in r.cards <==> k in st.cards && st.cards[k].flashcardSet in r.sets
    ensures Linked(st) ==> forall m :: m in r.comments <==> m in st.comments && st.comments[m].flashcardSet in r.sets
    ensures forall c :: c in r.collections ==> r.collections[c] == st.collections[c]
    ensures forall s :: s in r.sets ==> r.sets[s] == st.sets[s]
    ensures forall k :: k in r.cards ==> r.cards[k] == st.cards[k]
    ensures forall m :: m in r.comments ==> r.comments[m] == st.comments[m]
    ensures Linked(st) ==> Linked(r)
  {
    PruneLinked(st, {id}, SetsOf(st, id));
    Prune(st, {id}, SetsOf(st, id))
  }

  /**
   * Deleting a user: the user's collections go (with their sets, cards and
   * comments), and so do the comments the user wrote.
   */
  function RemoveUser(st: Store, id: Id): (r: Store)
    ensures r.users.Keys == st.users.Keys - {id}
    ensures forall c :: c in r.collections <==> c in st.collections && st.collections[c].owner != id
    ensures r.collections.Keys <= st.collections.Keys && r.sets.Keys <= st.sets.Keys
    ensures r.cards.Keys <= st.cards.Keys && r.comments.Keys <= st.comments.Keys
    ensures Linked(st) ==> forall s :: s in r.sets <==> s in st.sets && st.sets[s].collection in r.collections
    ensures Linked(st) ==> forall k :: k in r.cards <==> k in st.cards && st.cards[k].flashcardSet in r.sets
    ensures Linked(st) ==> forall m :: m in r.comments <==>
              m in st.comments && st.comments[m].author != id && st.comments[m].flashcardSet in r.sets
    ensures forall u :: u in r.users ==> r.users[u] == st.users[u]
    ensures forall c :: c in r.collections ==> r.collections[c] == st.collections[c]
    ensures forall s :: s in r.sets ==> r.sets[s] == st.sets[s]
    ensures forall k :: k in r.cards ==> r.cards[k] == st.cards[k]
    ensures forall m :: m in r.comments ==> r.comments[m] == st.comments[m]
    ensures Linked(st) ==> Linked(r)
  {
    var owned := set c | c in st.collections && st.collections[c].owner == id;
    var gone := set s | s in st.sets && st.sets[s].collection in owned;
    PruneLinked(st, owned, gone);
    DropUser(Prune(st, owned, gone), id)
  }

  /** Deleting a user row and the comments they wrote, and nothing else. */
  function DropUser(st: Store, id: Id): (r: Store)
    ensures r.users.Keys == st.users.Keys - {id}
    ensures forall u :: u in r.users ==> r.users[u] == st.users[u]
    ensures r.collections == st.collections && r.sets == st.sets && r.cards == st.cards
    ensures forall m :: m in r.comments <==> m in st.comments && st.comments[m].author != id
    ensures forall m :: m in r.comments ==> r.comments[m] == st.comments[m]
    ensures Linked(st) && (forall c :: c in st.collections ==> st.collections[c].owner != id) ==> Linked(r)
  {
    st.(users := st.users - {id},
        comments := map m | m in st.comments && st.comments[m].author != id :: st.comments[m])
  }
}
