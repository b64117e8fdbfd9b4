/** A concrete index that loses a list entry. */
module IndexLosses {
  import opened Bytes
  import opened Fixed
  import opened Tables
  import opened Resharding
  import opened IndexSpec
  import opened Forests
  import opened IndexPlaces
  import opened IndexBases
  import opened SecondaryIndexes
  import opened IndexMaps
  import opened IndexedTrees

  function Whole(v: Value): Option<Key> {
    Some(v)
  }

  /** An index by whole value in one shard, with at most two records under each of its keys. */
  ghost predicate Plain(x: SecondaryIndex)
    reads x, x.Repr
  {
    && x.Shown() && x.Valid() && !x.unique && x.extractor == Whole && |x.grove| == 1
    && forall ik | ik in x.lists :: |x.lists[ik]| <= 2
  }

  lemma PlainRoom(x: SecondaryIndex)
    requires Plain(x)
    ensures RoomIn(x.State()) && x.tree.view.Keys == x.lists.Keys && x.tree.Sound() && x.tree.Intact() && x.tree.grove == x.grove
  {
  }

  lemma PlainHeld(x: SecondaryIndex, ik: Key)
    requires Plain(x)
    ensures Held(x.Model(), Some(ik)) <==> x.tree.Inner(ik)
  {
    hide HeldForest;
  }

  /** A record with an index key that is new. */
  method AddNew(x: SecondaryIndex, b: Byte)
    requires Plain(x) && [b] !in x.lists
    modifies x.Repr
    ensures Plain(x) && fresh(x.Repr - old(x.Repr))
    ensures x.lists == old(x.lists)[[b] := [[b]]] && x.entries == old(x.entries) + 1
  {
    hide SecondaryIndex.Shown, SecondaryIndex.Valid, RoomIn, Held;
    PlainRoom(x);
    var ok := x.Index([b], [b]);
  }

  /** Five records with different index keys, then a sixth with the middle one: `Index` reports success
      and counts it, and `FindAll` does not list it. */
  method SixthIsLost() returns (x: SecondaryIndex, ok: bool, found: Option<seq<Key>>)
    ensures ok && found == Some([[3]]) && x.entries == 6 && !x.Valid()
  {
    hide Plain;
    x := Five();
    ok, found := Sixth(x);
  }

  method Empty() returns (x: SecondaryIndex)
    ensures Plain(x) && fresh(x.Repr) && x.lists == map[] && x.entries == 0
  {
    x := new SecondaryIndex(Whole, false, 1, 1, ByFirst);
  }

  method Five() returns (x: SecondaryIndex)
    ensures Plain(x) && fresh(x.Repr) && x.entries == 5
    ensures x.lists == map[[1] := [[1]], [2] := [[2]], [4] := [[4]], [5] := [[5]], [3] := [[3]]]
  {
    hide Plain;
    x := Empty();
    AddNew(x, 1);
    AddNew(x, 2);
    AddNew(x, 4);
    AddNew(x, 5);
    AddNew(x, 3);
  }

  /** The longer list does not get into the tree. */
  lemma LongerLost(x: Placed)
    requires Held(x, Some([3])) && !x.state.unique && [3] in x.state.lists && x.state.lists[[3]] == [[3]]
    ensures AddTo(x, [6], Some([3])).0.state == x.state.(entries := x.state.entries + 1)
    ensures AddTo(x, [6], Some([3])).1 && AddLoses(x, [6], Some([3]))
  {
    hide Held, AddGrove;
  }

  method Sixth(x: SecondaryIndex) returns (ok: bool, found: Option<seq<Key>>)
    requires Plain(x) && x.entries == 5
    requires x.lists == map[[1] := [[1]], [2] := [[2]], [4] := [[4]], [5] := [[5]], [3] := [[3]]]
    modifies x.Repr
    ensures ok && found == Some([[3]]) && x.entries == 6 && !x.Valid()
  {
    hide SecondaryIndex.Shown, SecondaryIndex.Valid, RoomIn, Table.Sound, Table.Intact, Table.Inner, Held, AddTo, AddLoses;
    PlainRoom(x);
    assert x.lists.Keys == {[1], [2], [4], [5], [3]};
    MiddleOfFive(x.tree, [3]);
    PlainHeld(x, [3]);
    LongerLost(x.Model());
    ok := x.Index([6], [3]);
    found := x.FindAll([3]);
  }

  /** Two records under the middle one of five index keys, and one of them is removed: `FindAll` goes
      on listing it, and the counter does not count it. */
  method RemovedIsListed() returns (x: SecondaryIndex, found: Option<seq<Key>>)
    ensures found == Some([[3], [6]]) && x.entries == 5 && !x.Valid()
  {
    hide Plain;
    x := Empty();
    AddNew(x, 3);
    Second(x);
    AddNew(x, 1);
    AddNew(x, 2);
    AddNew(x, 4);
    AddNew(x, 5);
    found := RemoveSecond(x);
  }

  method Second(x: SecondaryIndex)
    requires Plain(x) && x.lists == map[[3] := [[3]]]
    modifies x.Repr
    ensures Plain(x) && fresh(x.Repr - old(x.Repr)) && x.lists == map[[3] := [[3], [6]]] && x.entries == old(x.entries) + 1
  {
    hide SecondaryIndex.Shown, SecondaryIndex.Valid, RoomIn, Table.Sound, Table.Intact, Table.Inner, Held;
    PlainRoom(x);
    NotInner(x);
    ghost var one: seq<Key> := [[3]];
    assert one + [[6]] == [[3], [6]];
    var ok := x.Index([6], [3]);
    assert x.lists.Keys == {[3]};
  }

  lemma NotInner(x: SecondaryIndex)
    requires Plain(x) && x.lists.Keys == {[3]}
    ensures !Held(x.Model(), Some([3]))
  {
    hide SecondaryIndex.Shown, SecondaryIndex.Valid, RoomIn, Table.Sound, Table.Intact, Table.Inner, Held;
    PlainRoom(x);
    assert Sharing(x.tree, [3]) == {[3]};
    FewInner(x.tree, [3]);
    PlainHeld(x, [3]);
  }

  /** The shorter list does not get into the tree. */
  lemma ShorterLost(x: Placed)
    requires Held(x, Some([3])) && !x.state.unique && [3] in x.state.lists && x.state.lists[[3]] == [[3], [6]]
    ensures DropFrom(x, [6], Some([3])).state == x.state.(entries := Less1(x.state.entries)) && DropLoses(x, [6], Some([3]))
  {
    hide Held, DropGrove, Without;
    WithoutMembers([[3], [6]], [6]);
    assert [3] in Without([[3], [6]], [6]);
  }

  method RemoveSecond(x: SecondaryIndex) returns (found: Option<seq<Key>>)
    requires Plain(x) && x.entries == 6
    requires x.lists == map[[3] := [[3], [6]]][[1] := [[1]]][[2] := [[2]]][[4] := [[4]]][[5] := [[5]]]
    modifies x.Repr
    ensures found == Some([[3], [6]]) && x.entries == 5 && !x.Valid()
  {
    hide SecondaryIndex.Shown, SecondaryIndex.Valid, RoomIn, Table.Sound, Table.Intact, Table.Inner, Held, DropFrom, DropLoses;
    PlainRoom(x);
    assert x.lists.Keys == {[1], [2], [4], [5], [3]};
    MiddleOfFive(x.tree, [3]);
    PlainHeld(x, [3]);
    ShorterLost(x.Model());
    x.Remove([6], [3]);
    found := x.FindAll([3]);
  }

  /** The first insertion into a tree without indexes. */
  lemma FirstInsert(b: Base, key: Key, value: Value)
    requires b.records == map[] && b.columns == map[] && b.grove == EmptyForest(1)
    ensures !Taken(b, value) && InsertSafe(b, key, value) && InsertInStep(b, key, value)
    ensures Inserted(b, key, value).records == map[key := value]
  {
    var none: map<Key, Value> := map[];
    assert none[key := value] == map[key := value];
  }

  method AddFirst(db: IndexedBTree, key: Key, value: Value)
    requires db.Valid() && db.InStep() && |key| < TWO32 && db.indexes == map[]
    requires db.Image().records == map[] && db.Image().columns == map[] && db.Image().grove == EmptyForest(1)
    modifies db.primary.Repr
    ensures db.Valid() && db.InStep() && db.primary.view == map[key := value] && db.indexes == map[]
    ensures fresh(db.primary.Repr - old(db.primary.Repr))
  {
    hide IndexedBTree.Valid, IndexedBTree.InStep, IndexedBTree.Shown, IndexedBTree.Image, Taken, InsertSafe, InsertInStep, Inserted, EmptyForest;
    FirstInsert(db.Image(), key, value);
    db.ValidShown();
    db.Owns();
    db.ImageIs(key);
    assert MapRepr(db.indexes) == {};
    var ok := db.Insert(key, value);
    db.ImageIs(key);
  }

  method OneRecord() returns (db: IndexedBTree)
    ensures db.Valid() && db.InStep() && db.numCPU > 0 && db.primary.view == map[[1] := [7]] && db.indexes == map[]
    ensures fresh(db) && fresh(db.primary.Repr)
  {
    hide IndexedBTree.Valid, IndexedBTree.InStep, IndexedBTree.Image, EmptyForest;
    db := new IndexedBTree(1, 1, ByFirst);
    AddFirst(db, [1], [7]);
  }

  /** One record, then `CreateIndex`: the call succeeds, no write is lost, and the record is not in the
      new index. */
  method CreatedOutOfStep() returns (db: IndexedBTree, found: Option<seq<Key>>)
    ensures db.Valid() && db.primary.view == map[[1] := [7]] && !db.InStep() && found == None
  {
    hide IndexedBTree.Valid, IndexedBTree.InStep, IndexedBTree.Shown, IndexedBTree.Image, SecondaryIndex.Shown, SecondaryIndex.Valid, MapShown,
      MapRepr, Table.Formed, Table.Sound, Created;
    db := OneRecord();
    var ok := db.CreateIndex("all", Whole, false);
    assert [1] in db.primary.view && Whole(db.primary.view[[1]]) != None;
    db.ValidShown();
    db.Opened();
    InMap(db.indexes, "all");
    db.Owns();
    found := db.indexes["all"].FindAll([7]);
  }

  /** Two records with one key, of which the unique index `all` knows the second only. */
  ghost predicate Doubled(b: Base) {
    && b.records == map[[1] := [7], [2] := [7]] && b.columns.Keys == {"all"}
    && b.columns["all"].ext == Whole && b.columns["all"].index.state == IndexState(true, map[[7] := [[2]]], 1)
  }

  lemma SecondTaken(b: Base)
    requires b.records == map[[1] := [7]] && b.columns.Keys == {"all"} && !Inner(b, [2])
    requires b.columns["all"].ext == Whole && b.columns["all"].index.state == IndexState(true, map[], 0)
    ensures !Taken(b, [7]) && Roomy(b) && InsertSafe(b, [2], [7]) && Doubled(Inserted(b, [2], [7]))
  {
    hide Inner, Held, AddGrove;
    var none: map<Key, seq<Key>> := map[];
    assert none[[7] := [[2]]] == map[[7] := [[2]]];
    assert map[[1] := [7]][[2] := [7]] == map[[1] := [7], [2] := [7]];
  }

  lemma FirstGone(b: Base)
    requires Doubled(b)
    ensures DeleteSafe(b, [1])
    ensures var c := Deleted(b, [1]);
      c.records == map[[2] := [7]] && c.columns.Keys == {"all"} && c.columns["all"].ext == Whole && c.columns["all"].index.state.lists == map[]
  {
    hide Inner, Held, DropGrove;
    assert map[[1] := [7], [2] := [7]] - {[1]} == map[[2] := [7]];
    var lists: map<Key, seq<Key>> := map[[7] := [[2]]];
    assert lists - {[7]} == map[];
  }

  method InsertSecond(db: IndexedBTree)
    requires db.Valid() && db.primary.view == map[[1] := [7]] && db.Image().columns.Keys == {"all"}
    requires db.Image().columns["all"].ext == Whole && db.Image().columns["all"].index.state == IndexState(true, map[], 0)
    modifies db.primary.Repr, MapRepr(db.indexes)
    ensures db.Valid() && Doubled(db.Image()) && fresh(db.primary.Repr - old(db.primary.Repr))
    ensures fresh(MapRepr(db.indexes) - old(MapRepr(db.indexes)))
  {
    hide IndexedBTree.Valid, IndexedBTree.InStep, IndexedBTree.Shown, IndexedBTree.Image, MapRepr, Taken, Roomy, InsertSafe, Inserted, Doubled,
      Inner, Table.Formed, Table.Sound, Table.Inner;
    db.ValidShown();
    db.Opened();
    db.Owns();
    db.ImageIs([2]);
    if db.primary.Inner([2]) { db.primary.InnerHeld([2]); }
    SecondTaken(db.Image());
    var ok := db.Insert([2], [7]);
  }

  method DeleteFirst(db: IndexedBTree) returns (found: Option<Key>)
    requires db.Valid() && Doubled(db.Image())
    modifies db.primary.Repr, MapRepr(db.indexes)
    ensures db.Valid() && db.primary.view == map[[2] := [7]] && found == None && !Agreed(db.Image())
  {
    hide IndexedBTree.Valid, IndexedBTree.InStep, IndexedBTree.Shown, MapRepr, DeleteSafe, Deleted, Table.Formed, Table.Sound, Agreed;
    db.ValidShown();
    db.Owns();
    FirstGone(db.Image());
    var deleted := db.Delete([1]);
    db.ValidShown();
    db.Owns();
    Orphaned(db.Image());
    found := db.FindByIndex("all", [7]);
  }

  lemma Orphaned(b: Base)
    requires b.records == map[[2] := [7]] && "all" in b.columns && b.columns["all"].ext == Whole && b.columns["all"].index.state.lists == map[]
    ensures !Agreed(b)
  {
    assert !Filed(b.columns["all"].index.state, [7], [2]);
    assert Whole(b.records[[2]]) == Some([7]);
  }

  lemma NoRepr()
    ensures MapRepr(map[]) == {}
  {
  }

  /** A record from before `CreateIndex`, another with the same unique key, and the first one deleted: the
      index key goes with it, and no lookup finds the second, which is stored. */
  method OrphanedRecord() returns (db: IndexedBTree, found: Option<Key>)
    ensures db.Valid() && db.primary.view == map[[2] := [7]] && found == None
  {
    hide IndexedBTree.Valid, IndexedBTree.InStep, IndexedBTree.Shown, MapRepr, Doubled;
    db := OneRecord();
    var ok := db.CreateIndex("all", Whole, true);
    ReprMore(map[], "all", db.indexes["all"]);
    NoRepr();
    InsertSecond(db);
    found := DeleteFirst(db);
  }
}
