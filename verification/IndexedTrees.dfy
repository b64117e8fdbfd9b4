/** The indexed tree: records by primary key, with secondary indexes kept in step, all of them
    sharded trees. */
module IndexedTrees {
  import opened Bytes
  import opened Entries
  import opened Fixed
  import opened Routing
  import opened Forests
  import opened Tables
  import opened IndexSpec
  import opened IndexRanges
  import opened IndexPlaces
  import opened IndexBases
  import opened SecondaryIndexes
  import opened IndexLists
  import opened IndexMaps
  import opened IndexRecords
  import opened IndexColumns
  import opened IndexRebuild

  datatype UpdateResult = NotFound | Violation | Updated

  class IndexedBTree {
    const primary: Table
    const numCPU: nat
    var indexes: map<string, SecondaryIndex>

    /** Primary tree and indexes share nothing, and lookups show what `view` and lists say. */
    ghost predicate Shown()
      reads this, primary, primary.Repr, indexes.Values, MapRepr(indexes)
    {
      && primary.Sound() && MapShown(indexes) && primary.Repr !! MapRepr(indexes)
      && this !in primary.Repr && this !in MapRepr(indexes)
    }

    /** Besides, no overwrite has been lost. */
    ghost predicate Valid()
      reads this, primary, primary.Repr, indexes.Values, MapRepr(indexes)
    {
      Shown() && primary.Intact() && MapValid(indexes)
    }

    /** Every index agrees with the records that `Find` shows. */
    ghost predicate InStep()
      reads this, primary, indexes.Values
    {
      MapAgrees(indexes, primary.view)
    }

    /** The tree as a value. */
    ghost function Image(): Base
      reads this, primary, indexes.Values
    {
      Base(primary.view, primary.tree.hash, primary.grove, ColumnsOf(indexes))
    }

    lemma InStepIs()
      ensures InStep() <==> Agreed(Image())
    {
      hide Agrees;
      forall n | n in indexes ensures ColumnsOf(indexes)[n] == Column(indexes[n].extractor, indexes[n].Model()) { }
    }

    /** The index key of a record in index `n`. */
    ghost function KeyIn(n: string, value: Value): Option<Key>
      reads this`indexes
      requires n in indexes
    {
      indexes[n].extractor(value)
    }

    constructor (numShards: int, numCPU: nat, hash: Hash)
      requires numCPU > 0
      ensures Valid() && InStep() && fresh(primary.Repr) && this.numCPU == numCPU && indexes == map[]
      ensures Image() == Base(map[], hash, EmptyForest(if numShards <= 0 then numCPU else numShards), map[])
    {
      hide Table.Formed, Table.Sound, Table.Intact;
      primary := new Table(numShards, numCPU, hash);
      this.numCPU, indexes := numCPU, map[];
    }

    /** The tree with its indexes in a list. */
    lemma InList(s: seq<SecondaryIndex>, names: seq<string>)
      requires Lists(indexes, s, names)
      ensures ReprOf(s) == MapRepr(indexes)
      ensures Shown() <==> Together(primary, s) && this !in primary.Repr && this !in ReprOf(s)
      ensures Valid() <==> Whole(primary, s) && this !in primary.Repr && this !in ReprOf(s)
      ensures InStep() <==> AllAgree(s, primary.view)
      ensures Named(names, s, Models(s)) && Image().columns == ByName(names, s, Models(s))
    {
      hide Lists, AllShown, MapShown, AllValid, MapValid, AllAgree, MapAgrees, ReprOf, MapRepr, Table.Sound, Table.Intact,
        Named, ByName, ColumnsOf, Models;
      ListsRepr(indexes, s, names);
      ListsShown(indexes, s, names);
      ListsAgree(indexes, s, names, primary.view);
      ListsNamed(indexes, s, names);
    }

    lemma Owns()
      requires Shown()
      ensures primary in primary.Repr && forall o | o in primary.Repr :: allocated(o)
      ensures forall o | o in MapRepr(indexes) :: allocated(o)
      ensures forall n | n in indexes :: indexes[n] in MapRepr(indexes)
      ensures this !in primary.Repr && this !in MapRepr(indexes)
    {
      hide MapShown, MapRepr;
      MapOwned(indexes);
    }

    lemma Opened()
      requires Shown()
      ensures primary.Sound() && primary.Formed() && MapShown(indexes)
    {
      primary.SoundFormed();
    }

    lemma ValidShown()
      requires Valid()
      ensures Shown()
    {
    }

    /** What the image says of the primary tree. */
    lemma ImageIs(key: Key)
      ensures Image().records == primary.view && Image().hash == primary.tree.hash && Image().grove == primary.grove
      ensures Inner(Image(), key) <==> primary.Inner(key)
    {
    }

    // ------------------------------------------------------------- inserting

    method InsertInto(s: seq<SecondaryIndex>, ghost names: seq<string>, key: Key, value: Value) returns (ok: bool)
      requires Valid() && Roomy(Image()) && |key| < TWO32 && Lists(indexes, s, names)
      modifies primary.Repr, MapRepr(indexes)
      ensures Shown() && fresh(primary.Repr - old(primary.Repr)) && fresh(MapRepr(indexes) - old(MapRepr(indexes)))
      ensures ok <==> !Taken(old(Image()), value)
      ensures !ok ==> Valid() && (InStep() <==> old(InStep())) && Image() == old(Image())
      ensures ok ==> Image() == Inserted(old(Image()), key, value)
      ensures ok && old(InStep()) ==> (InStep() <==> InsertInStep(old(Image()), key, value))
      ensures ok ==> (Valid() <==> InsertSafe(old(Image()), key, value))
    {
      hide Shown, Valid, InStep, Together, Whole, Clash, AllAddKeep, NoneLost, Lists, MapRepr, ReprOf, AllShown, Models, AllAgree,
        Taken, InsertInStep, InsertSafe, Roomy, AllRoom, Table.Formed, Table.Sound, Table.Inner, Named, ByName, ColumnsOf, AddColumns, AddAll, PutForest, Inner;
      ghost var b, ms := Image(), Models(s);
      ValidShown();
      Opened();
      InList(s, names);
      TogetherParts(primary, s);
      ImageIs(key);
      RoomListed(b, names, s, ms);
      TakenListed(b, names, s, ms, value);
      InsertListed(b, names, s, ms, key, value);
      AddNamed(names, s, ms, key, value);
      ok := InsertRecord(primary, s, key, value);
      InList(s, names);
      ImageIs(key);
    }

    /** `Insert`.  Refused exactly when a unique index has the record's key already; then nothing
        changes.  Otherwise no index refuses.  The call does to the tree exactly what it does to the
        value, and keeps the indexes in step, and loses no write, exactly when the value says so
        beforehand. */
    method Insert(key: Key, value: Value) returns (ok: bool)
      requires Valid() && Roomy(Image()) && |key| < TWO32
      modifies primary.Repr, MapRepr(indexes)
      ensures Shown() && fresh(primary.Repr - old(primary.Repr)) && fresh(MapRepr(indexes) - old(MapRepr(indexes)))
      ensures ok <==> !Taken(old(Image()), value)
      ensures !ok ==> Valid() && (InStep() <==> old(InStep())) && Image() == old(Image())
      ensures ok ==> Image() == Inserted(old(Image()), key, value)
      ensures ok && old(InStep()) ==> (InStep() <==> InsertInStep(old(Image()), key, value))
      ensures ok ==> (Valid() <==> InsertSafe(old(Image()), key, value))
    {
      hide Shown, Valid, InStep, Lists, MapRepr, Taken, InsertInStep, InsertSafe, Roomy, Inserted, Table.Formed, Table.Sound, Image;
      ValidShown();
      Opened();
      Owns();
      var s, names := Snapshot(indexes);
      ok := InsertInto(s, names, key, value);
      Owns();
    }

    // -------------------------------------------------------------- updating

    method UpdateInto(s: seq<SecondaryIndex>, ghost names: seq<string>, key: Key, was: Value, value: Value) returns (ok: bool)
      requires Valid() && Roomy(Image()) && |key| < TWO32 && Lists(indexes, s, names)
      requires key in primary.view && primary.view[key] == was
      modifies primary.Repr, MapRepr(indexes)
      ensures Shown() && fresh(primary.Repr - old(primary.Repr)) && fresh(MapRepr(indexes) - old(MapRepr(indexes)))
      ensures !ok <==> Contested(old(Image()), was, value)
      ensures !ok ==> Valid() && (InStep() <==> old(InStep())) && Image() == old(Image())
      ensures ok ==> Image() == Changed(old(Image()), key, value)
      ensures ok && old(InStep()) ==> (InStep() <==> UpdateInStep(old(Image()), key, value))
      ensures ok ==> (Valid() <==> UpdateSafe(old(Image()), key, value))
    {
      hide Shown, Valid, InStep, Together, Whole, Rival, AllChangeKeep, NoChangeLost, Lists, MapRepr, ReprOf, AllShown, Models, AllAgree,
        Contested, UpdateInStep, UpdateSafe, Roomy, AllRoom, Table.Formed, Table.Sound, Table.Inner, Named, ByName, ColumnsOf, ChangeColumns, ChangeAll,
        PutForest, Inner;
      ghost var b, ms := Image(), Models(s);
      ValidShown();
      Opened();
      InList(s, names);
      TogetherParts(primary, s);
      ImageIs(key);
      RoomListed(b, names, s, ms);
      ContestedListed(b, names, s, ms, was, value);
      UpdateListed(b, names, s, ms, key, value);
      ChangeNamed(names, s, ms, key, was, value);
      ok := UpdateRecord(primary, s, key, was, value);
      InList(s, names);
      ImageIs(key);
    }

    /** `Update`.  Refused exactly when a unique index whose key changes has the new key already, and
        then nothing changes.  Otherwise no index refuses, and the call does to the tree exactly what
        it does to the value. */
    method Update(key: Key, value: Value) returns (r: UpdateResult)
      requires Valid() && Roomy(Image()) && |key| < TWO32
      modifies primary.Repr, MapRepr(indexes)
      ensures Shown() && fresh(primary.Repr - old(primary.Repr)) && fresh(MapRepr(indexes) - old(MapRepr(indexes)))
      ensures r.NotFound? <==> key !in old(primary.view)
      ensures r.Violation? <==> key in old(primary.view) && Contested(old(Image()), old(primary.view)[key], value)
      ensures !r.Updated? ==> Valid() && (InStep() <==> old(InStep())) && Image() == old(Image())
      ensures r.Updated? ==> Image() == Changed(old(Image()), key, value)
      ensures r.Updated? && old(InStep()) ==> (InStep() <==> UpdateInStep(old(Image()), key, value))
      ensures r.Updated? ==> (Valid() <==> UpdateSafe(old(Image()), key, value))
    {
      hide Shown, Valid, InStep, Lists, MapRepr, Contested, UpdateInStep, UpdateSafe, Roomy, Changed, Table.Formed, Table.Sound, Image;
      ValidShown();
      Opened();
      Owns();
      ImageIs(key);
      var found := primary.Find(key);
      if found.None? { return NotFound; }
      var s, names := Snapshot(indexes);
      var ok := UpdateInto(s, names, key, found.value, value);
      Owns();
      r := if ok then Updated else Violation;
    }

    // -------------------------------------------------------------- the other calls

    method DeleteFrom(s: seq<SecondaryIndex>, ghost names: seq<string>, key: Key, value: Value) returns (deleted: bool)
      requires Valid() && Lists(indexes, s, names) && key in primary.view && primary.view[key] == value
      modifies primary.Repr, MapRepr(indexes)
      ensures Shown() && primary.Repr == old(primary.Repr) && fresh(MapRepr(indexes) - old(MapRepr(indexes)))
      ensures deleted && Image() == Deleted(old(Image()), key)
      ensures (old(InStep()) ==> (InStep() <==> DeleteSafe(old(Image()), key))) && (Valid() <==> DeleteSafe(old(Image()), key))
    {
      hide Shown, Valid, InStep, Together, Whole, NoDropLost, MapRepr, ReprOf, AllShown, Models, AllAgree, DeleteSafe, Lists,
        Table.Formed, Table.Sound, Named, ByName, ColumnsOf, DropColumns, DropAll, CutForest;
      ghost var b, ms := Image(), Models(s);
      ValidShown();
      Opened();
      InList(s, names);
      TogetherParts(primary, s);
      ImageIs(key);
      IndexColumns.DeleteListed(b, names, s, ms, key);
      DropNamed(names, s, ms, key, value);
      deleted := DeleteRecord(primary, s, key, value);
      InList(s, names);
      ImageIs(key);
    }

    /** `Delete` removes the record; the indexes stay in step, and no write is lost, exactly when no
        list that must be rewritten has its key in an inner node. */
    method Delete(key: Key) returns (deleted: bool)
      requires Valid()
      modifies primary.Repr, MapRepr(indexes)
      ensures Shown() && primary.Repr == old(primary.Repr) && fresh(MapRepr(indexes) - old(MapRepr(indexes)))
      ensures deleted <==> key in old(primary.view)
      ensures !deleted ==> Valid() && (InStep() <==> old(InStep())) && Image() == old(Image())
      ensures deleted ==> Image() == Deleted(old(Image()), key)
      ensures deleted && old(InStep()) ==> (InStep() <==> DeleteSafe(old(Image()), key))
      ensures deleted ==> (Valid() <==> DeleteSafe(old(Image()), key))
    {
      hide Shown, Valid, InStep, Lists, MapRepr, DeleteSafe, Deleted, Table.Formed, Table.Sound, Image;
      ValidShown();
      Opened();
      Owns();
      ImageIs(key);
      var found := primary.Find(key);
      if found.None? { return false; }
      var s, names := Snapshot(indexes);
      deleted := DeleteFrom(s, names, key, found.value);
      Owns();
    }

    /** `Clear`: whatever was lost or out of step before, the tree is whole and in step. */
    method Clear()
      requires Shown()
      modifies primary.Repr, MapRepr(indexes)
      ensures Valid() && InStep() && Image() == Cleared(old(Image()))
      ensures fresh(primary.Repr - old(primary.Repr)) && fresh(MapRepr(indexes) - old(MapRepr(indexes)))
    {
      hide Shown, Valid, InStep, Lists, MapRepr, ReprOf, Together, Whole, AllAgree, Table.Sound, Named, ByName, ColumnsOf, Models,
        EmptyAll, EmptyColumns, EmptyForest;
      Owns();
      var s, names := Snapshot(indexes);
      InList(s, names);
      ghost var ms := Models(s);
      EmptyNamed(names, s, ms);
      ClearRecords(primary, s);
      InList(s, names);
      ValidShown();
      Owns();
    }

    /** `CreateIndex` starts an empty index; the indexes are in step afterwards exactly when no
        record has a key in it. */
    method CreateIndex(name: string, extractor: Extractor, unique: bool) returns (ok: bool)
      requires Valid() && numCPU > 0
      modifies this`indexes
      ensures Valid()
      ensures ok <==> name !in old(indexes)
      ensures !ok ==> indexes == old(indexes)
      ensures ok ==> name in indexes && fresh(indexes[name].Repr) && indexes == old(indexes)[name := indexes[name]]
      ensures ok ==> indexes[name].extractor == extractor && indexes[name].unique == unique
      ensures ok ==> indexes[name].Model() == NewPlaced(unique, primary.tree.hash, 4)
      ensures ok ==> Image() == Created(old(Image()), name, extractor, unique)
      ensures InStep() <==> old(InStep()) && (ok ==> forall pk | pk in primary.view :: extractor(primary.view[pk]) == None)
    {
      hide MapShown, MapValid, MapAgrees, MapRepr, Agrees, SecondaryIndex.Shown, SecondaryIndex.Valid, SecondaryIndex.Model, NewPlaced,
        ColumnsOf, Table.Sound, Table.Intact;
      if name in indexes { return false; }
      ValidShown();
      Owns();
      var x := new SecondaryIndex(extractor, unique, 4, numCPU, primary.tree.hash);
      ghost var records := primary.view;
      OneMore(indexes, name, x, records);
      NewAgrees(x, primary.tree.hash, 4, records);
      ColumnMore(indexes, name, x);
      indexes := indexes[name := x];
      return true;
    }

    lemma Parts()
      ensures Shown() <==> primary.Sound() && MapShown(indexes) && primary.Repr !! MapRepr(indexes) && this !in primary.Repr && this !in MapRepr(indexes)
      ensures Valid() <==> Shown() && primary.Intact() && MapValid(indexes)
      ensures InStep() <==> MapAgrees(indexes, primary.view)
    {
    }

    /** The rebuild beside the other indexes. */
    method Fill(x: SecondaryIndex, ghost others: map<string, SecondaryIndex>) returns (ok: bool)
      requires primary.Sound() && primary.Intact() && MapShown(others)
      requires x.Shown() && x.Valid() && x.State() == IndexState(x.unique, map[], 0)
      requires x.Repr !! primary.Repr && x.Repr !! MapRepr(others) && this !in x.Repr
      requires |primary.view| + 1 < TWO32 && forall pk | pk in primary.view :: |pk| < TWO32
      modifies x.Repr
      ensures primary.Sound() && primary.Intact() && primary.Repr == old(primary.Repr)
      ensures primary.view == old(primary.view) && primary.grove == old(primary.grove)
      ensures MapShown(others) && MapRepr(others) == old(MapRepr(others)) && ColumnsOf(others) == old(ColumnsOf(others))
      ensures MapValid(others) <==> old(MapValid(others))
      ensures MapAgrees(others, primary.view) <==> old(MapAgrees(others, primary.view))
      ensures x.Shown() && fresh(x.Repr - old(x.Repr))
      ensures x.Repr !! primary.Repr && x.Repr !! MapRepr(others) && this !in x.Repr
      ensures ok <==> (x.unique ==> !HasTwins(x.extractor, primary.view))
      ensures ok ==> x.Model() == IndexAll(old(x.Model()), x.extractor, PairsIn(primary.grove))
      ensures ok ==> (x.Valid() <==> !IndexLoses(old(x.Model()), x.extractor, PairsIn(primary.grove)))
      ensures ok ==> (Agrees(x.State(), x.extractor, primary.view) <==> !IndexLoses(old(x.Model()), x.extractor, PairsIn(primary.grove)))
      ensures ok && IndexLoses(old(x.Model()), x.extractor, PairsIn(primary.grove)) ==> !x.unique && HasTwins(x.extractor, primary.view)
    {
      hide MapShown, MapValid, MapAgrees, MapRepr, Agrees, SecondaryIndex.Shown, SecondaryIndex.Valid, Table.Formed, Table.Intact, Enumerates, HasTwins,
        ColumnsOf, IndexAll, IndexLoses, PairsIn;
      MapOwned(others);
      primary.IntactSound();
      var pairs := primary.Pairs();
      ok := Rebuild(x, pairs, primary.view);
      MapOwned(others);
    }

    /** The refused index goes again. */
    method Discard(name: string, ghost before: map<string, SecondaryIndex>)
      requires indexes - {name} == before && MapShown(before) && MapValid(before)
      requires primary.Sound() && primary.Intact() && primary.Repr !! MapRepr(before) && this !in primary.Repr && this !in MapRepr(before)
      modifies this`indexes
      ensures Valid() && (InStep() <==> MapAgrees(before, primary.view)) && indexes == before
    {
      hide MapShown, MapValid, MapAgrees, MapRepr, Table.Sound, Table.Intact;
      indexes := indexes - {name};
    }

    /** `CreateIndexWithRebuild`: a unique index is refused exactly when two records have the same key
        in it, and a refusal leaves the old index set.  The indexes are in step, and no write is lost,
        exactly when no addition, in the order of `ForEach`, meets its list in an inner node; where
        one does, the index is not unique and two records have the same key in it. */
    method CreateIndexWithRebuild(name: string, extractor: Extractor, unique: bool) returns (ok: bool)
      requires Valid() && numCPU > 0
      requires |primary.view| + 1 < TWO32 && forall pk | pk in primary.view :: |pk| < TWO32
      modifies this`indexes
      ensures Shown()
      ensures ok <==> name !in old(indexes) && (unique ==> !HasTwins(extractor, primary.view))
      ensures !ok ==> Valid() && (InStep() <==> old(InStep())) && indexes == old(indexes) && Image() == old(Image())
      ensures ok ==> name in indexes && fresh(indexes[name].Repr) && indexes == old(indexes)[name := indexes[name]]
      ensures ok ==> indexes[name].extractor == extractor && indexes[name].unique == unique
      ensures ok ==> Image() == Rebuilt(old(Image()), name, extractor, unique)
      ensures ok ==> (InStep() <==> old(InStep()) && RebuildSafe(old(Image()), extractor, unique))
      ensures ok ==> (Valid() <==> RebuildSafe(old(Image()), extractor, unique))
      ensures ok && !RebuildSafe(old(Image()), extractor, unique) ==> !unique && HasTwins(extractor, primary.view)
    {
      hide MapShown, MapValid, MapAgrees, MapRepr, Agrees, SecondaryIndex.Shown, SecondaryIndex.Valid, Table.Sound, Table.Intact,
        HasTwins, Shown, Valid, InStep, ColumnsOf, IndexAll, IndexLoses, PairsIn, Created;
      ghost var before := indexes;
      Parts();
      Owns();
      ok := CreateIndex(name, extractor, unique);
      Parts();
      if !ok { return; }
      var x := indexes[name];
      MapOwned(before);
      InMap(indexes, name);
      ok := Fill(x, before);
      OneMore(before, name, x, primary.view);
      if ok {
        ColumnMore(before, name, x);
        Parts();
      } else {
        PutGone(before, name, x);
        Discard(name, before);
        Parts();
      }
    }

    method DropIndex(name: string) returns (ok: bool)
      requires Valid()
      modifies this`indexes
      ensures Valid() && (old(InStep()) ==> InStep())
      ensures ok <==> name in old(indexes)
      ensures indexes == old(indexes) - {name} && Image() == Dropped(old(Image()), name)
    {
      hide MapShown, MapValid, MapAgrees, MapRepr, Agrees, SecondaryIndex.Shown, SecondaryIndex.Valid, Table.Sound, Table.Intact, SecondaryIndex.Model;
      if name !in indexes {
        assert indexes - {name} == indexes;
        return false;
      }
      OneLess(indexes, name, primary.view);
      ColumnLess(indexes, name);
      indexes := indexes - {name};
      return true;
    }

    // -------------------------------------------------------------- finding

    /** What a unique index lists for `ik`; where the indexes are in step, a record that extracts to it. */
    method FindByIndex(name: string, ik: Key) returns (r: Option<Key>)
      requires Shown()
      ensures r == if name in indexes && indexes[name].unique && ik in indexes[name].lists then Some(indexes[name].lists[ik][0]) else None
      ensures InStep() ==> (r.Some? <==>
        name in indexes && indexes[name].unique && exists pk | pk in primary.view :: KeyIn(name, primary.view[pk]) == Some(ik))
      ensures InStep() && r.Some? ==> r.value in primary.view && KeyIn(name, primary.view[r.value]) == Some(ik)
    {
      hide WellFormed, Holds, Agrees, Table.Sound;
      if name !in indexes { return None; }
      var x := indexes[name];
      if InStep() {
        Present(x.State(), x.extractor, primary.view, ik);
        if ik in x.lists { ListMeans(x.State(), x.extractor, primary.view, ik); }
      }
      r := x.FindOne(ik);
    }

    /** What an index lists for `ik`; where the indexes are in step, exactly the records that extract to it,
        each once. */
    method FindAllByIndex(name: string, ik: Key) returns (r: Option<seq<Key>>)
      requires Shown()
      ensures r == if name in indexes && ik in indexes[name].lists then Some(indexes[name].lists[ik]) else None
      ensures InStep() ==> (r.Some? <==> name in indexes && exists pk | pk in primary.view :: KeyIn(name, primary.view[pk]) == Some(ik))
      ensures InStep() && r.Some? ==> NoRepeat(r.value)
      ensures InStep() && r.Some? ==> forall pk :: pk in r.value <==> pk in primary.view && KeyIn(name, primary.view[pk]) == Some(ik)
    {
      hide WellFormed, Holds, Agrees, Table.Sound;
      if name !in indexes { return None; }
      var x := indexes[name];
      if InStep() {
        Present(x.State(), x.extractor, primary.view, ik);
        if ik in x.lists { ListMeans(x.State(), x.extractor, primary.view, ik); }
      }
      r := x.FindAll(ik);
    }

    /** The lists that the index shows in the range; where it has lost no overwrite and is in step,
        exactly the records whose index key is in the range, each once, by index key. */
    method FindRangeByIndex(name: string, lo: Key, hi: Key) returns (r: Option<seq<Key>>)
      requires Shown()
      ensures r.Some? <==> name in indexes && !Less(hi, lo)
      ensures r.Some? ==> exists s ::
        Rising(s) && multiset(s) == multiset(RangeIn(indexes[name].grove, lo, hi)) && r.value == Joined(indexes[name].unique, s)
      ensures r.Some? && Valid() && InStep() ==> InKeyOrder(r.value, indexes[name].extractor, primary.view)
      ensures r.Some? && Valid() && InStep() ==> forall pk :: pk in r.value <==>
        pk in primary.view && KeyIn(name, primary.view[pk]).Some? && InRange(KeyIn(name, primary.view[pk]).value, lo, hi)
    {
      hide WellFormed, Holds, Agrees, Less, InRange, InKeyOrder, Table.Sound, Rising, RangeIn, Joined;
      if name !in indexes { return None; }
      var x := indexes[name];
      ghost var whole := Valid() && InStep();
      r := x.FindRange(lo, hi);
      if r.None? { return; }
      if whole {
        ghost var iks :| KeysBetween(iks, x.lists, lo, hi) && r.value == Flatten(x.lists, iks);
        FlattenMeans(x.State(), x.extractor, primary.view, iks);
        forall pk | pk in primary.view && KeyIn(name, primary.view[pk]).Some? ensures KeyIn(name, primary.view[pk]).value in x.lists {
          Present(x.State(), x.extractor, primary.view, KeyIn(name, primary.view[pk]).value);
        }
      }
    }
  }

  lemma PutGone(m: map<string, SecondaryIndex>, name: string, x: SecondaryIndex)
    requires name !in m
    ensures m[name := x] - {name} == m
  {
  }

  /** A new index agrees exactly with records that have no key in it. */
  lemma NewAgrees(x: SecondaryIndex, hash: Hash, shards: nat, records: Records)
    requires x.Model() == NewPlaced(x.unique, hash, shards)
    ensures Agrees(x.State(), x.extractor, records) <==> forall pk | pk in records :: x.extractor(records[pk]) == None
  {
    hide Agrees;
    EmptyAgrees(x.unique, x.extractor, records);
  }

  lemma ColumnMore(m: map<string, SecondaryIndex>, name: string, x: SecondaryIndex)
    ensures ColumnsOf(m[name := x]) == ColumnsOf(m)[name := Column(x.extractor, x.Model())]
  {
    hide SecondaryIndex.Model;
  }

  lemma ColumnLess(m: map<string, SecondaryIndex>, name: string)
    ensures ColumnsOf(m - {name}) == ColumnsOf(m) - {name}
  {
    hide SecondaryIndex.Model;
  }
}
