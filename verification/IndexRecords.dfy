/** The primary tree and a list of indexes together: one record stored, changed or deleted in all of them. */
module IndexRecords {
  import opened Bytes
  import opened Entries
  import opened Fixed
  import opened Forests
  import opened Tables
  import opened IndexSpec
  import opened IndexPlaces
  import opened IndexBases
  import opened SecondaryIndexes
  import opened IndexLists

  // ----------------------------------------------------- agreement after the loops

  ghost predicate ModelsAgree(ms: seq<Placed>, s: seq<SecondaryIndex>, records: Records)
    requires |ms| == |s|
  {
    forall i | 0 <= i < |s| :: Agrees(ms[i].state, s[i].extractor, records)
  }

  lemma ModelsAgreeIs(s: seq<SecondaryIndex>, records: Records)
    ensures ModelsAgree(Models(s), s, records) <==> AllAgree(s, records)
  {
    hide Agrees;
    forall i | 0 <= i < |s| ensures Models(s)[i].state == s[i].State() { }
  }

  ghost predicate AllAddKeep(ms: seq<Placed>, s: seq<SecondaryIndex>, records: Records, key: Key, value: Value, lost: bool)
    requires |ms| == |s|
  {
    forall i | 0 <= i < |s| :: AddKeeps(ms[i], s[i].extractor, records, key, value, lost)
  }

  lemma AddedAgree(ms: seq<Placed>, s: seq<SecondaryIndex>, records: Records, key: Key, value: Value, lost: bool)
    requires |ms| == |s| && ModelsAgree(ms, s, records) && (lost ==> key in records)
    requires forall i | 0 <= i < |s| :: !Clash(ms[i].state, s[i].extractor(value))
    ensures AllTake(ms, s, key, value)
    ensures ModelsAgree(AddAll(ms, s, key, value), s, Written(records, key, value, lost))
      <==> AllAddKeep(ms, s, records, key, value, lost)
  {
    hide Agrees, Clash, InsertKeeps, AddOn, AddTo, Held;
    forall i | 0 <= i < |s|
      ensures AddTo(ms[i], key, s[i].extractor(value)).1
      ensures Agrees(AddAll(ms, s, key, value)[i].state, s[i].extractor, Written(records, key, value, lost))
        <==> AddKeeps(ms[i], s[i].extractor, records, key, value, lost)
    {
      AddToState(ms[i], key, s[i].extractor(value));
      InsertAgrees(ms[i].state, s[i].extractor, records, key, value, lost, Held(ms[i], s[i].extractor(value)));
    }
  }

  /** An index refuses exactly what clashes. */
  lemma TakeClash(ms: seq<Placed>, s: seq<SecondaryIndex>, key: Key, value: Value)
    requires |ms| == |s|
    ensures AllTake(ms, s, key, value) <==> forall i | 0 <= i < |s| :: !Clash(ms[i].state, s[i].extractor(value))
  {
    hide Clash, AddTo;
    forall i | 0 <= i < |s| { AddToState(ms[i], key, s[i].extractor(value)); }
  }

  ghost predicate AllChangeKeep(ms: seq<Placed>, s: seq<SecondaryIndex>, key: Key, was: Value, value: Value, lost: bool)
    requires |ms| == |s|
  {
    forall i | 0 <= i < |s| :: ChangeKeeps(ms[i], key, s[i].extractor(was), s[i].extractor(value), lost)
  }

  lemma ChangedAgree(ms: seq<Placed>, s: seq<SecondaryIndex>, records: Records, key: Key, value: Value, lost: bool)
    requires |ms| == |s| && ModelsAgree(ms, s, records) && key in records
    requires forall i | 0 <= i < |s| :: !Rival(ms[i].state, s[i].extractor(records[key]), s[i].extractor(value))
    ensures AllChange(ms, s, key, records[key], value)
    ensures ModelsAgree(ChangeAll(ms, s, key, records[key], value), s, Written(records, key, value, lost))
      <==> AllChangeKeep(ms, s, key, records[key], value, lost)
  {
    hide Agrees, Clash, UpdateKeeps, ChangeOn, ChangeIn, Held, HeldAfter;
    forall i | 0 <= i < |s|
      ensures ChangeIn(ms[i], key, s[i].extractor(records[key]), s[i].extractor(value)).1
      ensures Agrees(ChangeAll(ms, s, key, records[key], value)[i].state, s[i].extractor, Written(records, key, value, lost))
        <==> ChangeKeeps(ms[i], key, s[i].extractor(records[key]), s[i].extractor(value), lost)
    {
      var before, after := s[i].extractor(records[key]), s[i].extractor(value);
      ChangeInState(ms[i], key, before, after);
      UpdateAgrees(ms[i].state, s[i].extractor, records, key, value, lost, Held(ms[i], before), HeldAfter(ms[i], key, before, after));
    }
  }

  lemma DroppedAgree(ms: seq<Placed>, s: seq<SecondaryIndex>, records: Records, key: Key)
    requires |ms| == |s| && ModelsAgree(ms, s, records) && key in records
    ensures ModelsAgree(DropAll(ms, s, key, records[key]), s, records - {key}) <==> NoDropLost(ms, s, key, records[key])
  {
    hide Agrees, DropOn, DropGrove, Shrinks, Held;
    forall i | 0 <= i < |s|
      ensures Agrees(DropAll(ms, s, key, records[key])[i].state, s[i].extractor, records - {key})
        <==> !DropLoses(ms[i], key, s[i].extractor(records[key]))
    {
      DeleteAgrees(ms[i].state, s[i].extractor, records, key, Held(ms[i], s[i].extractor(records[key])));
    }
  }

  lemma EmptiedAgree(ms: seq<Placed>, s: seq<SecondaryIndex>)
    requires |ms| == |s|
    ensures ModelsAgree(EmptyAll(ms), s, map[])
  {
    hide Agrees;
    forall i | 0 <= i < |s| ensures Agrees(EmptyAll(ms)[i].state, s[i].extractor, map[]) {
      EmptyAgrees(ms[i].state.unique, s[i].extractor, map[]);
    }
  }

  /** A primary tree and a list of indexes that share nothing. */
  ghost predicate Together(primary: Table, s: seq<SecondaryIndex>)
    reads primary, primary.Repr, s, ReprOf(s)
  {
    primary.Sound() && AllShown(s) && primary.Repr !! ReprOf(s)
  }

  ghost predicate Whole(primary: Table, s: seq<SecondaryIndex>)
    reads primary, primary.Repr, s, ReprOf(s)
  {
    Together(primary, s) && primary.Intact() && AllValid(s)
  }

  lemma TogetherParts(primary: Table, s: seq<SecondaryIndex>)
    requires Together(primary, s)
    ensures primary.Sound() && primary.Formed() && AllShown(s) && primary.Repr !! ReprOf(s)
  {
    primary.SoundFormed();
  }

  lemma TogetherOwned(primary: Table, s: seq<SecondaryIndex>)
    requires primary.Formed() && AllShown(s)
    ensures primary in primary.Repr && forall o | o in primary.Repr :: allocated(o)
    ensures forall x | x in s :: x in ReprOf(s)
    ensures forall o | o in ReprOf(s) :: allocated(o)
  {
    hide AllShown, ReprOf;
    Owned(s);
  }

  /** The two writes of `Insert`: the primary tree, then index after index until one refuses. */
  method WriteRecord(primary: Table, s: seq<SecondaryIndex>, key: Key, value: Value) returns (ok: bool, ghost n: nat)
    requires Whole(primary, s) && AllRoom(Models(s)) && |key| < TWO32
    modifies primary.Repr, ReprOf(s)
    ensures Together(primary, s) && fresh(primary.Repr - old(primary.Repr)) && fresh(ReprOf(s) - old(ReprOf(s)))
    ensures primary.grove == PutForest(primary.tree.hash, old(primary.grove), Entry(key, value))
    ensures primary.view == Written(old(primary.view), key, value, old(primary.Inner(key)))
    ensures primary.Intact() <==> !old(primary.Inner(key))
    ensures n <= |s| && (ok <==> AllTake(old(Models(s))[..n], s[..n], key, value)) && (ok ==> n == |s|)
    ensures Models(s) == AddAll(old(Models(s))[..n], s[..n], key, value) + old(Models(s))[n..]
    ensures AllValid(s) <==> NoneLost(old(Models(s))[..n], s[..n], key, value)
  {
    hide AllTake, NoneLost, AddAll, AllShown, AllValid, ReprOf, Models, AllAgree, Table.Formed, Table.Sound, Table.Intact, Table.Inner, PutForest;
    ghost var ms := Models(s);
    TogetherParts(primary, s);
    TogetherOwned(primary, s);
    ghost var r := ReprOf(s);
    primary.Insert(key, value);
    assert ReprOf(s) == r && Models(s) == ms;
    assert AllShown(s) && AllValid(s);
    assert primary.Repr !! r;
    TogetherOwned(primary, s);
    ghost var q := primary.Repr;
    ok, n := IndexEach(s, key, value);
    Owned(s);
    assert primary.Repr == q;
    assert primary.Sound() && q !! ReprOf(s);
  }

  /** `Insert` on a copy of the indexes, after its check: when an index refuses, the primary tree
      deletes the record again. */
  method StoreRecord(primary: Table, s: seq<SecondaryIndex>, key: Key, value: Value) returns (stored: bool)
    requires Whole(primary, s) && AllRoom(Models(s)) && |key| < TWO32
    modifies primary.Repr, ReprOf(s)
    ensures fresh(primary.Repr - old(primary.Repr)) && fresh(ReprOf(s) - old(ReprOf(s)))
    ensures stored <==> forall i | 0 <= i < |s| :: !Clash(old(Models(s))[i].state, s[i].extractor(value))
    ensures var was := PutForest(primary.tree.hash, old(primary.grove), Entry(key, value));
      primary.grove == if stored then was else CutForest(primary.tree.hash, was, key)
    ensures stored ==> Together(primary, s) && Models(s) == AddAll(old(Models(s)), s, key, value)
    ensures stored ==> primary.view == Written(old(primary.view), key, value, old(primary.Inner(key)))
    ensures stored && old(AllAgree(s, primary.view)) ==>
      (AllAgree(s, primary.view) <==> AllAddKeep(old(Models(s)), s, old(primary.view), key, value, old(primary.Inner(key))))
    ensures stored ==> (Whole(primary, s) <==> !old(primary.Inner(key)) && NoneLost(old(Models(s)), s, key, value))
  {
    hide Clash, AllAddKeep, AllTake, NoneLost, AddAll, AllShown, AllValid, ReprOf, Models, ModelsAgree, AllAgree,
      Table.Formed, Table.Sound, Table.Intact, Table.Inner, PutForest, CutForest;
    ghost var ms, records, lost := Models(s), primary.view, primary.Inner(key);
    if lost { primary.InnerHeld(key); }
    ModelsAgreeIs(s, records);
    TakeClash(ms, s, key, value);
    ghost var n;
    stored, n := WriteRecord(primary, s, key, value);
    TogetherParts(primary, s);
    TogetherOwned(primary, s);
    if !stored {
      FewerTake(ms, s, n, key, value);
      ghost var r := ReprOf(s);
      var deleted := primary.Delete(key);
      assert ReprOf(s) == r;
      return;
    }
    assert ms[..n] == ms && s[..n] == s && ms[n..] == [];
    if ModelsAgree(ms, s, records) { AddedAgree(ms, s, records, key, value, lost); }
    ModelsAgreeIs(s, primary.view);
  }

  lemma FewerTake(ms: seq<Placed>, s: seq<SecondaryIndex>, n: nat, key: Key, value: Value)
    requires |ms| == |s| && n <= |s| && !AllTake(ms[..n], s[..n], key, value)
    ensures !AllTake(ms, s, key, value)
  {
    hide AddTo;
    var i :| 0 <= i < n && !AddTo(ms[..n][i], key, s[..n][i].extractor(value)).1;
    assert !AddTo(ms[i], key, s[i].extractor(value)).1;
  }

  /** `Insert` on a copy of the indexes: after the check no index refuses. */
  method InsertRecord(primary: Table, s: seq<SecondaryIndex>, key: Key, value: Value) returns (ok: bool)
    requires Whole(primary, s) && AllRoom(Models(s)) && |key| < TWO32
    modifies primary.Repr, ReprOf(s)
    ensures Together(primary, s) && fresh(primary.Repr - old(primary.Repr)) && fresh(ReprOf(s) - old(ReprOf(s)))
    ensures ok <==> forall i | 0 <= i < |s| :: !Clash(old(Models(s))[i].state, s[i].extractor(value))
    ensures !ok ==> Whole(primary, s) && (AllAgree(s, primary.view) <==> old(AllAgree(s, primary.view)))
    ensures !ok ==> primary.view == old(primary.view) && primary.grove == old(primary.grove) && Models(s) == old(Models(s))
    ensures ok ==> primary.view == Written(old(primary.view), key, value, old(primary.Inner(key)))
    ensures ok ==> primary.grove == PutForest(primary.tree.hash, old(primary.grove), Entry(key, value))
    ensures ok ==> Models(s) == AddAll(old(Models(s)), s, key, value)
    ensures ok && old(AllAgree(s, primary.view)) ==>
      (AllAgree(s, primary.view) <==> AllAddKeep(old(Models(s)), s, old(primary.view), key, value, old(primary.Inner(key))))
    ensures ok ==> (Whole(primary, s) <==> !old(primary.Inner(key)) && NoneLost(old(Models(s)), s, key, value))
  {
    hide Clash, AllAddKeep, NoneLost, AllShown, AllValid, ReprOf, Models, AllAgree, Table.Sound, Table.Intact, Table.Inner,
      AddAll, PutForest, CutForest;
    TogetherParts(primary, s);
    TogetherOwned(primary, s);
    ghost var ms, r, lost, agreed := Models(s), ReprOf(s), primary.Inner(key), AllAgree(s, primary.view);
    ok := CheckInsert(s, value);
    assert ReprOf(s) == r && Models(s) == ms && AllShown(s) && AllValid(s);
    assert primary.Sound() && primary.Intact() && primary.Inner(key) == lost && (AllAgree(s, primary.view) <==> agreed);
    if !ok { return; }
    ok := StoreRecord(primary, s, key, value);
    Owned(s);
  }

  /** The two writes of `Update`: the primary tree, then index after index until one refuses. */
  method RewriteRecord(primary: Table, s: seq<SecondaryIndex>, key: Key, was: Value, value: Value) returns (ok: bool, ghost n: nat)
    requires Whole(primary, s) && AllRoom(Models(s)) && |key| < TWO32
    modifies primary.Repr, ReprOf(s)
    ensures Together(primary, s) && fresh(primary.Repr - old(primary.Repr)) && fresh(ReprOf(s) - old(ReprOf(s)))
    ensures primary.grove == PutForest(primary.tree.hash, old(primary.grove), Entry(key, value))
    ensures primary.view == Written(old(primary.view), key, value, old(primary.Inner(key)))
    ensures primary.Intact() <==> !old(primary.Inner(key))
    ensures n <= |s| && (ok <==> AllChange(old(Models(s))[..n], s[..n], key, was, value)) && (ok ==> n == |s|)
    ensures Models(s) == ChangeAll(old(Models(s))[..n], s[..n], key, was, value) + old(Models(s))[n..]
    ensures AllValid(s) <==> NoChangeLost(old(Models(s))[..n], s[..n], key, was, value)
  {
    hide AllChange, NoChangeLost, ChangeAll, AllShown, AllValid, ReprOf, Models, AllAgree, Table.Formed, Table.Sound, Table.Intact,
      Table.Inner, PutForest;
    ghost var ms := Models(s);
    TogetherParts(primary, s);
    TogetherOwned(primary, s);
    ghost var r := ReprOf(s);
    primary.Insert(key, value);
    assert ReprOf(s) == r && Models(s) == ms;
    assert AllShown(s) && AllValid(s);
    assert primary.Repr !! r;
    TogetherOwned(primary, s);
    ghost var q := primary.Repr;
    ok, n := UpdateEach(s, key, was, value);
    Owned(s);
    assert primary.Repr == q;
    assert primary.Sound() && q !! ReprOf(s);
  }

  /** `Update` on a copy of the indexes: after the check no index refuses. */
  method UpdateRecord(primary: Table, s: seq<SecondaryIndex>, key: Key, was: Value, value: Value) returns (ok: bool)
    requires Whole(primary, s) && AllRoom(Models(s)) && |key| < TWO32
    requires key in primary.view && primary.view[key] == was
    modifies primary.Repr, ReprOf(s)
    ensures Together(primary, s) && fresh(primary.Repr - old(primary.Repr)) && fresh(ReprOf(s) - old(ReprOf(s)))
    ensures ok <==> forall i | 0 <= i < |s| :: !Rival(old(Models(s))[i].state, s[i].extractor(was), s[i].extractor(value))
    ensures !ok ==> Whole(primary, s) && (AllAgree(s, primary.view) <==> old(AllAgree(s, primary.view)))
    ensures !ok ==> primary.view == old(primary.view) && primary.grove == old(primary.grove) && Models(s) == old(Models(s))
    ensures ok ==> primary.view == Written(old(primary.view), key, value, old(primary.Inner(key)))
    ensures ok ==> primary.grove == PutForest(primary.tree.hash, old(primary.grove), Entry(key, value))
    ensures ok ==> Models(s) == ChangeAll(old(Models(s)), s, key, was, value)
    ensures ok && old(AllAgree(s, primary.view)) ==> (AllAgree(s, primary.view) <==> AllChangeKeep(old(Models(s)), s, key, was, value, old(primary.Inner(key))))
    ensures ok ==> (Whole(primary, s) <==> !old(primary.Inner(key)) && NoChangeLost(old(Models(s)), s, key, was, value))
  {
    hide Rival, AllChange, AllChangeKeep, NoChangeLost, AllShown, AllValid, ReprOf, Models, ModelsAgree, AllAgree, Table.Sound,
      Table.Intact, Table.Inner, ChangeAll, PutForest;
    TogetherParts(primary, s);
    TogetherOwned(primary, s);
    ghost var ms, r, records, lost, agreed := Models(s), ReprOf(s), primary.view, primary.Inner(key), AllAgree(s, primary.view);
    ok := CheckUpdate(s, was, value);
    assert ReprOf(s) == r && Models(s) == ms && AllShown(s) && AllValid(s);
    assert primary.Sound() && primary.Intact() && primary.Inner(key) == lost && (AllAgree(s, primary.view) <==> agreed);
    if !ok { return; }
    ModelsAgreeIs(s, records);
    NoneRefuse(ms, s, key, was, value);
    if agreed { ChangedAgree(ms, s, records, key, value, lost); }
    ghost var n;
    ok, n := RewriteRecord(primary, s, key, was, value);
    if !ok {
      FewerChange(ms, s, n, key, was, value);
      assert false;
    }
    assert ms[..n] == ms && s[..n] == s && ms[n..] == [];
    ModelsAgreeIs(s, primary.view);
    Owned(s);
  }

  lemma NoneRefuse(ms: seq<Placed>, s: seq<SecondaryIndex>, key: Key, was: Value, value: Value)
    requires |ms| == |s| && forall i | 0 <= i < |s| :: !Rival(ms[i].state, s[i].extractor(was), s[i].extractor(value))
    ensures AllChange(ms, s, key, was, value)
  {
    hide Rival, ChangeIn;
    forall i | 0 <= i < |s| { NoRivalTaken(ms[i], key, s[i].extractor(was), s[i].extractor(value)); }
  }

  lemma FewerChange(ms: seq<Placed>, s: seq<SecondaryIndex>, n: nat, key: Key, was: Value, value: Value)
    requires |ms| == |s| && n <= |s| && !AllChange(ms[..n], s[..n], key, was, value)
    ensures !AllChange(ms, s, key, was, value)
  {
    hide ChangeIn;
    var i :| 0 <= i < n && !ChangeIn(ms[..n][i], key, s[..n][i].extractor(was), s[..n][i].extractor(value)).1;
    assert !ChangeIn(ms[i], key, s[i].extractor(was), s[i].extractor(value)).1;
  }

  /** `Delete` on a copy of the indexes, which are left alone when the primary tree has no such key. */
  method DeleteRecord(primary: Table, s: seq<SecondaryIndex>, key: Key, value: Value) returns (deleted: bool)
    requires Whole(primary, s) && (key in primary.view ==> primary.view[key] == value)
    modifies primary.Repr, ReprOf(s)
    ensures Together(primary, s) && primary.Repr == old(primary.Repr) && fresh(ReprOf(s) - old(ReprOf(s)))
    ensures primary.view == old(primary.view) - {key}
    ensures primary.grove == CutForest(primary.tree.hash, old(primary.grove), key)
    ensures deleted <==> key in old(primary.view)
    ensures !deleted ==> Whole(primary, s) && (AllAgree(s, primary.view) <==> old(AllAgree(s, primary.view))) && Models(s) == old(Models(s))
    ensures deleted ==> Models(s) == DropAll(old(Models(s)), s, key, value)
    ensures deleted && old(AllAgree(s, primary.view)) ==> (AllAgree(s, primary.view) <==> NoDropLost(old(Models(s)), s, key, value))
    ensures deleted ==> (Whole(primary, s) <==> NoDropLost(old(Models(s)), s, key, value))
  {
    hide NoDropLost, DropAll, AllShown, AllValid, ReprOf, Models, ModelsAgree, AllAgree, Table.Sound, Table.Intact, CutForest;
    ghost var ms, records := Models(s), primary.view;
    TogetherParts(primary, s);
    TogetherOwned(primary, s);
    ModelsAgreeIs(s, records);
    ghost var r := ReprOf(s);
    deleted := primary.Delete(key);
    assert ReprOf(s) == r && Models(s) == ms;
    assert AllShown(s) && AllValid(s);
    if !deleted {
      assert records - {key} == records;
      ModelsAgreeIs(s, records);
      return;
    }
    if ModelsAgree(ms, s, records) { DroppedAgree(ms, s, records, key); }
    TogetherOwned(primary, s);
    ghost var q := primary.Repr;
    RemoveEach(s, key, value);
    Owned(s);
    assert primary.Repr == q;
    assert primary.Sound() && primary.Intact() && q !! ReprOf(s);
    ModelsAgreeIs(s, primary.view);
  }

  /** `Clear` on a copy of the indexes, whatever was lost before. */
  method ClearRecords(primary: Table, s: seq<SecondaryIndex>)
    requires Together(primary, s)
    modifies primary.Repr, ReprOf(s)
    ensures Whole(primary, s) && fresh(primary.Repr - old(primary.Repr)) && fresh(ReprOf(s) - old(ReprOf(s)))
    ensures primary.view == map[] && AllAgree(s, map[])
    ensures primary.grove == EmptyForest(|old(primary.grove)|) && Models(s) == EmptyAll(old(Models(s)))
  {
    hide AllShown, AllValid, ReprOf, Models, EmptyAll, ModelsAgree, AllAgree, Table.Sound, Table.Intact, EmptyForest;
    ghost var ms := Models(s);
    TogetherParts(primary, s);
    TogetherOwned(primary, s);
    ghost var q := primary.Repr;
    ClearEach(s);
    Owned(s);
    assert primary.Repr == q && primary.Sound() && q !! ReprOf(s);
    EmptiedAgree(ms, s);
    ModelsAgreeIs(s, map[]);
    ghost var r := ReprOf(s);
    TogetherParts(primary, s);
    TogetherOwned(primary, s);
    primary.Clear();
    assert ReprOf(s) == r && AllShown(s) && AllValid(s) && AllAgree(s, map[]) && Models(s) == EmptyAll(ms);
    Owned(s);
  }
}
