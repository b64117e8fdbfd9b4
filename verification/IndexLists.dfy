/** The loops of the indexed tree over a copy of its index list: checks, writes, removals. */
module IndexLists {
  import opened Bytes
  import opened Fixed
  import opened Tables
  import opened IndexSpec
  import opened IndexPlaces
  import opened SecondaryIndexes

  // ------------------------------------------------------------- lists of indexes

  ghost function ReprOf(s: seq<SecondaryIndex>): set<object>
    reads s
  {
    set i, o | 0 <= i < |s| && o in s[i].Repr :: o
  }

  /** Indexes that share nothing, each showing what its lists say. */
  ghost predicate AllShown(s: seq<SecondaryIndex>)
    reads s, ReprOf(s)
  {
    && (forall i | 0 <= i < |s| :: s[i].Shown())
    && (forall i, j | 0 <= i < j < |s| :: s[i].Repr !! s[j].Repr)
  }

  /** Besides, none has lost an overwrite. */
  ghost predicate AllValid(s: seq<SecondaryIndex>)
    reads s, ReprOf(s)
  {
    AllShown(s) && forall i | 0 <= i < |s| :: s[i].Valid()
  }

  ghost predicate AllAgree(s: seq<SecondaryIndex>, records: Records)
    reads s
  {
    forall i | 0 <= i < |s| :: Agrees(s[i].State(), s[i].extractor, records)
  }

  ghost function Models(s: seq<SecondaryIndex>): (ms: seq<Placed>)
    reads s
    ensures |ms| == |s|
  {
    seq(|s|, i requires 0 <= i < |s| reads s => s[i].Model())
  }

  /** Every list of every index can take one more key. */
  ghost predicate AllRoom(ms: seq<Placed>) {
    forall i | 0 <= i < |ms| :: RoomIn(ms[i].state)
  }

  lemma RoomAt(ms: seq<Placed>, x: SecondaryIndex, i: nat)
    requires AllRoom(ms) && i < |ms| && ms[i] == x.Model()
    ensures RoomIn(x.State())
  {
    hide RoomIn;
  }

  /** A list is as good as its head and its tail, kept apart. */
  lemma Split(a: seq<SecondaryIndex>, b: seq<SecondaryIndex>)
    ensures ReprOf(a + b) == ReprOf(a) + ReprOf(b) && Models(a + b) == Models(a) + Models(b)
    ensures AllShown(a + b) <==> AllShown(a) && AllShown(b) && ReprOf(a) !! ReprOf(b)
    ensures AllValid(a + b) <==> AllValid(a) && AllValid(b) && ReprOf(a) !! ReprOf(b)
  {
    hide SecondaryIndex.Shown, SecondaryIndex.Valid, SecondaryIndex.Model;
    var s := a + b;
    forall i | 0 <= i < |a| ensures s[i] == a[i] { }
    forall i | 0 <= i < |b| ensures s[|a| + i] == b[i] { }
    if AllShown(s) {
      forall i, j | 0 <= i < |a| && 0 <= j < |b| ensures a[i].Repr !! b[j].Repr { assert s[i] == a[i] && s[|a| + j] == b[j]; }
      forall i, j | 0 <= i < j < |b| ensures b[i].Repr !! b[j].Repr { assert s[|a| + i] == b[i] && s[|a| + j] == b[j]; }
    }
    if AllShown(a) && AllShown(b) && ReprOf(a) !! ReprOf(b) {
      forall i, j | 0 <= i < j < |s| ensures s[i].Repr !! s[j].Repr {
        if i < |a| <= j { assert s[i].Repr <= ReprOf(a) && s[j].Repr <= ReprOf(b); }
      }
    }
  }

  lemma One(x: SecondaryIndex)
    ensures ReprOf([x]) == x.Repr && Models([x]) == [x.Model()]
    ensures (AllShown([x]) <==> x.Shown()) && (AllValid([x]) <==> x.Valid())
  {
    hide SecondaryIndex.Model;
    assert [x][0] == x;
  }

  /** Position `i` of a list in focus. */
  lemma Focus(s: seq<SecondaryIndex>, i: nat)
    requires i < |s| && AllShown(s[i..])
    ensures s[i].Shown() && AllShown(s[i + 1..])
    ensures AllValid(s[i..]) <==> s[i].Valid() && AllValid(s[i + 1..])
    ensures s[i].Repr !! ReprOf(s[i + 1..]) && ReprOf(s[i..]) == s[i].Repr + ReprOf(s[i + 1..])
    ensures Models(s[i..]) == [s[i].Model()] + Models(s[i + 1..])
  {
    hide SecondaryIndex.Shown, SecondaryIndex.Valid, SecondaryIndex.Model, AllShown, ReprOf;
    assert s[i..] == [s[i]] + s[i + 1..];
    One(s[i]);
    Split([s[i]], s[i + 1..]);
    assert AllShown([s[i]]) && AllShown(s[i + 1..]);
  }

  /** The work on position `i` is done. */
  lemma Advance(s: seq<SecondaryIndex>, i: nat)
    requires i < |s| && AllShown(s[..i]) && s[i].Shown() && ReprOf(s[..i]) !! s[i].Repr
    ensures AllShown(s[..i + 1]) && ReprOf(s[..i + 1]) == ReprOf(s[..i]) + s[i].Repr
    ensures Models(s[..i + 1]) == Models(s[..i]) + [s[i].Model()]
    ensures AllValid(s[..i + 1]) <==> AllValid(s[..i]) && s[i].Valid()
  {
    hide SecondaryIndex.Shown, SecondaryIndex.Valid, SecondaryIndex.Model, AllShown, ReprOf;
    assert s[..i + 1] == s[..i] + [s[i]];
    One(s[i]);
    Split(s[..i], [s[i]]);
  }

  /** A loop ends after `n` of the indexes. */
  lemma Stop(s: seq<SecondaryIndex>, n: nat)
    requires n <= |s| && AllShown(s[..n]) && AllShown(s[n..]) && ReprOf(s[..n]) !! ReprOf(s[n..])
    ensures AllShown(s) && ReprOf(s) == ReprOf(s[..n]) + ReprOf(s[n..])
    ensures Models(s) == Models(s[..n]) + Models(s[n..])
    ensures AllValid(s) <==> AllValid(s[..n]) && AllValid(s[n..])
  {
    hide SecondaryIndex.Shown, SecondaryIndex.Valid, SecondaryIndex.Model, AllShown, AllValid, ReprOf;
    assert s == s[..n] + s[n..];
    Split(s[..n], s[n..]);
  }

  // ------------------------------------------- the loops over a copy of the indexes

  /** The check loop of `Insert`. */
  method CheckInsert(s: seq<SecondaryIndex>, value: Value) returns (free: bool)
    requires AllShown(s)
    ensures free <==> forall i | 0 <= i < |s| :: !Clash(Models(s)[i].state, s[i].extractor(value))
  {
    hide SecondaryIndex.Shown;
    forall i | 0 <= i < |s| ensures Models(s)[i] == s[i].Model() { }
    for i := 0 to |s|
      invariant forall j | 0 <= j < i :: !Clash(s[j].State(), s[j].extractor(value))
    {
      if s[i].unique {
        var ik := s[i].extractor(value);
        if ik.Some? {
          var found := s[i].FindOne(ik.value);
          if found.Some? {
            assert Clash(s[i].State(), s[i].extractor(value));
            return false;
          }
        }
      }
    }
    return true;
  }

  /** The check loop of `Update`, which skips the indexes whose key does not change. */
  method CheckUpdate(s: seq<SecondaryIndex>, oldValue: Value, newValue: Value) returns (free: bool)
    requires AllShown(s)
    ensures free <==> forall i | 0 <= i < |s| :: !Rival(Models(s)[i].state, s[i].extractor(oldValue), s[i].extractor(newValue))
  {
    hide SecondaryIndex.Shown;
    forall i | 0 <= i < |s| ensures Models(s)[i] == s[i].Model() { }
    for i := 0 to |s|
      invariant forall j | 0 <= j < i :: !Rival(s[j].State(), s[j].extractor(oldValue), s[j].extractor(newValue))
    {
      if s[i].unique {
        var before, after := s[i].extractor(oldValue), s[i].extractor(newValue);
        if after.Some? && before != after {
          var found := s[i].FindOne(after.value);
          if found.Some? {
            assert Rival(s[i].State(), before, after);
            return false;
          }
        }
      }
    }
    return true;
  }

  // --------------------------------------------------- what the loops do, as values

  function AddAll(ms: seq<Placed>, s: seq<SecondaryIndex>, key: Key, value: Value): (r: seq<Placed>)
    requires |ms| == |s|
    ensures |r| == |s|
  {
    seq(|s|, i requires 0 <= i < |s| => AddTo(ms[i], key, s[i].extractor(value)).0)
  }

  /** Every index takes the record. */
  ghost predicate AllTake(ms: seq<Placed>, s: seq<SecondaryIndex>, key: Key, value: Value)
    requires |ms| == |s|
  {
    forall i | 0 <= i < |s| :: AddTo(ms[i], key, s[i].extractor(value)).1
  }

  /** No index loses the overwrite of a list while a record is added. */
  ghost predicate NoneLost(ms: seq<Placed>, s: seq<SecondaryIndex>, key: Key, value: Value)
    requires |ms| == |s|
  {
    forall i | 0 <= i < |s| :: !AddLoses(ms[i], key, s[i].extractor(value))
  }

  lemma AddNext(ms: seq<Placed>, s: seq<SecondaryIndex>, key: Key, value: Value, i: nat)
    requires |ms| == |s| && i < |s|
    ensures AddAll(ms[..i + 1], s[..i + 1], key, value)
      == AddAll(ms[..i], s[..i], key, value) + [AddTo(ms[i], key, s[i].extractor(value)).0]
    ensures AllTake(ms[..i + 1], s[..i + 1], key, value)
      <==> AllTake(ms[..i], s[..i], key, value) && AddTo(ms[i], key, s[i].extractor(value)).1
    ensures NoneLost(ms[..i + 1], s[..i + 1], key, value)
      <==> NoneLost(ms[..i], s[..i], key, value) && !AddLoses(ms[i], key, s[i].extractor(value))
  {
    hide AddTo, AddLoses;
    forall j | 0 <= j < i ensures s[..i + 1][j] == s[..i][j] && ms[..i + 1][j] == ms[..i][j] { }
    assert s[..i + 1][i] == s[i];
  }

  lemma Rest<T>(a: seq<T>, i: nat, x: T, rest: seq<T>)
    requires i < |a| && a[i..] == [x] + rest
    ensures x == a[i] && rest == a[i + 1..]
  {
    assert a[i..][0] == a[i] && a[i..][1..] == a[i + 1..];
  }

  /** The index loop of `Insert`: it ends after `n` indexes, with the first that refuses. */
  method IndexEach(s: seq<SecondaryIndex>, key: Key, value: Value) returns (ok: bool, ghost n: nat)
    requires AllShown(s) && AllValid(s) && |key| < TWO32 && AllRoom(Models(s))
    modifies ReprOf(s)
    ensures AllShown(s) && fresh(ReprOf(s) - old(ReprOf(s))) && n <= |s|
    ensures ok <==> AllTake(old(Models(s))[..n], s[..n], key, value)
    ensures ok ==> n == |s|
    ensures Models(s) == AddAll(old(Models(s))[..n], s[..n], key, value) + old(Models(s))[n..]
    ensures AllValid(s) <==> NoneLost(old(Models(s))[..n], s[..n], key, value)
  {
    hide AddTo, AddLoses, SecondaryIndex.Shown, SecondaryIndex.Valid, SecondaryIndex.Model,
      AllShown, AllValid, ReprOf, Models, AddAll, AllTake, NoneLost, RoomIn, AllRoom;
    ghost var ms := Models(s);
    assert s[..0] == [] && s[0..] == s;
    Nothing(key, value);
    for i := 0 to |s|
      invariant AllShown(s[..i]) && AllShown(s[i..]) && AllValid(s[i..])
      invariant ReprOf(s[..i]) !! ReprOf(s[i..]) && ReprOf(s[i..]) <= old(ReprOf(s)) && fresh(ReprOf(s[..i]) - old(ReprOf(s)))
      invariant Models(s[i..]) == ms[i..] && Models(s[..i]) == AddAll(ms[..i], s[..i], key, value)
      invariant AllTake(ms[..i], s[..i], key, value)
      invariant AllValid(s[..i]) <==> NoneLost(ms[..i], s[..i], key, value)
    {
      Focus(s, i);
      Owned(s[..i]);
      Owned(s[i + 1..]);
      Rest(ms, i, s[i].Model(), Models(s[i + 1..]));
      AddNext(ms, s, key, value, i);
      RoomAt(ms, s[i], i);
      ok := s[i].Index(key, value);
      Advance(s, i);
      if !ok {
        Stop(s, i + 1);
        return false, i + 1;
      }
    }
    Stop(s, |s|);
    return true, |s|;
  }

  function ChangeAll(ms: seq<Placed>, s: seq<SecondaryIndex>, key: Key, was: Value, value: Value): (r: seq<Placed>)
    requires |ms| == |s|
    ensures |r| == |s|
  {
    seq(|s|, i requires 0 <= i < |s| => ChangeIn(ms[i], key, s[i].extractor(was), s[i].extractor(value)).0)
  }

  /** Every index takes the change. */
  ghost predicate AllChange(ms: seq<Placed>, s: seq<SecondaryIndex>, key: Key, was: Value, value: Value)
    requires |ms| == |s|
  {
    forall i | 0 <= i < |s| :: ChangeIn(ms[i], key, s[i].extractor(was), s[i].extractor(value)).1
  }

  /** No index loses the overwrite of a list while a record is changed. */
  ghost predicate NoChangeLost(ms: seq<Placed>, s: seq<SecondaryIndex>, key: Key, was: Value, value: Value)
    requires |ms| == |s|
  {
    forall i | 0 <= i < |s| :: !ChangeLoses(ms[i], key, s[i].extractor(was), s[i].extractor(value))
  }

  lemma ChangeNext(ms: seq<Placed>, s: seq<SecondaryIndex>, key: Key, was: Value, value: Value, i: nat)
    requires |ms| == |s| && i < |s|
    ensures ChangeAll(ms[..i + 1], s[..i + 1], key, was, value)
      == ChangeAll(ms[..i], s[..i], key, was, value) + [ChangeIn(ms[i], key, s[i].extractor(was), s[i].extractor(value)).0]
    ensures AllChange(ms[..i + 1], s[..i + 1], key, was, value)
      <==> AllChange(ms[..i], s[..i], key, was, value) && ChangeIn(ms[i], key, s[i].extractor(was), s[i].extractor(value)).1
    ensures NoChangeLost(ms[..i + 1], s[..i + 1], key, was, value)
      <==> NoChangeLost(ms[..i], s[..i], key, was, value) && !ChangeLoses(ms[i], key, s[i].extractor(was), s[i].extractor(value))
  {
    hide ChangeIn, ChangeLoses;
    forall j | 0 <= j < i ensures s[..i + 1][j] == s[..i][j] && ms[..i + 1][j] == ms[..i][j] { }
    assert s[..i + 1][i] == s[i];
  }

  /** The index loop of `Update`: it ends after `n` indexes, with the first that refuses. */
  method UpdateEach(s: seq<SecondaryIndex>, key: Key, was: Value, value: Value) returns (ok: bool, ghost n: nat)
    requires AllShown(s) && AllValid(s) && |key| < TWO32 && AllRoom(Models(s))
    modifies ReprOf(s)
    ensures AllShown(s) && fresh(ReprOf(s) - old(ReprOf(s))) && n <= |s|
    ensures ok <==> AllChange(old(Models(s))[..n], s[..n], key, was, value)
    ensures ok ==> n == |s|
    ensures Models(s) == ChangeAll(old(Models(s))[..n], s[..n], key, was, value) + old(Models(s))[n..]
    ensures AllValid(s) <==> NoChangeLost(old(Models(s))[..n], s[..n], key, was, value)
  {
    hide ChangeIn, ChangeLoses, SecondaryIndex.Shown, SecondaryIndex.Valid, SecondaryIndex.Model,
      AllShown, AllValid, ReprOf, Models, ChangeAll, AllChange, NoChangeLost, RoomIn, AllRoom;
    ghost var ms := Models(s);
    assert s[..0] == [] && s[0..] == s;
    Nothing(key, value);
    NothingChanged(key, was, value);
    for i := 0 to |s|
      invariant AllShown(s[..i]) && AllShown(s[i..]) && AllValid(s[i..])
      invariant ReprOf(s[..i]) !! ReprOf(s[i..]) && ReprOf(s[i..]) <= old(ReprOf(s)) && fresh(ReprOf(s[..i]) - old(ReprOf(s)))
      invariant Models(s[i..]) == ms[i..] && Models(s[..i]) == ChangeAll(ms[..i], s[..i], key, was, value)
      invariant AllChange(ms[..i], s[..i], key, was, value)
      invariant AllValid(s[..i]) <==> NoChangeLost(ms[..i], s[..i], key, was, value)
    {
      Focus(s, i);
      Owned(s[..i]);
      Owned(s[i + 1..]);
      Rest(ms, i, s[i].Model(), Models(s[i + 1..]));
      ChangeNext(ms, s, key, was, value, i);
      RoomAt(ms, s[i], i);
      ok := s[i].Update(key, was, value);
      Advance(s, i);
      if !ok {
        Stop(s, i + 1);
        return false, i + 1;
      }
    }
    Stop(s, |s|);
    return true, |s|;
  }

  lemma NothingChanged(key: Key, was: Value, value: Value)
    ensures ChangeAll([], [], key, was, value) == [] && AllChange([], [], key, was, value) && NoChangeLost([], [], key, was, value)
  {
  }

  function DropAll(ms: seq<Placed>, s: seq<SecondaryIndex>, key: Key, value: Value): (r: seq<Placed>)
    requires |ms| == |s|
    ensures |r| == |s|
  {
    seq(|s|, i requires 0 <= i < |s| => DropFrom(ms[i], key, s[i].extractor(value)))
  }

  /** No index loses the overwrite of a list while a record is removed. */
  ghost predicate NoDropLost(ms: seq<Placed>, s: seq<SecondaryIndex>, key: Key, value: Value)
    requires |ms| == |s|
  {
    forall i | 0 <= i < |s| :: !DropLoses(ms[i], key, s[i].extractor(value))
  }

  lemma DropNext(ms: seq<Placed>, s: seq<SecondaryIndex>, key: Key, value: Value, i: nat)
    requires |ms| == |s| && i < |s|
    ensures DropAll(ms[..i + 1], s[..i + 1], key, value)
      == DropAll(ms[..i], s[..i], key, value) + [DropFrom(ms[i], key, s[i].extractor(value))]
    ensures NoDropLost(ms[..i + 1], s[..i + 1], key, value)
      <==> NoDropLost(ms[..i], s[..i], key, value) && !DropLoses(ms[i], key, s[i].extractor(value))
  {
    hide DropFrom, DropLoses;
    forall j | 0 <= j < i ensures s[..i + 1][j] == s[..i][j] && ms[..i + 1][j] == ms[..i][j] { }
    assert s[..i + 1][i] == s[i];
  }

  /** The index loop of `Delete`. */
  method RemoveEach(s: seq<SecondaryIndex>, key: Key, value: Value)
    requires AllShown(s) && AllValid(s)
    modifies ReprOf(s)
    ensures AllShown(s) && fresh(ReprOf(s) - old(ReprOf(s)))
    ensures Models(s) == DropAll(old(Models(s)), s, key, value)
    ensures AllValid(s) <==> NoDropLost(old(Models(s)), s, key, value)
  {
    hide DropFrom, DropLoses, SecondaryIndex.Shown, SecondaryIndex.Valid, SecondaryIndex.Model,
      AllShown, AllValid, ReprOf, Models, DropAll, NoDropLost;
    ghost var ms := Models(s);
    assert s[..0] == [] && s[0..] == s;
    Nothing(key, value);
    NothingDropped(key, value);
    for i := 0 to |s|
      invariant AllShown(s[..i]) && AllShown(s[i..]) && AllValid(s[i..])
      invariant ReprOf(s[..i]) !! ReprOf(s[i..]) && ReprOf(s[i..]) <= old(ReprOf(s)) && fresh(ReprOf(s[..i]) - old(ReprOf(s)))
      invariant Models(s[i..]) == ms[i..] && Models(s[..i]) == DropAll(ms[..i], s[..i], key, value)
      invariant AllValid(s[..i]) <==> NoDropLost(ms[..i], s[..i], key, value)
    {
      Focus(s, i);
      Owned(s[..i]);
      Owned(s[i + 1..]);
      Rest(ms, i, s[i].Model(), Models(s[i + 1..]));
      DropNext(ms, s, key, value, i);
      s[i].Remove(key, value);
      Advance(s, i);
    }
    assert s[..|s|] == s && ms[..|s|] == ms;
  }

  lemma NothingDropped(key: Key, value: Value)
    ensures DropAll([], [], key, value) == [] && NoDropLost([], [], key, value)
  {
  }

  function EmptyAll(ms: seq<Placed>): (r: seq<Placed>)
    ensures |r| == |ms|
  {
    seq(|ms|, i requires 0 <= i < |ms| => Emptied(ms[i]))
  }

  /** The index loop of `Clear`. */
  method ClearEach(s: seq<SecondaryIndex>)
    requires AllShown(s)
    modifies ReprOf(s)
    ensures AllShown(s) && AllValid(s) && fresh(ReprOf(s) - old(ReprOf(s)))
    ensures Models(s) == EmptyAll(old(Models(s)))
  {
    hide SecondaryIndex.Shown, SecondaryIndex.Valid, SecondaryIndex.Model, AllShown, AllValid, ReprOf, Models, EmptyAll, Emptied;
    ghost var ms := Models(s);
    assert s[..0] == [] && s[0..] == s && ms[..0] == [];
    Nothing([], []);
    assert EmptyAll([]) == [];
    for i := 0 to |s|
      invariant AllShown(s[..i]) && AllValid(s[..i]) && AllShown(s[i..])
      invariant ReprOf(s[..i]) !! ReprOf(s[i..]) && ReprOf(s[i..]) <= old(ReprOf(s)) && fresh(ReprOf(s[..i]) - old(ReprOf(s)))
      invariant Models(s[i..]) == ms[i..] && Models(s[..i]) == EmptyAll(ms[..i])
    {
      Focus(s, i);
      Owned(s[..i]);
      Owned(s[i + 1..]);
      Rest(ms, i, s[i].Model(), Models(s[i + 1..]));
      EmptyNext(ms, i);
      s[i].Clear();
      Advance(s, i);
    }
    assert s[..|s|] == s && ms[..|s|] == ms;
  }

  lemma EmptyNext(ms: seq<Placed>, i: nat)
    requires i < |ms|
    ensures EmptyAll(ms[..i + 1]) == EmptyAll(ms[..i]) + [Emptied(ms[i])]
  {
    hide Emptied;
  }

  lemma Owned(s: seq<SecondaryIndex>)
    requires AllShown(s)
    ensures forall x | x in s :: x in ReprOf(s)
    ensures forall o | o in ReprOf(s) :: allocated(o)
  {
    hide Holds, WellFormed, Table.Sound;
  }

  lemma Nothing(key: Key, value: Value)
    ensures AllShown([]) && AllValid([]) && ReprOf([]) == {} && Models([]) == []
    ensures AddAll([], [], key, value) == [] && AllTake([], [], key, value) && NoneLost([], [], key, value)
  {
  }
}
