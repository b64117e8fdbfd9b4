/** Indexes by name, and the list of them that a loop goes through. */
module IndexMaps {
  import opened Tables
  import opened IndexSpec
  import opened SecondaryIndexes
  import opened IndexLists

  // ------------------------------------------------------------- maps of indexes

  ghost function MapRepr(m: map<string, SecondaryIndex>): set<object>
    reads m.Values
  {
    set n, o | n in m && o in m[n].Repr :: o
  }

  ghost predicate MapShown(m: map<string, SecondaryIndex>)
    reads m.Values, MapRepr(m)
  {
    && (forall n | n in m :: m[n].Shown())
    && (forall n, k | n in m && k in m && n != k :: m[n].Repr !! m[k].Repr)
  }

  ghost predicate MapValid(m: map<string, SecondaryIndex>)
    reads m.Values, MapRepr(m)
  {
    MapShown(m) && forall n | n in m :: m[n].Valid()
  }

  ghost predicate MapAgrees(m: map<string, SecondaryIndex>, records: Records)
    reads m.Values
  {
    forall n | n in m :: Agrees(m[n].State(), m[n].extractor, records)
  }

  lemma MapOwned(m: map<string, SecondaryIndex>)
    ensures forall o | o in MapRepr(m) :: allocated(o)
    ensures MapShown(m) ==> forall n | n in m :: m[n] in MapRepr(m)
  {
    hide Holds, WellFormed, Table.Sound;
  }

  /** `s` lists the indexes of `m` by the names `names`. */
  ghost predicate Lists(m: map<string, SecondaryIndex>, s: seq<SecondaryIndex>, names: seq<string>) {
    && |names| == |s|
    && (forall i | 0 <= i < |s| :: names[i] in m && s[i] == m[names[i]])
    && (forall n | n in m :: n in names)
    && (forall i, j | 0 <= i < j < |s| :: names[i] != names[j])
  }

  /** The indexes in a list, in any order. */
  method Snapshot(m: map<string, SecondaryIndex>) returns (s: seq<SecondaryIndex>, ghost names: seq<string>)
    ensures Lists(m, s, names)
  {
    hide Lists;
    var left := m.Keys;
    s, names := [], [];
    ListsNone(m);
    while left != {}
      invariant left <= m.Keys && Lists(m - left, s, names)
      decreases |left|
    {
      var n :| n in left;
      ListsMore(m, left, s, names, n);
      s, names, left := s + [m[n]], names + [n], left - {n};
    }
    assert m - left == m;
  }

  lemma ListsNone(m: map<string, SecondaryIndex>)
    ensures Lists(m - m.Keys, [], [])
  {
  }

  lemma ListsMore(m: map<string, SecondaryIndex>, left: set<string>, s: seq<SecondaryIndex>, names: seq<string>, n: string)
    requires Lists(m - left, s, names) && n in left && n in m
    ensures Lists(m - (left - {n}), s + [m[n]], names + [n])
  {
    var t, ns, c := s + [m[n]], names + [n], m - (left - {n});
    forall i | 0 <= i < |t| ensures ns[i] in c && t[i] == c[ns[i]] { }
  }

  lemma ListsAt(m: map<string, SecondaryIndex>, s: seq<SecondaryIndex>, names: seq<string>, n: string) returns (i: nat)
    requires Lists(m, s, names) && n in m
    ensures i < |s| && names[i] == n && s[i] == m[n]
  {
    i :| i < |names| && names[i] == n;
  }

  lemma ListsRepr(m: map<string, SecondaryIndex>, s: seq<SecondaryIndex>, names: seq<string>)
    requires Lists(m, s, names)
    ensures ReprOf(s) == MapRepr(m)
  {
    forall o | o in MapRepr(m) ensures o in ReprOf(s) {
      var n :| n in m && o in m[n].Repr;
      var i := ListsAt(m, s, names, n);
    }
  }

  lemma ShownInList(m: map<string, SecondaryIndex>, s: seq<SecondaryIndex>, names: seq<string>)
    requires Lists(m, s, names) && MapShown(m)
    ensures AllShown(s)
  {
    hide SecondaryIndex.Shown, SecondaryIndex.Valid;
    forall i, j | 0 <= i < j < |s| ensures s[i].Repr !! s[j].Repr { assert names[i] != names[j]; }
  }

  lemma ShownInMap(m: map<string, SecondaryIndex>, s: seq<SecondaryIndex>, names: seq<string>)
    requires Lists(m, s, names) && AllShown(s)
    ensures MapShown(m)
  {
    hide SecondaryIndex.Shown, SecondaryIndex.Valid;
    forall n | n in m ensures m[n].Shown() { var i := ListsAt(m, s, names, n); }
    forall n, k | n in m && k in m && n != k ensures m[n].Repr !! m[k].Repr {
      var i := ListsAt(m, s, names, n);
      var j := ListsAt(m, s, names, k);
      assert i < j || j < i;
    }
  }

  lemma ListsValid(m: map<string, SecondaryIndex>, s: seq<SecondaryIndex>, names: seq<string>)
    requires Lists(m, s, names) && AllShown(s) && MapShown(m)
    ensures AllValid(s) <==> MapValid(m)
  {
    hide SecondaryIndex.Shown, SecondaryIndex.Valid, AllShown, MapShown;
    if AllValid(s) {
      forall n | n in m ensures m[n].Valid() { var i := ListsAt(m, s, names, n); }
    }
  }

  lemma ListsShown(m: map<string, SecondaryIndex>, s: seq<SecondaryIndex>, names: seq<string>)
    requires Lists(m, s, names)
    ensures (AllShown(s) <==> MapShown(m)) && (AllValid(s) <==> MapValid(m))
  {
    hide SecondaryIndex.Shown, SecondaryIndex.Valid, AllShown, MapShown, Lists;
    if MapShown(m) { ShownInList(m, s, names); }
    if AllShown(s) { ShownInMap(m, s, names); ListsValid(m, s, names); }
  }

  lemma ListsAgree(m: map<string, SecondaryIndex>, s: seq<SecondaryIndex>, names: seq<string>, records: Records)
    requires Lists(m, s, names)
    ensures AllAgree(s, records) <==> MapAgrees(m, records)
  {
    hide Agrees;
    forall n | n in m ensures exists i | 0 <= i < |s| :: s[i] == m[n] { var i := ListsAt(m, s, names, n); }
    forall i | 0 <= i < |s| ensures s[i] == m[names[i]] { }
  }

  /** An index that shares nothing with the others. */
  lemma OneMore(m: map<string, SecondaryIndex>, name: string, x: SecondaryIndex, records: Records)
    requires name !in m && MapShown(m) && x.Shown() && x.Repr !! MapRepr(m)
    ensures MapShown(m[name := x]) && MapRepr(m[name := x]) == MapRepr(m) + x.Repr
    ensures MapValid(m[name := x]) <==> MapValid(m) && x.Valid()
    ensures MapAgrees(m[name := x], records) <==> MapAgrees(m, records) && Agrees(x.State(), x.extractor, records)
  {
    hide Agrees, SecondaryIndex.Shown, SecondaryIndex.Valid;
    var more := m[name := x];
    assert more[name] == x;
    forall n | n in m ensures more[n] == m[n] && m[n].Repr <= MapRepr(m) { }
  }

  lemma InMap(m: map<string, SecondaryIndex>, name: string)
    requires MapShown(m) && name in m
    ensures m[name].Shown() && (MapValid(m) ==> m[name].Valid())
  {
  }

  lemma OneLess(m: map<string, SecondaryIndex>, name: string, records: Records)
    requires MapValid(m)
    ensures MapShown(m - {name}) && MapValid(m - {name}) && MapRepr(m - {name}) <= MapRepr(m)
    ensures MapAgrees(m, records) ==> MapAgrees(m - {name}, records)
  {
    hide Agrees, SecondaryIndex.Shown, SecondaryIndex.Valid;
  }

  lemma ReprMore(m: map<string, SecondaryIndex>, name: string, x: SecondaryIndex)
    ensures MapRepr(m[name := x]) <= MapRepr(m) + x.Repr
  {
    var more := m[name := x];
    forall o | o in MapRepr(more) ensures o in MapRepr(m) + x.Repr {
      var n :| n in more && o in more[n].Repr;
    }
  }
}
