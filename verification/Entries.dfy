/** Key/value sequences in key order, and the map they stand for. */
module Entries {
  import opened Bytes

  datatype Entry = Entry(key: Key, value: Value)

  ghost predicate Sorted(s: seq<Entry>) {
    forall i, j | 0 <= i < j < |s| :: Less(s[i].key, s[j].key)
  }

  /** `findindex`: the first position whose key is not below `k`. */
  function FindIndex(s: seq<Entry>, k: Key): (r: nat)
    ensures r <= |s|
    ensures forall i | 0 <= i < r :: Less(s[i].key, k)
    ensures r < |s| ==> !Less(s[r].key, k)
  {
    if s == [] || !Less(s[0].key, k) then 0 else 1 + FindIndex(s[1..], k)
  }

  lemma {:induction false} FindIndexUnique(s: seq<Entry>, k: Key, r: nat)
    requires r <= |s|
    requires forall i | 0 <= i < r :: Less(s[i].key, k)
    requires r < |s| ==> !Less(s[r].key, k)
    ensures FindIndex(s, k) == r
  {
    if r > 0 {
      FindIndexUnique(s[1..], k, r - 1);
    }
  }

  /** The value of the last entry for `k`. */
  function LookupLast(s: seq<Entry>, k: Key): Option<Value> {
    if s == [] then None
    else if s[|s| - 1].key == k then Some(s[|s| - 1].value)
    else LookupLast(s[..|s| - 1], k)
  }

  lemma {:induction false} LastConcat(a: seq<Entry>, b: seq<Entry>, k: Key)
    ensures LookupLast(a + b, k) == if LookupLast(b, k).Some? then LookupLast(b, k) else LookupLast(a, k)
  {
    if b == [] {
      assert a + b == a;
    } else {
      assert (a + b)[..|a + b| - 1] == a + b[..|b| - 1];
      LastConcat(a, b[..|b| - 1], k);
    }
  }

  lemma {:induction false} LastNone(s: seq<Entry>, k: Key)
    ensures LookupLast(s, k) == None <==> forall i | 0 <= i < |s| :: s[i].key != k
  {
    if s != [] { LastNone(s[..|s| - 1], k); }
  }

  /** Without the last entry for `k`. */
  function RemoveLast(s: seq<Entry>, k: Key): seq<Entry> {
    if s == [] then []
    else if s[|s| - 1].key == k then s[..|s| - 1]
    else RemoveLast(s[..|s| - 1], k) + [s[|s| - 1]]
  }

  lemma {:induction false} RemoveLastConcat(a: seq<Entry>, b: seq<Entry>, k: Key)
    ensures RemoveLast(a + b, k) == if LookupLast(b, k).Some? then a + RemoveLast(b, k) else RemoveLast(a, k) + b
  {
    if b == [] {
      assert a + b == a && RemoveLast(a, k) + b == RemoveLast(a, k);
    } else {
      var n := |b| - 1;
      assert (a + b)[..|a + b| - 1] == a + b[..n] && (a + b)[|a + b| - 1] == b[n];
      RemoveLastConcat(a, b[..n], k);
      assert b == b[..n] + [b[n]];
      assert RemoveLast(a, k) + b == (RemoveLast(a, k) + b[..n]) + [b[n]];
      assert a + b[..n] + [b[n]] == a + b;
    }
  }

  lemma {:induction false} RemoveLastNone(s: seq<Entry>, k: Key)
    requires LookupLast(s, k) == None
    ensures RemoveLast(s, k) == s
  {
    if s != [] { RemoveLastNone(s[..|s| - 1], k); }
  }

  /** Around the last entry for `k`. */
  lemma RemoveLastMiddle(a: seq<Entry>, e: Entry, b: seq<Entry>, k: Key)
    requires e.key == k && LookupLast(b, k) == None
    ensures RemoveLast(a + [e] + b, k) == a + b && LookupLast(a + [e] + b, k) == Some(e.value)
  {
    RemoveLastConcat(a + [e], b, k);
    LastConcat(a + [e], b, k);
    assert (a + [e])[..|a|] == a;
  }

  lemma LastOne(e: Entry, k: Key)
    ensures LookupLast([e], k) == if e.key == k then Some(e.value) else None
  {
    assert [e][..0] == [];
  }

  /** The key at the search position is `k`. */
  predicate Has(s: seq<Entry>, k: Key) {
    var i := FindIndex(s, k);
    i < |s| && s[i].key == k
  }

  function Lookup(s: seq<Entry>, k: Key): Option<Value> {
    var i := FindIndex(s, k);
    if i < |s| && s[i].key == k then Some(s[i].value) else None
  }

  /** The new entry goes in front of everything not below it. */
  function InsertEntry(s: seq<Entry>, e: Entry): seq<Entry> {
    var i := FindIndex(s, e.key);
    s[..i] + [e] + s[i..]
  }

  function ReplaceEntry(s: seq<Entry>, e: Entry): seq<Entry>
    requires Has(s, e.key)
  {
    s[FindIndex(s, e.key) := e]
  }

  function RemoveEntry(s: seq<Entry>, k: Key): seq<Entry> {
    var i := FindIndex(s, k);
    if i < |s| && s[i].key == k then s[..i] + s[i + 1..] else s
  }

  function InRange(k: Key, lo: Key, hi: Key): bool {
    AtMost(lo, k) && AtMost(k, hi)
  }

  /** Both ends of a range are in it. */
  lemma RangeEnds(k: Key, lo: Key, hi: Key)
    ensures InRange(k, lo, hi) <==> (k == lo || Less(lo, k)) && (k == hi || Less(k, hi))
  {
    hide Less;
    LessTotal(k, lo);
    LessTotal(k, hi);
  }

  /** The entries of `s` with keys in `[lo, hi]`, in order. */
  function Within(s: seq<Entry>, lo: Key, hi: Key): seq<Entry> {
    if s == [] then []
    else (if InRange(s[0].key, lo, hi) then [s[0]] else []) + Within(s[1..], lo, hi)
  }

  lemma {:induction false} WithinMembers(s: seq<Entry>, lo: Key, hi: Key)
    ensures forall e :: e in Within(s, lo, hi) <==> e in s && InRange(e.key, lo, hi)
  {
    hide InRange;
    if s != [] {
      WithinMembers(s[1..], lo, hi);
      assert s == [s[0]] + s[1..];
    }
  }

  // ---------------------------------------------------------------- the map

  function ToMap(s: seq<Entry>): map<Key, Value> {
    if s == [] then map[] else ToMap(s[..|s| - 1])[s[|s| - 1].key := s[|s| - 1].value]
  }

  lemma NoEntries()
    ensures Sorted([]) && ToMap([]) == map[]
  {
  }

  lemma {:induction false} ToMapKeys(s: seq<Entry>)
    ensures forall k :: k in ToMap(s) <==> exists i | 0 <= i < |s| :: s[i].key == k
    ensures forall k | k in ToMap(s) :: Entry(k, ToMap(s)[k]) in s
  {
    if s != [] {
      var p := s[..|s| - 1];
      ToMapKeys(p);
      assert s == p + [s[|s| - 1]];
      forall k
        ensures k in ToMap(s) <==> exists i | 0 <= i < |s| :: s[i].key == k
      {
        if k in ToMap(p) {
          var i :| 0 <= i < |p| && p[i].key == k;
          assert s[i].key == k;
        }
        if i :| 0 <= i < |s| && s[i].key == k {
          assert i < |p| ==> p[i].key == k;
        }
      }
    }
  }

  /** In a sorted sequence each key occurs once, so the map holds exactly the entries. */
  lemma ToMapEntries(s: seq<Entry>)
    requires Sorted(s)
    ensures forall e :: e in s <==> e.key in ToMap(s) && ToMap(s)[e.key] == e.value
  {
    ToMapKeys(s);
    LessOrder();
    forall e
      ensures e in s <==> e.key in ToMap(s) && ToMap(s)[e.key] == e.value
    {
      if e in s {
        var i :| 0 <= i < |s| && s[i] == e;
        assert e.key in ToMap(s);
        var f := Entry(e.key, ToMap(s)[e.key]);
        var j :| 0 <= j < |s| && s[j] == f;
        assert i == j;
      }
    }
  }

  lemma FindIndexSorted(s: seq<Entry>, k: Key)
    requires Sorted(s)
    ensures Has(s, k) <==> k in ToMap(s)
    ensures Lookup(s, k) == if k in ToMap(s) then Some(ToMap(s)[k]) else None
    ensures forall j | FindIndex(s, k) < j < |s| :: Less(k, s[j].key)
  {
    ToMapKeys(s);
    ToMapEntries(s);
    LessOrder();
    var i := FindIndex(s, k);
    if i < |s| {
      assert s[i] in s;
      if s[i].key == k { assert k in ToMap(s); }
    }
    if k in ToMap(s) {
      var j :| 0 <= j < |s| && s[j].key == k;
      assert i == j;
    }
  }

  /** A sorted sequence stands for `m` when its entries are those of `m`. */
  lemma ToMapIs(s: seq<Entry>, m: map<Key, Value>)
    requires Sorted(s)
    requires forall e :: e in s <==> e.key in m && m[e.key] == e.value
    ensures ToMap(s) == m
  {
    ToMapEntries(s);
    forall k
      ensures k in ToMap(s) <==> k in m
      ensures k in m ==> ToMap(s)[k] == m[k]
    {
      if k in m { assert Entry(k, m[k]) in s; }
      if k in ToMap(s) { assert Entry(k, ToMap(s)[k]) in s; }
    }
  }

  /** Pieces in order, with everything in one below everything in the next. */
  ghost predicate Below(a: seq<Entry>, b: seq<Entry>) {
    forall i, j | 0 <= i < |a| && 0 <= j < |b| :: Less(a[i].key, b[j].key)
  }

  lemma SortedConcat(a: seq<Entry>, b: seq<Entry>)
    ensures Sorted(a + b) <==> Sorted(a) && Sorted(b) && Below(a, b)
  {
    var s := a + b;
    if Sorted(s) {
      forall i, j | 0 <= i < j < |a| ensures Less(a[i].key, a[j].key) { assert a[i] == s[i] && a[j] == s[j]; }
      forall i, j | 0 <= i < j < |b| ensures Less(b[i].key, b[j].key) {
        assert b[i] == s[|a| + i] && b[j] == s[|a| + j];
      }
      forall i, j | 0 <= i < |a| && 0 <= j < |b| ensures Less(a[i].key, b[j].key) {
        assert a[i] == s[i] && b[j] == s[|a| + j];
      }
    }
  }

  lemma SortedSplit(a: seq<Entry>, e: Entry, b: seq<Entry>)
    ensures Sorted(a + [e] + b) <==> Sorted(a) && Sorted(b) && Below(a, [e]) && Below([e], b) && Below(a, b)
  {
    SortedConcat(a + [e], b);
    SortedConcat(a, [e]);
    if Below(a, b) && Below([e], b) {
      assert Below(a + [e], b);
    }
    if Below(a + [e], b) {
      forall j | 0 <= j < |b| ensures Less(e.key, b[j].key) { assert (a + [e])[|a|] == e; }
      forall i, j | 0 <= i < |a| && 0 <= j < |b| ensures Less(a[i].key, b[j].key) { assert (a + [e])[i] == a[i]; }
    }
  }

  /** A sorted sequence around the search position for `k`. */
  lemma SearchSplit(s: seq<Entry>, k: Key)
    requires Sorted(s)
    ensures var i := FindIndex(s, k);
      var b := if Has(s, k) then s[i + 1..] else s[i..];
      && s == s[..i] + (if Has(s, k) then [s[i]] else []) + b
      && Sorted(s[..i]) && Sorted(b)
      && (forall v :: Below(s[..i], [Entry(k, v)]) && Below([Entry(k, v)], b))
      && Below(s[..i], b)
  {
    hide Less, FindIndex, ToMap;
    FindIndexSorted(s, k);
    var i := FindIndex(s, k);
    assert s == s[..i] + s[i..];
    SortedConcat(s[..i], s[i..]);
    if Has(s, k) {
      assert s == s[..i] + [s[i]] + s[i + 1..];
      SortedSplit(s[..i], s[i], s[i + 1..]);
    } else if i < |s| {
      LessTotal(s[i].key, k);
    }
  }

  /** Inserting keeps the order exactly when the key is new, and then updates the map. */
  lemma SortedInsert(s: seq<Entry>, e: Entry)
    requires Sorted(s)
    ensures Sorted(InsertEntry(s, e)) <==> !Has(s, e.key)
    ensures !Has(s, e.key) ==> ToMap(InsertEntry(s, e)) == ToMap(s)[e.key := e.value]
  {
    hide Less, FindIndex, ToMap;
    var i, t := FindIndex(s, e.key), InsertEntry(s, e);
    SearchSplit(s, e.key);
    if Has(s, e.key) {
      LessTotal(e.key, e.key);
      assert t[i].key == t[i + 1].key;
    } else {
      SortedSplit(s[..i], e, s[i..]);
      ToMapEntries(s);
      FindIndexSorted(s, e.key);
      forall x ensures x in t <==> x in s || x == e { assert s == s[..i] + s[i..]; }
      ToMapIs(t, ToMap(s)[e.key := e.value]);
    }
  }

  lemma SortedReplace(s: seq<Entry>, e: Entry)
    requires Sorted(s) && Has(s, e.key)
    ensures Sorted(ReplaceEntry(s, e))
    ensures ToMap(ReplaceEntry(s, e)) == ToMap(s)[e.key := e.value]
  {
    hide Less, FindIndex, ToMap, Sorted, Has, InsertEntry, RemoveEntry, ReplaceEntry;
    ReplaceIsInsert(s, e);
    SortedRemove(s, e.key);
    SortedInsert(RemoveEntry(s, e.key), e);
  }

  lemma ReplaceIsInsert(s: seq<Entry>, e: Entry)
    requires Sorted(s) && Has(s, e.key)
    ensures InsertEntry(RemoveEntry(s, e.key), e) == ReplaceEntry(s, e) && !Has(RemoveEntry(s, e.key), e.key)
  {
    hide Less, FindIndex;
    var i, r := FindIndex(s, e.key), RemoveEntry(s, e.key);
    if i < |r| {
      assert r[i] == s[i + 1];
      LessTotal(e.key, r[i].key);
    }
    FindIndexUnique(r, e.key, i);
    assert r[..i] == s[..i] && r[i..] == s[i + 1..];
  }

  lemma RemoveSorted(s: seq<Entry>, k: Key)
    requires Sorted(s)
    ensures Sorted(RemoveEntry(s, k)) && (!Has(s, k) ==> RemoveEntry(s, k) == s)
  {
    hide Less, FindIndex;
    var i, t := FindIndex(s, k), RemoveEntry(s, k);
    forall x, y | 0 <= x < y < |t| ensures Less(t[x].key, t[y].key) {
      if i < |s| && s[i].key == k {
        assert t[x] == (if x < i then s[x] else s[x + 1]) && t[y] == if y < i then s[y] else s[y + 1];
      }
    }
  }

  lemma SortedRemove(s: seq<Entry>, k: Key)
    requires Sorted(s)
    ensures Sorted(RemoveEntry(s, k))
    ensures ToMap(RemoveEntry(s, k)) == ToMap(s) - {k}
  {
    hide Less, FindIndex, ToMap, RemoveEntry, Sorted, Has;
    var t := RemoveEntry(s, k);
    RemoveSorted(s, k);
    ToMapEntries(s);
    assert k in ToMap(s) ==> Entry(k, ToMap(s)[k]) in s;
    if Has(s, k) {
      forall x ensures x in t <==> x in s && x.key != k { RemoveMembers(s, k, x); }
      ToMapIs(t, ToMap(s) - {k});
    } else {
      HasMember(s, k);
      assert ToMap(s) - {k} == ToMap(s);
    }
  }

  lemma HasMember(s: seq<Entry>, k: Key)
    requires Sorted(s)
    ensures Has(s, k) <==> exists x | x in s :: x.key == k
  {
    hide Less;
    FindIndexSorted(s, k);
    LessTotal(k, k);
  }

  lemma RemoveMembers(s: seq<Entry>, k: Key, x: Entry)
    requires Sorted(s) && Has(s, k)
    ensures x in RemoveEntry(s, k) <==> x in s && x.key != k
  {
    hide Less, FindIndex;
    var i := FindIndex(s, k);
    FindIndexSorted(s, k);
    LessTotal(k, x.key);
    assert s == s[..i] + [s[i]] + s[i + 1..];
    if x in s[i + 1..] {
      var j :| i + 1 <= j < |s| && s[j] == x;
      assert Less(k, s[j].key);
    }
  }

  /** A sorted sequence has as many entries as its map has keys. */
  lemma {:induction false} ToMapSize(s: seq<Entry>)
    requires Sorted(s)
    ensures |ToMap(s)| == |s|
  {
    if s != [] {
      var p, e := s[..|s| - 1], s[|s| - 1];
      ToMapSize(p);
      ToMapKeys(p);
      assert e.key !in ToMap(p) by {
        if e.key in ToMap(p) {
          var i :| 0 <= i < |p| && p[i].key == e.key;
          LessTotal(s[i].key, e.key);
        }
      }
    }
  }

  // ------------------------------------------------------------- searching

  /** A search in `a + b + c` lands in `b` when `a` is below the key and `c` is not. */
  lemma FindIndexFocus(a: seq<Entry>, b: seq<Entry>, c: seq<Entry>, k: Key)
    requires forall i | 0 <= i < |a| :: Less(a[i].key, k)
    requires c != [] ==> !Less(c[0].key, k)
    ensures FindIndex(a + b + c, k) == |a| + FindIndex(b, k)
  {
    var s, r := a + b + c, FindIndex(b, k);
    forall i | 0 <= i < |a| + r
      ensures Less(s[i].key, k)
    {
      assert s[i] == if i < |a| then a[i] else b[i - |a|];
    }
    FindIndexUnique(s, k, |a| + r);
  }

  /** Removal in `a + b + c` happens in `b`, when `a` is below the key and `c` is above it. */
  lemma RemoveFocus(a: seq<Entry>, b: seq<Entry>, c: seq<Entry>, k: Key)
    requires forall i | 0 <= i < |a| :: Less(a[i].key, k)
    requires c != [] ==> !Less(c[0].key, k) && c[0].key != k
    ensures RemoveEntry(a + b + c, k) == a + RemoveEntry(b, k) + c
    ensures Has(a + b + c, k) <==> Has(b, k)
  {
    hide Less, FindIndex, RemoveEntry;
    FindIndexFocus(a, b, c, k);
    var s, i := a + b + c, FindIndex(b, k);
    if Has(b, k) {
      var x, y := b[..i], b[i + 1..];
      assert b == x + [b[i]] + y;
      assert s == (a + x) + [b[i]] + (y + c);
      RemoveMiddle(x, b[i], y, k);
      RemoveMiddle(a + x, b[i], y + c, k);
      assert a + (x + y) + c == (a + x) + (y + c);
    } else {
      if i < |b| {
        assert s[|a| + i] == b[i];
      } else if c != [] {
        assert s[|a| + i] == c[0];
      }
      RemoveNone(b, k);
      RemoveNone(s, k);
    }
  }

  lemma RemoveNone(s: seq<Entry>, k: Key)
    requires !Has(s, k)
    ensures RemoveEntry(s, k) == s
  {
  }

  lemma RemoveMiddle(a: seq<Entry>, e: Entry, b: seq<Entry>, k: Key)
    requires FindIndex(a + [e] + b, k) == |a| && e.key == k
    ensures Has(a + [e] + b, k) && RemoveEntry(a + [e] + b, k) == a + b
  {
    hide Less, FindIndex;
    var s := a + [e] + b;
    assert s[|a|] == e && s[..|a|] == a && s[|a| + 1..] == b;
  }

  lemma WithinFirst(s: seq<Entry>, lo: Key, hi: Key)
    ensures s == [] ==> Within(s, lo, hi) == []
    ensures s != [] ==> Within(s, lo, hi) == (if InRange(s[0].key, lo, hi) then [s[0]] else []) + Within(s[1..], lo, hi)
  {
  }

  lemma {:induction false} WithinConcat(a: seq<Entry>, b: seq<Entry>, lo: Key, hi: Key)
    ensures Within(a + b, lo, hi) == Within(a, lo, hi) + Within(b, lo, hi)
  {
    hide InRange, Within;
    WithinFirst(a, lo, hi);
    if a == [] {
      assert a + b == b;
    } else {
      WithinConcat(a[1..], b, lo, hi);
      WithinFirst(a + b, lo, hi);
      assert (a + b)[1..] == a[1..] + b && (a + b)[0] == a[0];
    }
  }

  lemma {:induction false} WithinSorted(s: seq<Entry>, lo: Key, hi: Key)
    requires Sorted(s)
    ensures Sorted(Within(s, lo, hi))
  {
    if s != [] {
      WithinSorted(s[1..], lo, hi);
      WithinMembers(s[1..], lo, hi);
      var r := Within(s[1..], lo, hi);
      forall i | 0 <= i < |r|
        ensures Less(s[0].key, r[i].key)
      {
        assert r[i] in s[1..];
      }
    }
  }
}
