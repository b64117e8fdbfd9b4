/** Whole-tree walks: range collection, counting, iteration with a callback that can stop. */
module Scans {
  import opened Bytes
  import opened Entries
  import opened Weaving
  import opened Nodes
  import opened Repair
  import opened Subtrees
  import opened Shapes
  import opened Slots
  import opened Searching

  /** Children `p` to `i` of `t` with the entries between them. */
  ghost function Stretch(t: Tree, p: nat, i: nat): seq<Entry>
    requires Arity(t) && p <= i <= |t.kvs|
  {
    Weave(Gaps(t)[p..i + 1], t.kvs[p..i])
  }

  lemma StretchOne(t: Tree, p: nat)
    requires Arity(t) && p <= |t.kvs|
    ensures Stretch(t, p, p) == Gaps(t)[p]
  {
  }

  lemma StretchNext(t: Tree, p: nat, i: nat)
    requires Arity(t) && p <= i < |t.kvs|
    ensures Stretch(t, p, i + 1) == Stretch(t, p, i) + [t.kvs[i]] + Gaps(t)[i + 1]
  {
    hide Weave, Gaps;
    WeaveJoin(Gaps(t)[p..i + 1], t.kvs[p..i], t.kvs[i], [Gaps(t)[i + 1]], []);
    WeaveSingle(Gaps(t)[i + 1]);
    assert Gaps(t)[p..i + 1] + [Gaps(t)[i + 1]] == Gaps(t)[p..i + 2];
    assert t.kvs[p..i] + [t.kvs[i]] + [] == t.kvs[p..i + 1];
  }

  lemma WeaveSingle(c: seq<Entry>)
    ensures Weave([c], []) == c
  {
  }

  /** The in-order sequence is what precedes a stretch, the stretch, and what follows it. */
  lemma {:induction false} StretchIn(t: Tree, p: nat, i: nat)
    requires Arity(t) && p <= i <= |t.kvs|
    ensures InOrder(t) == Before(t, p) + Stretch(t, p, i) + After(t, i)
  {
    hide Weave, Gaps, InOrder, Heads, Tails, Stretch, Before, After;
    if i == p {
      InOrderAt(t, p);
      StretchOne(t, p);
    } else {
      StretchIn(t, p, i - 1);
      StretchNext(t, p, i - 1);
      AfterNext(t, i - 1);
      var b, s, a := Before(t, p), Stretch(t, p, i - 1), After(t, i);
      assert b + s + ([t.kvs[i - 1]] + Gaps(t)[i] + a) == b + (s + [t.kvs[i - 1]] + Gaps(t)[i]) + a;
    }
  }

  lemma AfterNext(t: Tree, i: nat)
    requires Arity(t) && i < |t.kvs|
    ensures After(t, i) == [t.kvs[i]] + Gaps(t)[i + 1] + After(t, i + 1)
  {
    hide Gaps;
    assert Gaps(t)[i + 1..][1..] == Gaps(t)[i + 2..] && t.kvs[i..][1..] == t.kvs[i + 1..];
  }

  lemma AfterLast(t: Tree)
    requires Arity(t)
    ensures After(t, |t.kvs|) == []
  {
    assert t.kvs[|t.kvs|..] == [];
  }

  /** Entries left of the search slot are below the key. */
  lemma BeforeBelow(t: Tree, key: Key, p: nat)
    requires Arity(t) && Searchable(t) && p == FindIndex(t.kvs, key)
    ensures forall i | 0 <= i < |Before(t, p)| :: Less(Before(t, p)[i].key, key)
  {
    hide Less, InOrder, Heads, Gaps, Upto, AllAbove, Sorted;
    SearchableIs(t);
    HeadsBelow(Gaps(t)[..p], t.kvs[..p], key);
  }

  // ------------------------------------------------------------------ ranges

  lemma {:induction false} WithinNone(s: seq<Entry>, lo: Key, hi: Key)
    requires forall i | 0 <= i < |s| :: !InRange(s[i].key, lo, hi)
    ensures Within(s, lo, hi) == []
  {
    if s != [] { WithinNone(s[1..], lo, hi); }
  }

  lemma WithinOne(e: Entry, lo: Key, hi: Key)
    ensures Within([e], lo, hi) == if InRange(e.key, lo, hi) then [e] else []
  {
    assert [e][1..] == [];
  }

  /** Nothing left of the slot for `lo` is in the range. */
  lemma WithinSkips(t: Tree, lo: Key, hi: Key, p: nat)
    requires Arity(t) && Searchable(t) && p == FindIndex(t.kvs, lo)
    ensures Within(Before(t, p), lo, hi) == []
  {
    hide Less, InOrder, Heads, FindIndex, Gaps, Before;
    BeforeBelow(t, lo, p);
    WithinNone(Before(t, p), lo, hi);
  }

  /** Nothing from an entry above `hi` on is in the range. */
  lemma WithinStops(t: Tree, lo: Key, hi: Key, i: nat)
    requires Arity(t) && Searchable(t) && i <= |t.kvs|
    requires i < |t.kvs| ==> Less(hi, t.kvs[i].key)
    ensures Within(After(t, i), lo, hi) == []
  {
    hide Less, InOrder, Heads, Tails, Gaps, Within, Upto;
    SearchableIs(t);
    forall j | i <= j < |t.kvs| ensures Less(hi, t.kvs[j].key) {
      if i < j { LessTrans(hi, t.kvs[i].key, t.kvs[j].key); }
    }
    TailsOver(Gaps(t)[i + 1..], t.kvs[i..], hi);
    WithinNone(After(t, i), lo, hi);
  }

  lemma KvsAbove(t: Tree, lo: Key, p: nat, i: nat)
    requires Arity(t) && Searchable(t) && p == FindIndex(t.kvs, lo) && p < i < |t.kvs|
    ensures !Less(t.kvs[i].key, lo)
  {
    hide Less, Gaps, Upto, AllAbove;
    SearchableIs(t);
    if Less(t.kvs[i].key, lo) { LessTrans(t.kvs[p].key, t.kvs[i].key, lo); }
  }

  lemma KeysConcat(a: seq<Entry>, b: seq<Entry>)
    ensures Keys(a + b) == Keys(a) + Keys(b) && Values(a + b) == Values(a) + Values(b)
  {
  }

  /** The subtrees of a balanced, matched tree are too. */
  lemma ChildScan(t: Tree, h: nat, i: nat)
    requires Matches(t) && Balanced(t, h, 0) && !t.leaf && i <= |t.kvs|
    ensures h > 0 && Arity(t) && t.node.children[i] == t.children[i].node && Gaps(t)[i] == InOrder(t.children[i])
    ensures Matches(t.children[i]) && Balanced(t.children[i], h - 1, 0)
  {
    hide Matches, Balanced, Row, Siblings, MatchesAll;
    BalancedIs(t, h, 0);
    MatchesChild(t, i);
    RowAt(t, h - 1, i);
    BalancedAtLeast(t.children[i], h - 1, MIN_KEYS);
  }

  /** In a tree that guides every descent the scan collects exactly the entries in range. */
  lemma {:induction false} RangeWithin(t: Tree, h: nat, lo: Key, hi: Key)
    requires Balanced(t, h, 0) && Searchable(t)
    ensures RangeShape(ShapeOf(t), lo, hi) == Within(InOrder(t), lo, hi)
    decreases h, |t.kvs| + 1
  {
    hide Balanced, Searchable, InOrder, Within, Gaps, FindIndex, Less, RangeRest, Before, After, ShapeOf, Ranked;
    BalancedIs(t, h, 0);
    ShapeIs(t);
    var p := FindIndex(t.kvs, lo);
    InOrderAt(t, p);
    WithinSkips(t, lo, hi, p);
    RestWithin(t, h, lo, hi, p);
    WithinConcat(Before(t, p) + Gaps(t)[p], After(t, p), lo, hi);
    WithinConcat(Before(t, p), Gaps(t)[p], lo, hi);
    GapWithin(t, h, lo, hi, p);
  }

  lemma {:induction false} RestWithin(t: Tree, h: nat, lo: Key, hi: Key, i: nat)
    requires Balanced(t, h, 0) && Searchable(t) && FindIndex(t.kvs, lo) <= i <= |t.kvs|
    ensures RangeRest(ShapeOf(t), lo, hi, i) == Within(After(t, i), lo, hi)
    decreases h, |t.kvs| - i
  {
    hide Balanced, Searchable, InOrder, Within, Gaps, FindIndex, Less, After, ShapeOf, Ranked;
    BalancedIs(t, h, 0);
    ShapeIs(t);
    if i == |t.kvs| || Less(hi, t.kvs[i].key) {
      WithinStops(t, lo, hi, i);
    } else {
      var e, g, a := [t.kvs[i]], Gaps(t)[i + 1], After(t, i + 1);
      AfterNext(t, i);
      RestWithin(t, h, lo, hi, i + 1);
      GapWithin(t, h, lo, hi, i + 1);
      WithinConcat(e + g, a, lo, hi);
      WithinConcat(e, g, lo, hi);
      WithinOne(t.kvs[i], lo, hi);
      if FindIndex(t.kvs, lo) < i { KvsAbove(t, lo, FindIndex(t.kvs, lo), i); }
      InReach(t.kvs[i].key, lo, hi);
    }
  }

  lemma InReach(k: Key, lo: Key, hi: Key)
    ensures InRange(k, lo, hi) <==> !Less(k, lo) && !Less(hi, k)
  {
    hide Less;
  }

  lemma {:induction false} GapWithin(t: Tree, h: nat, lo: Key, hi: Key, i: nat)
    requires Balanced(t, h, 0) && Searchable(t) && i <= |t.kvs|
    ensures Arity(t) && Within(Gaps(t)[i], lo, hi) == if t.leaf then [] else RangeShape(ShapeOf(t).children[i], lo, hi)
    decreases h, 0
  {
    hide Balanced, Searchable, InOrder, Within, Gaps, FindIndex, Less, RangeShape, ShapeOf, Ranked;
    BalancedIs(t, h, 0);
    ShapeIs(t);
    SearchableIs(t);
    if t.leaf {
      LeafGap(t, i);
      WithinFirst([], lo, hi);
    } else {
      RowAt(t, h - 1, i);
      BalancedAtLeast(t.children[i], h - 1, MIN_KEYS);
      RangeWithin(t.children[i], h - 1, lo, hi);
    }
  }

  /** What the walk has appended: the entries of `s`, keys and values alike. */
  ghost predicate Appended(keys: seq<Key>, values: seq<Value>, keys': seq<Key>, values': seq<Value>, s: seq<Entry>) {
    keys' == keys + Keys(s) && values' == values + Values(s)
  }

  lemma AppendNone(keys: seq<Key>, values: seq<Value>)
    ensures Appended(keys, values, keys, values, [])
  {
  }

  lemma AppendMore(keys: seq<Key>, values: seq<Value>, k0: seq<Key>, v0: seq<Value>, k1: seq<Key>, v1: seq<Value>, a: seq<Entry>, b: seq<Entry>)
    requires Appended(keys, values, k0, v0, a) && Appended(k0, v0, k1, v1, b)
    ensures Appended(keys, values, k1, v1, a + b)
  {
    hide Keys, Values;
    KeysConcat(a, b);
  }

  lemma AppendOne(keys: seq<Key>, values: seq<Value>, e: Entry)
    ensures Appended(keys, values, keys + [e.key], values + [e.value], [e])
  {
  }

  /** `getRange`, on any balanced tree: append what the scan of the value collects. */
  method GetRange(n: Node, lo: Key, hi: Key, keys: seq<Key>, values: seq<Value>, ghost t: Tree, ghost h: nat)
    returns (keys': seq<Key>, values': seq<Value>)
    requires t.node == n && Matches(t) && Balanced(t, h, 0)
    ensures Appended(keys, values, keys', values', RangeShape(ShapeOf(t), lo, hi))
    decreases h
  {
    hide Matches, Balanced, InOrder, Gaps, FindIndex, Less, Keys, Values, Appended, RangeShape, RangeFrom, RangeRest, ShapeOf;
    Existing(t);
    MatchesIs(t);
    BalancedIs(t, h, 0);
    ghost var s := ShapeOf(t);
    ShapeIs(t);
    keys', values' := keys, values;
    var pos := 0;
    while pos < |n.keys| && Less(n.keys[pos], lo)
      invariant 0 <= pos <= |n.keys|
      invariant forall j | 0 <= j < pos :: Less(n.keys[j], lo)
    {
      pos := pos + 1;
    }
    SearchIndexIs(t.kvs, lo, pos);
    RangeIs(s, lo, hi, pos);
    ghost var found := [];
    AppendNone(keys, values);
    if !n.isleaf {
      ChildScan(t, h, pos);
      keys', values' := GetRange(n.children[pos], lo, hi, keys', values', t.children[pos], h - 1);
      found := RangeShape(s.children[pos], lo, hi);
    }
    var i := pos;
    while i < |n.keys| && AtMost(n.keys[i], hi)
      invariant pos <= i <= |n.keys|
      invariant Here(t) && Matches(t)
      invariant Appended(keys, values, keys', values', found)
      invariant RangeShape(s, lo, hi) == found + RangeRest(s, lo, hi, i)
    {
      KeyAt(t.kvs, i);
      RestIs(s, lo, hi, i);
      ghost var k0, v0 := keys', values';
      AppendOne(k0, v0, t.kvs[i]);
      keys', values' := keys' + [n.keys[i]], values' + [n.values[i]];
      ghost var more := [];
      ghost var k1, v1 := keys', values';
      AppendNone(k1, v1);
      if !n.isleaf {
        ChildScan(t, h, i + 1);
        keys', values' := GetRange(n.children[i + 1], lo, hi, keys', values', t.children[i + 1], h - 1);
        more := RangeShape(s.children[i + 1], lo, hi);
      }
      AppendMore(k0, v0, k1, v1, keys', values', [t.kvs[i]], more);
      AppendMore(keys, values, k0, v0, keys', values', found, [t.kvs[i]] + more);
      found := found + ([t.kvs[i]] + more);
      i := i + 1;
    }
    if i < |n.keys| { KeyAt(t.kvs, i); }
    RestIs(s, lo, hi, i);
    assert found + [] == found;
  }

  lemma RangeIs(s: Shape, lo: Key, hi: Key, p: nat)
    requires p == FindIndex(s.kvs, lo) && Fair(s)
    ensures RangeShape(s, lo, hi) == (if s.leaf then [] else RangeShape(s.children[p], lo, hi)) + RangeRest(s, lo, hi, p)
  {
    hide FindIndex, Less;
  }

  lemma RestIs(s: Shape, lo: Key, hi: Key, i: nat)
    requires i <= |s.kvs| && Fair(s)
    ensures i == |s.kvs| || Less(hi, s.kvs[i].key) ==> RangeRest(s, lo, hi, i) == []
    ensures i < |s.kvs| && !Less(hi, s.kvs[i].key) ==>
      RangeRest(s, lo, hi, i) == [s.kvs[i]] + ((if s.leaf then [] else RangeShape(s.children[i + 1], lo, hi)) + RangeRest(s, lo, hi, i + 1))
  {
    hide FindIndex, Less;
  }

  lemma LeafGap(t: Tree, i: nat)
    requires t.leaf && i <= |t.kvs|
    ensures Gaps(t)[i] == []
  {
  }

  ghost function KeySet(s: seq<Entry>): set<Key> {
    set i | 0 <= i < |s| :: s[i].key
  }

  /** The map without the keys in `[lo, hi]`. */
  ghost function Outlying(m: map<Key, Value>, lo: Key, hi: Key): map<Key, Value> {
    map k | k in m && !InRange(k, lo, hi) :: m[k]
  }

  /** Deleting the keys a range query returned deletes the range. */
  lemma KeysGone(s: seq<Entry>, lo: Key, hi: Key)
    requires Sorted(s)
    ensures ToMap(s) - KeySet(Within(s, lo, hi)) == Outlying(ToMap(s), lo, hi)
    ensures KeySet([]) == {}
  {
    hide Less, Sorted, ToMap;
    ToMapEntries(s);
    var r, m := Within(s, lo, hi), ToMap(s);
    WithinMembers(s, lo, hi);
    forall k | k in m ensures k in KeySet(r) <==> InRange(k, lo, hi) {
      var e := Entry(k, m[k]);
      assert e in s;
      if InRange(k, lo, hi) {
        assert e in r;
        var i :| 0 <= i < |r| && r[i] == e;
      }
      if i :| 0 <= i < |r| && r[i].key == k {
        assert r[i] in r;
      }
    }
  }

  /** Each key of the range is still there when its turn comes. */
  lemma NextKey(s: seq<Entry>, lo: Key, hi: Key, i: nat)
    requires Sorted(s) && i < |Within(s, lo, hi)|
    ensures var r := Within(s, lo, hi);
      && r[i].key in ToMap(s) - KeySet(r[..i])
      && KeySet(r[..i + 1]) == KeySet(r[..i]) + {r[i].key}
  {
    hide Less, ToMap, Within, KeySet, Sorted;
    var r := Within(s, lo, hi);
    WithinMembers(s, lo, hi);
    WithinSorted(s, lo, hi);
    ToMapEntries(s);
    assert r[i] in r;
    KeySetNext(r, i);
  }

  lemma KeySetNext(r: seq<Entry>, i: nat)
    requires Sorted(r) && i < |r|
    ensures r[i].key !in KeySet(r[..i]) && KeySet(r[..i + 1]) == KeySet(r[..i]) + {r[i].key}
  {
    hide Less;
    var a, b := r[..i], r[..i + 1];
    forall j | 0 <= j < i ensures a[j].key != r[i].key { LessTotal(r[j].key, r[i].key); }
    assert b == a + [r[i]];
    forall k ensures k in KeySet(b) <==> k in KeySet(a) || k == r[i].key {
      if k in KeySet(a) { var j :| 0 <= j < |a| && a[j].key == k; assert b[j].key == k; }
      if k == r[i].key { assert b[i].key == k; }
      if k in KeySet(b) { var j :| 0 <= j < |b| && b[j].key == k; assert j < i ==> a[j].key == k; }
    }
  }

  // ---------------------------------------------------------------- counting

  /** `countKeys`: own keys first, then each child's. */
  method CountKeys(n: Node, ghost t: Tree, ghost h: nat) returns (count: nat)
    requires t.node == n && Matches(t) && Balanced(t, h, 0)
    ensures count == |InOrder(t)|
    decreases h
  {
    hide Matches, Balanced, InOrder, Stretch, Gaps, Keys, Values, Weave;
    Existing(t);
    MatchesIs(t);
    BalancedIs(t, h, 0);
    count := |n.keys|;
    if !n.isleaf {
      var i := 0;
      while i < |n.children|
        invariant 0 <= i <= |n.children| && Here(t) && Matches(t)
        invariant count == |t.kvs| + if i == 0 then 0 else |Stretch(t, 0, i - 1)| - (i - 1)
      {
        ChildScan(t, h, i);
        var c := CountKeys(n.children[i], t.children[i], h - 1);
        if i == 0 { StretchOne(t, 0); } else { StretchNext(t, 0, i - 1); }
        count := count + c;
        i := i + 1;
      }
      StretchAll(t);
    } else {
      InOrderLeaf(t);
    }
  }

  lemma StretchAll(t: Tree)
    requires Arity(t)
    ensures InOrder(t) == Stretch(t, 0, |t.kvs|)
  {
    hide Stretch, Gaps, Weave, InOrder;
    StretchIn(t, 0, |t.kvs|);
    AfterLast(t);
    HeadsNone(Gaps(t)[..0], t.kvs[..0]);
  }

  // --------------------------------------------------------------- iteration

  /** A callback and what it carries from entry to entry. */
  type Callback<!S> = (S, Entry) -> (S, bool)

  /** The entries one after another, up to and including the first the callback refuses. */
  function Walk<S>(go: Callback<S>, st: S, s: seq<Entry>): (S, bool)
    decreases |s|
  {
    if s == [] then (st, true) else
    var (st', more) := go(st, s[0]);
    if more then Walk(go, st', s[1..]) else (st', false)
  }

  lemma {:induction false} WalkConcat<S>(go: Callback<S>, st: S, a: seq<Entry>, b: seq<Entry>)
    ensures Walk(go, st, a + b) == var r := Walk(go, st, a); if r.1 then Walk(go, r.0, b) else r
    decreases |a|
  {
    if a == [] {
      assert a + b == b;
    } else {
      assert (a + b)[1..] == a[1..] + b && (a + b)[0] == a[0];
      WalkConcat(go, go(st, a[0]).0, a[1..], b);
    }
  }

  lemma WalkOne<S>(go: Callback<S>, st: S, e: Entry)
    ensures Walk(go, st, [e]) == go(st, e) && Walk(go, st, []) == (st, true)
  {
    assert [e][1..] == [];
  }

  /** `forEach`: in order, every entry once, until the callback returns false. */
  method ForEach<S>(n: Node, go: Callback<S>, st: S, ghost t: Tree, ghost h: nat) returns (st': S, more: bool)
    requires t.node == n && Matches(t) && Balanced(t, h, 0)
    ensures (st', more) == Walk(go, st, InOrder(t))
    decreases h
  {
    hide Matches, Balanced, InOrder, Stretch, Gaps, Keys, Values, Weave, Walk;
    Existing(t);
    MatchesIs(t);
    BalancedIs(t, h, 0);
    StretchAll(t);
    StretchOne(t, 0);
    st', more := st, true;
    if n.isleaf {
      LeafGap(t, 0);
      WalkOne(go, st, Entry([], []));
    } else {
      ChildScan(t, h, 0);
      st', more := ForEach(n.children[0], go, st', t.children[0], h - 1);
    }
    var i := 0;
    while more && i < |n.keys|
      invariant 0 <= i <= |n.keys| && Here(t) && Matches(t)
      invariant (st', more) == Walk(go, st, Stretch(t, 0, i))
    {
      KeyAt(t.kvs, i);
      StretchNext(t, 0, i);
      WalkConcat(go, st, Stretch(t, 0, i), [t.kvs[i]]);
      WalkConcat(go, st, Stretch(t, 0, i) + [t.kvs[i]], Gaps(t)[i + 1]);
      WalkOne(go, st', t.kvs[i]);
      var r := go(st', Entry(n.keys[i], n.values[i]));
      st', more := r.0, r.1;
      if more {
        if n.isleaf {
          LeafGap(t, i + 1);
          WalkOne(go, st', t.kvs[i]);
        } else {
          ChildScan(t, h, i + 1);
          st', more := ForEach(n.children[i + 1], go, st', t.children[i + 1], h - 1);
        }
      }
      i := i + 1;
    }
    if i < |t.kvs| {
      StretchIn(t, 0, i);
      HeadsNone(Gaps(t)[..0], t.kvs[..0]);
      assert InOrder(t) == Stretch(t, 0, i) + After(t, i);
      WalkConcat(go, st, Stretch(t, 0, i), After(t, i));
    }
  }
}
