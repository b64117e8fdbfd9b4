/** `Insert`: the recorded descent path, the splits along it, and what they add up to. */
module Insertion {
  import opened Bytes
  import opened Entries
  import opened Weaving
  import opened Nodes
  import opened Shapes
  import opened Repair
  import opened Subtrees
  import opened Slots

  // --------------------------------------------------------- the descent path

  /** The child a search for `key` goes to. */
  ghost function Slot(t: Tree, key: Key): nat {
    FindIndex(t.kvs, key)
  }

  /** `ts` is a run of nodes as the descent for `key` visits them. */
  ghost predicate Path(ts: seq<Tree>, key: Key) {
    && ts != []
    && forall i | 0 <= i < |ts| - 1 ::
         !ts[i].leaf && Arity(ts[i]) && ts[i + 1] == ts[i].children[Slot(ts[i], key)]
  }

  /** The leaf the descent ends in. */
  ghost function Reached(t: Tree, key: Key): Tree {
    if t.leaf || !Arity(t) then t else Reached(t.children[Slot(t, key)], key)
  }

  /** Every node on the descent is full. */
  ghost predicate PathFull(t: Tree, key: Key) {
    |t.kvs| == MAX_KEYS && (t.leaf || !Arity(t) || PathFull(t.children[Slot(t, key)], key))
  }

  lemma PathChild(ts: seq<Tree>, key: Key, i: nat)
    requires Path(ts, key) && 0 < i < |ts|
    ensures var t := ts[i - 1]; !t.leaf && Arity(t) && ts[i] == t.children[Slot(t, key)]
  {
  }

  lemma {:induction false} PathEnds(ts: seq<Tree>, key: Key, i: nat)
    requires Path(ts, key) && i < |ts| && ts[|ts| - 1].leaf
    ensures Reached(ts[i], key) == ts[|ts| - 1]
    ensures PathFull(ts[i], key) <==> forall j | i <= j < |ts| :: |ts[j].kvs| == MAX_KEYS
    decreases |ts| - i
  {
    if i < |ts| - 1 { PathEnds(ts, key, i + 1); }
  }

  /** The nodes outside `ts[i]`: the path above it and the siblings hanging off the path. */
  ghost function Outside(ts: seq<Tree>, key: Key, i: nat): set<Node>
    requires Path(ts, key) && i < |ts|
  {
    if i == 0 then {}
    else Outside(ts, key, i - 1) + {ts[i - 1].node} + ReprAll(Siblings(ts[i - 1], Slot(ts[i - 1], key)))
  }

  /** The heap agrees with the tree outside `ts[i]`. */
  ghost predicate Upper(ts: seq<Tree>, key: Key, i: nat)
    requires Path(ts, key) && i < |ts|
    reads Outside(ts, key, i)
  {
    i > 0 ==>
      && Upper(ts, key, i - 1)
      && Here(ts[i - 1])
      && MatchesAll(Siblings(ts[i - 1], Slot(ts[i - 1], key)))
  }

  lemma {:induction false} PathApart(ts: seq<Tree>, key: Key, i: nat)
    requires Path(ts, key) && i < |ts| && Distinct(ts[0])
    ensures Distinct(ts[i]) && Repr(ts[i]) <= Repr(ts[0])
    ensures Outside(ts, key, i) !! Repr(ts[i]) && Outside(ts, key, i) <= Repr(ts[0])
  {
    hide Distinct, Repr, ReprAll, Siblings, FindIndex;
    if i > 0 {
      PathApart(ts, key, i - 1);
      var t, q := ts[i - 1], Slot(ts[i - 1], key);
      assert ts[i] == t.children[q];
      ApartChild(t, q);
    }
  }

  lemma {:induction false} PathMatches(ts: seq<Tree>, key: Key, i: nat)
    requires Path(ts, key) && i < |ts| && Matches(ts[0])
    ensures Matches(ts[i]) && Here(ts[i]) && Upper(ts, key, i)
  {
    hide Matches, MatchesAll, Here, Siblings, FindIndex;
    MatchesIs(ts[i]);
    if i > 0 {
      PathMatches(ts, key, i - 1);
      MatchesChild(ts[i - 1], Slot(ts[i - 1], key));
    }
  }

  lemma PathStarts(t: Tree, key: Key)
    ensures Path([t], key)
  {
  }

  lemma PathExtends(ts: seq<Tree>, key: Key, c: Tree)
    requires Path(ts, key)
    requires var t := ts[|ts| - 1]; !t.leaf && Arity(t) && c == t.children[Slot(t, key)]
    ensures Path(ts + [c], key)
  {
    var us := ts + [c];
    forall i | 0 <= i < |us| - 1
      ensures !us[i].leaf && Arity(us[i]) && us[i + 1] == us[i].children[Slot(us[i], key)]
    {
      if i < |ts| - 1 { assert us[i + 1] == ts[i + 1]; }
    }
  }

  lemma {:induction false} PathBalanced(ts: seq<Tree>, key: Key, i: nat, h: nat)
    requires Path(ts, key) && i < |ts| && Balanced(ts[0], h, 1)
    ensures i <= h && Balanced(ts[i], h - i, 1) && (i > 0 ==> |ts[i].kvs| >= MIN_KEYS)
  {
    hide Balanced, FindIndex;
    if i > 0 {
      PathBalanced(ts, key, i - 1, h);
      var t, q := ts[i - 1], Slot(ts[i - 1], key);
      BalancedIs(t, h - i + 1, 1);
      RowAt(t, h - i, q);
      BalancedIs(ts[i], h - i, MIN_KEYS);
      BalancedIs(ts[i], h - i, 1);
    }
  }

  // ------------------------------------------------------- changes in contents

  /** What `Insert` does to an in-order sequence: overwrite in place, or a new entry. */
  ghost function Put(s: seq<Entry>, e: Entry, overwrite: bool): seq<Entry> {
    var i := FindIndex(s, e.key);
    if overwrite && i < |s| then s[i := e] else s[..i] + [e] + s[i..]
  }

  lemma PutFocus(a: seq<Entry>, b: seq<Entry>, c: seq<Entry>, e: Entry, overwrite: bool)
    requires forall i | 0 <= i < |a| :: Less(a[i].key, e.key)
    requires c != [] ==> !Less(c[0].key, e.key)
    requires overwrite ==> Has(b, e.key)
    ensures Put(a + b + c, e, overwrite) == a + Put(b, e, overwrite) + c
    ensures overwrite ==> Has(a + b + c, e.key)
  {
    hide FindIndex, Less;
    FindIndexFocus(a, b, c, e.key);
    var s, i := a + b + c, FindIndex(b, e.key);
    if overwrite {
      assert s[|a| + i] == b[i];
      assert s[|a| + i := e] == a + b[i := e] + c;
    } else {
      assert s[..|a| + i] == a + b[..i] && s[|a| + i..] == b[i..] + c;
      assert (a + b[..i]) + [e] + (b[i..] + c) == a + (b[..i] + [e] + b[i..]) + c;
    }
  }

  /** Changing the child on the path changes the node in the same way. */
  lemma PutInChild(t: Tree, e: Entry, overwrite: bool, c: Tree)
    requires Arity(t) && !t.leaf && Searchable(t)
    requires overwrite ==> Has(InOrder(t.children[Slot(t, e.key)]), e.key)
    requires InOrder(c) == Put(InOrder(t.children[Slot(t, e.key)]), e, overwrite)
    ensures InOrder(WithChild(t, Slot(t, e.key), c)) == Put(InOrder(t), e, overwrite)
    ensures overwrite ==> Has(InOrder(t), e.key)
  {
    hide FindIndex, Less, InOrder, Put, Has, Heads, Tails;
    var p := Slot(t, e.key);
    SlotChild(t, e.key, p);
    InOrderWithChild(t, p, c);
    PutFocus(Before(t, p), InOrder(t.children[p]), After(t, p), e, overwrite);
  }

  lemma PutSplitChild(t: Tree, e: Entry, l: Tree, m: Entry, r: Tree)
    requires Arity(t) && !t.leaf && Searchable(t)
    requires InOrder(l) + [m] + InOrder(r) == Put(InOrder(t.children[Slot(t, e.key)]), e, false)
    ensures InOrder(SplitChild(t, Slot(t, e.key), l, m, r)) == Put(InOrder(t), e, false)
  {
    hide FindIndex, Less, InOrder, Put, Has, Heads, Tails, Before, After, Searchable, SplitChild;
    var p := Slot(t, e.key);
    SlotChild(t, e.key, p);
    InOrderSplitChild(t, p, l, m, r);
    PutFocus(Before(t, p), InOrder(t.children[p]), After(t, p), e, false);
    Grouped(Before(t, p), InOrder(l), m, InOrder(r), After(t, p));
  }

  lemma Grouped(a: seq<Entry>, b: seq<Entry>, m: Entry, c: seq<Entry>, d: seq<Entry>)
    ensures a + b + [m] + c + d == a + (b + [m] + c) + d
  {
  }

  /** The promoted entry belongs where the descent went, so searching the parent for it finds the
      same slot. */
  lemma PromotedSlot(t: Tree, h: nat, e: Entry, l: Tree, m: Entry, r: Tree)
    requires Arity(t) && !t.leaf && Searchable(t)
    requires SplitOf(t.children[Slot(t, e.key)], h, e, l, m, r)
    ensures FindIndex(t.kvs, m.key) == Slot(t, e.key)
    ensures Searchable(SplitChild(t, Slot(t, e.key), l, m, r))
  {
    hide Less, InOrder, FindIndex, Searchable, Put, Balanced, Upto, AllAbove, FromGap, Distinct, DistinctAll, Inner;
    var p := Slot(t, e.key);
    SearchableIs(t);
    PutFromGap(InOrder(t.children[p]), e, false);
    BalancedIs(r, h, MIN_KEYS);
    NonEmpty(r);
    SearchableSplit(t, p, e, l, m, r);
  }

  /** Child `q`, split into `l` and `r`, in a node that takes the promoted entry where a search for it
      ends, with `r` right of it. */
  ghost function PlaceChild(t: Tree, q: nat, l: Tree, m: Entry, r: Tree): Tree
    requires Arity(t) && !t.leaf && q <= |t.kvs|
  {
    var v, i := WithChild(t, q, l), FindIndex(t.kvs, m.key);
    SplitChild(v, i, v.children[i], m, r)
  }

  /** Where the search ends at the child that was split, the halves end up side by side. */
  lemma PlacedBeside(t: Tree, q: nat, l: Tree, m: Entry, r: Tree)
    requires Arity(t) && !t.leaf && q <= |t.kvs| && FindIndex(t.kvs, m.key) == q
    ensures PlaceChild(t, q, l, m, r) == SplitChild(t, q, l, m, r)
  {
    hide FindIndex;
  }

  lemma PlacedShape(t: Tree, q: nat, l: Tree, m: Entry, r: Tree)
    requires Arity(t) && !t.leaf && q <= |t.kvs|
    ensures !ShapeOf(t).leaf && Fair(ShapeOf(t)) && |ShapeOf(t).kvs| == |t.kvs|
    ensures ShapeOf(PlaceChild(t, q, l, m, r)) == Place(ShapeOf(t), q, ShapeOf(l), m, ShapeOf(r))
  {
    hide FindIndex, ShapeOf;
    var w, i, cs := PlaceChild(t, q, l, m, r), FindIndex(t.kvs, m.key), t.children[q := l];
    assert w.children == cs[..i + 1] + [r] + cs[i + 1..];
    ShapeIs(t);
    ShapeIs(w);
    ShapesPut(t.children, q, l);
    ShapesConcat(cs[..i + 1] + [r], cs[i + 1..]);
    ShapesConcat(cs[..i + 1], [r]);
    ShapesTwo(r, r);
    ShapesCut(cs, i + 1, |cs|);
    ShapesCut(cs, 0, i + 1);
  }

  lemma PlacedCount(t: Tree, q: nat, l: Tree, m: Entry, r: Tree)
    requires Arity(t) && !t.leaf && q <= |t.kvs| && |InOrder(l)| + |InOrder(r)| == |InOrder(t.children[q])|
    ensures |InOrder(PlaceChild(t, q, l, m, r))| == |InOrder(t)| + 1
  {
    hide FindIndex, InOrder, Heads, Tails;
    var v, i := WithChild(t, q, l), FindIndex(t.kvs, m.key);
    InOrderWithChild(t, q, l);
    InOrderSplitChild(v, i, v.children[i], m, r);
    InOrderWithChild(v, i, v.children[i]);
  }

  lemma PutFromGap(s: seq<Entry>, e: Entry, overwrite: bool)
    ensures FromGap(Put(s, e, overwrite), s, e)
  {
    hide FindIndex;
  }

  // ------------------------------------------------------ entries of inner nodes

  ghost function Elems(s: seq<Entry>): set<Entry> {
    set e | e in s
  }

  /** The entries held in inner nodes. */
  ghost function Inner(t: Tree): set<Entry> {
    if t.leaf then {} else Elems(t.kvs) + set i, e | 0 <= i < |t.children| && e in Inner(t.children[i]) :: e
  }

  ghost function InnerAll(ts: seq<Tree>): set<Entry> {
    set i, e | 0 <= i < |ts| && e in Inner(ts[i]) :: e
  }

  lemma InnerIs(t: Tree)
    ensures Inner(t) == if t.leaf then {} else Elems(t.kvs) + InnerAll(t.children)
  {
  }

  lemma InnerConcat(a: seq<Tree>, b: seq<Tree>)
    ensures InnerAll(a + b) == InnerAll(a) + InnerAll(b)
  {
    hide Inner;
    var s := a + b;
    forall e | e in InnerAll(s) ensures e in InnerAll(a) + InnerAll(b) {
      var i :| 0 <= i < |s| && e in Inner(s[i]);
      if i < |a| { assert e in Inner(a[i]); } else { assert e in Inner(b[i - |a|]); }
    }
    forall e | e in InnerAll(a) ensures e in InnerAll(s) {
      var i :| 0 <= i < |a| && e in Inner(a[i]);
      assert e in Inner(s[i]);
    }
    forall e | e in InnerAll(b) ensures e in InnerAll(s) {
      var i :| 0 <= i < |b| && e in Inner(b[i]);
      assert e in Inner(s[|a| + i]);
    }
  }

  lemma InnerOne(t: Tree)
    ensures InnerAll([t]) == Inner(t)
  {
    assert [t][0] == t;
  }

  /** Exchanging a child for others that keep its inner entries keeps the node's. */
  lemma InnerPut(t: Tree, q: nat, ws: seq<Tree>, u: Tree)
    requires !t.leaf && !u.leaf && q < |t.children| && u.children == t.children[..q] + ws + t.children[q + 1..]
    requires Elems(t.kvs) <= Elems(u.kvs) && Inner(t.children[q]) <= Elems(u.kvs) + InnerAll(ws)
    ensures Inner(t) <= Inner(u)
  {
    hide Inner, InnerAll, Elems;
    var x, c, y := t.children[..q], t.children[q], t.children[q + 1..];
    ChildSplit(t, q);
    InnerIs(t);
    InnerIs(u);
    InnerOne(c);
    InnerConcat(x, [c]);
    InnerConcat(x + [c], y);
    InnerConcat(x, ws);
    InnerConcat(x + ws, y);
  }

  /** Splitting a node promotes one entry and keeps the others at their level. */
  lemma InnerHalves(w: Tree, n: Node)
    requires Arity(w) && w.kvs != []
    ensures Inner(w) <= Inner(LeftHalf(w)) + {Median(w)} + Inner(RightHalf(w, n))
  {
    hide Inner, InnerAll;
    var l, r := LeftHalf(w), RightHalf(w, n);
    HalvesJoin(w, n);
    InnerIs(w);
    InnerIs(l);
    InnerIs(r);
    InnerConcat(l.children, r.children);
    assert w.kvs == l.kvs + [Median(w)] + r.kvs;
  }

  // ---------------------------------------------------------------- splitting

  /** The part of an overfull node left of its median. */
  ghost function LeftHalf(w: Tree): Tree
    requires Arity(w) && w.kvs != []
  {
    var mid := |w.kvs| / 2;
    w.(kvs := w.kvs[..mid], children := if w.leaf then [] else w.children[..mid + 1])
  }

  /** The part right of the median, in a new node. */
  ghost function RightHalf(w: Tree, n: Node): Tree
    requires Arity(w) && w.kvs != []
  {
    var mid := |w.kvs| / 2;
    Tree(n, w.leaf, w.kvs[mid + 1..], if w.leaf then [] else w.children[mid + 1..])
  }

  ghost function Median(w: Tree): Entry
    requires w.kvs != []
  {
    w.kvs[|w.kvs| / 2]
  }

  lemma HalvesJoin(w: Tree, n: Node)
    requires Arity(w) && w.kvs != []
    ensures Joined(LeftHalf(w), Median(w), RightHalf(w, n)) == w
    ensures Arity(LeftHalf(w)) && Arity(RightHalf(w, n)) && LeftHalf(w).leaf == RightHalf(w, n).leaf == w.leaf
    ensures LeftHalf(w).children + RightHalf(w, n).children == w.children
    ensures |LeftHalf(w).kvs| == |w.kvs| / 2 && |RightHalf(w, n).kvs| == |w.kvs| - |w.kvs| / 2 - 1
    ensures LeftHalf(w).node == w.node && RightHalf(w, n).node == n
  {
    var mid := |w.kvs| / 2;
    assert w.kvs == w.kvs[..mid] + [w.kvs[mid]] + w.kvs[mid + 1..];
  }

  /** The two nodes a split of the subtree `t` on account of entry `e` leaves, with `m` promoted. */
  ghost predicate SplitOf(t: Tree, h: nat, e: Entry, l: Tree, m: Entry, r: Tree) {
    && l.node == t.node
    && Balanced(l, h, MIN_KEYS) && Balanced(r, h, MIN_KEYS)
    && DistinctAll([l, r])
    && Inner(t) <= Inner(l) + {m} + Inner(r)
    && |InOrder(l)| + |InOrder(r)| == |InOrder(t)|
    && PutIn(ShapeOf(t), e) == Splits(ShapeOf(l), m, ShapeOf(r))
    && (Searchable(t) ==>
      && InOrder(l) + [m] + InOrder(r) == Put(InOrder(t), e, false)
      && Searchable(l) && Searchable(r) && Upto(InOrder(l), m.key) && AllAbove(m.key, InOrder(r)))
  }

  /** `w` is `t` with one more entry of its own on account of `e`, possibly too many. */
  ghost predicate Grown(t: Tree, h: nat, e: Entry, w: Tree) {
    && w.node == t.node && w.leaf == t.leaf && (w.leaf <==> h == 0)
    && Arity(w) && |w.kvs| == |t.kvs| + 1
    && (h > 0 ==> Row(w.children, h - 1))
    && Distinct(w)
    && Inner(t) <= Inner(w)
    && |InOrder(w)| == |InOrder(t)| + 1
    && Fair(ShapeOf(w)) && PutIn(ShapeOf(t), e) == Settle(ShapeOf(w))
    && (Searchable(t) ==> InOrder(w) == Put(InOrder(t), e, false) && Searchable(w))
  }

  lemma GrownSplits(t: Tree, h: nat, e: Entry, w: Tree, n: Node)
    requires Grown(t, h, e, w) && |t.kvs| == MAX_KEYS && n !in Repr(w)
    ensures SplitOf(t, h, e, LeftHalf(w), Median(w), RightHalf(w, n))
    ensures ReprAll([LeftHalf(w), RightHalf(w, n)]) == Repr(w) + {n}
  {
    hide Distinct, DistinctAll, Repr, ReprAll, InOrder, Balanced, Row, Put, LeftHalf, RightHalf, Joined, Searchable, Upto, AllAbove,
      ShapeOf, PutIn, Settle;
    var l, m, r := LeftHalf(w), Median(w), RightHalf(w, n);
    if Searchable(w) { HalvesSearchable(w, n); }
    HalvesShape(w, n);
    HalvesJoin(w, n);
    InOrderJoined(l, m, r);
    InnerHalves(w, n);
    Unfold(w);
    Pair(l, r);
    if h > 0 { RowConcat(l.children, r.children, h - 1); }
    BalancedIs(l, h, MIN_KEYS);
    BalancedIs(r, h, MIN_KEYS);
  }

  lemma HalvesShape(w: Tree, n: Node)
    requires Arity(w) && |w.kvs| > MAX_KEYS
    ensures Fair(ShapeOf(w)) && Settle(ShapeOf(w)) == Splits(ShapeOf(LeftHalf(w)), Median(w), ShapeOf(RightHalf(w, n)))
  {
    hide ShapeOf;
    var l, r, mid := LeftHalf(w), RightHalf(w, n), |w.kvs| / 2;
    ShapeIs(w);
    ShapeIs(l);
    ShapeIs(r);
    ShapesTwo(l, r);
    if !w.leaf {
      ShapesCut(w.children, 0, mid + 1);
      ShapesCut(w.children, mid + 1, |w.children|);
    }
  }

  lemma HalvesSearchable(w: Tree, n: Node)
    requires Arity(w) && w.kvs != [] && Searchable(w)
    ensures Searchable(LeftHalf(w)) && Searchable(RightHalf(w, n))
    ensures Upto(InOrder(LeftHalf(w)), Median(w).key) && AllAbove(Median(w).key, InOrder(RightHalf(w, n)))
  {
    hide Searchable, InOrder, Upto, AllAbove;
    SearchableCut(w, LeftHalf(w), RightHalf(w, n), |w.kvs| / 2);
  }

  lemma GrownFits(t: Tree, h: nat, e: Entry, w: Tree)
    requires Grown(t, h, e, w) && |t.kvs| < MAX_KEYS
    ensures Balanced(w, h, |w.kvs|) && PutIn(ShapeOf(t), e) == Fits(ShapeOf(w))
  {
    hide Balanced, Row, ShapeOf, PutIn;
    BalancedIs(w, h, |w.kvs|);
    ShapeIs(w);
  }

  /** A leaf with the new entry in its place. */
  lemma LeafGrows(t: Tree, e: Entry)
    requires t.leaf && Balanced(t, 0, 1) && Distinct(t) && !Has(t.kvs, e.key)
    ensures Grown(t, 0, e, t.(kvs := InsertEntry(t.kvs, e)))
    ensures Repr(t.(kvs := InsertEntry(t.kvs, e))) == Repr(t)
  {
    hide Searchable, Less, FindIndex, Has, ShapeOf;
    var w := t.(kvs := InsertEntry(t.kvs, e));
    ShapeIs(t);
    ShapeIs(w);
    InOrderLeaf(t);
    InOrderLeaf(w);
    Unfold(t);
    Unfold(w);
    if Searchable(t) {
      SearchableLeaf(t);
      SearchableLeaf(w);
      SortedInsert(t.kvs, e);
    }
  }

  /** An inner node that takes the promoted entry and the new right node of a split child. */
  lemma InnerGrows(t: Tree, h: nat, e: Entry, l: Tree, m: Entry, r: Tree)
    requires 0 < h && Balanced(t, h, 1) && Distinct(t)
    requires !t.leaf && Arity(t)
    requires SplitOf(t.children[Slot(t, e.key)], h - 1, e, l, m, r)
    requires ReprAll([l, r]) * Repr(t) <= Repr(t.children[Slot(t, e.key)])
    ensures var w := PlaceChild(t, Slot(t, e.key), l, m, r);
      && Grown(t, h, e, w)
      && w.kvs == InsertEntry(t.kvs, m)
      && Repr(w) <= Repr(t) + ReprAll([l, r])
  {
    hide Distinct, DistinctAll, Repr, ReprAll, InOrder, Balanced, Put, FindIndex, Searchable, Row, ShapeOf, PlaceChild, Inner, Settle;
    var q := Slot(t, e.key);
    BalancedIs(t, h, 1);
    PlacedFields(t, q, l, m, r);
    PlacedCount(t, q, l, m, r);
    InnerApart(t, q, l, m, r);
    InnerRow(t, h, q, l, m, r);
    InnerKept(t, q, l, m, r);
    InnerPuts(t, e, l, m, r);
    if Searchable(t) {
      SearchableIs(t);
      PutSplitChild(t, e, l, m, r);
      PromotedSlot(t, h - 1, e, l, m, r);
      PlacedBeside(t, q, l, m, r);
    }
  }

  lemma PlacedFields(t: Tree, q: nat, l: Tree, m: Entry, r: Tree)
    requires Arity(t) && !t.leaf && q <= |t.kvs|
    ensures var w := PlaceChild(t, q, l, m, r);
      && w.node == t.node && !w.leaf && Arity(w) && |w.kvs| == |t.kvs| + 1 && w.kvs == InsertEntry(t.kvs, m)
  {
    hide FindIndex;
  }

  lemma InnerPuts(t: Tree, e: Entry, l: Tree, m: Entry, r: Tree)
    requires Arity(t) && !t.leaf && PutIn(ShapeOf(t.children[Slot(t, e.key)]), e) == Splits(ShapeOf(l), m, ShapeOf(r))
    ensures var w := PlaceChild(t, Slot(t, e.key), l, m, r);
      Fair(ShapeOf(w)) && PutIn(ShapeOf(t), e) == Settle(ShapeOf(w))
  {
    hide FindIndex, ShapeOf, Settle, PlaceChild, Place;
    var q := Slot(t, e.key);
    ShapeIs(t);
    ShapesPut(t.children, q, l);
    PlacedShape(t, q, l, m, r);
  }

  lemma InnerKept(t: Tree, q: nat, l: Tree, m: Entry, r: Tree)
    requires !t.leaf && Arity(t) && q <= |t.kvs| && Inner(t.children[q]) <= Inner(l) + {m} + Inner(r)
    ensures Inner(t) <= Inner(PlaceChild(t, q, l, m, r))
  {
    hide Inner, InnerAll, Elems, PlaceChild;
    var cs, x, c, y := t.children[q := l], t.children[..q], t.children[q], t.children[q + 1..];
    InnerIs(t);
    ChildSplit(t, q);
    assert cs == x + [l] + y;
    InnerThree(x, c, y);
    InnerThree(x, l, y);
    PlacedInner(t, q, l, m, r);
  }

  lemma PlacedInner(t: Tree, q: nat, l: Tree, m: Entry, r: Tree)
    requires !t.leaf && Arity(t) && q <= |t.kvs|
    ensures Inner(PlaceChild(t, q, l, m, r)) == Elems(t.kvs) + {m} + InnerAll(t.children[q := l]) + Inner(r)
  {
    hide Inner, InnerAll, FindIndex, Elems;
    var w, i, cs := PlaceChild(t, q, l, m, r), FindIndex(t.kvs, m.key), t.children[q := l];
    InnerIs(w);
    MoreElems(t.kvs, m, i);
    var a, b := cs[..i + 1], cs[i + 1..];
    assert cs == a + b && w.children == a + [r] + b;
    InnerConcat(a, b);
    InnerThree(a, r, b);
  }

  lemma InnerThree(a: seq<Tree>, c: Tree, b: seq<Tree>)
    ensures InnerAll(a + [c] + b) == InnerAll(a) + Inner(c) + InnerAll(b)
  {
    hide Inner, InnerAll;
    InnerOne(c);
    InnerConcat(a + [c], b);
    InnerConcat(a, [c]);
  }

  lemma MoreElems(s: seq<Entry>, m: Entry, i: nat)
    requires i <= |s|
    ensures Elems(s[..i] + [m] + s[i..]) == Elems(s) + {m}
  {
    assert s == s[..i] + s[i..];
  }

  lemma InnerRow(t: Tree, h: nat, q: nat, l: Tree, m: Entry, r: Tree)
    requires 0 < h && !t.leaf && Arity(t) && q <= |t.kvs| && Row(t.children, h - 1)
    requires Balanced(l, h - 1, MIN_KEYS) && Balanced(r, h - 1, MIN_KEYS)
    ensures Row(PlaceChild(t, q, l, m, r).children, h - 1)
  {
    hide Balanced, FindIndex;
  }

  lemma InnerApart(t: Tree, q: nat, l: Tree, m: Entry, r: Tree)
    requires !t.leaf && Arity(t) && Distinct(t) && q <= |t.kvs| && DistinctAll([l, r])
    requires ReprAll([l, r]) * Repr(t) <= Repr(t.children[q])
    ensures Distinct(PlaceChild(t, q, l, m, r))
    ensures Repr(PlaceChild(t, q, l, m, r)) <= Repr(t) + ReprAll([l, r])
  {
    hide Distinct, DistinctAll, Repr, ReprAll, FindIndex;
    var v, w, i := WithChild(t, q, l), PlaceChild(t, q, l, m, r), FindIndex(t.kvs, m.key);
    var x, c, y := t.children[..q], t.children[q], t.children[q + 1..];
    ChildSplit(t, q);
    Unfold(t);
    Unfold(w);
    One(c);
    One(l);
    One(r);
    ApartChild(t, q);
    Rebuilt(x, [c], y, [l, r]);
    DistinctConcat(x + [l, r], y);
    ReprConcat(x + [l, r], y);
    ReprConcat(x, [c]);
    ReprConcat(x + [c], y);
    ReprConcat(x, [l, r]);
    assert v.children == x + [l] + y;
    assert (x + [l]) + [r] == x + [l, r];
    Moved(x + [l], y, r, v.children, i);
    assert w.children == v.children[..i + 1] + [r] + v.children[i + 1..];
  }

  /** A tree in a list, moved to another place of it. */
  lemma Moved(a: seq<Tree>, b: seq<Tree>, r: Tree, cs: seq<Tree>, i: nat)
    requires cs == a + b && DistinctAll(a + [r] + b) && i < |cs|
    ensures DistinctAll(cs[..i + 1] + [r] + cs[i + 1..])
    ensures ReprAll(cs[..i + 1] + [r] + cs[i + 1..]) == ReprAll(a + [r] + b)
  {
    hide Distinct, DistinctAll, Repr, ReprAll;
    var x, y := cs[..i + 1], cs[i + 1..];
    assert cs == x + y;
    DistinctConcat(a + [r], b); DistinctConcat(a, [r]); ReprConcat(a + [r], b); ReprConcat(a, [r]);
    DistinctConcat(a, b); ReprConcat(a, b);
    DistinctConcat(x, y); ReprConcat(x, y);
    DistinctConcat(x + [r], y); DistinctConcat(x, [r]); ReprConcat(x + [r], y); ReprConcat(x, [r]);
  }

  // --------------------------------------------------------------- the writes

  lemma KeysInserted(s: seq<Entry>, e: Entry, i: nat)
    requires i == FindIndex(s, e.key)
    ensures Keys(InsertEntry(s, e)) == Keys(s)[..i] + [e.key] + Keys(s)[i..]
    ensures Values(InsertEntry(s, e)) == Values(s)[..i] + [e.value] + Values(s)[i..]
  {
    hide FindIndex;
  }

  lemma HalfFields(w: Tree, n: Node)
    requires Arity(w) && w.kvs != []
    ensures var l, r, mid := LeftHalf(w), RightHalf(w, n), |w.kvs| / 2;
      && l.node == w.node && l.leaf == w.leaf && r.node == n && r.leaf == w.leaf
      && Keys(l.kvs) == Keys(w.kvs)[..mid] && Keys(r.kvs) == Keys(w.kvs)[mid + 1..]
      && Values(l.kvs) == Values(w.kvs)[..mid] && Values(r.kvs) == Values(w.kvs)[mid + 1..]
      && Roots(l.children) == (if w.leaf then [] else Roots(w.children)[..mid + 1])
      && Roots(r.children) == (if w.leaf then [] else Roots(w.children)[mid + 1..])
      && Median(w) == Entry(Keys(w.kvs)[mid], Values(w.kvs)[mid])
  {
  }

  /** `splitNodeSimple`: the node with one more entry (and one more child) is cut at the median. */
  method SplitNode(node: Node, key: Key, value: Value, childPos: int, child: Node?, ghost t: Tree, ghost w: Tree)
    returns (m: Entry, newNode: Node)
    requires t.node == node && Here(t) && Arity(t) && Arity(w) && w.node == node && w.leaf == t.leaf
    requires w.kvs == InsertEntry(t.kvs, Entry(key, value))
    requires t.leaf <==> childPos < 0
    requires !t.leaf ==> 0 <= childPos <= |t.children| && child != null
    requires !t.leaf ==> Roots(w.children) == Roots(t.children)[..childPos] + [child] + Roots(t.children)[childPos..]
    modifies node`keys, node`values, node`children
    ensures fresh(newNode)
    ensures m == Median(w) && Here(LeftHalf(w)) && Here(RightHalf(w, newNode))
  {
    hide Less, FindIndex, Keys, Values, Roots, InsertEntry, LeftHalf, RightHalf, Median;
    var insertPos := node.Search(key);
    SearchIndexIs(t.kvs, key, insertPos);
    KeysInserted(t.kvs, Entry(key, value), insertPos);
    var tempKeys := node.keys[..insertPos] + [key] + node.keys[insertPos..];
    var tempValues := node.values[..insertPos] + [value] + node.values[insertPos..];
    var mid := |tempKeys| / 2;
    m := Entry(tempKeys[mid], tempValues[mid]);
    newNode := new Node(node.isleaf);
    HalfFields(w, newNode);
    newNode.keys := tempKeys[mid + 1..];
    newNode.values := tempValues[mid + 1..];
    if !node.isleaf {
      var tempChildren := node.children[..childPos] + [child] + node.children[childPos..];
      newNode.children := tempChildren[mid + 1..];
      node.children := tempChildren[..mid + 1];
    }
    node.keys := tempKeys[..mid];
    node.values := tempValues[..mid];
  }

  /** The descent loop: the nodes passed on the way to the leaf for `key`. */
  method FindLeaf(root: Node, key: Key, ghost t: Tree, ghost h: nat)
    returns (path: seq<Node>, node: Node, ghost ts: seq<Tree>)
    requires t.node == root && Matches(t) && Balanced(t, h, 1)
    ensures node == Reached(t, key).node
    ensures Path(ts, key) && ts[0] == t && |ts| == |path| + 1 && ts[|path|].leaf && node == ts[|path|].node
    ensures forall j | 0 <= j < |path| :: path[j] == ts[j].node
    ensures Matches(t) && Matches(ts[|path|])
    ensures Upper(ts, key, |path|)
  {
    hide FindIndex, Less, Matches, Balanced, Repr, Keys, Path, Upper;
    node, path, ts := root, [], [t];
    Existing(t);
    PathStarts(t, key);
    PathMatches(ts, key, 0);
    PathBalanced(ts, key, 0, h);
    while !node.isleaf
      invariant |ts| == |path| + 1 && ts[0] == t && Path(ts, key) && node == ts[|path|].node
      invariant forall j | 0 <= j < |path| :: path[j] == ts[j].node
      invariant Matches(t) && Here(ts[|path|]) && |path| <= h && Balanced(ts[|path|], h - |path|, 1)
      decreases h - |path|
    {
      ghost var cur := ts[|path|];
      BalancedIs(cur, h - |path|, 1);
      path := path + [node];
      var idx := node.Search(key);
      SearchIndexIs(cur.kvs, key, idx);
      node := node.children[idx];
      PathExtends(ts, key, cur.children[idx]);
      ts := ts + [cur.children[idx]];
      PathMatches(ts, key, |path|);
      PathBalanced(ts, key, |path|, h);
    }
    PathMatches(ts, key, |path|);
    PathEnds(ts, key, 0);
  }

  lemma PlacedRoots(t: Tree, q: nat, l: Tree, m: Entry, r: Tree)
    requires Arity(t) && !t.leaf && q <= |t.kvs| && l.node == t.children[q].node
    ensures var w, i := PlaceChild(t, q, l, m, r), FindIndex(t.kvs, m.key);
      Roots(w.children) == Roots(t.children)[..i + 1] + [r.node] + Roots(t.children)[i + 1..]
  {
    hide FindIndex;
  }

  lemma MatchesPlaced(t: Tree, q: nat, l: Tree, m: Entry, r: Tree)
    requires Arity(t) && !t.leaf && q <= |t.kvs|
    requires Matches(l) && Matches(r) && MatchesAll(Siblings(t, q))
    ensures MatchesAll(PlaceChild(t, q, l, m, r).children)
  {
    hide Matches, MatchesAll, FindIndex;
    var x, y, cs, i := t.children[..q], t.children[q + 1..], t.children[q := l], FindIndex(t.kvs, m.key);
    MatchesOne(l);
    MatchesOne(r);
    MatchesConcat(x, y);
    MatchesConcat(x, [l]);
    MatchesConcat(x + [l], y);
    assert cs == x + [l] + y;
    assert cs == cs[..i + 1] + cs[i + 1..];
    MatchesConcat(cs[..i + 1], cs[i + 1..]);
    MatchesConcat(cs[..i + 1], [r]);
    MatchesConcat(cs[..i + 1] + [r], cs[i + 1..]);
    assert PlaceChild(t, q, l, m, r).children == cs[..i + 1] + [r] + cs[i + 1..];
  }

  lemma MatchesHalves(w: Tree, n: Node)
    requires Arity(w) && w.kvs != [] && MatchesAll(w.children)
    requires Here(LeftHalf(w)) && Here(RightHalf(w, n))
    ensures Matches(LeftHalf(w)) && Matches(RightHalf(w, n))
  {
    hide Matches, MatchesAll, Here, LeftHalf, RightHalf, Joined;
    HalvesJoin(w, n);
    MatchesConcat(LeftHalf(w).children, RightHalf(w, n).children);
    MatchesIs(LeftHalf(w));
    MatchesIs(RightHalf(w, n));
  }

  /** What the parent of a split node needs, for one round of the loop up the path. */
  ghost predicate Pending(t: Tree, h: nat, e: Entry, l: Tree, m: Entry, r: Tree) {
    && 0 < h && !t.leaf && Arity(t) && Balanced(t, h, 1) && Distinct(t)
    && SplitOf(t.children[Slot(t, e.key)], h - 1, e, l, m, r)
    && ReprAll([l, r]) * Repr(t) <= Repr(t.children[Slot(t, e.key)])
  }

  lemma PendingShape(t: Tree, h: nat, e: Entry, l: Tree, m: Entry, r: Tree)
    requires Pending(t, h, e, l, m, r)
    ensures !t.leaf && Arity(t)
  {
  }

  /** The fields of a node that took entry `m` at `q` and child `n` right of it. */
  ghost predicate Spliced(t: Tree, q: nat, m: Entry, n: Node, w: Tree)
    requires Arity(t) && !t.leaf && q <= |t.kvs|
  {
    && Keys(w.kvs) == Keys(t.kvs)[..q] + [m.key] + Keys(t.kvs)[q..]
    && Values(w.kvs) == Values(t.kvs)[..q] + [m.value] + Values(t.kvs)[q..]
    && Roots(w.children) == Roots(t.children)[..q + 1] + [n] + Roots(t.children)[q + 1..]
  }

  /** Everything about the grown parent that the writes need. */
  lemma PendingGrows(t: Tree, h: nat, e: Entry, l: Tree, m: Entry, r: Tree, w: Tree)
    requires Pending(t, h, e, l, m, r) && w == PlaceChild(t, Slot(t, e.key), l, m, r)
    requires MatchesAll(Siblings(t, Slot(t, e.key))) && Matches(l) && Matches(r)
    ensures Grown(t, h, e, w) && Repr(w) <= Repr(t) + ReprAll([l, r])
    ensures w.kvs == InsertEntry(t.kvs, m)
    ensures Spliced(t, FindIndex(t.kvs, m.key), m, r.node, w)
    ensures MatchesAll(w.children) && t.node !in ReprAll(w.children)
    ensures forall n | n in ReprAll(w.children) :: allocated(n)
  {
    hide Less, FindIndex, Keys, Values, Roots, InsertEntry, Matches, MatchesAll, InOrder, Repr, ReprAll, Distinct,
      DistinctAll, Balanced, Row, Put, Siblings, Searchable, PlaceChild, ShapeOf, PutIn, Settle, Inner;
    InnerGrows(t, h, e, l, m, r);
    PlacedRoots(t, Slot(t, e.key), l, m, r);
    KeysInserted(t.kvs, m, FindIndex(t.kvs, m.key));
    MatchesPlaced(t, Slot(t, e.key), l, m, r);
    RootApart(w);
  }

  /** The node takes the promoted entry and the new child. */
  method Accept(parent: Node, m: Entry, newNode: Node, ghost t: Tree, ghost h: nat, ghost e: Entry, ghost l: Tree, ghost r: Tree)
    returns (ghost w: Tree)
    requires t.node == parent && Here(t) && Pending(t, h, e, l, m, r) && r.node == newNode
    requires MatchesAll(Siblings(t, Slot(t, e.key))) && Matches(l) && Matches(r)
    modifies parent
    ensures Grown(t, h, e, w) && Repr(w) <= Repr(t) + ReprAll([l, r]) && Matches(w)
  {
    hide Less, FindIndex, Keys, Values, Roots, InsertEntry, Grown, Pending, Matches, MatchesAll, Repr, ReprAll,
      Siblings, PlaceChild;
    PendingShape(t, h, e, l, m, r);
    w := PlaceChild(t, Slot(t, e.key), l, m, r);
    PlacedFields(t, Slot(t, e.key), l, m, r);
    PendingGrows(t, h, e, l, m, r, w);
    var childIdx := parent.Search(m.key);
    SearchIndexIs(t.kvs, m.key, childIdx);
    parent.InsertAt(childIdx, m.key, m.value);
    parent.InsertChildAt(childIdx + 1, newNode);
    MatchesIs(w);
  }

  /** The node is full: it is split around the promoted entry and the new child. */
  method SplitUp(parent: Node, m: Entry, newNode: Node, ghost t: Tree, ghost h: nat, ghost e: Entry, ghost l: Tree, ghost r: Tree)
    returns (m': Entry, newNode': Node, ghost l': Tree, ghost r': Tree)
    requires t.node == parent && Here(t) && Pending(t, h, e, l, m, r) && r.node == newNode
    requires MatchesAll(Siblings(t, Slot(t, e.key))) && Matches(l) && Matches(r) && |t.kvs| == MAX_KEYS
    modifies parent
    ensures fresh(newNode') && r'.node == newNode'
    ensures SplitOf(t, h, e, l', m', r') && ReprAll([l', r']) <= Repr(t) + ReprAll([l, r]) + {newNode'}
    ensures Matches(l') && Matches(r')
  {
    hide Less, FindIndex, Keys, Values, Roots, InsertEntry, Grown, Pending, Matches, MatchesAll, Repr, ReprAll,
      Siblings, SplitOf, PlaceChild;
    PendingShape(t, h, e, l, m, r);
    ghost var w := PlaceChild(t, Slot(t, e.key), l, m, r);
    PendingGrows(t, h, e, l, m, r, w);
    var childIdx := parent.Search(m.key);
    SearchIndexIs(t.kvs, m.key, childIdx);
    m', newNode', l', r' := SplitGrown(parent, m.key, m.value, childIdx + 1, newNode, t, w, h, e);
  }

  /** Splitting a node that would grow too large leaves two balanced halves of what it would be. */
  method SplitGrown(node: Node, key: Key, value: Value, childPos: int, child: Node?, ghost t: Tree, ghost w: Tree, ghost h: nat, ghost e: Entry)
    returns (m: Entry, newNode: Node, ghost l: Tree, ghost r: Tree)
    requires t.node == node && Here(t) && Arity(t)
    requires Grown(t, h, e, w) && |t.kvs| == MAX_KEYS && w.kvs == InsertEntry(t.kvs, Entry(key, value))
    requires t.leaf <==> childPos < 0
    requires !t.leaf ==> 0 <= childPos <= |t.children| && child != null
    requires !t.leaf ==> Roots(w.children) == Roots(t.children)[..childPos] + [child] + Roots(t.children)[childPos..]
    requires MatchesAll(w.children)
    modifies node
    ensures fresh(newNode) && r.node == newNode
    ensures SplitOf(t, h, e, l, m, r) && ReprAll([l, r]) == Repr(w) + {newNode}
    ensures Matches(l) && Matches(r)
  {
    hide Less, FindIndex, Keys, Values, Roots, InsertEntry, Grown, Matches, MatchesAll, Repr, ReprAll, SplitOf,
      Distinct;
    Existing(w);
    HasArity(t, h, e, w);
    RootApart(w);
    m, newNode := SplitNode(node, key, value, childPos, child, t, w);
    GrownSplits(t, h, e, w, newNode);
    l, r := LeftHalf(w), RightHalf(w, newNode);
    MatchesHalves(w, newNode);
  }

  lemma HasArity(t: Tree, h: nat, e: Entry, w: Tree)
    requires Grown(t, h, e, w)
    ensures Arity(w) && w.node == t.node && w.leaf == t.leaf && w.kvs != [] && Distinct(w)
  {
  }

  lemma RootApart(t: Tree)
    requires Distinct(t)
    ensures t.node !in ReprAll(t.children)
    ensures forall n | n in ReprAll(t.children) :: allocated(n)
  {
    Unfold(t);
    ExistingAll(t.children);
  }

  // --------------------------------------------------------- closing the tree

  /** The whole tree with the subtree at `ts[i]` exchanged for `c`. */
  ghost function Plug(ts: seq<Tree>, key: Key, i: nat, c: Tree): Tree
    requires Path(ts, key) && i < |ts|
  {
    if i == 0 then c else Plug(ts, key, i - 1, WithChild(ts[i - 1], Slot(ts[i - 1], key), c))
  }

  /** `c` is `t` with entry `e` put into it, at the same height, with no fewer entries of its own. */
  ghost predicate PutTree(t: Tree, h: nat, e: Entry, overwrite: bool, c: Tree) {
    && c.node == t.node && Distinct(c) && Balanced(c, h, |c.kvs|) && |t.kvs| <= |c.kvs|
    && Inner(t) <= Inner(c)
    && |InOrder(c)| == |InOrder(t)| + (if overwrite then 0 else 1)
    && PutIn(ShapeOf(t), e) == Fits(ShapeOf(c))
    && (Searchable(t) ==>
      && (overwrite ==> Has(InOrder(t), e.key) && Inner(c) <= Inner(t))
      && InOrder(c) == Put(InOrder(t), e, overwrite)
      && Searchable(c))
  }

  lemma PutRoot(t: Tree, h: nat, e: Entry, overwrite: bool, c: Tree)
    requires PutTree(t, h, e, overwrite, c)
    ensures c.node == t.node
  {
  }

  lemma PlugShape(t: Tree, h: nat, q: nat, c: Tree)
    requires 0 < h && Balanced(t, h, 1) && !t.leaf && q < |t.children|
    requires Balanced(c, h - 1, |c.kvs|) && |t.children[q].kvs| <= |c.kvs|
    ensures Balanced(WithChild(t, q, c), h, |t.kvs|)
  {
    hide Balanced, Row;
    BalancedIs(t, h, 1);
    RowAt(t, h - 1, q);
    BalancedIs(t.children[q], h - 1, MIN_KEYS);
    BalancedIs(c, h - 1, |c.kvs|);
    BalancedIs(c, h - 1, MIN_KEYS);
    RowPut(t, h - 1, q, WithChild(t, q, c));
    BalancedIs(WithChild(t, q, c), h, |t.kvs|);
  }

  lemma PlugOne(t: Tree, h: nat, e: Entry, overwrite: bool, q: nat, c: Tree)
    requires 0 < h && Balanced(t, h, 1) && Distinct(t) && Arity(t) && !t.leaf && q == Slot(t, e.key)
    requires PutTree(t.children[q], h - 1, e, overwrite, c)
    requires Repr(c) * Repr(t) <= Repr(t.children[q])
    ensures PutTree(t, h, e, overwrite, WithChild(t, q, c))
    ensures Repr(WithChild(t, q, c)) <= Repr(t) + Repr(c)
  {
    hide Balanced, Distinct, Repr, Searchable, InOrder, Has, Put, FindIndex, Inner, InnerAll, ShapeOf, PutIn;
    var u := WithChild(t, q, c);
    assert u.children == t.children[..q] + [c] + t.children[q + 1..];
    assert u.children[q] == c && u.kvs == t.kvs && u.node == t.node;
    PlugShape(t, h, q, c);
    PlugPuts(t, e, c);
    InOrderWithChild(t, q, c);
    DistinctPut(t, q, u);
    InnerOne(c);
    InnerPut(t, q, [c], u);
    if Searchable(t) {
      SearchableIs(t);
      PutInChild(t, e, overwrite, c);
      PutFromGap(InOrder(t.children[q]), e, overwrite);
      SearchableChild(t, q, e, c);
      if overwrite {
        assert t.children == u.children[..q] + [t.children[q]] + u.children[q + 1..];
        InnerOne(t.children[q]);
        InnerPut(u, q, [t.children[q]], t);
      }
    }
  }

  lemma PlugPuts(t: Tree, e: Entry, c: Tree)
    requires Arity(t) && !t.leaf && PutIn(ShapeOf(t.children[Slot(t, e.key)]), e) == Fits(ShapeOf(c))
    ensures PutIn(ShapeOf(t), e) == Fits(ShapeOf(WithChild(t, Slot(t, e.key), c)))
  {
    hide FindIndex, ShapeOf;
    var q := Slot(t, e.key);
    ShapeIs(t);
    ShapeIs(WithChild(t, q, c));
    ShapesPut(t.children, q, c);
  }

  lemma PlugMatches(t: Tree, q: nat, c: Tree)
    requires q < |t.children| && c.node == t.children[q].node
    requires Here(t) && Matches(c) && MatchesAll(Siblings(t, q))
    ensures Matches(WithChild(t, q, c))
  {
    hide Matches, MatchesAll, Siblings, Keys, Values;
    var u := WithChild(t, q, c);
    assert u.children[q] == c && Roots(u.children) == Roots(t.children);
    MatchesPut(t, q, u);
  }

  /** One level up: the node above `ts[i]` with its child on the path exchanged. */
  lemma PlugLevel(ts: seq<Tree>, i: nat, h: nat, e: Entry, overwrite: bool, c: Tree, t: Tree, q: nat)
    requires Path(ts, e.key) && 0 < i < |ts| && i <= h && t == ts[i - 1] && q == Slot(t, e.key)
    requires Distinct(ts[0]) && Balanced(ts[0], h, 1)
    requires PutTree(ts[i], h - i, e, overwrite, c)
    requires Repr(c) * Repr(ts[0]) <= Repr(ts[i])
    ensures t.children[q] == ts[i]
    ensures PutTree(t, h - i + 1, e, overwrite, WithChild(t, q, c))
    ensures Repr(WithChild(t, q, c)) <= Repr(ts[0]) + Repr(c)
    ensures Repr(WithChild(t, q, c)) * Repr(ts[0]) <= Repr(t)
  {
    hide Balanced, Distinct, Repr, Searchable, InOrder, FindIndex, PutTree, Outside, Path, Row;
    PathChild(ts, e.key, i);
    BalancedIs(t, h - i + 1, 1);
    PathBalanced(ts, e.key, i - 1, h);
    PathApart(ts, e.key, i - 1);
    ApartChild(t, q);
    Narrow(Repr(c), Repr(t), Repr(ts[0]), Repr(ts[i]));
    PlugOne(t, h - i + 1, e, overwrite, q, c);
    Widen(Repr(WithChild(t, q, c)), Repr(c), Repr(t), Repr(ts[0]), Repr(ts[i]));
  }

  lemma Narrow(c: set<Node>, t: set<Node>, whole: set<Node>, part: set<Node>)
    requires c * whole <= part && t <= whole
    ensures c * t <= part
  {
  }

  lemma Widen(u: set<Node>, c: set<Node>, t: set<Node>, whole: set<Node>, part: set<Node>)
    requires c * whole <= part && part <= t <= whole && u <= t + c
    ensures u <= whole + c && u * whole <= t
  {
  }

  lemma {:induction false} Plugged(ts: seq<Tree>, i: nat, h: nat, e: Entry, overwrite: bool, c: Tree)
    requires Path(ts, e.key) && i < |ts| && i <= h
    requires Distinct(ts[0]) && Balanced(ts[0], h, 1)
    requires Upper(ts, e.key, i) && Matches(c)
    requires PutTree(ts[i], h - i, e, overwrite, c)
    requires Repr(c) * Repr(ts[0]) <= Repr(ts[i])
    ensures PutTree(ts[0], h, e, overwrite, Plug(ts, e.key, i, c))
    ensures Matches(Plug(ts, e.key, i, c))
    ensures Repr(Plug(ts, e.key, i, c)) <= Repr(ts[0]) + Repr(c)
  {
    hide Balanced, Distinct, Repr, Searchable, InOrder, FindIndex, Matches, MatchesAll, Siblings, Here, PutTree, Path, Upper,
      Outside;
    if i > 0 {
      var t, q := ts[i - 1], Slot(ts[i - 1], e.key);
      PathChild(ts, e.key, i);
      UpperOpen(ts, e.key, i);
      PlugLevel(ts, i, h, e, overwrite, c, t, q);
      PutRoot(ts[i], h - i, e, overwrite, c);
      PlugMatches(t, q, c);
      Plugged(ts, i - 1, h, e, overwrite, WithChild(t, q, c));
    }
  }

  // --------------------------------------------------------- the loop upwards

  /** The tree is sound outside `ts[i]`, and `ts[i]` has been split into `l`, `m`, `r`. */
  ghost predicate Climbing(ts: seq<Tree>, i: nat, h: nat, e: Entry, l: Tree, m: Entry, r: Tree) {
    && Path(ts, e.key) && i < |ts| && i <= h
    && Distinct(ts[0]) && Balanced(ts[0], h, 1)
    && SplitOf(ts[i], h - i, e, l, m, r)
    && ReprAll([l, r]) * Repr(ts[0]) <= Repr(ts[i])
  }

  lemma ClimbPending(ts: seq<Tree>, i: nat, h: nat, e: Entry, l: Tree, m: Entry, r: Tree, t: Tree)
    requires Climbing(ts, i, h, e, l, m, r) && 0 < i && t == ts[i - 1]
    ensures Pending(t, h - i + 1, e, l, m, r)
    ensures Outside(ts, e.key, i - 1) !! Repr(t) && Outside(ts, e.key, i - 1) <= Repr(ts[0]) && t.node in Repr(t)
    ensures Repr(t) <= Repr(ts[0])
  {
    hide Balanced, Distinct, Repr, ReprAll, Searchable, InOrder, FindIndex, SplitOf, Outside, Path, Row;
    PathChild(ts, e.key, i);
    PathBalanced(ts, e.key, i - 1, h);
    PathApart(ts, e.key, i - 1);
    ApartChild(t, Slot(t, e.key));
    Narrow(ReprAll([l, r]), Repr(t), Repr(ts[0]), Repr(ts[i]));
  }

  lemma ClimbOn(ts: seq<Tree>, i: nat, h: nat, e: Entry, l: Tree, m: Entry, r: Tree, l': Tree, m': Entry, r': Tree, n: Node)
    requires Climbing(ts, i, h, e, l, m, r) && 0 < i
    requires SplitOf(ts[i - 1], h - i + 1, e, l', m', r')
    requires ReprAll([l', r']) <= Repr(ts[i - 1]) + ReprAll([l, r]) + {n} && n !in Repr(ts[0])
    ensures Climbing(ts, i - 1, h, e, l', m', r')
  {
    hide Balanced, Distinct, Repr, ReprAll, Searchable, InOrder, FindIndex, SplitOf, Outside, Path, Row;
    PathChild(ts, e.key, i);
    PathApart(ts, e.key, i - 1);
    ApartChild(ts[i - 1], Slot(ts[i - 1], e.key));
  }

  lemma UpperOpen(ts: seq<Tree>, key: Key, i: nat)
    requires Path(ts, key) && 0 < i < |ts| && Upper(ts, key, i)
    ensures Upper(ts, key, i - 1) && Here(ts[i - 1])
    ensures Arity(ts[i - 1]) && !ts[i - 1].leaf && MatchesAll(Siblings(ts[i - 1], Slot(ts[i - 1], key)))
  {
    PathChild(ts, key, i);
  }

  /** A node that had room took the split: the whole tree is sound again. */
  lemma Settled(ts: seq<Tree>, i: nat, h: nat, e: Entry, l: Tree, m: Entry, r: Tree, w: Tree)
    requires Climbing(ts, i, h, e, l, m, r) && 0 < i
    requires Grown(ts[i - 1], h - i + 1, e, w) && |ts[i - 1].kvs| < MAX_KEYS && Matches(w)
    requires Repr(w) <= Repr(ts[i - 1]) + ReprAll([l, r])
    requires Upper(ts, e.key, i - 1)
    ensures var u := Plug(ts, e.key, i - 1, w);
      PutTree(ts[0], h, e, false, u) && Matches(u) && Repr(u) <= Repr(ts[0]) + ReprAll([l, r])
  {
    hide Balanced, Distinct, Repr, ReprAll, Searchable, InOrder, FindIndex, SplitOf, Outside, Path, Row, Put, Upper, Matches, ShapeOf, PutIn, Settle, Inner;
    PathChild(ts, e.key, i);
    PathApart(ts, e.key, i - 1);
    ApartChild(ts[i - 1], Slot(ts[i - 1], e.key));
    GrownFits(ts[i - 1], h - i + 1, e, w);
    Plugged(ts, i - 1, h, e, false, w);
  }

  /** The second loop of `Insert`: promote along the path until a node has room. */
  method Propagate(path: seq<Node>, m0: Entry, n0: Node, ghost ts: seq<Tree>, ghost h: nat, ghost e: Entry, ghost l0: Tree, ghost r0: Tree)
    returns (done: bool, m: Entry, newNode: Node, ghost u: Tree, ghost r: Tree, ghost made: set<Node>)
    requires |ts| == |path| + 1 && Climbing(ts, |path|, h, e, l0, m0, r0) && r0.node == n0
    requires Upper(ts, e.key, |path|) && Matches(l0) && Matches(r0)
    requires forall j | 0 <= j < |path| :: path[j] == ts[j].node
    modifies Repr(ts[0])
    ensures if done then exists j | 0 <= j < |path| :: |ts[j].kvs| < MAX_KEYS
            else forall j | 0 <= j < |path| :: |ts[j].kvs| == MAX_KEYS
    ensures fresh(made)
    ensures done ==> PutTree(ts[0], h, e, false, u) && Matches(u) && Repr(u) <= Repr(ts[0]) + ReprAll([l0, r0]) + made
    ensures !done ==> SplitOf(ts[0], h, e, u, m, r) && Matches(u) && Matches(r) && r.node == newNode
    ensures !done ==> ReprAll([u, r]) <= Repr(ts[0]) + ReprAll([l0, r0]) + made
  {
    hide Balanced, Distinct, Repr, ReprAll, Searchable, InOrder, FindIndex, SplitOf, Outside, Path, Row, Put, Upper, Matches,
      Pending, Grown, PutTree, Plug, Siblings, MatchesAll, Keys, Values, Roots, Climbing;
    m, newNode, u, r, made := m0, n0, l0, r0, {};
    Existing(ts[0]);
    ClimbPath(ts, |path|, h, e, l0, m0, r0);
    var i := |path|;
    while i > 0
      invariant 0 <= i <= |path| && Path(ts, e.key) && Climbing(ts, i, h, e, u, m, r) && r.node == newNode
      invariant Upper(ts, e.key, i) && Matches(u) && Matches(r)
      invariant forall j | i <= j < |path| :: |ts[j].kvs| == MAX_KEYS
      invariant fresh(made) && ReprAll([u, r]) <= Repr(ts[0]) + ReprAll([l0, r0]) + made
    {
      var parent := path[i - 1];
      ghost var t := ts[i - 1];
      ClimbPath(ts, i, h, e, u, m, r);
      UpperOpen(ts, e.key, i);
      ClimbPending(ts, i, h, e, u, m, r, t);
      if |parent.keys| < MAX_KEYS {
        ghost var w := Accept(parent, m, newNode, t, h - i + 1, e, u, r);
        Settled(ts, i, h, e, u, m, r, w);
        done, u := true, Plug(ts, e.key, i - 1, w);
        return;
      }
      var m', n';
      ghost var l', r';
      m', n', l', r' := SplitUp(parent, m, newNode, t, h - i + 1, e, u, r);
      ClimbOn(ts, i, h, e, u, m, r, l', m', r', n');
      m, newNode, u, r, made := m', n', l', r', made + {n'};
      i := i - 1;
    }
    done := false;
    ClimbPath(ts, 0, h, e, u, m, r);
  }

  lemma ClimbPath(ts: seq<Tree>, i: nat, h: nat, e: Entry, l: Tree, m: Entry, r: Tree)
    requires Climbing(ts, i, h, e, l, m, r)
    ensures Path(ts, e.key) && i < |ts| && i <= h && SplitOf(ts[i], h - i, e, l, m, r)
    ensures |ts[i].kvs| <= MAX_KEYS
    ensures i > 0 ==> |ts[i - 1].kvs| <= MAX_KEYS
  {
    hide Distinct, Repr, ReprAll, Searchable, InOrder, FindIndex, SplitOf, Outside, Path, Row, Balanced;
    PathBalanced(ts, e.key, i, h);
    BalancedIs(ts[i], h - i, 1);
    if i > 0 {
      PathBalanced(ts, e.key, i - 1, h);
      BalancedIs(ts[i - 1], h - i + 1, 1);
    }
  }

  // ------------------------------------------------------------- at the leaf

  /** Overwriting the value in the leaf. */
  lemma LeafOverwrites(t: Tree, e: Entry)
    requires t.leaf && Balanced(t, 0, 1) && Distinct(t) && Has(t.kvs, e.key)
    ensures var c := t.(kvs := ReplaceEntry(t.kvs, e)); PutTree(t, 0, e, true, c) && Repr(c) == Repr(t)
  {
    hide Balanced, Distinct, Repr, InOrder, FindIndex, Less, Searchable, Sorted, ShapeOf;
    var c := t.(kvs := ReplaceEntry(t.kvs, e));
    ShapeIs(t);
    ShapeIs(c);
    InOrderLeaf(t);
    InOrderLeaf(c);
    Unfold(t);
    Unfold(c);
    BalancedIs(t, 0, 1);
    BalancedIs(c, 0, |c.kvs|);
    if Searchable(t) {
      SearchableLeaf(t);
      SearchableLeaf(c);
      SortedReplace(t.kvs, e);
    }
  }

  lemma LeafFits(t: Tree, e: Entry)
    requires t.leaf && Balanced(t, 0, 1) && Distinct(t) && |t.kvs| < MAX_KEYS && !Has(t.kvs, e.key)
    ensures var c := t.(kvs := InsertEntry(t.kvs, e)); PutTree(t, 0, e, false, c) && Repr(c) == Repr(t)
  {
    hide Balanced, Distinct, Repr, InOrder, FindIndex, Less, Put, ShapeOf, PutIn, Settle, Searchable;
    LeafGrows(t, e);
    GrownFits(t, 0, e, t.(kvs := InsertEntry(t.kvs, e)));
  }

  lemma KeysReplaced(s: seq<Entry>, e: Entry)
    requires Has(s, e.key)
    ensures Keys(ReplaceEntry(s, e)) == Keys(s)
    ensures Values(ReplaceEntry(s, e)) == Values(s)[FindIndex(s, e.key) := e.value]
  {
    hide FindIndex;
  }

  method OverwriteLeaf(node: Node, idx: nat, value: Value, ghost t: Tree, ghost e: Entry) returns (ghost c: Tree)
    requires t.node == node && t.leaf && Matches(t) && Balanced(t, 0, 1) && Distinct(t)
    requires idx == FindIndex(t.kvs, e.key) && Has(t.kvs, e.key) && e.value == value
    modifies node
    ensures PutTree(t, 0, e, true, c) && Repr(c) == Repr(t) && Matches(c)
  {
    hide Balanced, Distinct, Repr, FindIndex, PutTree, Matches, Keys, Values, ReplaceEntry;
    MatchesIs(t);
    BalancedIs(t, 0, 1);
    c := t.(kvs := ReplaceEntry(t.kvs, e));
    LeafOverwrites(t, e);
    KeysReplaced(t.kvs, e);
    node.values := node.values[idx := value];
    MatchesIs(c);
  }

  method InsertLeaf(node: Node, idx: nat, ghost t: Tree, e: Entry) returns (ghost c: Tree)
    requires t.node == node && t.leaf && Matches(t) && Balanced(t, 0, 1) && Distinct(t)
    requires idx == FindIndex(t.kvs, e.key) && |t.kvs| < MAX_KEYS && !Has(t.kvs, e.key)
    modifies node
    ensures PutTree(t, 0, e, false, c) && Repr(c) == Repr(t) && Matches(c)
  {
    hide Balanced, Distinct, Repr, FindIndex, PutTree, Matches, Keys, Values, InsertEntry;
    MatchesIs(t);
    BalancedIs(t, 0, 1);
    c := t.(kvs := InsertEntry(t.kvs, e));
    LeafFits(t, e);
    KeysInserted(t.kvs, e, idx);
    node.InsertAt(idx, e.key, e.value);
    MatchesIs(c);
  }

  method SplitLeaf(node: Node, ghost t: Tree, e: Entry) returns (m: Entry, newNode: Node, ghost l: Tree, ghost r: Tree)
    requires t.node == node && t.leaf && Matches(t) && Balanced(t, 0, 1) && Distinct(t) && |t.kvs| == MAX_KEYS
    requires !Has(t.kvs, e.key)
    modifies node
    ensures fresh(newNode) && r.node == newNode
    ensures SplitOf(t, 0, e, l, m, r) && ReprAll([l, r]) == Repr(t) + {newNode}
    ensures Matches(l) && Matches(r)
  {
    hide Balanced, Distinct, Repr, ReprAll, FindIndex, Matches, Keys, Values, InsertEntry, Grown, SplitOf;
    MatchesIs(t);
    BalancedIs(t, 0, 1);
    LeafGrows(t, e);
    m, newNode, l, r := SplitGrown(node, e.key, e.value, -1, null, t, t.(kvs := InsertEntry(t.kvs, e)), 0, e);
  }

  // --------------------------------------------------------------- the whole

  /** What `Insert` makes of a tree: one entry overwritten in its leaf or one added, balanced, and
      one level higher exactly when a new entry met only full nodes.  Where the descent is guided, the
      entry goes where it belongs. */
  ghost predicate Inserted(t: Tree, h: nat, e: Entry, u: Tree, grew: bool) {
    && Distinct(u) && Balanced(u, if grew then h + 1 else h, 1)
    && (grew <==> !Has(Reached(t, e.key).kvs, e.key) && PathFull(t, e.key))
    && Inner(t) <= Inner(u)
    && |InOrder(u)| == |InOrder(t)| + (if Has(Reached(t, e.key).kvs, e.key) then 0 else 1)
    && ShapeOf(u) == InsertShape(Some(ShapeOf(t)), e)
    && (Searchable(t) ==>
      && InOrder(u) == Put(InOrder(t), e, Has(Reached(t, e.key).kvs, e.key))
      && (Has(Reached(t, e.key).kvs, e.key) ==> Inner(u) <= Inner(t))
      && Searchable(u))
  }

  lemma PutInserts(ts: seq<Tree>, h: nat, e: Entry, overwrite: bool, u: Tree)
    requires Path(ts, e.key) && ts[|ts| - 1].leaf && Balanced(ts[0], h, 1)
    requires overwrite <==> Has(ts[|ts| - 1].kvs, e.key)
    requires overwrite || exists j | 0 <= j < |ts| :: |ts[j].kvs| < MAX_KEYS
    requires PutTree(ts[0], h, e, overwrite, u)
    ensures Inserted(ts[0], h, e, u, false)
  {
    hide Balanced, Distinct, Repr, InOrder, FindIndex, Has, Reached, PathFull, Put, Inner, ShapeOf, PutIn, Searchable;
    PathEnds(ts, e.key, 0);
    BalancedIs(ts[0], h, 1);
    BalancedIs(u, h, |u.kvs|);
    BalancedIs(u, h, 1);
  }

  /** The tree under a new root. */
  ghost predicate Raised(t: Tree, h: nat, e: Entry, u: Tree) {
    && Inner(t) <= Inner(u) && Distinct(u) && Balanced(u, h + 1, 1)
    && |InOrder(u)| == |InOrder(t)| + 1 && ShapeOf(u) == InsertShape(Some(ShapeOf(t)), e)
    && (Searchable(t) ==> InOrder(u) == Put(InOrder(t), e, false) && Searchable(u))
  }

  /** A split that reaches the root puts a new root with one entry above the halves. */
  lemma RootGrows(t: Tree, h: nat, e: Entry, l: Tree, m: Entry, r: Tree, n: Node)
    requires SplitOf(t, h, e, l, m, r) && n !in ReprAll([l, r])
    ensures var u := Tree(n, false, [m], [l, r]); Raised(t, h, e, u) && Repr(u) == {n} + ReprAll([l, r])
  {
    hide Balanced, Distinct, Repr, ReprAll, DistinctAll, FindIndex, Put, InOrder, Row, Inner, InnerAll, ShapeOf, PutIn, Searchable;
    var u := Tree(n, false, [m], [l, r]);
    InnerIs(u);
    InnerOne(l);
    InnerOne(r);
    InnerConcat([l], [r]);
    assert [l] + [r] == [l, r];
    Unfold(u);
    RowTwo(l, r, h);
    BalancedIs(u, h + 1, 1);
    if Searchable(t) { SearchableRoot(n, l, m, r); }
    InOrderPair(u, 0);
    assert Gaps(u)[..0] == [] && Gaps(u)[2..] == [];
    assert Before(u, 0) == [] && After(u, 1) == [];
    ShapeIs(u);
    ShapesTwo(l, r);
  }

  lemma SplitInserts(ts: seq<Tree>, h: nat, e: Entry, u: Tree)
    requires Path(ts, e.key) && ts[|ts| - 1].leaf && !Has(ts[|ts| - 1].kvs, e.key)
    requires forall j | 0 <= j < |ts| :: |ts[j].kvs| == MAX_KEYS
    requires Raised(ts[0], h, e, u)
    ensures Inserted(ts[0], h, e, u, true)
  {
    hide Balanced, Distinct, Repr, InOrder, FindIndex, Has, Reached, PathFull, Put, Inner, ShapeOf, InsertShape, Searchable;
    PathEnds(ts, e.key, 0);
  }

  /** What the leaf at the end of the path brings with it. */
  lemma PathLeaf(ts: seq<Tree>, key: Key, h: nat)
    requires Path(ts, key) && ts[|ts| - 1].leaf
    requires Distinct(ts[0]) && Balanced(ts[0], h, 1)
    ensures var i := |ts| - 1;
      && i == h && Balanced(ts[i], 0, 1) && Distinct(ts[i]) && Repr(ts[i]) <= Repr(ts[0])
      && Outside(ts, key, i) !! Repr(ts[i]) && Outside(ts, key, i) <= Repr(ts[0]) && ts[i].node in Repr(ts[i])
      && |ts[i].kvs| <= MAX_KEYS
  {
    hide Balanced, Distinct, Repr, ReprAll, InOrder, FindIndex, Outside, Searchable;
    var i := |ts| - 1;
    PathBalanced(ts, key, i, h);
    BalancedIs(ts[i], h - i, 1);
    PathApart(ts, key, i);
    Unfold(ts[i]);
  }

  /** `Insert` on a tree that has a root. */
  method InsertInto(root: Node, e: Entry, ghost t: Tree, ghost h: nat) returns (newRoot: Node, ghost u: Tree, ghost grew: bool, ghost made: set<Node>)
    requires t.node == root && Matches(t) && Distinct(t) && Balanced(t, h, 1)
    modifies Repr(t)
    ensures u.node == newRoot && Matches(u) && Inserted(t, h, e, u, grew)
    ensures fresh(made) && Repr(u) <= Repr(t) + made
  {
    hide Balanced, Distinct, Repr, ReprAll, Inner, Searchable, InOrder, FindIndex, SplitOf, Outside, Path, Row, Put, Upper, Matches,
      PutTree, Plug, MatchesAll, Keys, Values, Roots, Climbing, Inserted, Less;
    Existing(t);
    var path, node;
    ghost var ts;
    path, node, ts := FindLeaf(root, e.key, t, h);
    ghost var leaf, i := ts[|path|], |path|;
    PathLeaf(ts, e.key, h);
    MatchesIs(leaf);
    var idx := node.Search(e.key);
    SearchIndexIs(leaf.kvs, e.key, idx);
    KeyAt(leaf.kvs, idx);
    newRoot, grew, made := root, false, {};
    if idx < |node.keys| && node.keys[idx] == e.key {
      ghost var c := OverwriteLeaf(node, idx, e.value, leaf, e);
      Plugged(ts, i, h, e, true, c);
      u := Plug(ts, e.key, i, c);
      PutRoot(ts[0], h, e, true, u);
      PutInserts(ts, h, e, true, u);
    } else if |node.keys| < MAX_KEYS {
      ghost var c := InsertLeaf(node, idx, leaf, e);
      Plugged(ts, i, h, e, false, c);
      u := Plug(ts, e.key, i, c);
      PutRoot(ts[0], h, e, false, u);
      PutInserts(ts, h, e, false, u);
    } else {
      newRoot, u, grew, made := InsertSplitting(root, path, node, e, t, h, ts);
    }
  }

  /** The split branch of `Insert`: the full leaf splits, and so does every full node above it. */
  method InsertSplitting(root: Node, path: seq<Node>, node: Node, e: Entry, ghost t: Tree, ghost h: nat, ghost ts: seq<Tree>)
    returns (newRoot: Node, ghost u: Tree, ghost grew: bool, ghost made: set<Node>)
    requires |ts| == |path| + 1 && Path(ts, e.key) && ts[0] == t && t.node == root
    requires Matches(t) && Distinct(t) && Balanced(t, h, 1)
    requires forall j | 0 <= j < |path| :: path[j] == ts[j].node
    requires var leaf := ts[|path|];
      && leaf.leaf && node == leaf.node && Matches(leaf) && !Has(leaf.kvs, e.key) && |leaf.kvs| == MAX_KEYS
    requires Upper(ts, e.key, |path|)
    modifies Repr(t)
    ensures u.node == newRoot && Matches(u) && Inserted(t, h, e, u, grew)
    ensures fresh(made) && Repr(u) <= Repr(t) + made
  {
    hide Balanced, Distinct, Repr, ReprAll, Inner, Searchable, InOrder, FindIndex, SplitOf, Outside, Path, Row, Put, Upper, Matches,
      PutTree, Plug, MatchesAll, Keys, Values, Roots, Climbing, Inserted, Less, Has;
    Existing(t);
    ghost var leaf := ts[|path|];
    PathLeaf(ts, e.key, h);
    var m, newNode, done;
    ghost var l0, r0, r;
    m, newNode, l0, r0 := SplitLeaf(node, leaf, e);
    ClimbStart(ts, h, e, l0, m, r0, newNode);
    ghost var first := newNode;
    done, m, newNode, u, r, made := Propagate(path, m, newNode, ts, h, e, l0, r0);
    newRoot, grew, made := root, !done, made + {first};
    if done {
      PutRoot(ts[0], h, e, false, u);
      PutInserts(ts, h, e, false, u);
    } else {
      newRoot, u := NewRoot(root, m, newNode, t, h, e, u, r);
      made := made + {newRoot};
      SplitInserts(ts, h, e, u);
    }
  }

  lemma ClimbStart(ts: seq<Tree>, h: nat, e: Entry, l: Tree, m: Entry, r: Tree, n: Node)
    requires Path(ts, e.key) && |ts| == h + 1
    requires Distinct(ts[0]) && Balanced(ts[0], h, 1)
    requires SplitOf(ts[h], 0, e, l, m, r) && ReprAll([l, r]) == Repr(ts[h]) + {n} && n !in Repr(ts[0])
    ensures Climbing(ts, h, h, e, l, m, r)
  {
    hide Balanced, Distinct, Repr, ReprAll, Searchable, InOrder, FindIndex, SplitOf, Path;
  }

  method NewRoot(root: Node, m: Entry, newNode: Node, ghost t: Tree, ghost h: nat, ghost e: Entry, ghost l: Tree, ghost r: Tree)
    returns (newRoot: Node, ghost u: Tree)
    requires SplitOf(t, h, e, l, m, r) && t.node == root && r.node == newNode && Matches(l) && Matches(r)
    ensures fresh(newRoot) && u.node == newRoot && Matches(u) && Repr(u) == {newRoot} + ReprAll([l, r])
    ensures Raised(t, h, e, u)
  {
    hide Balanced, Distinct, Repr, ReprAll, InOrder, FindIndex, Put, Matches, MatchesAll, DistinctAll, Inner, ShapeOf, InsertShape, Searchable, Raised;
    MatchesTwo(l, r);
    ExistingAll([l, r]);
    newRoot := new Node(false);
    newRoot.keys := newRoot.keys + [m.key];
    newRoot.values := newRoot.values + [m.value];
    newRoot.children := newRoot.children + [root, newNode];
    RootGrows(t, h, e, l, m, r, newRoot);
    u := Tree(newRoot, false, [m], [l, r]);
    assert Here(u);
    MatchesIs(u);
  }
}
