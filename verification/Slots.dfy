/** Trees in which every descent is guided to the right child.  Ordered trees are such trees; so are
    those in which a key of an inner node has a second entry in the leaf to its left. */
module Slots {
  import opened Bytes
  import opened Entries
  import opened Weaving
  import opened Nodes
  import opened Subtrees

  ghost predicate Upto(s: seq<Entry>, key: Key) {
    forall i | 0 <= i < |s| :: AtMost(s[i].key, key)
  }

  /** The keys of a node separate what lies in the gaps: not above to the left, above to the right. */
  ghost predicate Ranked(gs: seq<seq<Entry>>, ks: seq<Entry>) {
    && |gs| == |ks| + 1 && Sorted(ks)
    && forall i | 0 <= i < |ks| :: Upto(gs[i], ks[i].key) && AllAbove(ks[i].key, gs[i + 1])
  }

  ghost predicate Searchable(t: Tree) {
    && Ranked(Gaps(t), t.kvs)
    && (t.leaf || forall i | 0 <= i < |t.children| :: Searchable(t.children[i]))
  }

  lemma SearchableIs(t: Tree)
    requires Searchable(t)
    ensures Ranked(Gaps(t), t.kvs)
    ensures !t.leaf ==> forall i | 0 <= i < |t.children| :: Searchable(t.children[i]) && Gaps(t)[i] == InOrder(t.children[i])
  {
    hide Ranked;
  }

  lemma SearchableLeaf(t: Tree)
    requires t.leaf
    ensures Searchable(t) <==> Sorted(t.kvs)
  {
  }

  // --------------------------------------------------------------- along a node

  /** Keys left of `i` are below, keys right of it above. */
  lemma RankedKeys(gs: seq<seq<Entry>>, ks: seq<Entry>, i: nat, j: nat)
    requires Ranked(gs, ks) && i < |ks| && j < |gs|
    ensures j <= i ==> Upto(gs[j], ks[i].key)
    ensures i < j ==> AllAbove(ks[i].key, gs[j])
  {
    hide Less;
    if j < i {
      forall x | 0 <= x < |gs[j]| ensures AtMost(gs[j][x].key, ks[i].key) { LowerThan(gs[j][x].key, ks[j].key, ks[i].key); }
    } else if i + 1 < j {
      forall x | 0 <= x < |gs[j]| ensures Less(ks[i].key, gs[j][x].key) { LessTrans(ks[i].key, ks[j - 1].key, gs[j][x].key); }
    }
  }

  lemma LowerThan(a: Key, b: Key, c: Key)
    requires AtMost(a, b) && Less(b, c)
    ensures Less(a, c) && AtMost(a, c)
  {
    hide Less;
    LessTotal(a, b);
    if a != b { LessTrans(a, b, c); }
    LessTotal(a, c);
  }

  lemma {:induction false} HeadsBelow(gs: seq<seq<Entry>>, ks: seq<Entry>, key: Key)
    requires |gs| == |ks| && forall i | 0 <= i < |ks| :: Upto(gs[i], ks[i].key) && Less(ks[i].key, key)
    ensures forall x | 0 <= x < |Heads(gs, ks)| :: Less(Heads(gs, ks)[x].key, key)
  {
    hide Less, AtMost;
    if ks != [] {
      HeadsBelow(gs[1..], ks[1..], key);
      forall x | 0 <= x < |gs[0]| ensures Less(gs[0][x].key, key) { LowerThan(gs[0][x].key, ks[0].key, key); }
    }
  }

  lemma {:induction false} TailsOver(gs: seq<seq<Entry>>, ks: seq<Entry>, key: Key)
    requires |gs| == |ks| && forall i | 0 <= i < |ks| :: Less(key, ks[i].key) && AllAbove(ks[i].key, gs[i])
    ensures AllAbove(key, Tails(gs, ks))
  {
    hide Less;
    if ks != [] {
      TailsOver(gs[1..], ks[1..], key);
      forall x | 0 <= x < |gs[0]| ensures Less(key, gs[0][x].key) { LessTrans(key, ks[0].key, gs[0][x].key); }
    }
  }

  /** The search index splits the in-order sequence: below the key, child `p`, not below it. */
  lemma SlotChild(t: Tree, key: Key, p: nat)
    requires Arity(t) && !t.leaf && Searchable(t) && p == FindIndex(t.kvs, key)
    ensures InOrder(t) == Before(t, p) + InOrder(t.children[p]) + After(t, p)
    ensures forall i | 0 <= i < |Before(t, p)| :: Less(Before(t, p)[i].key, key)
    ensures After(t, p) != [] <==> p < |t.kvs|
    ensures p < |t.kvs| ==> After(t, p)[0] == t.kvs[p]
    ensures Searchable(t.children[p])
  {
    hide Less, InOrder, Heads, FindIndex, Searchable, Upto, AllAbove;
    SearchableIs(t);
    InOrderAt(t, p);
    HeadsBelow(Gaps(t)[..p], t.kvs[..p], key);
  }

  /** Everything behind a slot whose key is above `key` is above it. */
  lemma SlotOver(t: Tree, key: Key, p: nat)
    requires Arity(t) && !t.leaf && Searchable(t) && p == FindIndex(t.kvs, key)
    requires p < |t.kvs| ==> t.kvs[p].key != key
    ensures AllAbove(key, After(t, p))
  {
    hide Less, InOrder, Tails, FindIndex, Searchable, Upto, AllAbove;
    SearchableIs(t);
    forall i | p <= i < |t.kvs| ensures Less(key, t.kvs[i].key) {
      LessTotal(key, t.kvs[p].key);
      if i > p { LessTrans(key, t.kvs[p].key, t.kvs[i].key); }
    }
    TailsOver(Gaps(t)[p + 1..], t.kvs[p..], key);
  }

  // ------------------------------------------------------------ changing a node

  /** Everything in `g` was in gap `p` or has the key of `e`, which belongs there. */
  ghost predicate FromGap(g: seq<Entry>, was: seq<Entry>, e: Entry) {
    forall x | 0 <= x < |g| :: g[x] in was || g[x].key == e.key
  }

  lemma GapBounds(gs: seq<seq<Entry>>, ks: seq<Entry>, p: nat, e: Entry, g: seq<Entry>)
    requires Ranked(gs, ks) && p == FindIndex(ks, e.key) && FromGap(g, gs[p], e)
    ensures p > 0 ==> AllAbove(ks[p - 1].key, g)
    ensures p < |ks| ==> Upto(g, ks[p].key)
  {
    hide Less, FindIndex;
    forall x | 0 <= x < |g|
      ensures p > 0 ==> Less(ks[p - 1].key, g[x].key)
      ensures p < |ks| ==> AtMost(g[x].key, ks[p].key)
    {
      if g[x] in gs[p] {
        var y :| 0 <= y < |gs[p]| && gs[p][y] == g[x];
      }
    }
  }

  lemma RankedPut(gs: seq<seq<Entry>>, ks: seq<Entry>, p: nat, e: Entry, g: seq<Entry>)
    requires Ranked(gs, ks) && p == FindIndex(ks, e.key) && FromGap(g, gs[p], e)
    ensures Ranked(gs[p := g], ks)
  {
    hide Less, FindIndex, Upto, AllAbove, FromGap, Sorted;
    GapBounds(gs, ks, p, e, g);
  }

  /** Exchanging the child on the path keeps the tree searchable. */
  lemma SearchableChild(t: Tree, p: nat, e: Entry, c: Tree)
    requires Arity(t) && !t.leaf && Searchable(t) && p == FindIndex(t.kvs, e.key)
    requires Searchable(c) && FromGap(InOrder(c), InOrder(t.children[p]), e)
    ensures Searchable(WithChild(t, p, c))
  {
    hide Less, FindIndex, Upto, AllAbove, FromGap, Sorted, InOrder, Ranked;
    SearchableIs(t);
    RankedPut(Gaps(t), t.kvs, p, e, InOrder(c));
    var u := WithChild(t, p, c);
    assert Gaps(u) == Gaps(t)[p := InOrder(c)];
  }

  /** Gap `p` divided by `m`. */
  lemma RankedSplit(gs: seq<seq<Entry>>, ks: seq<Entry>, p: nat, e: Entry, l: seq<Entry>, m: Entry, r: seq<Entry>)
    requires Ranked(gs, ks) && p == FindIndex(ks, e.key) && FromGap(l + [m] + r, gs[p], e)
    requires Upto(l, m.key) && AllAbove(m.key, r) && r != []
    ensures Ranked(gs[..p] + [l, r] + gs[p + 1..], ks[..p] + [m] + ks[p..])
    ensures FindIndex(ks, m.key) == p
  {
    hide Less, FindIndex, FromGap;
    var g := l + [m] + r;
    GapBounds(gs, ks, p, e, g);
    forall x | 0 <= x < |l| ensures g[x] == l[x] { }
    assert g[|l|] == m;
    forall x | 0 <= x < |r| ensures g[|l| + 1 + x] == r[x] { }
    if p < |ks| {
      LessThanNext(m.key, r[0].key, ks[p].key);
    }
    SortedBetween(ks, p, m);
    SplitRanked(gs, ks, p, l, m, r);
  }

  lemma LessThanNext(a: Key, b: Key, c: Key)
    requires Less(a, b) && AtMost(b, c)
    ensures Less(a, c)
  {
    hide Less;
    LessTotal(b, c);
    if b != c { LessTrans(a, b, c); }
  }

  lemma SortedBetween(ks: seq<Entry>, p: nat, m: Entry)
    requires Sorted(ks) && p <= |ks|
    requires (p > 0 ==> Less(ks[p - 1].key, m.key)) && (p < |ks| ==> Less(m.key, ks[p].key))
    ensures Sorted(ks[..p] + [m] + ks[p..]) && FindIndex(ks, m.key) == p
  {
    hide Less, FindIndex;
    forall i | 0 <= i < p ensures Less(ks[i].key, m.key) { if i < p - 1 { LessTrans(ks[i].key, ks[p - 1].key, m.key); } }
    forall i | p <= i < |ks| ensures Less(m.key, ks[i].key) { if i > p { LessTrans(m.key, ks[p].key, ks[i].key); } }
    if p < |ks| { LessTotal(m.key, ks[p].key); }
    FindIndexUnique(ks, m.key, p);
  }

  lemma SplitRanked(gs: seq<seq<Entry>>, ks: seq<Entry>, p: nat, l: seq<Entry>, m: Entry, r: seq<Entry>)
    requires Ranked(gs, ks) && p <= |ks| && Sorted(ks[..p] + [m] + ks[p..])
    requires Upto(l, m.key) && AllAbove(m.key, r)
    requires (p > 0 ==> AllAbove(ks[p - 1].key, l)) && (p < |ks| ==> Upto(r, ks[p].key))
    ensures Ranked(gs[..p] + [l, r] + gs[p + 1..], ks[..p] + [m] + ks[p..])
  {
    hide Upto, AllAbove, Sorted;
    var hs, js := gs[..p] + [l, r] + gs[p + 1..], ks[..p] + [m] + ks[p..];
    forall i | 0 <= i < |js| ensures Upto(hs[i], js[i].key) && AllAbove(js[i].key, hs[i + 1]) {
      if i > p { assert js[i] == ks[i - 1] && (i > p + 1 ==> hs[i] == gs[i - 1]) && hs[i + 1] == gs[i]; }
    }
  }

  /** A node that takes the halves of its child on the path stays searchable. */
  lemma SearchableSplit(t: Tree, p: nat, e: Entry, l: Tree, m: Entry, r: Tree)
    requires Arity(t) && !t.leaf && Searchable(t) && p == FindIndex(t.kvs, e.key)
    requires Searchable(l) && Searchable(r) && FromGap(InOrder(l) + [m] + InOrder(r), InOrder(t.children[p]), e)
    requires Upto(InOrder(l), m.key) && AllAbove(m.key, InOrder(r)) && InOrder(r) != []
    ensures Searchable(SplitChild(t, p, l, m, r)) && FindIndex(t.kvs, m.key) == p
  {
    hide Less, FindIndex, Upto, AllAbove, FromGap, Sorted, InOrder, Ranked;
    SearchableIs(t);
    RankedSplit(Gaps(t), t.kvs, p, e, InOrder(l), m, InOrder(r));
    var u := SplitChild(t, p, l, m, r);
    assert Gaps(u) == Gaps(t)[..p] + [InOrder(l), InOrder(r)] + Gaps(t)[p + 1..];
    forall i | 0 <= i < |u.children| ensures Searchable(u.children[i]) {
      if i > p + 1 { assert u.children[i] == t.children[i - 1]; }
    }
  }

  /** Two searchable trees around an entry that separates them. */
  lemma SearchableRoot(n: Node, l: Tree, m: Entry, r: Tree)
    requires Searchable(l) && Searchable(r) && Upto(InOrder(l), m.key) && AllAbove(m.key, InOrder(r))
    ensures Searchable(Tree(n, false, [m], [l, r]))
  {
    hide Less, Upto, AllAbove, InOrder;
    var u := Tree(n, false, [m], [l, r]);
    assert Gaps(u) == [InOrder(l), InOrder(r)];
  }

  // ----------------------------------------------------------- dividing a node

  lemma {:induction false} WeaveUpto(gs: seq<seq<Entry>>, ks: seq<Entry>, key: Key)
    requires |gs| == |ks| + 1 && (forall i | 0 <= i < |gs| :: Upto(gs[i], key)) && Upto(ks, key)
    ensures Upto(Weave(gs, ks), key)
  {
    hide AtMost;
    if ks != [] { WeaveUpto(gs[1..], ks[1..], key); }
  }

  lemma {:induction false} WeaveOver(gs: seq<seq<Entry>>, ks: seq<Entry>, key: Key)
    requires |gs| == |ks| + 1 && (forall i | 0 <= i < |gs| :: AllAbove(key, gs[i])) && AllAbove(key, ks)
    ensures AllAbove(key, Weave(gs, ks))
  {
    hide Less;
    if ks != [] { WeaveOver(gs[1..], ks[1..], key); }
  }

  /** What lies left and right of a node's key `mid`. */
  lemma RankedCut(gs: seq<seq<Entry>>, ks: seq<Entry>, mid: nat)
    requires Ranked(gs, ks) && mid < |ks|
    ensures Ranked(gs[..mid + 1], ks[..mid]) && Ranked(gs[mid + 1..], ks[mid + 1..])
    ensures Upto(Weave(gs[..mid + 1], ks[..mid]), ks[mid].key)
    ensures AllAbove(ks[mid].key, Weave(gs[mid + 1..], ks[mid + 1..]))
  {
    hide Less, Weave;
    forall j | 0 <= j < |gs| ensures (j <= mid ==> Upto(gs[j], ks[mid].key)) && (mid < j ==> AllAbove(ks[mid].key, gs[j])) {
      RankedKeys(gs, ks, mid, j);
    }
    forall i | 0 <= i < mid ensures AtMost(ks[i].key, ks[mid].key) { LessTotal(ks[i].key, ks[mid].key); }
    WeaveUpto(gs[..mid + 1], ks[..mid], ks[mid].key);
    WeaveOver(gs[mid + 1..], ks[mid + 1..], ks[mid].key);
  }

  /** The two parts of a searchable node around its key `mid` are searchable and separated by it. */
  lemma SearchableCut(w: Tree, l: Tree, r: Tree, mid: nat)
    requires Searchable(w) && Arity(w) && mid < |w.kvs| && l.leaf == r.leaf == w.leaf
    requires l.kvs == w.kvs[..mid] && r.kvs == w.kvs[mid + 1..]
    requires !w.leaf ==> l.children == w.children[..mid + 1] && r.children == w.children[mid + 1..]
    ensures Searchable(l) && Searchable(r)
    ensures Upto(InOrder(l), w.kvs[mid].key) && AllAbove(w.kvs[mid].key, InOrder(r))
  {
    hide Less, Weave, Upto, AllAbove, Sorted, Ranked, InOrder;
    SearchableIs(w);
    RankedCut(Gaps(w), w.kvs, mid);
    assert Gaps(l) == Gaps(w)[..mid + 1] && Gaps(r) == Gaps(w)[mid + 1..];
    InOrderIs(l);
    InOrderIs(r);
  }

  // ---------------------------------------------------------------- ordered trees

  lemma SortedRanked(t: Tree, h: nat)
    requires Balanced(t, h, 0) && Sorted(InOrder(t)) && !t.leaf && Arity(t)
    ensures Ranked(Gaps(t), t.kvs)
  {
    hide Less, InOrder, Gaps, Heads, Tails, Balanced;
    forall i, j | 0 <= i < j < |t.kvs| ensures Less(t.kvs[i].key, t.kvs[j].key) {
      InOrderAt(t, j);
      AtOwn(t, j);
      HeadsHold(Gaps(t)[..j], t.kvs[..j], i);
      var x :| 0 <= x < |Before(t, j)| && Before(t, j)[x] == t.kvs[i];
      assert InOrder(t)[x] == t.kvs[i];
    }
    forall i | 0 <= i < |t.kvs| ensures Upto(Gaps(t)[i], t.kvs[i].key) && AllAbove(t.kvs[i].key, Gaps(t)[i + 1]) {
      AtOwn(t, i);
      var b, c, d := Before(t, i), Gaps(t)[i], Gaps(t)[i + 1];
      var s := InOrder(t);
      forall x | 0 <= x < |c| ensures AtMost(c[x].key, t.kvs[i].key) {
        assert s[|b| + x] == c[x];
        LessTotal(c[x].key, t.kvs[i].key);
      }
      forall x | 0 <= x < |d| ensures Less(t.kvs[i].key, d[x].key) { assert s[|b| + |c| + 1 + x] == d[x]; }
    }
  }

  lemma AtOwn(t: Tree, i: nat)
    requires Arity(t) && !t.leaf && i < |t.kvs|
    ensures InOrder(t) == Before(t, i) + Gaps(t)[i] + [t.kvs[i]] + Gaps(t)[i + 1] + After(t, i + 1)
    ensures InOrder(t)[|Before(t, i)| + |Gaps(t)[i]|] == t.kvs[i]
  {
    hide InOrder, Heads, Tails;
    InOrderPair(t, i);
  }

  /** Ordered trees are searchable. */
  lemma {:induction false} SortedSearchable(t: Tree, h: nat)
    requires Balanced(t, h, 0) && Sorted(InOrder(t))
    ensures Searchable(t)
    decreases h
  {
    hide Less, InOrder, Ranked, Sorted, Balanced, Heads, Tails;
    BalancedIs(t, h, 0);
    if t.leaf {
      InOrderLeaf(t);
      SearchableLeaf(t);
    } else {
      SortedRanked(t, h);
      forall i | 0 <= i < |t.children| ensures Searchable(t.children[i]) {
        InOrderAt(t, i);
        SortedConcat(Before(t, i) + Gaps(t)[i], After(t, i));
        SortedConcat(Before(t, i), Gaps(t)[i]);
        RowAt(t, h - 1, i);
        BalancedIs(t.children[i], h - 1, MIN_KEYS);
        BalancedIs(t.children[i], h - 1, 0);
        SortedSearchable(t.children[i], h - 1);
      }
    }
  }
}
