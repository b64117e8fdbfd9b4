/** The mutable nodes of the B-tree and the ghost tree that describes them.

    A `Tree` is a value that names, for every node object it covers, the entries and children
    that object holds.  `Matches` says the heap agrees with it.  What a node contains, how it
    is balanced and how it is ordered are then questions about values. */
module Nodes {
  import opened Bytes
  import opened Entries
  import opened Weaving

  const MAX_KEYS := 4
  const MIN_KEYS := MAX_KEYS / 2

  function Keys(s: seq<Entry>): (r: seq<Key>)
    ensures |r| == |s|
  {
    seq(|s|, i requires 0 <= i < |s| => s[i].key)
  }

  function Values(s: seq<Entry>): (r: seq<Value>)
    ensures |r| == |s|
  {
    seq(|s|, i requires 0 <= i < |s| => s[i].value)
  }

  lemma KeyAt(s: seq<Entry>, i: nat)
    ensures i < |s| ==> Keys(s)[i] == s[i].key && Values(s)[i] == s[i].value
  {
  }

  /** The first index of `keys` not below `key`, or its length. */
  ghost predicate IsSearchIndex(keys: seq<Key>, key: Key, i: nat) {
    && i <= |keys|
    && (forall j | 0 <= j < i :: Less(keys[j], key))
    && (i < |keys| ==> !Less(keys[i], key))
  }

  class Node {
    var keys: seq<Key>
    var values: seq<Value>
    var children: seq<Node>
    var isleaf: bool

    constructor (isleaf: bool)
      ensures keys == [] && values == [] && children == [] && this.isleaf == isleaf
    {
      keys, values, children := [], [], [];
      this.isleaf := isleaf;
    }

    method Search(key: Key) returns (i: nat)
      ensures IsSearchIndex(keys, key, i)
    {
      i := 0;
      while i < |keys|
        invariant i <= |keys|
        invariant forall j | 0 <= j < i :: Less(keys[j], key)
      {
        if !Less(keys[i], key) { return; }
        i := i + 1;
      }
    }

    method InsertAt(index: nat, key: Key, value: Value)
      requires index <= |keys| == |values|
      modifies this`keys, this`values
      ensures keys == old(keys[..index] + [key] + keys[index..])
      ensures values == old(values[..index] + [value] + values[index..])
    {
      keys := MakeRoom(keys, index, key);
      values := MakeRoom(values, index, value);
    }

    method InsertChildAt(index: nat, child: Node)
      requires index <= |children|
      modifies this`children
      ensures children == old(children[..index] + [child] + children[index..])
    {
      children := MakeRoom(children, index, child);
    }

    method RemoveAt(index: nat) returns (e: Entry)
      requires index < |keys| == |values|
      modifies this`keys, this`values
      ensures e == old(Entry(keys[index], values[index]))
      ensures keys == old(keys[..index] + keys[index + 1..])
      ensures values == old(values[..index] + values[index + 1..])
    {
      e := Entry(keys[index], values[index]);
      keys := CloseGap(keys, index);
      values := CloseGap(values, index);
    }
  }

  /** Grow by one, shift everything from `index` on one place up, from the end, then put `x` in. */
  method MakeRoom<T>(s: seq<T>, index: nat, x: T) returns (r: seq<T>)
    requires index <= |s|
    ensures r == s[..index] + [x] + s[index..]
  {
    r := s + [x];
    var i := |s|;
    while i > index
      invariant index <= i <= |s| && |r| == |s| + 1
      invariant r[..i] == s[..i] && r[i + 1..] == s[i..]
    {
      r := r[i := r[i - 1]];
      i := i - 1;
    }
    r := r[index := x];
  }

  /** Shift everything behind `index` one place down, then shrink by one. */
  method CloseGap<T>(s: seq<T>, index: nat) returns (r: seq<T>)
    requires index < |s|
    ensures r == s[..index] + s[index + 1..]
  {
    r := s;
    var i := index;
    while i < |s| - 1
      invariant index <= i < |s| == |r|
      invariant r[..i] == s[..index] + s[index + 1..i + 1] && r[i + 1..] == s[i + 1..]
    {
      r := r[i := r[i + 1]];
      i := i + 1;
    }
    r := r[..i];
  }

  // ------------------------------------------------------------ ghost trees

  datatype Tree = Tree(node: Node, leaf: bool, kvs: seq<Entry>, children: seq<Tree>)

  ghost function Roots(ts: seq<Tree>): (r: seq<Node>)
    ensures |r| == |ts|
  {
    seq(|ts|, i requires 0 <= i < |ts| => ts[i].node)
  }

  lemma RootAt(ts: seq<Tree>, i: nat)
    requires i < |ts|
    ensures Roots(ts)[i] == ts[i].node
  {
  }

  /** Every node object of `t`. */
  ghost function Repr(t: Tree): set<Node> {
    {t.node} + set i, n | 0 <= i < |t.children| && n in Repr(t.children[i]) :: n
  }

  /** No node object occurs twice in `t`. */
  ghost predicate Distinct(t: Tree) {
    && (forall i | 0 <= i < |t.children| :: t.node !in Repr(t.children[i]) && Distinct(t.children[i]))
    && (forall i, j | 0 <= i < j < |t.children| :: Repr(t.children[i]) !! Repr(t.children[j]))
  }

  /** The root object of `t` holds what `t` says. */
  ghost predicate Here(t: Tree)
    reads t.node
  {
    && t.node.keys == Keys(t.kvs)
    && t.node.values == Values(t.kvs)
    && t.node.isleaf == t.leaf
    && t.node.children == Roots(t.children)
  }

  /** Every object of `t` holds what `t` says. */
  ghost predicate Matches(t: Tree)
    reads Repr(t)
  {
    && Here(t)
    && forall i | 0 <= i < |t.children| :: Matches(t.children[i])
  }

  /** What lies between the entries of the root: nothing in a leaf, the subtrees otherwise. */
  ghost function Gaps(t: Tree): (r: seq<seq<Entry>>)
    ensures |r| == if t.leaf then |t.kvs| + 1 else |t.children|
    decreases t, 0
  {
    if t.leaf then Blank(|t.kvs| + 1)
    else seq(|t.children|, i requires 0 <= i < |t.children| => InOrder(t.children[i]))
  }

  /** The entries of `t`, left to right. */
  ghost function InOrder(t: Tree): seq<Entry>
    decreases t, 1
  {
    Weave(Gaps(t), t.kvs)
  }

  lemma InOrderIs(t: Tree)
    ensures InOrder(t) == Weave(Gaps(t), t.kvs)
  {
  }

  /** Balanced with all leaves `h` levels below the root, at least `min` entries in the root,
      `MIN_KEYS` to `MAX_KEYS` in every other node, one more child than entries. */
  ghost predicate Balanced(t: Tree, h: nat, min: nat) {
    && min <= |t.kvs| <= MAX_KEYS
    && (t.leaf <==> h == 0)
    && (if t.leaf then t.children == []
        else |t.children| == |t.kvs| + 1 && forall i | 0 <= i < |t.children| :: Balanced(t.children[i], h - 1, MIN_KEYS))
  }

  /** A run of siblings, all balanced at height `h`. */
  ghost predicate Row(ts: seq<Tree>, h: nat) {
    forall i | 0 <= i < |ts| :: Balanced(ts[i], h, MIN_KEYS)
  }

  /** The search loop over a node's keys finds `FindIndex` of its entries. */
  lemma SearchIndexIs(kvs: seq<Entry>, key: Key, i: nat)
    requires IsSearchIndex(Keys(kvs), key, i)
    ensures i == FindIndex(kvs, key)
  {
    hide Less, FindIndex;
    forall j | 0 <= j < i ensures Less(kvs[j].key, key) { assert Keys(kvs)[j] == kvs[j].key; }
    FindIndexUnique(kvs, key, i);
  }

  lemma BalancedIs(t: Tree, h: nat, min: nat)
    ensures Balanced(t, h, min) <==>
      && min <= |t.kvs| <= MAX_KEYS
      && (t.leaf <==> h == 0)
      && Arity(t)
      && (!t.leaf ==> Row(t.children, h - 1))
  {
  }

  lemma RowConcat(a: seq<Tree>, b: seq<Tree>, h: nat)
    ensures Row(a + b, h) <==> Row(a, h) && Row(b, h)
  {
    hide Balanced;
    var s := a + b;
    if Row(s, h) {
      forall i | 0 <= i < |a| ensures Balanced(a[i], h, MIN_KEYS) { assert a[i] == s[i]; }
      forall i | 0 <= i < |b| ensures Balanced(b[i], h, MIN_KEYS) { assert b[i] == s[|a| + i]; }
    }
  }

  ghost predicate Arity(t: Tree) {
    if t.leaf then t.children == [] else |t.children| == |t.kvs| + 1
  }

  // ------------------------------------------------- one node and one child

  /** Entries to the left of gap `p`. */
  ghost function Before(t: Tree, p: nat): seq<Entry>
    requires Arity(t) && p <= |t.kvs|
  {
    Heads(Gaps(t)[..p], t.kvs[..p])
  }

  /** Entries to the right of gap `p`. */
  ghost function After(t: Tree, p: nat): seq<Entry>
    requires Arity(t) && p <= |t.kvs|
  {
    Tails(Gaps(t)[p + 1..], t.kvs[p..])
  }

  lemma InOrderAt(t: Tree, p: nat)
    requires Arity(t) && p <= |t.kvs|
    ensures InOrder(t) == Before(t, p) + Gaps(t)[p] + After(t, p)
  {
    WeaveFocus(Gaps(t), t.kvs, p);
  }

  ghost function WithChild(t: Tree, p: nat, c: Tree): Tree
    requires p < |t.children|
  {
    t.(children := t.children[p := c])
  }

  /** Changing one child changes the in-order sequence there and nowhere else. */
  lemma InOrderWithChild(t: Tree, p: nat, c: Tree)
    requires Arity(t) && !t.leaf && p <= |t.kvs|
    ensures InOrder(t) == Before(t, p) + InOrder(t.children[p]) + After(t, p)
    ensures InOrder(WithChild(t, p, c)) == Before(t, p) + InOrder(c) + After(t, p)
  {
    var u := WithChild(t, p, c);
    InOrderAt(t, p);
    InOrderAt(u, p);
    assert Gaps(u)[..p] == Gaps(t)[..p] && Gaps(u)[p + 1..] == Gaps(t)[p + 1..];
  }

  // ------------------------------------------------------ forests of nodes

  ghost function ReprAll(ts: seq<Tree>): set<Node> {
    set i, n | 0 <= i < |ts| && n in Repr(ts[i]) :: n
  }

  ghost predicate DistinctAll(ts: seq<Tree>) {
    && (forall i | 0 <= i < |ts| :: Distinct(ts[i]))
    && (forall i, j | 0 <= i < j < |ts| :: Repr(ts[i]) !! Repr(ts[j]))
  }

  ghost predicate MatchesAll(ts: seq<Tree>)
    reads ReprAll(ts)
  {
    forall i | 0 <= i < |ts| :: Matches(ts[i])
  }

  /** The objects of a tree exist already, so a call that does not name them leaves them alone. */
  lemma Existing(t: Tree)
    ensures forall n | n in Repr(t) :: allocated(n)
  {
  }

  lemma ExistingAll(ts: seq<Tree>)
    ensures forall n | n in ReprAll(ts) :: allocated(n)
  {
    forall n | n in ReprAll(ts) ensures allocated(n) {
      var i :| 0 <= i < |ts| && n in Repr(ts[i]);
      Existing(ts[i]);
    }
  }

  lemma Unfold(t: Tree)
    ensures Repr(t) == {t.node} + ReprAll(t.children)
    ensures Distinct(t) <==> t.node !in ReprAll(t.children) && DistinctAll(t.children)
  {
  }

  lemma ReprConcat(a: seq<Tree>, b: seq<Tree>)
    ensures ReprAll(a + b) == ReprAll(a) + ReprAll(b)
  {
    var s := a + b;
    forall n | n in ReprAll(s) ensures n in ReprAll(a) + ReprAll(b) {
      var i :| 0 <= i < |s| && n in Repr(s[i]);
      if i < |a| { assert n in Repr(a[i]); } else { assert n in Repr(b[i - |a|]); }
    }
    forall n | n in ReprAll(a) ensures n in ReprAll(s) {
      var i :| 0 <= i < |a| && n in Repr(a[i]);
      assert n in Repr(s[i]);
    }
    forall n | n in ReprAll(b) ensures n in ReprAll(s) {
      var i :| 0 <= i < |b| && n in Repr(b[i]);
      assert n in Repr(s[|a| + i]);
    }
  }

  lemma DistinctConcat(a: seq<Tree>, b: seq<Tree>)
    ensures DistinctAll(a + b) <==> DistinctAll(a) && DistinctAll(b) && ReprAll(a) !! ReprAll(b)
  {
    var s := a + b;
    if DistinctAll(s) {
      forall i | 0 <= i < |a| ensures Distinct(a[i]) { assert a[i] == s[i]; }
      forall i | 0 <= i < |b| ensures Distinct(b[i]) { assert b[i] == s[|a| + i]; }
      forall i, j | 0 <= i < j < |a| ensures Repr(a[i]) !! Repr(a[j]) { assert a[i] == s[i] && a[j] == s[j]; }
      forall i, j | 0 <= i < j < |b| ensures Repr(b[i]) !! Repr(b[j]) {
        assert b[i] == s[|a| + i] && b[j] == s[|a| + j];
      }
      forall i, j | 0 <= i < |a| && 0 <= j < |b| ensures Repr(a[i]) !! Repr(b[j]) {
        assert a[i] == s[i] && b[j] == s[|a| + j];
      }
    }
    if DistinctAll(a) && DistinctAll(b) && ReprAll(a) !! ReprAll(b) {
      forall i, j | 0 <= i < j < |s| ensures Repr(s[i]) !! Repr(s[j]) {
        if i < |a| <= j {
          assert Repr(a[i]) <= ReprAll(a) && Repr(b[j - |a|]) <= ReprAll(b);
        }
      }
    }
  }

  /** Part of a forest may be rebuilt from its own nodes and from new ones. */
  lemma Rebuilt(x: seq<Tree>, m: seq<Tree>, y: seq<Tree>, w: seq<Tree>)
    requires DistinctAll(x + m + y) && DistinctAll(w)
    requires ReprAll(w) * ReprAll(x + m + y) <= ReprAll(m)
    ensures DistinctAll(x + w + y)
    ensures ReprAll(x + w + y) <= ReprAll(x + m + y) + ReprAll(w)
    ensures ReprAll(w) <= ReprAll(x + w + y)
  {
    ReprConcat(x, m); ReprConcat(x + m, y);
    ReprConcat(x, w); ReprConcat(x + w, y);
    DistinctConcat(x, m); DistinctConcat(x + m, y);
    DistinctConcat(x, w); DistinctConcat(x + w, y);
  }

  /** Two neighbours are apart exactly when their roots and their pooled children are. */
  lemma Pair(l: Tree, r: Tree)
    ensures ReprAll([l, r]) == {l.node, r.node} + ReprAll(l.children + r.children)
    ensures DistinctAll([l, r]) <==>
      && l.node != r.node
      && {l.node, r.node} !! ReprAll(l.children + r.children)
      && DistinctAll(l.children + r.children)
  {
    Unfold(l);
    Unfold(r);
    ReprConcat([l], [r]);
    DistinctConcat([l], [r]);
    assert [l] + [r] == [l, r];
    One(l);
    One(r);
    ReprConcat(l.children, r.children);
    DistinctConcat(l.children, r.children);
  }

  lemma One(t: Tree)
    ensures ReprAll([t]) == Repr(t)
    ensures DistinctAll([t]) <==> Distinct(t)
  {
    assert [t][0] == t;
  }

  // ------------------------------------------- changing one place in a node

  /** `l`, a separating entry and `r` as the contents of one node. */
  ghost function Joined(l: Tree, e: Entry, r: Tree): Tree {
    l.(kvs := l.kvs + [e] + r.kvs, children := l.children + r.children)
  }

  lemma InOrderJoined(l: Tree, e: Entry, r: Tree)
    requires Arity(l) && Arity(r) && l.leaf == r.leaf
    ensures Arity(Joined(l, e, r))
    ensures InOrder(Joined(l, e, r)) == InOrder(l) + [e] + InOrder(r)
  {
    hide InOrder, Weave, Repr;
    var j := Joined(l, e, r);
    WeaveJoin(Gaps(l), l.kvs, e, Gaps(r), r.kvs);
    assert Gaps(j) == Gaps(l) + Gaps(r);
    assert InOrder(j) == Weave(Gaps(j), j.kvs) && InOrder(l) == Weave(Gaps(l), l.kvs) && InOrder(r) == Weave(Gaps(r), r.kvs) by {
      InOrderIs(j);
      InOrderIs(l);
      InOrderIs(r);
    }
  }

  lemma InOrderPair(t: Tree, q: nat)
    requires Arity(t) && !t.leaf && q < |t.kvs|
    ensures InOrder(t) == Before(t, q) + InOrder(t.children[q]) + [t.kvs[q]] + InOrder(t.children[q + 1]) + After(t, q + 1)
  {
    InOrderAt(t, q);
    assert Gaps(t)[q + 1..][1..] == Gaps(t)[q + 2..] && t.kvs[q..][1..] == t.kvs[q + 1..];
    assert After(t, q) == [t.kvs[q]] + Gaps(t)[q + 1] + After(t, q + 1);
  }

  /** Children `q`, `q + 1` and the entry between them exchanged for others. */
  ghost function ReplacePair(t: Tree, q: nat, l: Tree, e: Entry, r: Tree): Tree
    requires Arity(t) && !t.leaf && q < |t.kvs|
  {
    t.(kvs := t.kvs[..q] + [e] + t.kvs[q + 1..], children := t.children[..q] + [l, r] + t.children[q + 2..])
  }

  /** Children `q`, `q + 1` and the entry between them exchanged for one child. */
  ghost function MergePair(t: Tree, q: nat, m: Tree): Tree
    requires Arity(t) && !t.leaf && q < |t.kvs|
  {
    t.(kvs := t.kvs[..q] + t.kvs[q + 1..], children := t.children[..q] + [m] + t.children[q + 2..])
  }

  /** Child `q` exchanged for two children with an entry between them. */
  ghost function SplitChild(t: Tree, q: nat, l: Tree, e: Entry, r: Tree): Tree
    requires Arity(t) && !t.leaf && q <= |t.kvs|
  {
    t.(kvs := t.kvs[..q] + [e] + t.kvs[q..], children := t.children[..q] + [l, r] + t.children[q + 1..])
  }

  lemma InOrderReplacePair(t: Tree, q: nat, l: Tree, e: Entry, r: Tree)
    requires Arity(t) && !t.leaf && q < |t.kvs|
    ensures InOrder(ReplacePair(t, q, l, e, r)) == Before(t, q) + InOrder(l) + [e] + InOrder(r) + After(t, q + 1)
  {
    hide InOrder, Weave, Heads, Tails;
    var u := ReplacePair(t, q, l, e, r);
    InOrderPair(u, q);
    assert u.children[q + 2..] == t.children[q + 2..];
    assert Gaps(u)[..q] == Gaps(t)[..q] && Gaps(u)[q + 2..] == Gaps(t)[q + 2..];
    assert u.kvs[..q] == t.kvs[..q] && u.kvs[q + 1..] == t.kvs[q + 1..];
  }

  lemma InOrderMergePair(t: Tree, q: nat, m: Tree)
    requires Arity(t) && !t.leaf && q < |t.kvs|
    ensures InOrder(MergePair(t, q, m)) == Before(t, q) + InOrder(m) + After(t, q + 1)
  {
    hide InOrder, Weave, Heads, Tails;
    var u := MergePair(t, q, m);
    InOrderAt(u, q);
    assert u.children[q + 1..] == t.children[q + 2..];
    assert Gaps(u)[..q] == Gaps(t)[..q] && Gaps(u)[q + 1..] == Gaps(t)[q + 2..];
    assert u.kvs[..q] == t.kvs[..q] && u.kvs[q..] == t.kvs[q + 1..];
  }

  lemma InOrderSplitChild(t: Tree, q: nat, l: Tree, e: Entry, r: Tree)
    requires Arity(t) && !t.leaf && q <= |t.kvs|
    ensures InOrder(SplitChild(t, q, l, e, r)) == Before(t, q) + InOrder(l) + [e] + InOrder(r) + After(t, q)
  {
    hide InOrder, Weave, Heads, Tails;
    var u := SplitChild(t, q, l, e, r);
    InOrderPair(u, q);
    assert u.children[q + 2..] == t.children[q + 1..];
    assert Gaps(u)[..q] == Gaps(t)[..q] && Gaps(u)[q + 2..] == Gaps(t)[q + 1..];
    assert u.kvs[..q] == t.kvs[..q] && u.kvs[q + 1..] == t.kvs[q..];
  }
}
