/** `fillChildAt`: a child one key short borrows from a sibling or merges with one. */
module Repair {
  import opened Bytes
  import opened Entries
  import opened Weaving
  import opened Nodes
  import opened Shapes

  /** A balanced inner node, except that child `pos` has one key too few. */
  ghost predicate OneShort(t: Tree, h: nat, pos: nat) {
    && !t.leaf && 0 < h && 1 <= |t.kvs| <= MAX_KEYS && |t.children| == |t.kvs| + 1 && pos < |t.children|
    && |t.children[pos].kvs| == MIN_KEYS - 1
    && Balanced(t.children[pos], h - 1, MIN_KEYS - 1)
    && Row(t.children[..pos], h - 1) && Row(t.children[pos + 1..], h - 1)
  }

  /** `l`, `e`, `r` hold the entries and grandchildren that children `q` and `q + 1` held. */
  ghost predicate Regrouped(t: Tree, q: nat, l: Tree, e: Entry, r: Tree) {
    && Arity(t) && !t.leaf && q < |t.kvs|
    && Arity(t.children[q]) && Arity(t.children[q + 1]) && t.children[q].leaf == t.children[q + 1].leaf
    && Arity(l) && Arity(r) && l.leaf == r.leaf
    && r.node == t.children[q + 1].node
    && Joined(l, e, r) == Joined(t.children[q], t.kvs[q], t.children[q + 1])
  }

  lemma RegroupInOrder(t: Tree, q: nat, l: Tree, e: Entry, r: Tree)
    requires Regrouped(t, q, l, e, r)
    ensures InOrder(ReplacePair(t, q, l, e, r)) == InOrder(t)
  {
    hide Weave, Gaps, Heads, Tails, Joined, InOrder;
    InOrderPair(t, q);
    InOrderReplacePair(t, q, l, e, r);
    InOrderJoined(l, e, r);
    InOrderJoined(t.children[q], t.kvs[q], t.children[q + 1]);
    var b, a := Before(t, q), After(t, q + 1);
    calc {
      b + InOrder(l) + [e] + InOrder(r) + a;
      b + (InOrder(l) + [e] + InOrder(r)) + a;
      b + (InOrder(t.children[q]) + [t.kvs[q]] + InOrder(t.children[q + 1])) + a;
      b + InOrder(t.children[q]) + [t.kvs[q]] + InOrder(t.children[q + 1]) + a;
    }
  }

  lemma RegroupDistinct(t: Tree, q: nat, l: Tree, e: Entry, r: Tree)
    requires Regrouped(t, q, l, e, r) && Distinct(t)
    ensures Distinct(ReplacePair(t, q, l, e, r))
    ensures Repr(ReplacePair(t, q, l, e, r)) <= Repr(t)
  {
    hide Repr, Distinct, ReprAll, DistinctAll;
    var m, x, y := t.children[q..q + 2], t.children[..q], t.children[q + 2..];
    assert m == [t.children[q], t.children[q + 1]] && t.children == x + m + y;
    Unfold(t);
    DistinctConcat(x + m, y); DistinctConcat(x, m); ReprConcat(x + m, y); ReprConcat(x, m);
    Pair(t.children[q], t.children[q + 1]);
    Pair(l, r);
    Rebuilt(x, m, y, [l, r]);
    Unfold(ReplacePair(t, q, l, e, r));
  }

  /** Merging loses no entry and uses one node fewer. */
  lemma MergeInOrder(t: Tree, q: nat)
    requires Arity(t) && !t.leaf && q < |t.kvs|
    requires Arity(t.children[q]) && Arity(t.children[q + 1]) && t.children[q].leaf == t.children[q + 1].leaf
    ensures InOrder(MergePair(t, q, Joined(t.children[q], t.kvs[q], t.children[q + 1]))) == InOrder(t)
  {
    hide Weave, Gaps, Heads, Tails, Joined, InOrder;
    InOrderPair(t, q);
    InOrderJoined(t.children[q], t.kvs[q], t.children[q + 1]);
    InOrderMergePair(t, q, Joined(t.children[q], t.kvs[q], t.children[q + 1]));
    var b, a := Before(t, q), After(t, q + 1);
    assert b + InOrder(t.children[q]) + [t.kvs[q]] + InOrder(t.children[q + 1]) + a
        == b + (InOrder(t.children[q]) + [t.kvs[q]] + InOrder(t.children[q + 1])) + a;
  }

  lemma MergeDistinct(t: Tree, q: nat)
    requires Arity(t) && !t.leaf && q < |t.kvs| && Distinct(t)
    ensures var u := MergePair(t, q, Joined(t.children[q], t.kvs[q], t.children[q + 1]));
      Distinct(u) && Repr(u) <= Repr(t)
  {
    hide Repr, Distinct, ReprAll, DistinctAll;
    var j := Joined(t.children[q], t.kvs[q], t.children[q + 1]);
    var m, x, y := t.children[q..q + 2], t.children[..q], t.children[q + 2..];
    assert m == [t.children[q], t.children[q + 1]] && t.children == x + m + y;
    Unfold(t);
    DistinctConcat(x + m, y); DistinctConcat(x, m); ReprConcat(x + m, y); ReprConcat(x, m);
    Pair(t.children[q], t.children[q + 1]);
    One(j);
    Unfold(j);
    Rebuilt(x, m, y, [j]);
    Unfold(MergePair(t, q, j));
  }

  /** Everything in `t` but its root and children `q` and `q + 1` themselves. */
  ghost function Around(t: Tree, q: nat): seq<Tree>
    requires q + 1 < |t.children|
  {
    t.children[..q] + t.children[q + 2..] + (t.children[q].children + t.children[q + 1].children)
  }

  lemma ApartAround(t: Tree, q: nat)
    requires Distinct(t) && q + 1 < |t.children|
    ensures t.node !in ReprAll(Around(t, q))
    ensures t.children[q].node !in ReprAll(Around(t, q)) && t.children[q + 1].node !in ReprAll(Around(t, q))
    ensures t.children[q].node != t.children[q + 1].node
    ensures t.node != t.children[q].node && t.node != t.children[q + 1].node
    ensures t.children[q].node in Repr(t) && t.children[q + 1].node in Repr(t)
  {
    hide Repr, Distinct, ReprAll, DistinctAll;
    var m, x, y := t.children[q..q + 2], t.children[..q], t.children[q + 2..];
    assert m == [t.children[q], t.children[q + 1]] && t.children == x + m + y;
    Unfold(t);
    DistinctConcat(x + m, y); DistinctConcat(x, m); ReprConcat(x + m, y); ReprConcat(x, m);
    Pair(t.children[q], t.children[q + 1]);
    ReprConcat(x, y);
    ReprConcat(x + y, t.children[q].children + t.children[q + 1].children);
  }

  lemma MatchesConcat(a: seq<Tree>, b: seq<Tree>)
    ensures MatchesAll(a + b) <==> MatchesAll(a) && MatchesAll(b)
  {
    hide Matches;
    var s := a + b;
    if MatchesAll(s) {
      forall i | 0 <= i < |a| ensures Matches(a[i]) { assert a[i] == s[i]; }
      forall i | 0 <= i < |b| ensures Matches(b[i]) { assert b[i] == s[|a| + i]; }
    }
  }

  lemma MatchesIs(t: Tree)
    ensures Matches(t) <==> Here(t) && MatchesAll(t.children)
  {
  }

  lemma MatchesAround(t: Tree, q: nat)
    requires Matches(t) && q + 1 < |t.children|
    ensures Here(t) && Here(t.children[q]) && Here(t.children[q + 1])
    ensures MatchesAll(Around(t, q))
  {
    hide Matches, Here;
    var l, r, x, y := t.children[q], t.children[q + 1], t.children[..q], t.children[q + 2..];
    MatchesIs(t);
    MatchesIs(l);
    MatchesIs(r);
    MatchesConcat(l.children, r.children);
    assert t.children == x + [l, r] + y;
    MatchesConcat(x + [l, r], y);
    MatchesConcat(x, [l, r]);
    MatchesConcat(x, y);
    MatchesConcat(x + y, l.children + r.children);
  }

  lemma RegroupMatches(t: Tree, q: nat, l: Tree, e: Entry, r: Tree)
    requires Regrouped(t, q, l, e, r) && MatchesAll(Around(t, q))
    requires Here(ReplacePair(t, q, l, e, r)) && Here(l) && Here(r)
    ensures Matches(ReplacePair(t, q, l, e, r))
  {
    hide Matches, Here, MatchesAll;
    var u, x, y := ReplacePair(t, q, l, e, r), t.children[..q], t.children[q + 2..];
    assert l.children + r.children == t.children[q].children + t.children[q + 1].children;
    MatchesConcat(x + y, l.children + r.children);
    MatchesConcat(x, y);
    MatchesConcat(l.children, r.children);
    MatchesIs(l);
    MatchesIs(r);
    MatchesIs(u);
    MatchesTwo(l, r);
    MatchesConcat(x, [l, r]);
    MatchesConcat(x + [l, r], y);
  }

  lemma MatchesOne(t: Tree)
    ensures MatchesAll([t]) <==> Matches(t)
  {
    hide Matches;
    assert [t][0] == t;
  }

  lemma MatchesTwo(l: Tree, r: Tree)
    ensures MatchesAll([l, r]) <==> Matches(l) && Matches(r)
  {
    hide Matches;
    assert [l, r][0] == l && [l, r][1] == r;
  }

  lemma MergeMatches(t: Tree, q: nat)
    requires Arity(t) && !t.leaf && q < |t.kvs| && MatchesAll(Around(t, q))
    requires var j := Joined(t.children[q], t.kvs[q], t.children[q + 1]); Here(j) && Here(MergePair(t, q, j))
    ensures Matches(MergePair(t, q, Joined(t.children[q], t.kvs[q], t.children[q + 1])))
  {
    hide Matches, Here, MatchesAll;
    var j := Joined(t.children[q], t.kvs[q], t.children[q + 1]);
    var u, x, y := MergePair(t, q, j), t.children[..q], t.children[q + 2..];
    MatchesConcat(x + y, j.children);
    MatchesConcat(x, y);
    MatchesIs(j);
    MatchesIs(u);
    MatchesOne(j);
    MatchesConcat(x, [j]);
    MatchesConcat(x + [j], y);
  }

  lemma RowOne(t: Tree, h: nat)
    ensures Row([t], h) <==> Balanced(t, h, MIN_KEYS)
  {
    assert [t][0] == t;
  }

  lemma RowTwo(l: Tree, r: Tree, h: nat)
    ensures Row([l, r], h) <==> Balanced(l, h, MIN_KEYS) && Balanced(r, h, MIN_KEYS)
  {
    assert [l, r][0] == l && [l, r][1] == r;
  }

  // --------------------------------------------------------- the three cases

  /** What a repair of `t` must leave: the same entries in the same order, every child within
      bounds and at its depth, and at most one entry gone from the node itself. */
  ghost predicate Repaired(t: Tree, u: Tree, h: nat) {
    && u.node == t.node && Distinct(u) && Repr(u) <= Repr(t)
    && InOrder(u) == InOrder(t)
    && |t.kvs| - 1 <= |u.kvs| <= |t.kvs|
    && Balanced(u, h, |u.kvs|)
  }

  ghost function ShedLast(l: Tree): Tree
    requires Arity(l) && l.kvs != []
  {
    l.(kvs := l.kvs[..|l.kvs| - 1], children := if l.leaf then [] else l.children[..|l.children| - 1])
  }

  ghost function ShedFirst(r: Tree): Tree
    requires Arity(r) && r.kvs != []
  {
    r.(kvs := r.kvs[1..], children := if r.leaf then [] else r.children[1..])
  }

  /** The right sibling after taking the separator `e` and the last child of `l`. */
  ghost function GainFirst(r: Tree, e: Entry, l: Tree): Tree
    requires Arity(l) && Arity(r) && l.leaf == r.leaf
  {
    r.(kvs := [e] + r.kvs, children := if r.leaf then [] else [l.children[|l.children| - 1]] + r.children)
  }

  ghost function GainLast(l: Tree, e: Entry, r: Tree): Tree
    requires Arity(l) && Arity(r) && l.leaf == r.leaf
  {
    l.(kvs := l.kvs + [e], children := if l.leaf then [] else l.children + [r.children[0]])
  }

  /** The children around a pair, all but the one that is short. */
  lemma OneShortPair(t: Tree, h: nat, pos: nat, q: nat)
    requires OneShort(t, h, pos) && q < |t.kvs| && (q == pos || q + 1 == pos)
    ensures Row(t.children[..q], h - 1) && Row(t.children[q + 2..], h - 1)
    ensures var l, r := t.children[q], t.children[q + 1];
      && Balanced(l, h - 1, |l.kvs|) && Balanced(r, h - 1, |r.kvs|)
      && Arity(l) && Arity(r) && l.leaf == r.leaf
      && Row(l.children + r.children, if h < 2 then 0 else h - 2)
      && |(if q == pos then r else l).kvs| >= MIN_KEYS
  {
    hide Balanced;
    var l, r := t.children[q], t.children[q + 1];
    if q == pos {
      assert r == t.children[pos + 1..][0];
      assert t.children[q + 2..] == t.children[pos + 1..][1..];
      BalancedIs(r, h - 1, MIN_KEYS);
    } else {
      assert l == t.children[..pos][q];
      assert t.children[..q] == t.children[..pos][..q];
      BalancedIs(l, h - 1, MIN_KEYS);
    }
    BalancedIs(t.children[pos], h - 1, MIN_KEYS - 1);
    BalancedIs(l, h - 1, |l.kvs|);
    BalancedIs(r, h - 1, |r.kvs|);
    if h >= 2 { RowConcat(l.children, r.children, h - 2); }
  }

  lemma RegroupBalanced(t: Tree, h: nat, q: nat, l: Tree, e: Entry, r: Tree)
    requires 0 < h && Regrouped(t, q, l, e, r) && |t.kvs| <= MAX_KEYS
    requires Row(t.children[..q], h - 1) && Row(t.children[q + 2..], h - 1)
    requires Row(l.children + r.children, if h < 2 then 0 else h - 2) && (l.leaf <==> h == 1)
    requires MIN_KEYS <= |l.kvs| <= MAX_KEYS && MIN_KEYS <= |r.kvs| <= MAX_KEYS
    ensures Balanced(ReplacePair(t, q, l, e, r), h, |t.kvs|)
  {
    hide Balanced, Joined;
    if h >= 2 { RowConcat(l.children, r.children, h - 2); }
    BalancedIs(l, h - 1, MIN_KEYS);
    BalancedIs(r, h - 1, MIN_KEYS);
    assert Row([l, r], h - 1);
    RowConcat(t.children[..q], [l, r], h - 1);
    RowConcat(t.children[..q] + [l, r], t.children[q + 2..], h - 1);
    BalancedIs(ReplacePair(t, q, l, e, r), h, |t.kvs|);
  }

  lemma BorrowLeftJoined(l: Tree, e: Entry, r: Tree)
    requires Arity(l) && Arity(r) && l.leaf == r.leaf && l.kvs != []
    ensures Joined(ShedLast(l), l.kvs[|l.kvs| - 1], GainFirst(r, e, l)) == Joined(l, e, r)
    ensures ShedLast(l).children + GainFirst(r, e, l).children == l.children + r.children
  {
    assert l.kvs == l.kvs[..|l.kvs| - 1] + [l.kvs[|l.kvs| - 1]];
    if !l.leaf { assert l.children == l.children[..|l.children| - 1] + [l.children[|l.children| - 1]]; }
  }

  lemma BorrowRightJoined(l: Tree, e: Entry, r: Tree)
    requires Arity(l) && Arity(r) && l.leaf == r.leaf && r.kvs != []
    ensures Joined(GainLast(l, e, r), r.kvs[0], ShedFirst(r)) == Joined(l, e, r)
    ensures GainLast(l, e, r).children + ShedFirst(r).children == l.children + r.children
  {
    assert r.kvs == [r.kvs[0]] + r.kvs[1..];
    if !r.leaf { assert r.children == [r.children[0]] + r.children[1..]; }
  }

  lemma BorrowLeftRegroups(t: Tree, q: nat, l: Tree, r: Tree)
    requires Arity(t) && !t.leaf && q < |t.kvs| && l == t.children[q] && r == t.children[q + 1]
    requires Arity(l) && Arity(r) && l.leaf == r.leaf && l.kvs != []
    ensures Regrouped(t, q, ShedLast(l), l.kvs[|l.kvs| - 1], GainFirst(r, t.kvs[q], l))
    ensures |ShedLast(l).kvs| == |l.kvs| - 1 && |GainFirst(r, t.kvs[q], l).kvs| == |r.kvs| + 1
    ensures ShedLast(l).leaf == l.leaf
  {
    hide Joined;
    BorrowLeftJoined(l, t.kvs[q], r);
  }

  lemma BorrowRightRegroups(t: Tree, q: nat, l: Tree, r: Tree)
    requires Arity(t) && !t.leaf && q < |t.kvs| && l == t.children[q] && r == t.children[q + 1]
    requires Arity(l) && Arity(r) && l.leaf == r.leaf && r.kvs != []
    ensures Regrouped(t, q, GainLast(l, t.kvs[q], r), r.kvs[0], ShedFirst(r))
    ensures |GainLast(l, t.kvs[q], r).kvs| == |l.kvs| + 1 && |ShedFirst(r).kvs| == |r.kvs| - 1
    ensures GainLast(l, t.kvs[q], r).leaf == l.leaf
  {
    hide Joined;
    BorrowRightJoined(l, t.kvs[q], r);
  }

  lemma SameSize(t: Tree, q: nat, l: Tree, e: Entry, r: Tree)
    requires Regrouped(t, q, l, e, r)
    ensures Arity(t) && !t.leaf && q < |t.kvs| && |ReplacePair(t, q, l, e, r).kvs| == |t.kvs|
  {
  }

  /** Any regrouping that respects the bounds is a repair. */
  lemma RegroupRepairs(t: Tree, h: nat, q: nat, l: Tree, e: Entry, r: Tree)
    requires 0 < h && Regrouped(t, q, l, e, r) && |t.kvs| <= MAX_KEYS && Distinct(t)
    requires Row(t.children[..q], h - 1) && Row(t.children[q + 2..], h - 1)
    requires Row(l.children + r.children, if h < 2 then 0 else h - 2) && (l.leaf <==> h == 1)
    requires MIN_KEYS <= |l.kvs| <= MAX_KEYS && MIN_KEYS <= |r.kvs| <= MAX_KEYS
    ensures Repaired(t, ReplacePair(t, q, l, e, r), h)
  {
    hide Repr, Distinct, InOrder, Balanced, Row, Joined, Regrouped;
    SameSize(t, q, l, e, r);
    RegroupInOrder(t, q, l, e, r);
    RegroupDistinct(t, q, l, e, r);
    RegroupBalanced(t, h, q, l, e, r);
  }

  lemma BorrowLeftRepairs(t: Tree, h: nat, q: nat)
    requires OneShort(t, h, q + 1) && Distinct(t) && MIN_KEYS < |t.children[q].kvs|
    ensures var l, r := t.children[q], t.children[q + 1];
      && Arity(l) && Arity(r) && l.leaf == r.leaf
      && Regrouped(t, q, ShedLast(l), l.kvs[|l.kvs| - 1], GainFirst(r, t.kvs[q], l))
      && Repaired(t, ReplacePair(t, q, ShedLast(l), l.kvs[|l.kvs| - 1], GainFirst(r, t.kvs[q], l)), h)
  {
    hide Repr, Distinct, InOrder, Balanced, Row, Joined, Repaired, Regrouped, ShedLast, GainFirst, ReplacePair;
    OneShortPair(t, h, q + 1, q);
    var l, r := t.children[q], t.children[q + 1];
    BalancedIs(l, h - 1, |l.kvs|);
    BorrowLeftJoined(l, t.kvs[q], r);
    BorrowLeftRegroups(t, q, l, r);
    RegroupRepairs(t, h, q, ShedLast(l), l.kvs[|l.kvs| - 1], GainFirst(r, t.kvs[q], l));
  }

  lemma BorrowRightRepairs(t: Tree, h: nat, q: nat)
    requires OneShort(t, h, q) && Distinct(t) && q + 1 < |t.children| && MIN_KEYS < |t.children[q + 1].kvs|
    ensures var l, r := t.children[q], t.children[q + 1];
      && Arity(l) && Arity(r) && l.leaf == r.leaf
      && Regrouped(t, q, GainLast(l, t.kvs[q], r), r.kvs[0], ShedFirst(r))
      && Repaired(t, ReplacePair(t, q, GainLast(l, t.kvs[q], r), r.kvs[0], ShedFirst(r)), h)
  {
    hide Repr, Distinct, InOrder, Balanced, Row, Joined, Repaired, Regrouped, ShedFirst, GainLast, ReplacePair;
    OneShortPair(t, h, q, q);
    var l, r := t.children[q], t.children[q + 1];
    BalancedIs(l, h - 1, |l.kvs|);
    BalancedIs(r, h - 1, |r.kvs|);
    BorrowRightJoined(l, t.kvs[q], r);
    BorrowRightRegroups(t, q, l, r);
    RegroupRepairs(t, h, q, GainLast(l, t.kvs[q], r), r.kvs[0], ShedFirst(r));
  }

  lemma MergeRepairs(t: Tree, h: nat, pos: nat, q: nat)
    requires OneShort(t, h, pos) && Distinct(t) && q < |t.kvs| && (q == pos || q + 1 == pos)
    requires |t.children[q].kvs| + |t.children[q + 1].kvs| < MAX_KEYS
    ensures Arity(t.children[q]) && Arity(t.children[q + 1]) && t.children[q].leaf == t.children[q + 1].leaf
    ensures Repaired(t, MergePair(t, q, Joined(t.children[q], t.kvs[q], t.children[q + 1])), h)
  {
    hide Repr, Distinct, InOrder, Balanced, Row;
    OneShortPair(t, h, pos, q);
    MergeInOrder(t, q);
    MergeDistinct(t, q);
    var j := Joined(t.children[q], t.kvs[q], t.children[q + 1]);
    BalancedIs(t.children[q], h - 1, |t.children[q].kvs|);
    BalancedIs(j, h - 1, MIN_KEYS);
    RowOne(j, h - 1);
    RowConcat(t.children[..q], [j], h - 1);
    RowConcat(t.children[..q] + [j], t.children[q + 2..], h - 1);
    BalancedIs(MergePair(t, q, j), h, |t.kvs| - 1);
  }

  lemma GainFirstFields(r: Tree, e: Entry, l: Tree)
    requires Arity(l) && Arity(r) && l.leaf == r.leaf
    ensures var g := GainFirst(r, e, l);
      && g.node == r.node && g.leaf == r.leaf
      && Keys(g.kvs) == [e.key] + Keys(r.kvs) && Values(g.kvs) == [e.value] + Values(r.kvs)
      && Roots(g.children) == (if r.leaf then Roots(r.children) else [Roots(l.children)[|l.children| - 1]] + Roots(r.children))
  {
  }

  lemma GainLastFields(l: Tree, e: Entry, r: Tree)
    requires Arity(l) && Arity(r) && l.leaf == r.leaf
    ensures var g := GainLast(l, e, r);
      && g.node == l.node && g.leaf == l.leaf
      && Keys(g.kvs) == Keys(l.kvs) + [e.key] && Values(g.kvs) == Values(l.kvs) + [e.value]
      && Roots(g.children) == (if l.leaf then Roots(l.children) else Roots(l.children) + [Roots(r.children)[0]])
  {
  }

  lemma ShedFirstFields(r: Tree)
    requires Arity(r) && r.kvs != []
    ensures var g := ShedFirst(r);
      && g.node == r.node && g.leaf == r.leaf
      && Keys(g.kvs) == Keys(r.kvs)[1..] && Values(g.kvs) == Values(r.kvs)[1..]
      && Roots(g.children) == (if r.leaf then Roots(r.children) else Roots(r.children)[1..])
  {
  }

  lemma ShedLastFields(l: Tree)
    requires Arity(l) && l.kvs != []
    ensures var g := ShedLast(l);
      && g.node == l.node && g.leaf == l.leaf
      && Keys(g.kvs) == Keys(l.kvs)[..|l.kvs| - 1] && Values(g.kvs) == Values(l.kvs)[..|l.kvs| - 1]
      && Roots(g.children) == (if l.leaf then Roots(l.children) else Roots(l.children)[..|l.children| - 1])
  {
  }

  /** What the three objects must hold for the tree after borrowing from the left. */
  lemma BorrowLeftFields(t: Tree, q: nat, l: Tree, r: Tree)
    requires q < |t.kvs| && Arity(t) && !t.leaf && l == t.children[q] && r == t.children[q + 1]
    requires Arity(l) && Arity(r) && l.leaf == r.leaf && l.kvs != []
    ensures var l', r' := ShedLast(l), GainFirst(r, t.kvs[q], l);
      var u := ReplacePair(t, q, l', l.kvs[|l.kvs| - 1], r');
      && l'.node == l.node && l'.leaf == l.leaf && r'.node == r.node && r'.leaf == r.leaf
      && Keys(r'.kvs) == [Keys(t.kvs)[q]] + Keys(r.kvs)
      && Values(r'.kvs) == [Values(t.kvs)[q]] + Values(r.kvs)
      && Roots(r'.children) == (if r.leaf then Roots(r.children) else [Roots(l.children)[|l.children| - 1]] + Roots(r.children))
      && Keys(l'.kvs) == Keys(l.kvs)[..|l.kvs| - 1]
      && Values(l'.kvs) == Values(l.kvs)[..|l.kvs| - 1]
      && Roots(l'.children) == (if l.leaf then Roots(l.children) else Roots(l.children)[..|l.children| - 1])
      && FieldsReplaced(t, q, Keys(l.kvs)[|l.kvs| - 1], Values(l.kvs)[|l.kvs| - 1], u)
  {
    hide FieldsReplaced, ReplacePair, GainFirst, ShedLast;
    GainFirstFields(r, t.kvs[q], l);
    ShedLastFields(l);
    ReplacePairFields(t, q, ShedLast(l), l.kvs[|l.kvs| - 1], GainFirst(r, t.kvs[q], l));
  }

  lemma BorrowRightFields(t: Tree, pos: nat, l: Tree, r: Tree)
    requires pos < |t.kvs| && Arity(t) && !t.leaf && l == t.children[pos] && r == t.children[pos + 1]
    requires Arity(l) && Arity(r) && l.leaf == r.leaf && r.kvs != []
    ensures var l', r' := GainLast(l, t.kvs[pos], r), ShedFirst(r);
      var u := ReplacePair(t, pos, l', r.kvs[0], r');
      && l'.node == l.node && l'.leaf == l.leaf && r'.node == r.node && r'.leaf == r.leaf
      && Keys(l'.kvs) == Keys(l.kvs) + [Keys(t.kvs)[pos]]
      && Values(l'.kvs) == Values(l.kvs) + [Values(t.kvs)[pos]]
      && Roots(l'.children) == (if l.leaf then Roots(l.children) else Roots(l.children) + [Roots(r.children)[0]])
      && Keys(r'.kvs) == Keys(r.kvs)[1..]
      && Values(r'.kvs) == Values(r.kvs)[1..]
      && Roots(r'.children) == (if r.leaf then Roots(r.children) else Roots(r.children)[1..])
      && FieldsReplaced(t, pos, Keys(r.kvs)[0], Values(r.kvs)[0], u)
  {
    hide FieldsReplaced, ReplacePair, GainLast, ShedFirst;
    GainLastFields(l, t.kvs[pos], r);
    ShedFirstFields(r);
    ReplacePairFields(t, pos, GainLast(l, t.kvs[pos], r), r.kvs[0], ShedFirst(r));
  }

  /** `u`'s root object differs from `t`'s in entry `q` only. */
  ghost predicate FieldsReplaced(t: Tree, q: nat, k: Key, v: Value, u: Tree)
    requires q < |t.kvs|
  {
    && u.node == t.node && u.leaf == t.leaf
    && Keys(u.kvs) == Keys(t.kvs)[q := k]
    && Values(u.kvs) == Values(t.kvs)[q := v]
    && Roots(u.children) == Roots(t.children)
  }

  lemma ReplacePairFields(t: Tree, q: nat, l: Tree, e: Entry, r: Tree)
    requires Arity(t) && !t.leaf && q < |t.kvs|
    requires l.node == t.children[q].node && r.node == t.children[q + 1].node
    ensures FieldsReplaced(t, q, e.key, e.value, ReplacePair(t, q, l, e, r))
  {
  }

  lemma MergeFields(t: Tree, q: nat)
    requires q < |t.kvs| && Arity(t) && !t.leaf
    ensures var l, r := t.children[q], t.children[q + 1];
      var j := Joined(l, t.kvs[q], r);
      var u := MergePair(t, q, j);
      && j.node == l.node && j.leaf == l.leaf && u.node == t.node && u.leaf == t.leaf
      && Keys(j.kvs) == Keys(l.kvs) + [Keys(t.kvs)[q]] + Keys(r.kvs)
      && Values(j.kvs) == Values(l.kvs) + [Values(t.kvs)[q]] + Values(r.kvs)
      && Roots(j.children) == Roots(l.children) + Roots(r.children)
      && Keys(u.kvs) == Keys(t.kvs)[..q] + Keys(t.kvs)[q + 1..]
      && Values(u.kvs) == Values(t.kvs)[..q] + Values(t.kvs)[q + 1..]
      && Roots(u.children) == Roots(t.children)[..q + 1] + Roots(t.children)[q + 2..]
  {
  }

  // ------------------------------------------------------------------- shapes

  lemma PairShape(t: Tree, q: nat, l: Tree, e: Entry, r: Tree)
    requires Arity(t) && !t.leaf && q < |t.kvs|
    ensures var s, u := ShapeOf(t), ShapeOf(ReplacePair(t, q, l, e, r));
      && |s.children| == |s.kvs| + 1 && s.kvs == t.kvs
      && u == Shape(false, s.kvs[..q] + [e] + s.kvs[q + 1..], s.children[..q] + [ShapeOf(l), ShapeOf(r)] + s.children[q + 2..])
      && s.children[q] == ShapeOf(t.children[q]) && s.children[q + 1] == ShapeOf(t.children[q + 1])
  {
    hide ShapeOf;
    var x, y := t.children[..q], t.children[q + 2..];
    ShapeIs(t);
    ShapeIs(ReplacePair(t, q, l, e, r));
    ShapesConcat(x + [l, r], y);
    ShapesConcat(x, [l, r]);
    ShapesTwo(l, r);
    ShapesCut(t.children, q + 2, |t.children|);
    ShapesCut(t.children, 0, q);
  }

  lemma LendRightShape(t: Tree, q: nat)
    requires Arity(t) && !t.leaf && q < |t.kvs|
    requires var l, r := t.children[q], t.children[q + 1]; Arity(l) && Arity(r) && l.leaf == r.leaf && l.kvs != []
    ensures var l, r := t.children[q], t.children[q + 1];
      && Between(ShapeOf(t), q)
      && ShapeOf(ReplacePair(t, q, ShedLast(l), l.kvs[|l.kvs| - 1], GainFirst(r, t.kvs[q], l))) == LendRight(ShapeOf(t), q)
  {
    hide ShapeOf, ReplacePair;
    var l, r := t.children[q], t.children[q + 1];
    PairShape(t, q, ShedLast(l), l.kvs[|l.kvs| - 1], GainFirst(r, t.kvs[q], l));
    ShapeIs(t);
    ShapeIs(l);
    ShapeIs(r);
    ShapeIs(ShedLast(l));
    ShapeIs(GainFirst(r, t.kvs[q], l));
    assert Last(l.kvs) == [l.kvs[|l.kvs| - 1]];
    if !l.leaf {
      var n := |l.children| - 1;
      ShapesCut(l.children, 0, n);
      ShapesConcat([l.children[n]], r.children);
      ShapesTwo(l.children[n], r);
      ShapesPut(l.children, n, l);
      assert Last(ShapesOf(l.children)) == [ShapeOf(l.children[n])];
    } else {
      ShapesTwo(l, r);
    }
  }

  lemma LendLeftShape(t: Tree, q: nat)
    requires Arity(t) && !t.leaf && q < |t.kvs|
    requires var l, r := t.children[q], t.children[q + 1]; Arity(l) && Arity(r) && l.leaf == r.leaf && r.kvs != []
    ensures var l, r := t.children[q], t.children[q + 1];
      && Between(ShapeOf(t), q)
      && ShapeOf(ReplacePair(t, q, GainLast(l, t.kvs[q], r), r.kvs[0], ShedFirst(r))) == LendLeft(ShapeOf(t), q)
  {
    hide ShapeOf, ReplacePair;
    var l, r := t.children[q], t.children[q + 1];
    PairShape(t, q, GainLast(l, t.kvs[q], r), r.kvs[0], ShedFirst(r));
    ShapeIs(t);
    ShapeIs(l);
    ShapeIs(r);
    ShapeIs(GainLast(l, t.kvs[q], r));
    ShapeIs(ShedFirst(r));
    assert First(r.kvs) == [r.kvs[0]];
    if !l.leaf {
      ShapesCut(r.children, 1, |r.children|);
      ShapesConcat(l.children, [r.children[0]]);
      ShapesTwo(r.children[0], r);
      ShapesPut(r.children, 0, r);
      assert First(ShapesOf(r.children)) == [ShapeOf(r.children[0])];
    } else {
      ShapesTwo(l, r);
    }
  }

  lemma FuseShape(t: Tree, q: nat)
    requires Arity(t) && !t.leaf && q < |t.kvs|
    ensures var l, r := t.children[q], t.children[q + 1];
      Between(ShapeOf(t), q) && ShapeOf(MergePair(t, q, Joined(l, t.kvs[q], r))) == Fuse(ShapeOf(t), q)
  {
    hide ShapeOf;
    var l, r, x, y := t.children[q], t.children[q + 1], t.children[..q], t.children[q + 2..];
    var j := Joined(l, t.kvs[q], r);
    ShapeIs(t);
    ShapeIs(l);
    ShapeIs(r);
    ShapeIs(j);
    ShapeIs(MergePair(t, q, j));
    ShapesConcat(l.children, r.children);
    ShapesConcat(x + [j], y);
    ShapesConcat(x, [j]);
    ShapesTwo(j, j);
    ShapesCut(t.children, q + 2, |t.children|);
    ShapesCut(t.children, 0, q);
  }

  /** The switch of `fillChildAt` on the shape. */
  lemma FillIs(t: Tree, pos: nat)
    requires Arity(t) && !t.leaf && t.kvs != [] && pos <= |t.kvs|
    ensures var s, q := ShapeOf(t), if pos >= |t.kvs| then |t.kvs| - 1 else pos;
      && !s.leaf && Fair(s) && s.kvs == t.kvs
      && FillAt(s, pos) ==
        if pos > 0 && |t.children[pos - 1].kvs| > MIN_KEYS then LendRight(s, pos - 1)
        else if pos < |t.kvs| && |t.children[pos + 1].kvs| > MIN_KEYS then LendLeft(s, pos)
        else Fuse(s, q)
  {
    hide LendLeft, LendRight, Fuse;
  }

  // ------------------------------------------------------------- the writes

  /** First case of the switch: the last entry of `left` goes up, the separator comes down. */
  method RotateRight(n: Node, q: nat, left: Node, right: Node)
    requires n != left && n != right && left != right
    requires q < |n.keys| == |n.values| && 0 < |left.keys| == |left.values|
    requires !right.isleaf ==> left.children != []
    modifies n`keys, n`values, left`keys, left`values, left`children, right`keys, right`values, right`children
    ensures right.keys == old([n.keys[q]] + right.keys) && right.values == old([n.values[q]] + right.values)
    ensures right.children == old(if right.isleaf then right.children else [left.children[|left.children| - 1]] + right.children)
    ensures left.children == old(if right.isleaf then left.children else left.children[..|left.children| - 1])
    ensures left.keys == old(left.keys[..|left.keys| - 1]) && left.values == old(left.values[..|left.values| - 1])
    ensures n.keys == old(n.keys[q := left.keys[|left.keys| - 1]])
    ensures n.values == old(n.values[q := left.values[|left.values| - 1]])
  {
    right.keys := [n.keys[q]] + right.keys;
    right.values := [n.values[q]] + right.values;
    if !right.isleaf {
      right.children := [left.children[|left.children| - 1]] + right.children;
      left.children := left.children[..|left.children| - 1];
    }
    n.keys := n.keys[q := left.keys[|left.keys| - 1]];
    n.values := n.values[q := left.values[|left.values| - 1]];
    left.keys := left.keys[..|left.keys| - 1];
    left.values := left.values[..|left.values| - 1];
  }

  method RotateRightHere(n: Node, q: nat, ghost t: Tree)
    requires t.node == n && Arity(t) && !t.leaf && q < |t.kvs|
    requires var l, r := t.children[q], t.children[q + 1];
      && Here(t) && Here(l) && Here(r) && n != l.node && n != r.node && l.node != r.node
      && Arity(l) && Arity(r) && l.leaf == r.leaf && l.kvs != []
    modifies n`keys, n`values
    modifies t.children[q].node, t.children[q + 1].node
    ensures var l, r := t.children[q], t.children[q + 1];
      var l', e, r' := ShedLast(l), l.kvs[|l.kvs| - 1], GainFirst(r, t.kvs[q], l);
      Here(l') && Here(r') && Here(ReplacePair(t, q, l', e, r'))
  {
    hide Keys, Values, Roots, ReplacePair, ShedLast, GainFirst;
    BorrowLeftFields(t, q, t.children[q], t.children[q + 1]);
    RootAt(t.children, q);
    RootAt(t.children, q + 1);
    RotateRight(n, q, n.children[q], n.children[q + 1]);
  }

  /** Second case: the first entry of the right child goes up, the separator comes down. */
  method RotateLeft(n: Node, pos: nat, ghost t: Tree)
    requires t.node == n && Arity(t) && !t.leaf && pos < |t.kvs|
    requires var l, r := t.children[pos], t.children[pos + 1];
      && Here(t) && Here(l) && Here(r) && n != l.node && n != r.node && l.node != r.node
      && Arity(l) && Arity(r) && l.leaf == r.leaf && r.kvs != []
    modifies n`keys, n`values
    modifies t.children[pos].node, t.children[pos + 1].node
    ensures var l, r := t.children[pos], t.children[pos + 1];
      var l', e, r' := GainLast(l, t.kvs[pos], r), r.kvs[0], ShedFirst(r);
      Here(l') && Here(r') && Here(ReplacePair(t, pos, l', e, r'))
  {
    hide Keys, Values, Roots, ReplacePair, ShedFirst, GainLast;
    BorrowRightFields(t, pos, t.children[pos], t.children[pos + 1]);
    RootAt(t.children, pos);
    RootAt(t.children, pos + 1);
    var left, right := n.children[pos], n.children[pos + 1];
    left.keys := left.keys + [n.keys[pos]];
    left.values := left.values + [n.values[pos]];
    if !left.isleaf {
      left.children := left.children + [right.children[0]];
      right.children := right.children[1..];
    }
    n.keys := n.keys[pos := right.keys[0]];
    n.values := n.values[pos := right.values[0]];
    right.keys := right.keys[1..];
    right.values := right.values[1..];
  }

  /** Default case: the left child takes the separator and all of the right child, which the
      parent drops. */
  method Merge(n: Node, pos: nat, ghost t: Tree)
    requires t.node == n && Arity(t) && !t.leaf && pos < |t.kvs|
    requires var l, r := t.children[pos], t.children[pos + 1];
      && Here(t) && Here(l) && Here(r) && n != l.node && n != r.node && l.node != r.node
      && Arity(l) && Arity(r) && l.leaf == r.leaf
    modifies n`keys, n`values, n`children
    modifies t.children[pos].node
    ensures var j := Joined(t.children[pos], t.kvs[pos], t.children[pos + 1]);
      Here(j) && Here(MergePair(t, pos, j))
  {
    hide Keys, Values, MergePair;
    MergeFields(t, pos);
    var left, right := n.children[pos], n.children[pos + 1];
    left.keys := left.keys + [n.keys[pos]];
    left.values := left.values + [n.values[pos]];
    left.keys := left.keys + right.keys;
    left.values := left.values + right.values;
    if !left.isleaf {
      left.children := left.children + right.children;
    }
    n.keys := n.keys[..pos] + n.keys[pos + 1..];
    n.values := n.values[..pos] + n.values[pos + 1..];
    n.children := n.children[..pos + 1] + n.children[pos + 2..];
  }

  method BorrowLeft(n: Node, q: nat, ghost t: Tree, ghost h: nat) returns (ghost u: Tree)
    requires t.node == n && OneShort(t, h, q + 1) && Matches(t) && Distinct(t)
    requires MIN_KEYS < |t.children[q].kvs|
    modifies n, t.children[q].node, t.children[q + 1].node
    ensures Repaired(t, u, h) && Matches(u) && |u.kvs| == |t.kvs|
    ensures Between(ShapeOf(t), q) && ShapeOf(u) == LendRight(ShapeOf(t), q)
  {
    hide Repr, Distinct, Matches, Here, InOrder, Balanced, Row, MatchesAll, ReprAll, Repaired, Joined, Around,
      Regrouped, ShedLast, ShedFirst, GainFirst, GainLast, ShapeOf, LendRight;
    ghost var around := Around(t, q);
    ExistingAll(around);
    MatchesAround(t, q);
    ApartAround(t, q);
    BorrowLeftRepairs(t, h, q);
    ghost var l, r := t.children[q], t.children[q + 1];
    ghost var l', e, r' := ShedLast(l), l.kvs[|l.kvs| - 1], GainFirst(r, t.kvs[q], l);
    u := ReplacePair(t, q, l', e, r');
    LendRightShape(t, q);
    RotateRightHere(n, q, t);
    assert MatchesAll(around);
    RegroupMatches(t, q, l', e, r');
  }

  method BorrowRight(n: Node, pos: nat, ghost t: Tree, ghost h: nat) returns (ghost u: Tree)
    requires t.node == n && OneShort(t, h, pos) && Matches(t) && Distinct(t)
    requires pos + 1 < |t.children| && MIN_KEYS < |t.children[pos + 1].kvs|
    modifies n, t.children[pos].node, t.children[pos + 1].node
    ensures Repaired(t, u, h) && Matches(u) && |u.kvs| == |t.kvs|
    ensures Between(ShapeOf(t), pos) && ShapeOf(u) == LendLeft(ShapeOf(t), pos)
  {
    hide Repr, Distinct, Matches, Here, InOrder, Balanced, Row, MatchesAll, ReprAll, Repaired, Joined, Around,
      Regrouped, ShedLast, ShedFirst, GainFirst, GainLast, ShapeOf, LendLeft;
    ghost var around := Around(t, pos);
    ExistingAll(around);
    MatchesAround(t, pos);
    ApartAround(t, pos);
    BorrowRightRepairs(t, h, pos);
    ghost var l, r := t.children[pos], t.children[pos + 1];
    ghost var l', e, r' := GainLast(l, t.kvs[pos], r), r.kvs[0], ShedFirst(r);
    u := ReplacePair(t, pos, l', e, r');
    LendLeftShape(t, pos);
    RotateLeft(n, pos, t);
    assert MatchesAll(around);
    RegroupMatches(t, pos, l', e, r');
  }

  method MergeAt(n: Node, q: nat, ghost t: Tree, ghost h: nat, ghost pos: nat) returns (ghost u: Tree)
    requires t.node == n && OneShort(t, h, pos) && Matches(t) && Distinct(t)
    requires q < |t.kvs| && (q == pos || q + 1 == pos)
    requires |t.children[q].kvs| + |t.children[q + 1].kvs| < MAX_KEYS
    modifies n, t.children[q].node
    ensures Repaired(t, u, h) && Matches(u) && |u.kvs| == |t.kvs| - 1
    ensures Between(ShapeOf(t), q) && ShapeOf(u) == Fuse(ShapeOf(t), q)
  {
    hide Repr, Distinct, Matches, Here, InOrder, Balanced, Row, MatchesAll, ReprAll, Repaired, Joined, Around,
      Regrouped, ShedLast, ShedFirst, GainFirst, GainLast, ShapeOf, Fuse;
    FuseShape(t, q);
    ghost var around := Around(t, q);
    ExistingAll(around);
    MatchesAround(t, q);
    ApartAround(t, q);
    MergeRepairs(t, h, pos, q);
    ghost var l, r := t.children[q], t.children[q + 1];
    u := MergePair(t, q, Joined(l, t.kvs[q], r));
    Merge(n, q, t);
    assert MatchesAll(around);
    MergeMatches(t, q);
  }

  /** Child `i` exists and has more than the least number of keys. */
  ghost predicate Spares(t: Tree, i: int) {
    0 <= i < |t.children| && |t.children[i].kvs| > MIN_KEYS
  }

  lemma LentEntries(s: Shape, q: nat)
    requires Between(s, q) && s.children[q].kvs != [] && s.children[q + 1].kvs != []
    ensures var l, r := s.children[q].kvs, s.children[q + 1].kvs;
      LendRight(s, q).kvs == s.kvs[q := l[|l| - 1]] && LendLeft(s, q).kvs == s.kvs[q := r[0]]
  {
    var l, r := s.children[q].kvs, s.children[q + 1].kvs;
    assert Last(l) == [l[|l| - 1]] && First(r) == [r[0]];
  }

  lemma FusedEntries(s: Shape, q: nat)
    requires Between(s, q)
    ensures Fuse(s, q).kvs == s.kvs[..q] + s.kvs[q + 1..]
  {
  }

  /** The separators after the repair of child `pos`: a borrow, left before right, replaces one; a merge,
      with the right neighbour unless the child is the last, takes one out. */
  ghost function Separators(t: Tree, pos: nat): seq<Entry>
    requires |t.children| == |t.kvs| + 1 && t.kvs != [] && pos <= |t.kvs|
  {
    if Spares(t, pos - 1) then t.kvs[pos - 1 := t.children[pos - 1].kvs[|t.children[pos - 1].kvs| - 1]]
    else if Spares(t, pos + 1) then t.kvs[pos := t.children[pos + 1].kvs[0]]
    else if pos < |t.kvs| then t.kvs[..pos] + t.kvs[pos + 1..]
    else t.kvs[..pos - 1]
  }

  lemma FillEntries(t: Tree, pos: nat)
    requires Arity(t) && !t.leaf && t.kvs != [] && pos <= |t.kvs| && t.children[pos].kvs != []
    ensures FillAt(ShapeOf(t), pos).kvs == Separators(t, pos)
  {
    hide ShapeOf, FillAt, LendLeft, LendRight, Fuse;
    var s := ShapeOf(t);
    FillIs(t, pos);
    ShapeIs(t);
    ShapeIs(t.children[pos]);
    if Spares(t, pos - 1) {
      ShapeIs(t.children[pos - 1]);
      LentEntries(s, pos - 1);
    } else if Spares(t, pos + 1) {
      ShapeIs(t.children[pos + 1]);
      LentEntries(s, pos);
    } else {
      FusedEntries(s, if pos >= |t.kvs| then |t.kvs| - 1 else pos);
      assert t.kvs[..|t.kvs| - 1] + t.kvs[|t.kvs|..] == t.kvs[..|t.kvs| - 1];
    }
  }

  /** `fillChildAt`.  On a node with exactly one child one key short, the in-order sequence
      stays, every child is back within bounds, and the node loses an entry, and only one, exactly
      when neither neighbour of the child can spare a key. */
  method FillChildAt(n: Node, pos: nat, ghost t: Tree, ghost h: nat) returns (ghost u: Tree)
    requires t.node == n && OneShort(t, h, pos) && Matches(t) && Distinct(t)
    modifies Repr(t)
    ensures Repaired(t, u, h) && Matches(u)
    ensures |u.kvs| == |t.kvs| - if Spares(t, pos - 1) || Spares(t, pos + 1) then 0 else 1
    ensures ShapeOf(u) == FillAt(ShapeOf(t), pos)
    ensures u.kvs == Separators(t, pos)
  {
    hide Repr, Distinct, InOrder, Balanced, Repaired, Keys, Values, ShapeOf, LendLeft, LendRight, Fuse, FillAt, Matches, Separators;
    MatchesIs(t);
    FillIs(t, pos);
    FillEntries(t, pos);
    if pos > 0 {
      MatchesAround(t, pos - 1);
      ApartAround(t, pos - 1);
      OneShortPair(t, h, pos, pos - 1);
    }
    if pos < |t.kvs| {
      MatchesAround(t, pos);
      ApartAround(t, pos);
      OneShortPair(t, h, pos, pos);
    }
    Unfold(t);
    if pos > 0 && |n.children[pos - 1].keys| > MIN_KEYS {
      u := BorrowLeft(n, pos - 1, t, h);
    } else if pos < |n.children| - 1 && |n.children[pos + 1].keys| > MIN_KEYS {
      u := BorrowRight(n, pos, t, h);
    } else {
      var q := if pos >= |n.keys| then |n.keys| - 1 else pos;
      u := MergeAt(n, q, t, h, pos);
    }
    ShapeIs(u);
  }
}
