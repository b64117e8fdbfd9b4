/** Working on one child of a node while the rest of the tree stands still. */
module Subtrees {
  import opened Bytes
  import opened Entries
  import opened Weaving
  import opened Nodes
  import opened Repair

  /** The siblings of child `p`. */
  ghost function Siblings(t: Tree, p: nat): seq<Tree>
    requires p < |t.children|
  {
    t.children[..p] + t.children[p + 1..]
  }

  lemma ChildSplit(t: Tree, p: nat)
    requires p < |t.children|
    ensures t.children == t.children[..p] + [t.children[p]] + t.children[p + 1..]
  {
  }

  lemma ApartChild(t: Tree, p: nat)
    requires Distinct(t) && p < |t.children|
    ensures Distinct(t.children[p]) && Repr(t.children[p]) <= Repr(t) && t.node in Repr(t)
    ensures t.node !in Repr(t.children[p]) && t.node !in ReprAll(Siblings(t, p))
    ensures Repr(t.children[p]) !! ReprAll(Siblings(t, p))
    ensures ReprAll(Siblings(t, p)) <= Repr(t)
  {
    hide Repr, Distinct, ReprAll, DistinctAll;
    var x, c, y := t.children[..p], t.children[p], t.children[p + 1..];
    ChildSplit(t, p);
    Unfold(t);
    One(c);
    DistinctConcat(x + [c], y); DistinctConcat(x, [c]); ReprConcat(x + [c], y); ReprConcat(x, [c]);
    ReprConcat(x, y);
  }

  lemma MatchesChild(t: Tree, p: nat)
    requires Matches(t) && p < |t.children|
    ensures Here(t) && Matches(t.children[p]) && MatchesAll(Siblings(t, p))
  {
    hide Matches, Here, MatchesAll;
    var x, c, y := t.children[..p], t.children[p], t.children[p + 1..];
    ChildSplit(t, p);
    MatchesIs(t);
    MatchesOne(c);
    MatchesConcat(x + [c], y);
    MatchesConcat(x, [c]);
    MatchesConcat(x, y);
  }

  /** Putting the node back together around a changed child. */
  lemma MatchesPut(t: Tree, p: nat, u: Tree)
    requires p < |t.children| == |u.children| && u.children == t.children[p := u.children[p]]
    requires Here(u) && Matches(u.children[p]) && MatchesAll(Siblings(t, p))
    ensures Matches(u)
  {
    hide Matches, Here, MatchesAll;
    var x, c, y := t.children[..p], u.children[p], t.children[p + 1..];
    assert u.children == x + [c] + y;
    MatchesIs(u);
    MatchesOne(c);
    MatchesConcat(x + [c], y);
    MatchesConcat(x, [c]);
    MatchesConcat(x, y);
  }

  /** A child may be exchanged for one built from its own nodes and new ones. */
  lemma DistinctPut(t: Tree, p: nat, u: Tree)
    requires p < |t.children| == |u.children| && u.children == t.children[p := u.children[p]] && u.node == t.node
    requires Distinct(t) && Distinct(u.children[p])
    requires Repr(u.children[p]) * Repr(t) <= Repr(t.children[p])
    ensures Distinct(u)
    ensures Repr(u) <= Repr(t) + Repr(u.children[p])
    ensures Repr(u.children[p]) <= Repr(u)
  {
    hide Repr, Distinct, ReprAll, DistinctAll;
    var x, c, y := t.children[..p], t.children[p], t.children[p + 1..];
    ChildSplit(t, p);
    ChildSplit(u, p);
    assert u.children[..p] == x && u.children[p + 1..] == y;
    Unfold(t);
    Unfold(u);
    One(c);
    One(u.children[p]);
    ApartChild(t, p);
    Rebuilt(x, [c], y, [u.children[p]]);
  }

  lemma RowAt(t: Tree, h: nat, p: nat)
    requires p < |t.children| && Row(t.children, h)
    ensures Balanced(t.children[p], h, MIN_KEYS) && Row(t.children[..p], h) && Row(t.children[p + 1..], h)
  {
  }

  lemma RowPut(t: Tree, h: nat, p: nat, u: Tree)
    requires p < |t.children| == |u.children| && u.children == t.children[p := u.children[p]]
    requires Row(t.children, h) && Balanced(u.children[p], h, MIN_KEYS)
    ensures Row(u.children, h)
  {
  }

  // ---------------------------------------------------------------- ordering

  /** In a leaf the in-order sequence is the node's own. */
  lemma InOrderLeaf(t: Tree)
    requires t.leaf
    ensures InOrder(t) == t.kvs
  {
    WeaveBlank(t.kvs);
  }

  /** The search index splits the in-order sequence: below the key, child `p`, not below it. */
  lemma SearchChild(t: Tree, key: Key, p: nat)
    requires Arity(t) && !t.leaf && Sorted(InOrder(t)) && p == FindIndex(t.kvs, key)
    ensures InOrder(t) == Before(t, p) + InOrder(t.children[p]) + After(t, p)
    ensures forall i | 0 <= i < |Before(t, p)| :: Less(Before(t, p)[i].key, key)
    ensures After(t, p) != [] <==> p < |t.kvs|
    ensures p < |t.kvs| ==> After(t, p)[0] == t.kvs[p]
    ensures Sorted(InOrder(t.children[p])) && Sorted(Before(t, p)) && Sorted(After(t, p))
    ensures FindIndex(InOrder(t), key) == |Before(t, p)| + FindIndex(InOrder(t.children[p]), key)
  {
    hide Less, InOrder, Heads, FindIndex;
    var b, c, a := Before(t, p), InOrder(t.children[p]), After(t, p);
    InOrderAt(t, p);
    SortedConcat(b + c, a);
    SortedConcat(b, c);
    if p > 0 {
      HeadsLast(Gaps(t)[..p], t.kvs[..p]);
      assert b[|b| - 1] == t.kvs[p - 1];
      forall i | 0 <= i < |b| ensures Less(b[i].key, key) {
        if i < |b| - 1 { LessTrans(b[i].key, b[|b| - 1].key, key); }
      }
    } else {
      HeadsNone(Gaps(t)[..p], t.kvs[..p]);
    }
    FindIndexFocus(b, c, a, key);
  }

  lemma HeadsNone(cs: seq<seq<Entry>>, ks: seq<Entry>)
    requires ks == []
    ensures Heads(cs, ks) == []
  {
  }

  /** Every key lies beyond `key`, as in the subtree right of an entry with that key. */
  ghost predicate AllAbove(key: Key, s: seq<Entry>) {
    forall i | 0 <= i < |s| :: Less(key, s[i].key)
  }

  /** The entries left of an inner key are all below it. */
  lemma LeftOf(t: Tree, key: Key, p: nat)
    requires Arity(t) && !t.leaf && Sorted(InOrder(t)) && p == FindIndex(t.kvs, key)
    requires p < |t.kvs| && t.kvs[p].key == key
    ensures FindIndex(InOrder(t.children[p]), key) == |InOrder(t.children[p])|
    ensures AllAbove(key, InOrder(t.children[p + 1])) && Sorted(InOrder(t.children[p + 1]))
  {
    hide Less, InOrder, FindIndex, Heads, Tails;
    InOrderPair(t, p);
    var b, c, d, a := Before(t, p), InOrder(t.children[p]), InOrder(t.children[p + 1]), After(t, p + 1);
    assert InOrder(t) == (b + c) + [t.kvs[p]] + (d + a);
    SortedSplit(b + c, t.kvs[p], d + a);
    SortedConcat(d, a);
    forall i | 0 <= i < |c| ensures Less(c[i].key, key) {
      assert Less((b + c)[|b| + i].key, [t.kvs[p]][0].key);
    }
    FindIndexUnique(c, key, |c|);
    forall i | 0 <= i < |d| ensures Less(key, d[i].key) {
      assert Less([t.kvs[p]][0].key, (d + a)[i].key);
    }
  }

  lemma {:induction false} HeadsHold(cs: seq<seq<Entry>>, ks: seq<Entry>, i: nat)
    requires i < |ks| == |cs|
    ensures ks[i] in Heads(cs, ks)
  {
    if i > 0 {
      HeadsHold(cs[1..], ks[1..], i - 1);
      assert ks[i] == ks[1..][i - 1];
    }
  }

  lemma NonEmpty(t: Tree)
    requires Arity(t) && t.kvs != []
    ensures InOrder(t) != []
  {
    if t.leaf { InOrderLeaf(t); } else { InOrderPair(t, 0); }
  }
}
