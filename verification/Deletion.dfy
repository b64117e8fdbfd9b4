/** `Node.delete`: remove a key, or pull up the in-order successor, and repair on the way out. */
module Deletion {
  import opened Bytes
  import opened Entries
  import opened Weaving
  import opened Nodes
  import opened Shapes
  import opened Repair
  import opened Subtrees
  import opened Slots

  /** What is left of an in-order sequence: without its first entry when seeking a successor,
      without the last entry for `key` otherwise. */
  ghost function Removed(s: seq<Entry>, key: Key, seeking: bool): seq<Entry> {
    if seeking then (if s == [] then [] else s[1..]) else RemoveLast(s, key)
  }

  /** The entry handed up: `nil` exactly when the key is not there. */
  ghost predicate Reports(s: seq<Entry>, key: Key, seeking: bool, r: Option<Entry>) {
    if seeking then s != [] && r == Some(s[0]) else r.Some? <==> LookupLast(s, key).Some?
  }

  /** The descent is led to the right child, and a successor is sought above `key` only. */
  ghost predicate Led(t: Tree, key: Key, seeking: bool) {
    Searchable(t) && (seeking ==> AllAbove(key, InOrder(t)))
  }

  lemma AboveIsFirst(t: Tree, key: Key)
    requires AllAbove(key, InOrder(t)) && Arity(t)
    ensures FindIndex(t.kvs, key) == 0
    ensures t.kvs != [] ==> t.kvs[0].key != key
  {
    hide Less;
    if t.kvs != [] {
      if t.leaf {
        InOrderLeaf(t);
      } else {
        InOrderPair(t, 0);
        var at := |Before(t, 0) + InOrder(t.children[0])|;
        assert InOrder(t)[at] == t.kvs[0];
      }
      LessTotal(key, t.kvs[0].key);
    }
    FindIndexUnique(t.kvs, key, 0);
  }

  /** No entry for a key where all keys are below it, or above it. */
  lemma NoneThere(s: seq<Entry>, key: Key)
    requires AllAbove(key, s) || forall i | 0 <= i < |s| :: Less(s[i].key, key)
    ensures LookupLast(s, key) == None
  {
    hide Less, LookupLast;
    LessTotal(key, key);
    LastNone(s, key);
  }

  /** The last entry for a key is in the middle when there is none on either side. */
  lemma LastInMiddle(b: seq<Entry>, c: seq<Entry>, a: seq<Entry>, key: Key)
    requires LookupLast(b, key) == None && LookupLast(a, key) == None
    ensures RemoveLast(b + c + a, key) == b + RemoveLast(c, key) + a
    ensures LookupLast(b + c + a, key) == LookupLast(c, key)
  {
    hide LookupLast, RemoveLast;
    RemoveLastConcat(b + c, a, key);
    LastConcat(b + c, a, key);
    RemoveLastConcat(b, c, key);
    LastConcat(b, c, key);
    if LookupLast(c, key).None? {
      RemoveLastNone(b, key);
      RemoveLastNone(c, key);
    }
  }

  /** Removing inside child `p` removes from the node, when the node itself does not hold the key. */
  lemma RemoveInChild(t: Tree, key: Key, seeking: bool, p: nat, c: Tree)
    requires Arity(t) && !t.leaf && Led(t, key, seeking) && p == FindIndex(t.kvs, key)
    requires seeking ==> InOrder(t.children[p]) != []
    requires !(p < |t.kvs| && t.kvs[p].key == key)
    requires InOrder(c) == Removed(InOrder(t.children[p]), key, seeking)
    ensures InOrder(WithChild(t, p, c)) == Removed(InOrder(t), key, seeking)
    ensures forall r :: Reports(InOrder(t.children[p]), key, seeking, r) ==> Reports(InOrder(t), key, seeking, r)
  {
    hide Less, InOrder, FindIndex, Heads, Tails, RemoveLast, LookupLast, Searchable, AllAbove;
    SlotChild(t, key, p);
    InOrderWithChild(t, p, c);
    if seeking {
      AboveIsFirst(t, key);
      HeadsNone(Gaps(t)[..0], t.kvs[..0]);
      assert InOrder(t) == InOrder(t.children[p]) + After(t, p);
    } else {
      SlotOver(t, key, p);
      NoneThere(Before(t, p), key);
      NoneThere(After(t, p), key);
      LastInMiddle(Before(t, p), InOrder(t.children[p]), After(t, p), key);
    }
  }

  /** Everything behind an inner key is above it. */
  lemma AboveInner(t: Tree, key: Key, p: nat)
    requires Arity(t) && !t.leaf && Searchable(t) && p == FindIndex(t.kvs, key) && p < |t.kvs| && t.kvs[p].key == key
    ensures AllAbove(key, InOrder(t.children[p + 1])) && AllAbove(key, After(t, p + 1)) && Searchable(t.children[p + 1])
  {
    hide Less, FindIndex, Searchable, InOrder, Tails, Upto, AllAbove;
    SearchableIs(t);
    forall i | p < i < |t.kvs| ensures Less(key, t.kvs[i].key) { }
    TailsOver(Gaps(t)[p + 2..], t.kvs[p + 1..], key);
  }

  /** Overwriting the entry at `p` with its successor, taken from child `p + 1`, removes it. */
  lemma RemoveHere(t: Tree, key: Key, p: nat, c: Tree)
    requires Arity(t) && !t.leaf && Searchable(t) && p == FindIndex(t.kvs, key)
    requires p < |t.kvs| && t.kvs[p].key == key
    requires InOrder(t.children[p + 1]) != []
    requires InOrder(c) == InOrder(t.children[p + 1])[1..]
    ensures InOrder(ReplacePair(t, p, t.children[p], InOrder(t.children[p + 1])[0], c)) == RemoveLast(InOrder(t), key)
    ensures LookupLast(InOrder(t), key) == Some(t.kvs[p].value)
  {
    hide Less, InOrder, FindIndex, Heads, Tails, LookupLast, RemoveLast, Before, After, ReplacePair, Searchable, AllAbove;
    var d := InOrder(t.children[p + 1]);
    InOrderReplacePair(t, p, t.children[p], d[0], c);
    InOrderPair(t, p);
    AboveInner(t, key, p);
    var l, r := Before(t, p) + InOrder(t.children[p]), d + After(t, p + 1);
    SuccessorUp(Before(t, p), InOrder(t.children[p]), t.kvs[p], d, After(t, p + 1));
    NoneThere(d, key);
    NoneThere(After(t, p + 1), key);
    LastConcat(d, After(t, p + 1), key);
    RemoveLastMiddle(l, t.kvs[p], r, key);
  }

  lemma SuccessorUp(b: seq<Entry>, c: seq<Entry>, e: Entry, d: seq<Entry>, a: seq<Entry>)
    requires d != []
    ensures b + c + [e] + d + a == (b + c) + [e] + (d + a)
    ensures b + c + [d[0]] + d[1..] + a == (b + c) + (d + a)
  {
    assert d == [d[0]] + d[1..];
  }

  // ------------------------------------------------------------ the recursion

  /** What `delete` leaves behind in the subtree and hands up: in any balanced tree a balanced one with
      one entry less, or the same; where the descent is led, without the entry that was sought. */
  ghost predicate Deleted(t: Tree, u: Tree, h: nat, key: Key, seeking: bool, r: Option<Entry>) {
    && u.node == t.node && Distinct(u) && Repr(u) <= Repr(t)
    && |t.kvs| - 1 <= |u.kvs| <= |t.kvs| && Balanced(u, h, |u.kvs|)
    && |InOrder(u)| == |InOrder(t)| - (if r.Some? then 1 else 0)
    && (Led(t, key, seeking) ==> InOrder(u) == Removed(InOrder(t), key, seeking) && Reports(InOrder(t), key, seeking, r))
    && (r.None? ==> u == t)
    && (ShapeOf(u), r) == TakeOut(ShapeOf(t), key, seeking)
  }

  lemma DeletedShape(t: Tree, u: Tree, h: nat, key: Key, seeking: bool, r: Option<Entry>)
    requires Deleted(t, u, h, key, seeking, r)
    ensures u.node == t.node && Distinct(u) && Repr(u) <= Repr(t) && Balanced(u, h, |u.kvs|) && |t.kvs| - 1 <= |u.kvs|
  {
  }

  lemma LeafDeletes(t: Tree, pos: nat, key: Key, seeking: bool)
    requires t.leaf && Balanced(t, 0, 1) && Distinct(t) && pos < |t.kvs|
    requires if seeking then pos == 0 else pos == FindIndex(t.kvs, key) && t.kvs[pos].key == key
    ensures Deleted(t, t.(kvs := t.kvs[..pos] + t.kvs[pos + 1..]), 0, key, seeking, Some(t.kvs[pos]))
  {
    hide Less, FindIndex, Repr, Distinct, InOrder, Searchable, LookupLast, RemoveLast, ShapeOf;
    var u := t.(kvs := t.kvs[..pos] + t.kvs[pos + 1..]);
    ShapeIs(t);
    ShapeIs(u);
    InOrderLeaf(t);
    InOrderLeaf(u);
    Unfold(t);
    Unfold(u);
    if seeking { assert t.kvs[..0] + t.kvs[1..] == t.kvs[1..]; }
    if Led(t, key, seeking) && !seeking {
      SearchableLeaf(t);
      SortedRemoves(t.kvs, pos, key);
    }
  }

  lemma SortedRemoves(s: seq<Entry>, pos: nat, key: Key)
    requires Sorted(s) && pos < |s| && s[pos].key == key
    ensures RemoveLast(s, key) == s[..pos] + s[pos + 1..] && LookupLast(s, key).Some?
  {
    hide Less, LookupLast, RemoveLast;
    assert s == s[..pos] + [s[pos]] + s[pos + 1..];
    NoneThere(s[pos + 1..], key);
    RemoveLastMiddle(s[..pos], s[pos], s[pos + 1..], key);
  }

  lemma KeysWithout(s: seq<Entry>, i: nat)
    requires i < |s|
    ensures Keys(s[..i] + s[i + 1..]) == Keys(s)[..i] + Keys(s)[i + 1..]
    ensures Values(s[..i] + s[i + 1..]) == Values(s)[..i] + Values(s)[i + 1..]
  {
  }

  method DeleteInLeaf(n: Node, pos: nat, key: Key, seeking: bool, ghost t: Tree) returns (r: Option<Entry>, ghost u: Tree)
    requires t.node == n && t.leaf && Matches(t) && Balanced(t, 0, 1) && Distinct(t) && pos < |t.kvs|
    requires if seeking then pos == 0 else pos == FindIndex(t.kvs, key) && t.kvs[pos].key == key
    modifies n
    ensures Deleted(t, u, 0, key, seeking, r) && Matches(u)
  {
    hide Deleted, Less, FindIndex, Sorted, Keys, Values, Balanced, Distinct, Matches;
    u := t.(kvs := t.kvs[..pos] + t.kvs[pos + 1..]);
    LeafDeletes(t, pos, key, seeking);
    KeysWithout(t.kvs, pos);
    BalancedIs(t, 0, 1);
    MatchesIs(t);
    KeyAt(t.kvs, pos);
    var e := n.RemoveAt(pos);
    r := Some(e);
    MatchesIs(u);
  }

  /** The tree after child `p` became `c`; `e` is the successor if the node itself held the key. */
  ghost function Stepped(t: Tree, pos: nat, found: bool, e: Entry, c: Tree): Tree
    requires Arity(t) && !t.leaf && (if found then pos < |t.kvs| else pos <= |t.kvs|)
  {
    if found then ReplacePair(t, pos, t.children[pos], e, c) else WithChild(t, pos, c)
  }

  lemma SteppedChildren(t: Tree, pos: nat, found: bool, e: Entry, c: Tree)
    requires Arity(t) && !t.leaf && (if found then pos < |t.kvs| else pos <= |t.kvs|)
    ensures var u, p := Stepped(t, pos, found, e, c), if found then pos + 1 else pos;
      && u.children == t.children[p := c] && |u.kvs| == |t.kvs| && u.node == t.node && u.leaf == t.leaf
      && (found ==> u.kvs == t.kvs[pos := e]) && (!found ==> u.kvs == t.kvs)
  {
  }

  lemma StepInOrder(t: Tree, h: nat, key: Key, seeking: bool, pos: nat, found: bool, d: Option<Entry>, c: Tree)
    requires Balanced(t, h, 1) && Led(t, key, seeking) && At(t, key, pos, found)
    requires var p := ChildIndex(pos, found); d.Some? && Deleted(t.children[p], c, h - 1, key, seeking || found, d)
    ensures InOrder(Stepped(t, pos, found, d.value, c)) == Removed(InOrder(t), key, seeking)
    ensures Reports(InOrder(t), key, seeking, d)
  {
    hide Less, InOrder, FindIndex, Repr, Distinct, Balanced, Searchable, AllAbove, RemoveLast, LookupLast;
    BalancedIs(t, h, 1);
    var p := ChildIndex(pos, found);
    BalancedIs(t.children[p], h - 1, MIN_KEYS);
    NonEmpty(t.children[p]);
    ChildOrder(t, key, seeking, pos, found, t.children[p]);
    if found {
      if seeking { AboveIsFirst(t, key); }
      RemoveHere(t, key, pos, c);
    } else {
      RemoveInChild(t, key, seeking, pos, c);
    }
  }

  /** Whatever the order, the node counts one entry less. */
  lemma StepCounts(t: Tree, h: nat, pos: nat, found: bool, e: Entry, c: Tree)
    requires Balanced(t, h, 1) && !t.leaf && (if found then pos < |t.kvs| else pos <= |t.kvs|)
    requires |InOrder(c)| == |InOrder(t.children[ChildIndex(pos, found)])| - 1
    ensures |InOrder(Stepped(t, pos, found, e, c))| == |InOrder(t)| - 1
  {
    hide InOrder, Balanced, Heads, Tails;
    BalancedIs(t, h, 1);
    if found {
      InOrderReplacePair(t, pos, t.children[pos], e, c);
      InOrderPair(t, pos);
    } else {
      InOrderWithChild(t, pos, c);
      InOrderAt(t, pos);
    }
  }

  lemma StepDistinct(t: Tree, pos: nat, found: bool, e: Entry, c: Tree)
    requires Arity(t) && !t.leaf && (if found then pos < |t.kvs| else pos <= |t.kvs|)
    requires Distinct(t) && Distinct(c) && Repr(c) <= Repr(t.children[ChildIndex(pos, found)])
    ensures Distinct(Stepped(t, pos, found, e, c)) && Repr(Stepped(t, pos, found, e, c)) <= Repr(t)
  {
    hide Repr, Distinct;
    SteppedChildren(t, pos, found, e, c);
    ApartChild(t, if found then pos + 1 else pos);
    DistinctPut(t, if found then pos + 1 else pos, Stepped(t, pos, found, e, c));
  }

  /** A child one key short leaves the node repairable; otherwise the node is balanced again. */
  lemma StepBalanced(t: Tree, h: nat, pos: nat, found: bool, e: Entry, c: Tree)
    requires Balanced(t, h, 1) && !t.leaf && (if found then pos < |t.kvs| else pos <= |t.kvs|)
    requires Balanced(c, h - 1, MIN_KEYS - 1)
    ensures |c.kvs| >= MIN_KEYS ==> Balanced(Stepped(t, pos, found, e, c), h, |t.kvs|)
    ensures |c.kvs| < MIN_KEYS ==> OneShort(Stepped(t, pos, found, e, c), h, if found then pos + 1 else pos)
  {
    hide Stepped, Balanced;
    BalancedIs(t, h, 1);
    SteppedChildren(t, pos, found, e, c);
    BalancedPut(t, h, if found then pos + 1 else pos, Stepped(t, pos, found, e, c), c);
  }

  lemma BalancedPut(t: Tree, h: nat, p: nat, u: Tree, c: Tree)
    requires 0 < h && Arity(t) && !t.leaf && !u.leaf && 1 <= |t.kvs| <= MAX_KEYS && Row(t.children, h - 1)
    requires p < |t.children| && |u.kvs| == |t.kvs| && u.children == t.children[p := c]
    requires Balanced(c, h - 1, MIN_KEYS - 1)
    ensures |c.kvs| >= MIN_KEYS ==> Balanced(u, h, |t.kvs|)
    ensures |c.kvs| < MIN_KEYS ==> OneShort(u, h, p)
  {
    hide Balanced, Row;
    BalancedIs(c, h - 1, MIN_KEYS);
    BalancedIs(c, h - 1, MIN_KEYS - 1);
    BalancedIs(u, h, |t.kvs|);
    RowAt(t, h - 1, p);
    if |c.kvs| >= MIN_KEYS {
      RowPut(t, h - 1, p, u);
    } else {
      assert u.children[..p] == t.children[..p] && u.children[p + 1..] == t.children[p + 1..];
    }
  }

  /** `Node.delete`.  `r` is `None` where the code returns nil keys. */
  method Delete(n: Node, key: Key, seeking: bool, ghost t: Tree, ghost h: nat) returns (r: Option<Entry>, ghost u: Tree)
    requires t.node == n && Matches(t) && Distinct(t) && Balanced(t, h, 1)
    modifies Repr(t)
    ensures Deleted(t, u, h, key, seeking, r) && Matches(u)
    decreases h
  {
    hide Repr, ReprAll, Distinct, Matches, MatchesAll, InOrder, Balanced, Row, Less, FindIndex, Deleted, Keys, Values;
    MatchesIs(t);
    BalancedIs(t, h, 1);
    Unfold(t);
    Existing(t);
    var pos := n.Search(key);
    SearchIndexIs(t.kvs, key, pos);
    KeyAt(t.kvs, pos);
    var found := pos < |n.keys| && n.keys[pos] == key;
    if n.isleaf {
      r, u := DeleteAtLeaf(n, pos, found, key, seeking, t);
    } else {
      r, u := DeleteBelow(n, key, seeking, pos, found, t, h);
    }
  }

  /** The leaf cases: take the first entry, report the key missing, or remove it. */
  method DeleteAtLeaf(n: Node, pos: nat, found: bool, key: Key, seeking: bool, ghost t: Tree)
    returns (r: Option<Entry>, ghost u: Tree)
    requires t.node == n && t.leaf && Matches(t) && Distinct(t) && Balanced(t, 0, 1)
    requires pos == FindIndex(t.kvs, key) && (found <==> pos < |t.kvs| && t.kvs[pos].key == key)
    modifies n
    ensures Deleted(t, u, 0, key, seeking, r) && Matches(u)
  {
    hide Repr, Distinct, Matches, InOrder, Balanced, Sorted, Less, FindIndex, Deleted;
    InOrderLeaf(t);
    BalancedIs(t, 0, 1);
    if seeking {
      r, u := DeleteInLeaf(n, 0, key, seeking, t);
    } else if !found {
      NotInLeaf(t, key, pos);
      r, u := None, t;
    } else {
      r, u := DeleteInLeaf(n, pos, key, seeking, t);
    }
  }

  lemma NotInLeaf(t: Tree, key: Key, pos: nat)
    requires t.leaf && Balanced(t, 0, 1) && Distinct(t)
    requires pos == FindIndex(t.kvs, key) && !(pos < |t.kvs| && t.kvs[pos].key == key)
    ensures Deleted(t, t, 0, key, false, None)
  {
    hide Less, FindIndex, InOrder, Repr, Distinct, Searchable, LookupLast, RemoveLast, ShapeOf;
    ShapeIs(t);
    InOrderLeaf(t);
    BalancedIs(t, 0, |t.kvs|);
    if Led(t, key, false) {
      SearchableLeaf(t);
      LastNone(t.kvs, key);
      forall i | 0 <= i < |t.kvs| ensures t.kvs[i].key != key { LessTotal(key, key); if i > pos { LessTotal(t.kvs[pos].key, key); } }
      RemoveLastNone(t.kvs, key);
    }
  }

  lemma NotBelow(t: Tree, h: nat, key: Key, pos: nat)
    requires Balanced(t, h, 1) && !t.leaf && Distinct(t)
    requires pos == FindIndex(t.kvs, key) && !(pos < |t.kvs| && t.kvs[pos].key == key)
    requires Led(t, key, false) ==> LookupLast(InOrder(t.children[pos]), key) == None
    requires (ShapeOf(t), None) == TakeOut(ShapeOf(t), key, false)
    ensures Deleted(t, t, h, key, false, None)
  {
    hide Less, InOrder, FindIndex, Heads, Tails, Balanced, Distinct, Repr, Searchable, LookupLast, RemoveLast, AllAbove, ShapeOf, TakeOut;
    BalancedIs(t, h, 1);
    BalancedIs(t, h, |t.kvs|);
    if Led(t, key, false) {
      SlotChild(t, key, pos);
      SlotOver(t, key, pos);
      NoneThere(Before(t, pos), key);
      NoneThere(After(t, pos), key);
      LastInMiddle(Before(t, pos), InOrder(t.children[pos]), After(t, pos), key);
      RemoveLastNone(InOrder(t), key);
    }
  }

  /** The index of the child `delete` recurses into. */
  ghost function ChildIndex(pos: nat, found: bool): nat {
    if found then pos + 1 else pos
  }

  /** The search position in an inner node, and whether the key is there. */
  ghost predicate At(t: Tree, key: Key, pos: nat, found: bool) {
    && Arity(t) && !t.leaf
    && pos == FindIndex(t.kvs, key) && (found <==> pos < |t.kvs| && t.kvs[pos].key == key)
  }

  lemma ChildOrder(t: Tree, key: Key, seeking: bool, pos: nat, found: bool, c: Tree)
    requires Led(t, key, seeking) && At(t, key, pos, found) && c == t.children[ChildIndex(pos, found)]
    ensures Led(c, key, seeking || found)
  {
    hide Less, InOrder, FindIndex, Heads, Tails, Searchable, AllAbove;
    if found {
      AboveInner(t, key, pos);
    } else {
      SlotChild(t, key, pos);
      if seeking {
        AboveMiddle(key, Before(t, pos), InOrder(c), After(t, pos));
      }
    }
  }

  lemma AboveMiddle(key: Key, b: seq<Entry>, c: seq<Entry>, a: seq<Entry>)
    requires AllAbove(key, b + c + a)
    ensures AllAbove(key, c)
  {
    hide Less;
    forall i | 0 <= i < |c| ensures Less(key, c[i].key) { assert (b + c + a)[|b| + i] == c[i]; }
  }

  lemma ChildShape(t: Tree, h: nat, p: nat)
    requires Balanced(t, h, 1) && !t.leaf && p < |t.children|
    ensures Balanced(t.children[p], h - 1, 1) && |t.children[p].kvs| >= MIN_KEYS
  {
    hide Balanced;
    BalancedIs(t, h, 1);
    RowAt(t, h - 1, p);
    BalancedIs(t.children[p], h - 1, MIN_KEYS);
    BalancedIs(t.children[p], h - 1, 1);
  }

  /** Before the recursive call: the child is ready for it and apart from everything else. */
  lemma Descend(t: Tree, h: nat, pos: nat, found: bool, p: nat, c: Tree)
    requires Distinct(t) && Balanced(t, h, 1) && !t.leaf && Matches(t) && p < |t.children|
    requires p == ChildIndex(pos, found) && c == t.children[p]
    ensures Here(t) && Matches(c) && MatchesAll(Siblings(t, p))
    ensures Distinct(c) && Balanced(c, h - 1, 1) && |c.kvs| >= MIN_KEYS
    ensures t.node !in Repr(c) && t.node !in ReprAll(Siblings(t, p)) && Repr(c) !! ReprAll(Siblings(t, p))
    ensures Repr(c) <= Repr(t) && t.node in Repr(t)
    ensures forall n | n in ReprAll(Siblings(t, p)) :: allocated(n)
    ensures t.node.children[p] == c.node
  {
    hide Balanced, Distinct, Repr, Matches, MatchesAll, ReprAll, Siblings;
    BalancedIs(t, h, 1);
    MatchesChild(t, p);
    ApartChild(t, p);
    ChildShape(t, h, p);
    ExistingAll(Siblings(t, p));
  }

  lemma SteppedFields(t: Tree, pos: nat, found: bool, e: Entry, c: Tree)
    requires Arity(t) && !t.leaf && (if found then pos < |t.kvs| else pos <= |t.kvs|)
    requires c.node == t.children[ChildIndex(pos, found)].node
    ensures var u := Stepped(t, pos, found, e, c);
      && u.node == t.node && u.leaf == t.leaf && Roots(u.children) == Roots(t.children)
      && Keys(u.kvs) == (if found then Keys(t.kvs)[pos := e.key] else Keys(t.kvs))
      && Values(u.kvs) == (if found then Values(t.kvs)[pos := e.value] else Values(t.kvs))
  {
    hide Stepped;
    SteppedChildren(t, pos, found, e, c);
  }

  /** Recursion, overwriting and repair together do what `delete` promises. */
  lemma StepDeletes(t: Tree, h: nat, key: Key, seeking: bool, pos: nat, found: bool, d: Option<Entry>, c: Tree, u: Tree)
    requires Distinct(t) && Balanced(t, h, 1) && At(t, key, pos, found)
    requires d.Some? && Deleted(t.children[ChildIndex(pos, found)], c, h - 1, key, seeking || found, d)
    requires var s := Stepped(t, pos, found, d.value, c);
      if |c.kvs| < MIN_KEYS then Repaired(s, u, h) && ShapeOf(u) == FillAt(ShapeOf(s), ChildIndex(pos, found))
      else u == s && Balanced(s, h, |t.kvs|)
    ensures Deleted(t, u, h, key, seeking, d)
  {
    hide Less, InOrder, FindIndex, Balanced, Distinct, Repr, Stepped, Removed, Reports, Led, ShapeOf, TakeOut, FillAt;
    StepShape(t, key, seeking, pos, found, d, c);
    if Led(t, key, seeking) { StepInOrder(t, h, key, seeking, pos, found, d, c); }
    StepCounts(t, h, pos, found, d.value, c);
    SteppedChildren(t, pos, found, d.value, c);
    StepDistinct(t, pos, found, d.value, c);
  }

  /** The recursion of `delete` at an inner node, on shapes. */
  lemma StepShape(t: Tree, key: Key, seeking: bool, pos: nat, found: bool, d: Option<Entry>, c: Tree)
    requires At(t, key, pos, found)
    requires (ShapeOf(c), d) == TakeOut(ShapeOf(t.children[ChildIndex(pos, found)]), key, seeking || found)
    ensures d.None? ==> TakeOut(ShapeOf(t), key, seeking) == (ShapeOf(t), None)
    ensures d.Some? ==>
      var s := ShapeOf(Stepped(t, pos, found, d.value, c));
      TakeOut(ShapeOf(t), key, seeking) == (if |c.kvs| < MIN_KEYS then FillAt(s, ChildIndex(pos, found)) else s, d)
  {
    hide Less, FindIndex, ShapeOf, FillAt;
    var p := ChildIndex(pos, found);
    ShapeIs(t);
    ShapeIs(c);
    ShapesPut(t.children, p, c);
    if d.Some? {
      var s := Stepped(t, pos, found, d.value, c);
      SteppedChildren(t, pos, found, d.value, c);
      ShapeIs(s);
    }
  }

  lemma Nothing(t: Tree, h: nat, key: Key, seeking: bool, pos: nat, found: bool, c: Tree)
    requires Balanced(t, h, 1) && Distinct(t) && At(t, key, pos, found)
    requires Deleted(t.children[ChildIndex(pos, found)], c, h - 1, key, seeking || found, None)
    requires Here(t) && Matches(c) && MatchesAll(Siblings(t, ChildIndex(pos, found)))
    ensures Deleted(t, t, h, key, seeking, None) && Matches(t)
  {
    hide Balanced, Distinct, Repr, InOrder, FindIndex, Matches, MatchesAll, Siblings, Less, Led, LookupLast, RemoveLast, ShapeOf, TakeOut;
    StepShape(t, key, seeking, pos, found, None, c);
    assert c == t.children[ChildIndex(pos, found)];
    if Led(t, key, seeking) { ChildOrder(t, key, seeking, pos, found, c); }
    NothingThere(t, h, key, seeking, pos, found);
    MatchesPut(t, ChildIndex(pos, found), t);
  }

  lemma NothingThere(t: Tree, h: nat, key: Key, seeking: bool, pos: nat, found: bool)
    requires Balanced(t, h, 1) && Distinct(t) && At(t, key, pos, found)
    requires Led(t, key, seeking) ==> !seeking && !found && LookupLast(InOrder(t.children[pos]), key) == None
    requires (ShapeOf(t), None) == TakeOut(ShapeOf(t), key, seeking)
    ensures Deleted(t, t, h, key, seeking, None)
  {
    hide Balanced, Distinct, Repr, InOrder, FindIndex, Less, Led, LookupLast, RemoveLast, ShapeOf, TakeOut;
    BalancedIs(t, h, 1);
    BalancedIs(t, h, |t.kvs|);
    if Led(t, key, seeking) { NotBelow(t, h, key, pos); }
  }

  /** The part of `delete` at an inner node: recurse, overwrite with the successor, repair. */
  method DeleteBelow(n: Node, key: Key, seeking: bool, pos: nat, found: bool, ghost t: Tree, ghost h: nat)
    returns (r: Option<Entry>, ghost u: Tree)
    requires t.node == n && Matches(t) && Distinct(t) && Balanced(t, h, 1) && At(t, key, pos, found)
    modifies Repr(t)
    ensures Deleted(t, u, h, key, seeking, r) && Matches(u)
    decreases h, 0
  {
    hide Repr, ReprAll, Distinct, Matches, MatchesAll, InOrder, Balanced, Row, Less, FindIndex, Deleted, Keys, Values, Stepped, Repaired, OneShort, Siblings, Roots;
    ghost var p := ChildIndex(pos, found);
    ghost var c0, sibs := t.children[p], Siblings(t, p);
    BalancedIs(t, h, 1);
    Descend(t, h, pos, found, p, c0);
    var next := if found then n.children[pos + 1] else n.children[pos];
    ghost var c;
    r, c := Delete(next, key, seeking || found, c0, h - 1);
    if r.None? {
      u := t;
      Nothing(t, h, key, seeking, pos, found, c);
    } else {
      DeletedShape(c0, c, h - 1, key, seeking || found, r);
      u := Settle(n, pos, found, next, r.value, t, c, h, key, seeking || found);
      StepDeletes(t, h, key, seeking, pos, found, r, c, u);
    }
  }

  lemma SettleReady(t: Tree, h: nat, pos: nat, found: bool, e: Entry, c: Tree, key: Key, seeking: bool)
    requires Balanced(t, h, 1) && Distinct(t) && !t.leaf && (if found then pos < |t.kvs| else pos <= |t.kvs|)
    requires |t.children[ChildIndex(pos, found)].kvs| >= MIN_KEYS
    requires Deleted(t.children[ChildIndex(pos, found)], c, h - 1, key, seeking, Some(e))
    ensures var s := Stepped(t, pos, found, e, c);
      && Distinct(s) && Repr(s) <= Repr(t) && t.node in Repr(s)
      && (if |c.kvs| >= MIN_KEYS then Balanced(s, h, |t.kvs|) else OneShort(s, h, ChildIndex(pos, found)))
  {
    hide Balanced, Distinct, Repr, Stepped, OneShort, InOrder, ShapeOf, TakeOut, Searchable, RemoveLast, LookupLast;
    BalancedIs(t, h, 1);
    var s := Stepped(t, pos, found, e, c);
    Unfold(s);
    BalancedIs(c, h - 1, |c.kvs|);
    BalancedIs(c, h - 1, MIN_KEYS - 1);
    SteppedChildren(t, pos, found, e, c);
    StepDistinct(t, pos, found, e, c);
    StepBalanced(t, h, pos, found, e, c);
  }

  /** After the recursive call: overwrite the entry, and repair the child if it is short. */
  method Settle(n: Node, pos: nat, found: bool, next: Node, e: Entry, ghost t: Tree, ghost c: Tree,
                ghost h: nat, ghost key: Key, ghost seeking: bool) returns (ghost u: Tree)
    requires t.node == n && Here(t) && Balanced(t, h, 1) && Distinct(t) && !t.leaf
    requires if found then pos < |t.kvs| else pos <= |t.kvs|
    requires next == c.node && |t.children[ChildIndex(pos, found)].kvs| >= MIN_KEYS
    requires Deleted(t.children[ChildIndex(pos, found)], c, h - 1, key, seeking, Some(e))
    requires Matches(c) && MatchesAll(Siblings(t, ChildIndex(pos, found)))
    modifies Repr(t)
    ensures Matches(u)
    ensures var s := Stepped(t, pos, found, e, c);
      if |c.kvs| < MIN_KEYS then Repaired(s, u, h) && ShapeOf(u) == FillAt(ShapeOf(s), ChildIndex(pos, found))
      else u == s && Balanced(s, h, |t.kvs|)
  {
    hide Repr, ReprAll, Distinct, Matches, MatchesAll, InOrder, Balanced, Row, Deleted, Stepped, Repaired, OneShort,
      Siblings, ShapeOf, FillAt;
    BalancedIs(t, h, 1);
    ghost var p, s := ChildIndex(pos, found), Stepped(t, pos, found, e, c);
    SettleReady(t, h, pos, found, e, c, key, seeking);
    DeletedShape(t.children[p], c, h - 1, key, seeking, Some(e));
    SteppedChildren(t, pos, found, e, c);
    u := Overwrite(n, pos, found, e, t, c);
    MatchesIs(c);
    if |next.keys| < MIN_KEYS {
      u := FillChildAt(n, if found then pos + 1 else pos, s, h);
    }
  }

  method Overwrite(n: Node, pos: nat, found: bool, e: Entry, ghost t: Tree, ghost c: Tree) returns (ghost s: Tree)
    requires t.node == n && Here(t) && Arity(t) && !t.leaf && Distinct(t)
    requires if found then pos < |t.kvs| else pos <= |t.kvs|
    requires c.node == t.children[ChildIndex(pos, found)].node && Repr(c) <= Repr(t.children[ChildIndex(pos, found)])
    requires Matches(c) && MatchesAll(Siblings(t, ChildIndex(pos, found)))
    modifies n
    ensures s == Stepped(t, pos, found, e, c) && Matches(s) && Matches(c)
  {
    hide Repr, ReprAll, Distinct, Matches, MatchesAll, Stepped, Siblings, Keys, Values;
    ghost var p := ChildIndex(pos, found);
    s := Stepped(t, pos, found, e, c);
    SteppedFields(t, pos, found, e, c);
    SteppedChildren(t, pos, found, e, c);
    ApartChild(t, p);
    if found {
      n.keys := n.keys[pos := e.key];
      n.values := n.values[pos := e.value];
    }
    MatchesPut(t, p, s);
  }
}
