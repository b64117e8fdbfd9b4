/** What the descent for a key finds, on trees. */
module Searching {
  import opened Bytes
  import opened Entries
  import opened Weaving
  import opened Nodes
  import opened Shapes
  import opened Repair
  import opened Subtrees
  import opened Slots
  import opened Insertion

  /** The value at the first match on the descent, as the loop of `Find` computes it. */
  ghost function FindIn(t: Tree, key: Key): Option<Value> {
    var p := Slot(t, key);
    if p < |t.kvs| && t.kvs[p].key == key then Some(t.kvs[p].value)
    else if t.leaf || !Arity(t) then None
    else FindIn(t.children[p], key)
  }

  /** The descent for `key` meets it before it reaches a leaf. */
  ghost predicate HeldInside(t: Tree, key: Key) {
    && !t.leaf && Arity(t)
    && var p := Slot(t, key);
      (p < |t.kvs| && t.kvs[p].key == key) || HeldInside(t.children[p], key)
  }

  /** The descent depends on the shape only. */
  lemma {:induction false} DescentShape(t: Tree, key: Key)
    ensures FindIn(t, key) == FindShape(ShapeOf(t), key) && (HeldInside(t, key) <==> HeldShape(ShapeOf(t), key))
  {
    hide FindIndex, ShapeOf;
    ShapeIs(t);
    if !t.leaf && Arity(t) {
      var p := Slot(t, key);
      ShapesPut(t.children, p, t);
      DescentShape(t.children[p], key);
    }
  }

  /** Behind the search position of `key` there are only greater keys. */
  ghost predicate OrderedAround(s: seq<Entry>, key: Key) {
    forall i | FindIndex(s, key) < i < |s| :: Less(key, s[i].key)
  }

  /** Where a sequence ordered around `key` is cut by a slot of a node. */
  lemma AroundSlot(t: Tree, key: Key, p: nat)
    requires Arity(t) && !t.leaf && p == FindIndex(t.kvs, key) && OrderedAround(InOrder(t), key)
    ensures InOrder(t) == Before(t, p) + InOrder(t.children[p]) + After(t, p)
    ensures |Before(t, p)| <= FindIndex(InOrder(t), key) <= |Before(t, p)| + |InOrder(t.children[p])|
    ensures After(t, p) != [] <==> p < |t.kvs|
    ensures p < |t.kvs| ==> After(t, p)[0] == t.kvs[p]
  {
    hide Less, InOrder, Heads, FindIndex;
    InOrderAt(t, p);
    var b, c, a := Before(t, p), InOrder(t.children[p]), After(t, p);
    var s, f := InOrder(t), FindIndex(InOrder(t), key);
    if p > 0 {
      HeadsLast(Gaps(t)[..p], t.kvs[..p]);
      assert b[|b| - 1] == t.kvs[p - 1] && s[|b| - 1] == b[|b| - 1];
      LessTotal(key, t.kvs[p - 1].key);
      assert f > |b| - 1;
    } else {
      HeadsNone(Gaps(t)[..p], t.kvs[..p]);
    }
    if p < |t.kvs| {
      assert s[|b| + |c|] == a[0];
      assert f <= |b| + |c|;
    }
  }

  lemma AroundChild(b: seq<Entry>, c: seq<Entry>, a: seq<Entry>, key: Key)
    requires OrderedAround(b + c + a, key) && |b| <= FindIndex(b + c + a, key) <= |b| + |c|
    ensures FindIndex(c, key) == FindIndex(b + c + a, key) - |b| && OrderedAround(c, key)
    ensures FindIndex(c, key) == |c| && a != [] && a[0].key == key ==> Lookup(b + c + a, key) == Some(a[0].value)
    ensures FindIndex(c, key) < |c| || a == [] || a[0].key != key ==> Lookup(b + c + a, key) == Lookup(c, key)
  {
    hide Less, FindIndex;
    var s, f := b + c + a, FindIndex(b + c + a, key);
    forall i | 0 <= i < |c| ensures s[|b| + i] == c[i] { }
    forall i | 0 <= i < f - |b| ensures Less(c[i].key, key) { assert s[|b| + i] == c[i]; }
    if f < |b| + |c| { assert c[f - |b|] == s[f]; }
    FindIndexUnique(c, key, f - |b|);
    forall i | f - |b| < i < |c| ensures Less(key, c[i].key) { assert s[|b| + i] == c[i]; }
    if a != [] { assert s[|b| + |c|] == a[0]; }
  }

  /** On trees ordered around a key the descent for it finds what the in-order sequence holds. */
  lemma {:induction false} FindAround(t: Tree, h: nat, key: Key)
    requires Balanced(t, h, 0) && OrderedAround(InOrder(t), key)
    ensures FindIn(t, key) == Lookup(InOrder(t), key)
    decreases h
  {
    hide Balanced, InOrder, Row, Less, FindIndex, Heads, Tails, OrderedAround, Before, After;
    BalancedIs(t, h, 0);
    var p := Slot(t, key);
    if t.leaf {
      InOrderLeaf(t);
    } else {
      AroundSlot(t, key, p);
      var b, c, a := Before(t, p), InOrder(t.children[p]), After(t, p);
      AroundChild(b, c, a, key);
      if p < |t.kvs| && t.kvs[p].key == key {
        FoundBehind(b, c, a, key);
      } else {
        RowAt(t, h - 1, p);
        BalancedAtLeast(t.children[p], h - 1, MIN_KEYS);
        FindAround(t.children[p], h - 1, key);
      }
    }
  }

  lemma FoundBehind(b: seq<Entry>, c: seq<Entry>, a: seq<Entry>, key: Key)
    requires OrderedAround(b + c + a, key) && a != [] && a[0].key == key && FindIndex(b + c + a, key) <= |b| + |c|
    ensures FindIndex(b + c + a, key) == |b| + |c|
  {
    hide Less, FindIndex;
    assert (b + c + a)[|b| + |c|] == a[0];
    LessTotal(key, key);
  }

  lemma SortedAround(s: seq<Entry>, key: Key)
    requires Sorted(s)
    ensures OrderedAround(s, key)
  {
    hide Less, FindIndex;
    var f := FindIndex(s, key);
    forall i | f < i < |s| ensures Less(key, s[i].key) {
      LessTotal(key, s[f].key);
      if key != s[f].key { LessTrans(key, s[f].key, s[i].key); }
    }
  }

  /** On ordered trees the descent finds what the in-order sequence holds. */
  lemma FindInOrder(t: Tree, h: nat, key: Key)
    requires Balanced(t, h, 0) && Sorted(InOrder(t))
    ensures FindIn(t, key) == Lookup(InOrder(t), key)
  {
    hide Balanced, Sorted, InOrder, OrderedAround, FindIn, Lookup;
    SortedAround(InOrder(t), key);
    FindAround(t, h, key);
  }

  lemma BalancedAtLeast(t: Tree, h: nat, min: nat)
    requires Balanced(t, h, min)
    ensures Balanced(t, h, 0)
  {
    hide Balanced;
    BalancedIs(t, h, min);
    BalancedIs(t, h, 0);
  }

  /** A key is in the leaf its descent reaches exactly when it is in the tree and no inner node has it. */
  lemma {:induction false} LeafHolds(t: Tree, h: nat, key: Key)
    requires Balanced(t, h, 0) && Sorted(InOrder(t))
    ensures Has(Reached(t, key).kvs, key) <==> Has(InOrder(t), key) && !HeldInside(t, key)
    ensures HeldInside(t, key) ==> Has(InOrder(t), key)
    decreases h
  {
    hide Balanced, Sorted, InOrder, Row, Less, FindIndex, Heads, Tails;
    BalancedIs(t, h, 0);
    var p := Slot(t, key);
    if t.leaf {
      InOrderLeaf(t);
    } else {
      SearchChild(t, key, p);
      RowAt(t, h - 1, p);
      BalancedAtLeast(t.children[p], h - 1, MIN_KEYS);
      LeafHolds(t.children[p], h - 1, key);
      var b, c, a := Before(t, p), InOrder(t.children[p]), After(t, p);
      if p < |t.kvs| && t.kvs[p].key == key {
        LeftOf(t, key, p);
        assert (b + c + a)[|b| + |c|] == a[0];
      } else {
        RemoveFocus(b, c, a, key);
      }
    }
  }

  /** One round of the descent: the answer is here, or there is a child to go on to. */
  lemma FindStep(t: Tree, h: nat, key: Key, pos: nat)
    requires Matches(t) && Balanced(t, h, 0) && pos == FindIndex(t.kvs, key)
    ensures Here(t)
    ensures pos < |t.kvs| && t.kvs[pos].key == key ==> FindIn(t, key) == Some(t.kvs[pos].value)
    ensures !(pos < |t.kvs| && t.kvs[pos].key == key) && t.leaf ==> FindIn(t, key) == None
    ensures !(pos < |t.kvs| && t.kvs[pos].key == key) && !t.leaf ==>
      && h > 0 && pos < |t.children| && t.node.children[pos] == t.children[pos].node
      && Matches(t.children[pos]) && Balanced(t.children[pos], h - 1, 0)
      && FindIn(t, key) == FindIn(t.children[pos], key)
  {
    hide Matches, Balanced, Row, FindIndex, Siblings, MatchesAll;
    MatchesIs(t);
    BalancedIs(t, h, 0);
    if !t.leaf {
      MatchesChild(t, pos);
      RowAt(t, h - 1, pos);
      BalancedAtLeast(t.children[pos], h - 1, MIN_KEYS);
    }
  }

  // ------------------------------------------------------------ searchable trees

  lemma NotBelow(s: seq<Entry>, key: Key)
    requires forall i | 0 <= i < |s| :: Less(s[i].key, key)
    ensures LookupLast(s, key) == None
  {
    hide Less, LookupLast;
    LessTotal(key, key);
    LastNone(s, key);
  }

  lemma NotAbove(s: seq<Entry>, key: Key)
    requires AllAbove(key, s)
    ensures LookupLast(s, key) == None
  {
    hide Less, LookupLast;
    LessTotal(key, key);
    LastNone(s, key);
  }

  /** On a searchable tree the descent for a key finds its last entry. */
  lemma {:induction false} FindLast(t: Tree, h: nat, key: Key)
    requires Balanced(t, h, 0) && Searchable(t)
    ensures FindIn(t, key) == LookupLast(InOrder(t), key)
    decreases h
  {
    hide Balanced, InOrder, Row, Less, FindIndex, Heads, Tails, Searchable, Before, After, LookupLast, AllAbove;
    BalancedIs(t, h, 0);
    var p := Slot(t, key);
    if t.leaf {
      InOrderLeaf(t);
      LeafLast(t, key);
    } else {
      SlotChild(t, key, p);
      var b, c, a := Before(t, p), InOrder(t.children[p]), After(t, p);
      NotBelow(b, key);
      LastConcat(b + c, a, key);
      LastConcat(b, c, key);
      if p < |t.kvs| && t.kvs[p].key == key {
        SlotLast(t, key, p);
      } else {
        SlotOver(t, key, p);
        NotAbove(a, key);
        RowAt(t, h - 1, p);
        BalancedAtLeast(t.children[p], h - 1, MIN_KEYS);
        FindLast(t.children[p], h - 1, key);
      }
    }
  }

  lemma LeafLast(t: Tree, key: Key)
    requires t.leaf && Searchable(t)
    ensures LookupLast(t.kvs, key) == Lookup(t.kvs, key)
  {
    hide Less, FindIndex, LookupLast;
    SearchableLeaf(t);
    var s, f := t.kvs, FindIndex(t.kvs, key);
    LessTotal(key, key);
    SortedAround(s, key);
    assert s == s[..f] + s[f..];
    LastConcat(s[..f], s[f..], key);
    NotBelow(s[..f], key);
    if f < |s| {
      assert s[f..] == [s[f]] + s[f + 1..];
      LastConcat([s[f]], s[f + 1..], key);
      LastOne(s[f], key);
      NotAbove(s[f + 1..], key);
    } else {
      LastNone(s[f..], key);
    }
  }

  /** An inner key is the last entry with that key. */
  lemma SlotLast(t: Tree, key: Key, p: nat)
    requires Arity(t) && !t.leaf && Searchable(t) && p == FindIndex(t.kvs, key) && p < |t.kvs| && t.kvs[p].key == key
    ensures LookupLast(After(t, p), key) == Some(t.kvs[p].value)
  {
    hide Less, FindIndex, LookupLast, Searchable, InOrder, Tails, Gaps, Upto, AllAbove;
    SearchableIs(t);
    AfterSplit(t, p);
    var rest := Gaps(t)[p + 1] + After(t, p + 1);
    forall i | p < i < |t.kvs| ensures Less(key, t.kvs[i].key) { }
    TailsOver(Gaps(t)[p + 2..], t.kvs[p + 1..], key);
    NotAbove(Gaps(t)[p + 1], key);
    NotAbove(After(t, p + 1), key);
    LastConcat(Gaps(t)[p + 1], After(t, p + 1), key);
    LastConcat([t.kvs[p]], rest, key);
    LastOne(t.kvs[p], key);
  }

  lemma AfterSplit(t: Tree, i: nat)
    requires Arity(t) && i < |t.kvs|
    ensures After(t, i) == [t.kvs[i]] + (Gaps(t)[i + 1] + After(t, i + 1))
  {
    hide Gaps;
    assert Gaps(t)[i + 1..][1..] == Gaps(t)[i + 2..] && t.kvs[i..][1..] == t.kvs[i + 1..];
  }

  /** Unless an inner node holds the key, the tree is ordered around it. */
  lemma {:induction false} UnheldAround(t: Tree, h: nat, key: Key)
    requires Balanced(t, h, 0) && Searchable(t) && !HeldInside(t, key)
    ensures OrderedAround(InOrder(t), key)
    ensures Has(InOrder(t), key) <==> Has(Reached(t, key).kvs, key)
    decreases h
  {
    hide Balanced, InOrder, Row, Less, FindIndex, Heads, Tails, Searchable, Before, After, AllAbove, OrderedAround;
    BalancedIs(t, h, 0);
    var p := Slot(t, key);
    if t.leaf {
      InOrderLeaf(t);
      SearchableLeaf(t);
      SortedAround(t.kvs, key);
    } else {
      SlotChild(t, key, p);
      SlotOver(t, key, p);
      RowAt(t, h - 1, p);
      BalancedAtLeast(t.children[p], h - 1, MIN_KEYS);
      UnheldAround(t.children[p], h - 1, key);
      AroundFocus(Before(t, p), InOrder(t.children[p]), After(t, p), key);
    }
  }

  lemma AroundFocus(b: seq<Entry>, c: seq<Entry>, a: seq<Entry>, key: Key)
    requires OrderedAround(c, key) && AllAbove(key, a) && forall i | 0 <= i < |b| :: Less(b[i].key, key)
    ensures OrderedAround(b + c + a, key) && (Has(b + c + a, key) <==> Has(c, key))
  {
    hide Less, FindIndex;
    LessTotal(key, key);
    if a != [] { LessTotal(key, a[0].key); }
    FindIndexFocus(b, c, a, key);
    var s, f := b + c + a, FindIndex(c, key);
    if f < |c| { assert s[|b| + f] == c[f]; } else if a != [] { assert s[|b| + f] == a[0]; }
    forall i | |b| + f < i < |s| ensures Less(key, s[i].key) {
      if i < |b| + |c| { assert s[i] == c[i - |b|]; } else { assert s[i] == a[i - |b| - |c|]; }
    }
  }

  /** A held key with a copy in its leaf has another entry behind the first. */
  lemma {:induction false} HeldLater(t: Tree, h: nat, key: Key)
    requires Balanced(t, h, 0) && Searchable(t) && HeldInside(t, key)
    ensures Has(Reached(t, key).kvs, key) ==> Has(InOrder(t), key)
    ensures Has(Reached(t, key).kvs, key) ==> exists j | FindIndex(InOrder(t), key) < j < |InOrder(t)| :: InOrder(t)[j].key == key
    decreases h
  {
    hide Balanced, InOrder, Row, Less, FindIndex, Heads, Tails, Searchable, Before, After, AllAbove;
    BalancedIs(t, h, 0);
    var p := Slot(t, key);
    var c := t.children[p];
    SlotChild(t, key, p);
    RowAt(t, h - 1, p);
    BalancedAtLeast(c, h - 1, MIN_KEYS);
    if Has(Reached(t, key).kvs, key) {
      if HeldInside(c, key) { HeldLater(c, h - 1, key); } else { UnheldAround(c, h - 1, key); }
      var b, g, a := Before(t, p), InOrder(c), After(t, p);
      FirstFocus(b, g, a, key);
      if p < |t.kvs| && t.kvs[p].key == key {
        assert InOrder(t)[|b| + |g|] == t.kvs[p];
      } else {
        var j :| FindIndex(g, key) < j < |g| && g[j].key == key;
        assert InOrder(t)[|b| + j] == g[j];
      }
    }
  }

  lemma FirstFocus(b: seq<Entry>, c: seq<Entry>, a: seq<Entry>, key: Key)
    requires Has(c, key) && forall i | 0 <= i < |b| :: Less(b[i].key, key)
    ensures Has(b + c + a, key) && FindIndex(b + c + a, key) == |b| + FindIndex(c, key)
  {
    hide Less, FindIndex;
    var s, f := b + c + a, FindIndex(c, key);
    assert s[|b| + f] == c[f];
    forall i | 0 <= i < |b| + f ensures Less(s[i].key, key) { if i >= |b| { assert s[i] == c[i - |b|]; } }
    FindIndexUnique(s, key, |b| + f);
  }
}
