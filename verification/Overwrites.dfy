/** Overwriting a key that an inner node holds: the new entry lands in a leaf in front of the old
    one, and the descent goes on meeting the old one first. */
module Overwrites {
  import opened Bytes
  import opened Entries
  import opened Weaving
  import opened Nodes
  import opened Subtrees
  import opened Slots
  import opened Insertion
  import opened Searching

  // -------------------------------------------------- the last entry for a key

  lemma PutOther(s: seq<Entry>, e: Entry, overwrite: bool, k: Key)
    requires k != e.key && (overwrite ==> Has(s, e.key))
    ensures LookupLast(Put(s, e, overwrite), k) == LookupLast(s, k)
  {
    hide FindIndex, LookupLast;
    var i := FindIndex(s, e.key);
    LastOne(e, k);
    LastConcat(s[..i] + [e], if overwrite then s[i + 1..] else s[i..], k);
    LastConcat(s[..i], [e], k);
    if overwrite {
      assert Put(s, e, overwrite) == s[..i] + [e] + s[i + 1..];
      assert s == s[..i] + [s[i]] + s[i + 1..];
      LastOne(s[i], k);
      LastConcat(s[..i] + [s[i]], s[i + 1..], k);
      LastConcat(s[..i], [s[i]], k);
    } else {
      assert s == s[..i] + s[i..];
      LastConcat(s[..i], s[i..], k);
    }
  }

  lemma PutNew(s: seq<Entry>, e: Entry)
    ensures LookupLast(Put(s, e, false), e.key) == if LookupLast(s, e.key).Some? then LookupLast(s, e.key) else Some(e.value)
  {
    hide FindIndex, LookupLast, Less;
    var i := FindIndex(s, e.key);
    LastOne(e, e.key);
    NotBelow(s[..i], e.key);
    assert s == s[..i] + s[i..];
    LastConcat(s[..i] + [e], s[i..], e.key);
    LastConcat(s[..i], [e], e.key);
    LastConcat(s[..i], s[i..], e.key);
  }

  lemma PutOver(s: seq<Entry>, e: Entry)
    requires Has(s, e.key)
    ensures OrderedAround(s, e.key) ==> LookupLast(Put(s, e, true), e.key) == Some(e.value)
    ensures (exists j | FindIndex(s, e.key) < j < |s| :: s[j].key == e.key) ==>
      LookupLast(Put(s, e, true), e.key) == LookupLast(s, e.key)
  {
    hide FindIndex, LookupLast, Less;
    var i := FindIndex(s, e.key);
    var rest := s[i + 1..];
    assert Put(s, e, true) == (s[..i] + [e]) + rest && s == (s[..i] + [s[i]]) + rest;
    LastOne(e, e.key);
    LastConcat(s[..i], [e], e.key);
    LastConcat(s[..i] + [e], rest, e.key);
    LastConcat(s[..i] + [s[i]], rest, e.key);
    if OrderedAround(s, e.key) { NotAbove(rest, e.key); }
    if j :| i < j < |s| && s[j].key == e.key {
      assert rest[j - i - 1] == s[j];
      LastNone(rest, e.key);
    }
  }

  /** What every search finds after an insertion into a searchable tree: the new value for the key
      that was inserted unless an inner node holds it, and what it found before otherwise. */
  lemma InsertSeen(t: Tree, h: nat, e: Entry, u: Tree, grew: bool, k: Key)
    requires Balanced(t, h, 1) && Searchable(t) && Inserted(t, h, e, u, grew)
    ensures FindIn(u, k) == if k == e.key && !HeldInside(t, k) then Some(e.value) else FindIn(t, k)
  {
    hide Balanced, InOrder, FindIndex, Inner, Searchable, HeldInside, FindIn, Has, LookupLast, Reached, PathFull, Distinct, Put, OrderedAround;
    BalancedAtLeast(t, h, 1);
    BalancedAtLeast(u, if grew then h + 1 else h, 1);
    FindLast(t, h, k);
    FindLast(u, if grew then h + 1 else h, k);
    var s, overwrite := InOrder(t), Has(Reached(t, e.key).kvs, e.key);
    if HeldInside(t, e.key) {
      HeldLater(t, h, e.key);
      HeldIsInner(t, h, e.key);
    } else {
      UnheldAround(t, h, e.key);
    }
    if k != e.key {
      PutOther(s, e, overwrite, k);
    } else if overwrite {
      PutOver(s, e);
    } else {
      PutNew(s, e);
      if !HeldInside(t, k) { Unheld(t, h, k); }
    }
  }

  lemma Unheld(t: Tree, h: nat, k: Key)
    requires Balanced(t, h, 0) && Searchable(t) && !HeldInside(t, k) && !Has(Reached(t, k).kvs, k)
    ensures FindIn(t, k) == None
  {
    hide Balanced, InOrder, Searchable, HeldInside, FindIn, Reached, OrderedAround;
    UnheldAround(t, h, k);
    FindAround(t, h, k);
  }

  /** After `Insert` of a key that an inner node holds, every search returns what it did before. */
  lemma OverwriteIsLost(t: Tree, h: nat, e: Entry, u: Tree, grew: bool, k: Key)
    requires Balanced(t, h, 1) && Searchable(t) && HeldInside(t, e.key) && Inserted(t, h, e, u, grew)
    ensures FindIn(u, k) == FindIn(t, k) && FindIn(u, e.key).Some?
  {
    hide Balanced, InOrder, Inner, Searchable, HeldInside, FindIn, Reached, PathFull, Distinct, Put, Has;
    InsertSeen(t, h, e, u, grew, k);
    InsertSeen(t, h, e, u, grew, e.key);
    BalancedAtLeast(t, h, 1);
    HeldIsInner(t, h, e.key);
  }

  // ----------------------------------------------- where inner entries can be

  lemma {:induction false} TailsCover<T>(cs: seq<seq<T>>, ks: seq<T>, i: nat, e: T)
    requires i < |cs| == |ks| && (e in cs[i] || e == ks[i])
    ensures e in Tails(cs, ks)
  {
    if i > 0 { TailsCover(cs[1..], ks[1..], i - 1, e); }
  }

  lemma InAfter(t: Tree, i: nat, p: nat, e: Entry)
    requires Arity(t) && p <= i < |t.kvs| && (e in Gaps(t)[i + 1] || e == t.kvs[i])
    ensures e in After(t, p)
  {
    hide Gaps, Tails;
    assert Gaps(t)[p + 1..][i - p] == Gaps(t)[i + 1] && t.kvs[p..][i - p] == t.kvs[i];
    TailsCover(Gaps(t)[p + 1..], t.kvs[p..], i - p, e);
  }

  /** An entry of an inner node is one of the node's own or an inner entry of a child. */
  lemma InnerCases(t: Tree, e: Entry) returns (own: bool, i: nat)
    requires e in Inner(t) && Arity(t)
    ensures !t.leaf
    ensures if own then i < |t.kvs| && t.kvs[i] == e else i < |t.children| && e in Inner(t.children[i])
  {
    if e in t.kvs {
      own := true;
      i :| 0 <= i < |t.kvs| && t.kvs[i] == e;
    } else {
      own := false;
      i :| 0 <= i < |t.children| && e in Inner(t.children[i]);
    }
  }

  lemma {:induction false} InnerInOrder(t: Tree, h: nat, e: Entry)
    requires Balanced(t, h, 0) && e in Inner(t)
    ensures e in InOrder(t)
    decreases h
  {
    hide Balanced, Inner, InOrder, Heads, Tails;
    BalancedIs(t, h, 0);
    var own, i := InnerCases(t, e);
    if own {
      InOrderAt(t, i);
      InAfter(t, i, i, e);
    } else {
      ChildBalanced(t, h, i);
      InnerInOrder(t.children[i], h - 1, e);
      InOrderAt(t, i);
    }
  }

  lemma ChildBalanced(t: Tree, h: nat, i: nat)
    requires Balanced(t, h, 0) && !t.leaf && i < |t.children|
    ensures Arity(t) && h > 0 && Balanced(t.children[i], h - 1, 0) && |t.children[i].kvs| > 0
    ensures Arity(t.children[i]) && InOrder(t.children[i]) != [] && Gaps(t)[i] == InOrder(t.children[i])
  {
    hide Balanced, InOrder;
    BalancedIs(t, h, 0);
    RowAt(t, h - 1, i);
    BalancedAtLeast(t.children[i], h - 1, MIN_KEYS);
    BalancedIs(t.children[i], h - 1, MIN_KEYS);
    NonEmpty(t.children[i]);
  }

  lemma {:induction false} HeldIsInner(t: Tree, h: nat, k: Key)
    requires Balanced(t, h, 0) && HeldInside(t, k)
    ensures FindIn(t, k).Some? && Entry(k, FindIn(t, k).value) in Inner(t)
    decreases h
  {
    hide FindIndex, Balanced, Less;
    BalancedIs(t, h, 0);
    var p := Slot(t, k);
    if !(p < |t.kvs| && t.kvs[p].key == k) {
      ChildBalanced(t, h, p);
      HeldIsInner(t.children[p], h - 1, k);
    } else {
      assert t.kvs[p] in t.kvs;
    }
  }

  lemma SlotOf(t: Tree, i: nat, e: Entry)
    requires Arity(t) && !t.leaf && Searchable(t) && i <= |t.kvs|
    requires (i < |t.kvs| && t.kvs[i] == e) || e in Gaps(t)[i]
    ensures FindIndex(t.kvs, e.key) == i
  {
    hide Less, InOrder, FindIndex, Searchable, Gaps;
    SearchableIs(t);
    LessTotal(e.key, e.key);
    if e in Gaps(t)[i] { var x :| 0 <= x < |Gaps(t)[i]| && Gaps(t)[i][x] == e; }
    forall j | 0 <= j < i ensures Less(t.kvs[j].key, e.key) {
      if j < i - 1 && e in Gaps(t)[i] { LessTrans(t.kvs[j].key, t.kvs[i - 1].key, e.key); }
    }
    FindIndexUnique(t.kvs, e.key, i);
  }

  /** In a searchable tree the descent for an inner entry's key meets it. */
  lemma {:induction false} InnerIsHeld(t: Tree, h: nat, e: Entry)
    requires Balanced(t, h, 0) && Searchable(t) && e in Inner(t)
    ensures HeldInside(t, e.key)
    decreases h
  {
    hide Balanced, Inner, InOrder, Less, Searchable, FindIndex, Gaps;
    BalancedIs(t, h, 0);
    InnerIs(t);
    var own, i := InnerCases(t, e);
    if own {
      SlotOf(t, i, e);
    } else {
      ChildBalanced(t, h, i);
      InnerInOrder(t.children[i], h - 1, e);
      SlotOf(t, i, e);
      SearchableIs(t);
      InnerIsHeld(t.children[i], h - 1, e);
    }
  }

  /** Overwriting in a leaf does not change which keys inner nodes hold. */
  lemma OverwriteKeepsInside(t: Tree, h: nat, e: Entry, u: Tree, k: Key)
    requires Balanced(t, h, 1) && Searchable(t) && Has(Reached(t, e.key).kvs, e.key) && Inserted(t, h, e, u, false)
    ensures HeldInside(u, k) <==> HeldInside(t, k)
  {
    hide Balanced, Inner, InOrder, Searchable, HeldInside, FindIn, Has, Reached, PathFull, Distinct, Put;
    BalancedAtLeast(t, h, 1);
    BalancedAtLeast(u, h, 1);
    if HeldInside(u, k) {
      HeldIsInner(u, h, k);
      InnerIsHeld(t, h, Entry(k, FindIn(u, k).value));
    }
    if HeldInside(t, k) {
      HeldIsInner(t, h, k);
      InnerIsHeld(u, h, Entry(k, FindIn(t, k).value));
    }
  }

  /** An inner key stays one, whatever is inserted. */
  lemma HeldStays(t: Tree, h: nat, e: Entry, u: Tree, grew: bool, k: Key)
    requires Balanced(t, h, 1) && Searchable(t) && HeldInside(t, k) && Inserted(t, h, e, u, grew)
    ensures HeldInside(u, k)
  {
    hide Balanced, Inner, InOrder, Searchable, HeldInside, FindIn, Has, Reached, PathFull, Distinct, Put;
    BalancedAtLeast(t, h, 1);
    BalancedAtLeast(u, if grew then h + 1 else h, 1);
    HeldIsInner(t, h, k);
    InnerIsHeld(u, if grew then h + 1 else h, Entry(k, FindIn(t, k).value));
  }
}
