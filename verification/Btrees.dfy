/** The tree object: `Find`, `Insert`, `Delete`. */
module Btrees {
  import opened Bytes
  import opened Entries
  import opened Nodes
  import opened Shapes
  import opened Repair
  import opened Subtrees
  import opened Slots
  import opened Insertion
  import opened Searching
  import Deletion
  import Overwrites
  import Scans
  import Sizes

  datatype RangeResult = InvalidRange | Range(keys: seq<Key>, values: seq<Value>)

  /** What holds of `Insert`'s contents, in terms of the map. */
  lemma PutIsUpdate(t: Tree, h: nat, e: Entry)
    requires Balanced(t, h, 1) && Sorted(InOrder(t))
    ensures var s := Put(InOrder(t), e, Has(Reached(t, e.key).kvs, e.key));
      && (Sorted(s) <==> !HeldInside(t, e.key))
      && (!HeldInside(t, e.key) ==> ToMap(s) == ToMap(InOrder(t))[e.key := e.value])
      && (HeldInside(t, e.key) ==> s == InsertEntry(InOrder(t), e) && e.key in ToMap(InOrder(t)))
  {
    hide Balanced, Sorted, InOrder, Less, FindIndex, Reached, HeldInside, ToMap;
    BalancedAtLeast(t, h, 1);
    LeafHolds(t, h, e.key);
    FindIndexSorted(InOrder(t), e.key);
    if Has(Reached(t, e.key).kvs, e.key) {
      SortedReplace(InOrder(t), e);
    } else {
      SortedInsert(InOrder(t), e);
    }
  }

  /** The first entry makes a leaf. */
  lemma Planted(t: Tree, e: Entry)
    requires t.leaf && t.kvs == [e] && t.children == [] && Here(t)
    ensures Matches(t) && Distinct(t) && Balanced(t, 0, 1) && Repr(t) == {t.node}
    ensures InOrder(t) == [e] && Sorted([e]) && ToMap([e]) == map[e.key := e.value] && ToMap([]) == map[]
    ensures Sorted([]) && Searchable(t)
    ensures forall k :: FindIn(t, k) == (if k == e.key then Some(e.value) else None) && !HeldInside(t, k)
    ensures ShapeOf(t) == Shape(true, [e], [])
  {
    InOrderLeaf(t);
    SearchableLeaf(t);
    LessTotal(e.key, e.key);
    assert ToMap([e][..0]) == map[];
  }

  lemma Removal(t: Tree, h: nat, key: Key, r: Option<Entry>, u: Tree)
    requires Deletion.Deleted(t, u, h, key, false, r) && Balanced(t, h, 1)
    ensures u.node == t.node && Distinct(u) && Repr(u) <= Repr(t) && Balanced(u, h, 0)
    ensures |InOrder(u)| == |InOrder(t)| - (if r.Some? then 1 else 0)
    ensures Searchable(t) ==> InOrder(u) == RemoveLast(InOrder(t), key) && (r.Some? <==> FindIn(t, key).Some?)
    ensures Sorted(InOrder(t)) ==> Sorted(InOrder(u)) && ToMap(InOrder(u)) == ToMap(InOrder(t)) - {key}
    ensures Sorted(InOrder(t)) ==> (r.Some? <==> key in ToMap(InOrder(t)))
    ensures |u.kvs| > 0 ==> Balanced(u, h, 1)
    ensures ShapeOf(u) == TakeOut(ShapeOf(t), key, false).0
  {
    hide Balanced, Distinct, FindIndex, Sorted, InOrder, ToMap, Less, Has, RemoveEntry, Repr, Searchable, RemoveLast, LookupLast, FindIn,
      ShapeOf, TakeOut;
    BalancedIs(u, h, |u.kvs|);
    BalancedIs(u, h, 0);
    BalancedIs(u, h, 1);
    BalancedAtLeast(t, h, 1);
    if Searchable(t) { FindLast(t, h, key); }
    if Sorted(InOrder(t)) {
      SortedSearchable(t, h);
      SortedRemove(InOrder(t), key);
      FindIndexSorted(InOrder(t), key);
      OneCopy(InOrder(t), key);
    }
  }

  /** In an ordered sequence the last entry for a key is the only one. */
  lemma OneCopy(s: seq<Entry>, key: Key)
    requires Sorted(s)
    ensures RemoveLast(s, key) == RemoveEntry(s, key) && (LookupLast(s, key).Some? <==> Has(s, key))
  {
    hide Less, FindIndex, RemoveLast, LookupLast;
    var f := FindIndex(s, key);
    if Has(s, key) {
      Deletion.SortedRemoves(s, f, key);
    } else {
      SortedAround(s, key);
      LastNone(s, key);
      LessTotal(key, key);
      RemoveLastNone(s, key);
    }
  }

  /** Removing the last entry for a key that was entered twice leaves the newer one. */
  lemma Revived(s: seq<Entry>, e: Entry)
    requires Sorted(s) && Has(s, e.key)
    ensures RemoveLast(InsertEntry(s, e), e.key) == ReplaceEntry(s, e)
  {
    hide Less, FindIndex, RemoveLast, LookupLast, Sorted;
    var f := FindIndex(s, e.key);
    var a, b := s[..f], s[f + 1..];
    assert InsertEntry(s, e) == (a + [e]) + [s[f]] + b;
    Behind(s, e.key);
    RemoveLastMiddle(a + [e], s[f], b, e.key);
  }

  lemma Revive(s: seq<Entry>, e: Entry)
    requires Sorted(s) && e.key in ToMap(s)
    ensures Sorted(RemoveLast(InsertEntry(s, e), e.key))
    ensures ToMap(RemoveLast(InsertEntry(s, e), e.key)) == ToMap(s)[e.key := e.value]
  {
    hide Less, FindIndex, RemoveLast, Sorted, ToMap, Has;
    FindIndexSorted(s, e.key);
    Revived(s, e);
    SortedReplace(s, e);
  }

  lemma Behind(s: seq<Entry>, key: Key)
    requires Sorted(s) && Has(s, key)
    ensures LookupLast(s[FindIndex(s, key) + 1..], key) == None
  {
    hide Less, FindIndex, LookupLast;
    LessTotal(key, key);
    LastNone(s[FindIndex(s, key) + 1..], key);
  }

  /** An empty root is a leaf without entries or stands over a single child. */
  lemma Collapse(u: Tree, h: nat)
    requires Balanced(u, h, 0) && u.kvs == [] && Matches(u) && Distinct(u)
    ensures u.leaf ==> h == 0 && InOrder(u) == []
    ensures !u.leaf ==>
      && h > 0 && |u.children| == 1 && u.node.children == [u.children[0].node] && InOrder(u) == InOrder(u.children[0])
      && Balanced(u.children[0], h - 1, 1) && Matches(u.children[0]) && Distinct(u.children[0])
      && Repr(u.children[0]) <= Repr(u)
  {
    hide Balanced, Distinct, Repr, Matches, Row;
    BalancedIs(u, h, 0);
    if u.leaf {
      InOrderLeaf(u);
    } else {
      RowAt(u, h - 1, 0);
      BalancedIs(u.children[0], h - 1, MIN_KEYS);
      BalancedIs(u.children[0], h - 1, 1);
      MatchesChild(u, 0);
      ApartChild(u, 0);
      assert Roots(u.children) == [u.children[0].node];
    }
  }

  lemma CollapseShape(u: Tree)
    ensures u.kvs != [] ==> Lowered(ShapeOf(u)) == Some(ShapeOf(u))
    ensures u.kvs == [] && u.leaf ==> Lowered(ShapeOf(u)) == None
    ensures u.kvs == [] && !u.leaf && u.children != [] ==> Lowered(ShapeOf(u)) == Some(ShapeOf(u.children[0]))
  {
    ShapeIs(u);
  }

  /** Every tree of more than four entries has a key whose overwrite is lost: the root's first. */
  lemma RootKeyInside(t: Tree, h: nat)
    requires Balanced(t, h, 1) && |InOrder(t)| > MAX_KEYS
    ensures HeldInside(t, t.kvs[0].key)
  {
    hide InOrder, Less, Has;
    if t.leaf { InOrderLeaf(t); }
    LessTotal(t.kvs[0].key, t.kvs[0].key);
  }

  /** A tree of at most four entries is a leaf, and loses no overwrite. */
  lemma FewInside(t: Tree, h: nat, key: Key)
    requires Balanced(t, h, 1) && |InOrder(t)| <= MAX_KEYS
    ensures !HeldInside(t, key)
  {
    hide InOrder, Less;
    if h > 0 {
      BalancedIs(t, h, 0);
      Sizes.NodeSize(t, h);
      Sizes.PowGrows(3, h);
      Sizes.Scale(2, |t.kvs| + 1, Sizes.Pow(3, h));
      assert false;
    }
  }

  /** A tree of five entries loses the overwrite of the middle one, and of no other. */
  lemma FiveInside(t: Tree, h: nat, key: Key)
    requires Balanced(t, h, 1) && |InOrder(t)| == 5
    ensures HeldInside(t, key) <==> key == InOrder(t)[2].key
  {
    hide InOrder, Less;
    FiveShape(t, h);
    InOrderPair(t, 0);
    InOrderLeaf(t.children[0]);
    InOrderLeaf(t.children[1]);
    BalancedIs(t.children[0], 0, MIN_KEYS);
    BalancedIs(t.children[1], 0, MIN_KEYS);
    LessTotal(t.kvs[0].key, t.kvs[0].key);
  }

  lemma FiveShape(t: Tree, h: nat)
    requires Balanced(t, h, 1) && |InOrder(t)| == 5
    ensures h == 1 && !t.leaf && |t.kvs| == 1 && Balanced(t.children[0], 0, MIN_KEYS) && Balanced(t.children[1], 0, MIN_KEYS)
  {
    hide InOrder, Less;
    BalancedIs(t, h, 0);
    Sizes.NodeSize(t, h);
    if h > 1 {
      Sizes.PowGrows(3, h - 1);
      Sizes.Scale(2, |t.kvs| + 1, Sizes.Pow(3, h));
      assert false;
    }
    assert h == 1 ==> Sizes.Pow(3, h) == 3;
  }

  /** Putting an entry does not order a sequence. */
  lemma PutUnsorted(s: seq<Entry>, e: Entry, overwrite: bool)
    requires Sorted(Put(s, e, overwrite)) && (overwrite ==> Has(s, e.key))
    ensures Sorted(s)
  {
    hide FindIndex, Less;
    var r, f := Put(s, e, overwrite), FindIndex(s, e.key);
    forall i, j | 0 <= i < j < |s| ensures Less(s[i].key, s[j].key) {
      if overwrite {
        assert r[i].key == s[i].key && r[j].key == s[j].key;
      } else {
        assert r[if i < f then i else i + 1] == s[i] && r[if j < f then j else j + 1] == s[j];
      }
    }
  }

  /** When an insertion leaves an ordered tree. */
  lemma InsertedOrder(t: Tree, h: nat, e: Entry, u: Tree, grew: bool)
    requires Balanced(t, h, 1) && Searchable(t) && Inserted(t, h, e, u, grew)
    ensures Searchable(u) && Distinct(u) && Balanced(u, if grew then h + 1 else h, 1)
    ensures grew <==> !Has(Reached(t, e.key).kvs, e.key) && PathFull(t, e.key)
    ensures Sorted(InOrder(u)) <==> Sorted(InOrder(t)) && !HeldInside(t, e.key)
    ensures Sorted(InOrder(t)) && !HeldInside(t, e.key) ==> ToMap(InOrder(u)) == ToMap(InOrder(t))[e.key := e.value]
    ensures Sorted(InOrder(t)) && HeldInside(t, e.key) ==> InOrder(u) == InsertEntry(InOrder(t), e)
  {
    hide Balanced, Distinct, Sorted, InOrder, Less, FindIndex, Reached, HeldInside, ToMap, PathFull, Put, Has, Inner, Searchable;
    var overwrite := Has(Reached(t, e.key).kvs, e.key);
    if Sorted(InOrder(t)) { PutIsUpdate(t, h, e); }
    if Sorted(InOrder(u)) {
      BalancedAtLeast(t, h, 1);
      if HeldInside(t, e.key) { HeldLater(t, h, e.key); } else { UnheldAround(t, h, e.key); }
      PutUnsorted(InOrder(t), e, overwrite);
    }
  }

  lemma InsertedShape(t: Tree, h: nat, e: Entry, u: Tree, grew: bool)
    requires Inserted(t, h, e, u, grew)
    ensures Distinct(u) && Balanced(u, if grew then h + 1 else h, 1)
    ensures grew <==> !Has(Reached(t, e.key).kvs, e.key) && PathFull(t, e.key)
    ensures |InOrder(u)| == |InOrder(t)| + (if Has(Reached(t, e.key).kvs, e.key) then 0 else 1)
    ensures ShapeOf(u) == InsertShape(Some(ShapeOf(t)), e)
  {
  }

  lemma InsertedLook(t: Tree, h: nat, e: Entry, u: Tree, grew: bool)
    requires Balanced(t, h, 1) && Searchable(t) && Inserted(t, h, e, u, grew)
    ensures forall k :: FindIn(u, k) == if k == e.key && !HeldInside(t, e.key) then Some(e.value) else FindIn(t, k)
  {
    hide Balanced, Searchable, Inserted, HeldInside, FindIn;
    forall k { Overwrites.InsertSeen(t, h, e, u, grew, k); }
  }

  /** What an insertion does to the set of keys in inner nodes. */
  lemma InsertedInside(t: Tree, h: nat, e: Entry, u: Tree, grew: bool)
    requires Balanced(t, h, 1) && Searchable(t) && Inserted(t, h, e, u, grew)
    ensures forall k | HeldInside(t, k) :: HeldInside(u, k)
    ensures FindIn(t, e.key).Some? && !HeldInside(t, e.key) ==> forall k :: HeldInside(u, k) <==> HeldInside(t, k)
  {
    hide Balanced, Searchable, Inserted, HeldInside, FindIn, Reached, Has, PathFull;
    BalancedAtLeast(t, h, 1);
    forall k | HeldInside(t, k) ensures HeldInside(u, k) { Overwrites.HeldStays(t, h, e, u, grew, k); }
    if FindIn(t, e.key).Some? && !HeldInside(t, e.key) {
      if !Has(Reached(t, e.key).kvs, e.key) { Overwrites.Unheld(t, h, e.key); }
      InsertedGrew(t, h, e, u, grew);
      forall k ensures HeldInside(u, k) <==> HeldInside(t, k) { Overwrites.OverwriteKeepsInside(t, h, e, u, k); }
    }
  }

  lemma InsertedGrew(t: Tree, h: nat, e: Entry, u: Tree, grew: bool)
    requires Inserted(t, h, e, u, grew) && Has(Reached(t, e.key).kvs, e.key)
    ensures !grew
  {
  }

  class Btree {
    var root: Node?
    ghost var model: Option<Tree>
    ghost var height: nat

    ghost function Objects(): set<Node>
      reads this
    {
      if model.None? then {} else Repr(model.value)
    }

    /** The heap is a B-tree: 2 to 4 keys in every node but the root, 1 to 4 in the root, one
        more child than keys, all leaves at one depth, no node shared. */
    ghost predicate Valid()
      reads this, Objects()
    {
      match model
      case None => root == null && height == 0
      case Some(t) => root == t.node && Matches(t) && Distinct(t) && Balanced(t, height, 1)
    }

    ghost function Contents(): seq<Entry>
      reads this
    {
      if model.None? then [] else InOrder(model.value)
    }

    ghost predicate Ordered()
      reads this
    {
      Sorted(Contents())
    }

    /** Every descent is guided to the right child, as it is in ordered trees. */
    ghost predicate Guided()
      reads this
    {
      model.Some? ==> Searchable(model.value)
    }

    lemma OrderedGuided()
      requires Valid() && Ordered()
      ensures Guided()
    {
      hide Matches, Balanced, Distinct, Sorted, InOrder, Searchable;
      if model.Some? {
        BalancedAtLeast(model.value, height, 1);
        SortedSearchable(model.value, height);
      }
    }

    /** The tree as a value. */
    ghost function Form(): Option<Shape>
      reads this
    {
      if model.None? then None else Some(ShapeOf(model.value))
    }

    lemma FormDescends(key: Key)
      ensures Look(key) == FindOpt(Form(), key) && (Inside(key) <==> HeldOpt(Form(), key))
    {
      hide FindIn, HeldInside, FindShape, HeldShape, ShapeOf;
      if model.Some? { DescentShape(model.value, key); }
    }

    lemma FormContents()
      ensures Contents() == PairsOpt(Form())
    {
      hide InOrder, PairsOf, ShapeOf;
      if model.Some? { InOrderShape(model.value); }
    }

    /** The leaf where the descent ends has the key. */
    ghost predicate InLeaf(key: Key)
      reads this
    {
      model.Some? && Has(Reached(model.value, key).kvs, key)
    }

    /** The map the tree stands for. */
    ghost function View(): map<Key, Value>
      reads this
    {
      ToMap(Contents())
    }

    /** What `Find` returns. */
    ghost function Look(key: Key): Option<Value>
      reads this
    {
      if model.None? then None else FindIn(model.value, key)
    }

    /** The descent for `key` meets it in an inner node. */
    ghost predicate Inside(key: Key)
      reads this
    {
      model.Some? && HeldInside(model.value, key)
    }

    /** `key` is new to the leaf it belongs in, and every node on the way there is full. */
    ghost predicate Overflows(key: Key)
      reads this
    {
      model.Some? && !Has(Reached(model.value, key).kvs, key) && PathFull(model.value, key)
    }

    /** An inner key is found. */
    lemma InsideFound(key: Key)
      requires Valid() && Inside(key)
      ensures Look(key).Some?
    {
      hide Matches, Balanced, Distinct, FindIn, HeldInside;
      BalancedAtLeast(model.value, height, 1);
      Overwrites.HeldIsInner(model.value, height, key);
    }

    lemma LookOrdered(key: Key)
      requires Valid() && Ordered()
      ensures Look(key) == if key in View() then Some(View()[key]) else None
      ensures Inside(key) ==> key in View()
    {
      hide Matches, Balanced, Distinct, FindIndex, FindIn, Sorted, InOrder, ToMap, Less, HeldInside;
      NoEntries();
      if model.Some? {
        BalancedAtLeast(model.value, height, 1);
        FindInOrder(model.value, height, key);
        LeafHolds(model.value, height, key);
        FindIndexSorted(Contents(), key);
      }
    }

    constructor ()
      ensures Valid() && Ordered() && Contents() == [] && Objects() == {} && Form() == None
    {
      root, model, height := null, None, 0;
    }

    method Find(key: Key) returns (r: Option<Value>, ghost visited: nat)
      requires Valid()
      ensures r == Look(key)
      ensures Ordered() ==> r == if key in View() then Some(View()[key]) else None
      ensures visited <= height + 1
    {
      hide Matches, Balanced, Distinct, Repr, FindIndex, FindIn, Sorted, InOrder, ToMap, Keys, Values, Less;
      visited := 0;
      if root == null {
        NoEntries();
        return None, 0;
      }
      var current := root;
      ghost var t, h: nat := model.value, height;
      BalancedAtLeast(t, h, 1);
      if Ordered() { LookOrdered(key); }
      Existing(t);
      MatchesIs(t);
      while true
        invariant current == t.node && Matches(t) && Balanced(t, h, 0) && Here(t)
        invariant FindIn(t, key) == FindIn(model.value, key)
        invariant visited + h == height
        invariant forall n | n in Repr(t) :: allocated(n)
        decreases h
      {
        visited := visited + 1;
        var pos := current.Search(key);
        SearchIndexIs(t.kvs, key, pos);
        KeyAt(t.kvs, pos);
        FindStep(t, h, key, pos);
        if pos < |current.keys| && current.keys[pos] == key {
          return Some(current.values[pos]), visited;
        }
        if current.isleaf {
          return None, visited;
        }
        assert pos < |current.children|;
        current := current.children[pos];
        t, h := t.children[pos], h - 1;
        Existing(t);
        MatchesIs(t);
      }
    }

    /** `Insert` keeps any tree balanced, overwrites one entry in a leaf or adds one, and follows the
        shape function.  Where the descent is guided, it changes what `Find` returns for the key
        exactly when no inner node holds it, and for no other key.  A key in an inner node is not
        found by the leaf check, so the tree gets a second entry for it, in front of the first, and is
        no longer ordered.  An inner key stays one, and overwriting in a leaf moves no key. */
    method Insert(key: Key, value: Value)
      requires Valid()
      modifies this, Objects()
      ensures Valid() && fresh(Objects() - old(Objects()))
      ensures Form() == Some(InsertShape(old(Form()), Entry(key, value)))
      ensures |Contents()| == old(|Contents()|) + if old(InLeaf(key)) then 0 else 1
      ensures height == old(height) + if old(Overflows(key)) then 1 else 0
      ensures old(Guided()) ==> Guided()
      ensures old(Guided()) ==> forall k :: Look(k) == if k == key && !old(Inside(key)) then Some(value) else old(Look(k))
      ensures old(Guided()) ==> (Ordered() <==> old(Ordered()) && !old(Inside(key)))
      ensures old(Ordered()) && !old(Inside(key)) ==> View() == old(View())[key := value]
      ensures old(Ordered()) && old(Inside(key)) ==> Contents() == InsertEntry(old(Contents()), Entry(key, value))
      ensures old(Guided()) ==> forall k | old(Inside(k)) :: Inside(k)
      ensures old(Guided()) && old(Look(key)).Some? && !old(Inside(key)) ==> forall k :: Inside(k) <==> old(Inside(k))
    {
      hide Matches, Balanced, Distinct, FindIndex, Sorted, InOrder, ToMap, Less, HeldInside, Reached, PathFull, Put, FindIn, Lookup, Searchable,
        Inserted, ShapeOf, InsertShape;
      if Ordered() { OrderedGuided(); }
      if root == null {
        var node := new Node(true);
        node.InsertAt(0, key, value);
        root, height, model := node, 0, Some(Tree(node, true, [Entry(key, value)], []));
        Planted(model.value, Entry(key, value));
        FirstShape(Entry(key, value));
        return;
      }
      ghost var u, grew, made;
      ghost var t := model.value;
      var e := Entry(key, value);
      root, u, grew, made := InsertInto(root, e, t, height);
      InsertedShape(t, height, e, u, grew);
      if Searchable(t) {
        InsertedOrder(t, height, e, u, grew);
        InsertedInside(t, height, e, u, grew);
        InsertedLook(t, height, e, u, grew);
      }
      model, height := Some(u), if grew then height + 1 else height;
    }

    lemma FirstShape(e: Entry)
      ensures InsertShape(None, e) == Shape(true, [e], [])
    {
    }

    /** `Delete` keeps any tree balanced and takes out one entry or none.  Where the descent is guided
        that is the entry `Find` returns; on an ordered tree the map loses the key. */
    method Delete(key: Key) returns (deleted: bool)
      requires Valid()
      modifies this, Objects()
      ensures Valid() && Objects() <= old(Objects())
      ensures |Contents()| == old(|Contents()|) - if deleted then 1 else 0
      ensures Form() == DeleteShape(old(Form()), key)
      ensures old(Guided()) ==> Contents() == RemoveLast(old(Contents()), key) && (deleted <==> old(Look(key)).Some?)
      ensures old(Ordered()) ==> Ordered() && View() == old(View()) - {key} && (deleted <==> key in old(View()))
      ensures old(height) - 1 <= height <= old(height)
    {
      hide Matches, Balanced, Distinct, FindIndex, Sorted, InOrder, ToMap, Less, Has, RemoveEntry, Repr, Searchable, RemoveLast, FindIn,
        ShapeOf, TakeOut;
      if root == null {
        NoEntries();
        NoneLeft(key);
        return false;
      }
      ghost var t := model.value;
      ghost var u: Tree;
      var r;
      r, u := Deletion.Delete(root, key, false, t, height);
      Removal(t, height, key, r, u);
      MatchesIs(u);
      CollapseShape(u);
      model := Some(u);
      if |root.keys| == 0 {
        Collapse(u, height);
        if root.isleaf {
          root, model, height := null, None, 0;
        } else if |root.children| > 0 {
          root, model, height := root.children[0], Some(u.children[0]), height - 1;
        }
      }
      deleted := r.Some?;
    }

    lemma NoneLeft(key: Key)
      ensures RemoveLast([], key) == []
    {
    }

    /** A key survives its deletion: after an overwrite that was lost, `Delete` takes out the old entry
        only, and the new value comes up. */
    method OverwriteThenDelete(key: Key, value: Value) returns (deleted: bool)
      requires Valid() && Ordered() && Inside(key)
      modifies this, Objects()
      ensures Valid() && Ordered() && deleted && View() == old(View())[key := value]
    {
      hide Sorted, ToMap, RemoveLast, Btree.Inside, Btree.Look, Btree.Contents, Btree.Guided, Btree.Valid;
      OrderedGuided();
      InsideFound(key);
      LookOrdered(key);
      ghost var s, e := Contents(), Entry(key, value);
      ghost var was := Look(key);
      Insert(key, value);
      assert Look(key) == was;
      Revive(s, e);
      deleted := Delete(key);
    }

    lemma RangeGuided(lo: Key, hi: Key)
      requires Valid() && Guided()
      ensures RangeOpt(Form(), lo, hi) == Within(Contents(), lo, hi)
    {
      hide Matches, Balanced, Distinct, InOrder, RangeShape, Searchable, ShapeOf, Within;
      WithinFirst([], lo, hi);
      if model.Some? {
        BalancedAtLeast(model.value, height, 1);
        Scans.RangeWithin(model.value, height, lo, hi);
      }
    }

    /** On any tree, what the scan of the value collects; in a guided one, exactly the entries in range. */
    method GetRange(lo: Key, hi: Key) returns (r: RangeResult)
      requires Valid()
      ensures root != null && Less(hi, lo) ==> r == InvalidRange
      ensures !(root != null && Less(hi, lo)) ==> r == Range(Keys(RangeOpt(Form(), lo, hi)), Values(RangeOpt(Form(), lo, hi)))
      ensures Guided() ==> RangeOpt(Form(), lo, hi) == Within(Contents(), lo, hi)
    {
      hide Matches, Balanced, Distinct, Sorted, InOrder, Less, Keys, Values, RangeShape, Searchable, ShapeOf, Within;
      if Guided() { RangeGuided(lo, hi); }
      if root == null {
        Scans.AppendNone([], []);
        return Range([], []);
      }
      if Less(hi, lo) {
        return InvalidRange;
      }
      BalancedAtLeast(model.value, height, 1);
      var keys, values := Scans.GetRange(root, lo, hi, [], [], model.value, height);
      r := Range(keys, values);
    }

    /** On any tree the keys that the scan collects are deleted one after the other; an ordered one loses
        exactly the range. */
    method DeleteRange(lo: Key, hi: Key) returns (count: nat, ok: bool)
      requires Valid()
      modifies this, Objects()
      ensures Valid() && Objects() <= old(Objects())
      ensures ok <==> !(old(root) != null && Less(hi, lo))
      ensures ok ==> Form() == DeleteEach(old(Form()), Keys(RangeOpt(old(Form()), lo, hi))) && count == |old(Contents())| - |Contents()|
      ensures !ok ==> Form() == old(Form()) && count == 0
      ensures old(Ordered()) ==> Ordered()
      ensures ok && old(Ordered()) ==> View() == Scans.Outlying(old(View()), lo, hi) && count == |Within(old(Contents()), lo, hi)|
      ensures !ok && old(Ordered()) ==> View() == old(View())
    {
      hide Matches, Balanced, Distinct, Sorted, InOrder, Less, Keys, Values, Within, Repr, ToMap, Scans.KeySet, Scans.Outlying,
        RangeOpt, DeleteEach, DeleteShape, Form, Guided;
      if model.Some? { Existing(model.value); }
      ghost var ordered := Ordered();
      if ordered { OrderedGuided(); }
      var r := GetRange(lo, hi);
      if r.InvalidRange? {
        return 0, false;
      }
      ghost var all, f, s := Contents(), Form(), RangeOpt(Form(), lo, hi);
      if ordered { Scans.KeysGone(all, lo, hi); }
      DeleteNone(f, Keys(s));
      count, ok := 0, true;
      var i := 0;
      while i < |r.keys|
        invariant 0 <= i <= |r.keys| == |s| && r.keys == Keys(s)
        invariant Valid() && Objects() <= old(Objects())
        invariant Form() == DeleteEach(f, Keys(s)[..i]) && count == |all| - |Contents()|
        invariant ordered ==> Ordered() && count == i && View() == ToMap(all) - Scans.KeySet(s[..i])
      {
        KeyAt(s, i);
        DeleteNext(f, Keys(s), i);
        if ordered { Scans.NextKey(all, lo, hi, i); }
        var deleted := Delete(r.keys[i]);
        if deleted {
          count := count + 1;
        }
        i := i + 1;
      }
      assert s[..i] == s && Keys(s)[..i] == Keys(s);
    }

    method CountKeys() returns (count: nat)
      requires Valid()
      ensures count == |Contents()|
      ensures Ordered() ==> count == |View()|
    {
      hide Matches, Balanced, Distinct, Sorted, InOrder, ToMap;
      if Ordered() { ToMapSize(Contents()); }
      if root == null {
        return 0;
      }
      BalancedAtLeast(model.value, height, 1);
      count := Scans.CountKeys(root, model.value, height);
    }

    /** The shard's part of `ForEach`. */
    method ForEach<S>(go: Scans.Callback<S>, st: S) returns (st': S, more: bool)
      requires Valid()
      ensures (st', more) == Scans.Walk(go, st, Contents())
    {
      hide Matches, Balanced, Distinct, InOrder;
      if root == null {
        return st, true;
      }
      BalancedAtLeast(model.value, height, 1);
      st', more := Scans.ForEach(root, go, st, model.value, height);
    }
  }
}
