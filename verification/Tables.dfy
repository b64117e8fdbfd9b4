/** The sharded tree as the layers above use it: a map that `Find` shows, and the keys whose
    overwrite is lost. */
module Tables {
  import opened Bytes
  import opened Entries
  import opened Routing
  import opened Forests
  import opened Sharded
  import Scans

  class Table {
    const tree: ShardedBTree
    ghost var view: Store    // what lookups show
    ghost var grove: Forest  // the shards as values
    ghost var Repr: set<object>

    /** The shards are well-formed trees of the shapes in `grove`. */
    ghost predicate Formed()
      reads this, Repr
    {
      && this in Repr && tree in Repr
      && (forall i | 0 <= i < |tree.shards| :: tree.shards[i] in Repr)
      && (forall n | n in tree.Objects() :: n in Repr)
      && tree.Apart() && grove == tree.Grove()
    }

    /** Besides, every lookup shows `view`. */
    ghost predicate Sound()
      reads this, Repr
    {
      Formed() && tree.Sound() && forall k :: tree.Look(k) == Get(view, k)
    }

    /** Besides, no overwrite has been lost. */
    ghost predicate Intact()
      reads this, Repr
    {
      Sound() && tree.Valid()
    }

    lemma IntactSound()
      requires Intact()
      ensures Sound() && Formed()
    {
    }

    lemma SoundFormed()
      requires Sound()
      ensures Formed()
    {
    }

    lemma IntactView()
      requires Intact()
      ensures view == tree.View()
    {
      hide ShardedBTree.Look, ShardedBTree.Sound, ShardedBTree.View;
      forall k ensures Get(view, k) == Get(tree.View(), k) { tree.LookValid(k); }
      SameMap(view, tree.View());
    }

    /** An inner node holds the key. */
    ghost predicate Inner(key: Key)
      reads this
    {
      HeldForest(tree.hash, grove, key)
    }

    lemma InnerInside(key: Key)
      requires Formed()
      ensures |tree.shards| > 0 && (Inner(key) <==> tree.Inside(key)) && tree.Look(key) == FindForest(tree.hash, grove, key)
    {
      hide ShardedBTree.Look, ShardedBTree.Inside, HeldForest, FindForest;
      tree.GroveDescends(key);
    }

    lemma InnerHeld(key: Key)
      requires Sound() && Inner(key)
      ensures key in view
    {
      hide ShardedBTree.Look, ShardedBTree.Inside, HeldForest, FindForest;
      InnerInside(key);
      tree.InsideFound(key);
      assert tree.Look(key) == Get(view, key);
    }

    lemma Shows()
      requires tree.Valid() && view == tree.View()
      ensures tree.Sound() && forall k :: tree.Look(k) == Get(view, k)
    {
      hide ShardedBTree.Look, ShardedBTree.Sound, Get;
      tree.ValidSound();
      forall k ensures tree.Look(k) == Get(view, k) { tree.LookValid(k); }
    }

    constructor (numShards: int, numCPU: nat, hash: Hash)
      requires numCPU > 0
      ensures Formed() && Sound() && Intact() && view == map[] && fresh(Repr)
      ensures tree.hash == hash && grove == EmptyForest(if numShards <= 0 then numCPU else numShards)
    {
      hide ShardedBTree.Valid, ShardedBTree.Sound, ShardedBTree.View, ShardedBTree.Look, ShardedBTree.Objects, ShardedBTree.Grove, Get;
      tree := new ShardedBTree(numShards, numCPU, hash);
      view := map[];
      grove := EmptyForest(if numShards <= 0 then numCPU else numShards);
      new;
      Repr := {this, tree} + (set i | 0 <= i < |tree.shards| :: tree.shards[i]);
      tree.ValidApart();
      Shows();
    }

    method Find(key: Key) returns (r: Option<Value>)
      requires Formed()
      ensures r == FindForest(tree.hash, grove, key)
      ensures Sound() ==> r == Get(view, key)
    {
      hide ShardedBTree.Look, FindForest;
      InnerInside(key);
      r := tree.Find(key);
    }

    /** Follows the shape functions on any shards.  Where lookups show `view`, the write is lost exactly
        when an inner node holds the key; inner keys stay inner keys, and an overwrite that is not
        lost moves no key. */
    method Insert(key: Key, value: Value)
      requires Formed()
      modifies Repr
      ensures Formed() && fresh(Repr - old(Repr))
      ensures grove == PutForest(tree.hash, old(grove), Entry(key, value))
      ensures old(Sound()) ==> Sound() && view == if old(Inner(key)) then old(view) else old(view)[key := value]
      ensures old(Sound()) ==> (Intact() <==> old(Intact()) && !old(Inner(key)))
      ensures old(Sound()) ==> forall k | old(Inner(k)) :: Inner(k)
      ensures old(Sound()) && key in old(view) && !old(Inner(key)) ==> forall k :: Inner(k) <==> old(Inner(k))
    {
      hide ShardedBTree.Valid, ShardedBTree.Sound, ShardedBTree.View, ShardedBTree.Look, ShardedBTree.Objects, ShardedBTree.Inside,
        ShardedBTree.Grove, ShardedBTree.Apart, PutForest, HeldForest, FindForest;
      ghost var lost, sound := Inner(key), Sound();
      InnerAll();
      assert sound ==> tree.Look(key) == Get(view, key);
      tree.Insert(key, value);
      if !lost { view := view[key := value]; }
      Repr := Repr + tree.Objects();
      grove := tree.Grove();
      InnerAll();
    }

    lemma InnerAll()
      requires Formed()
      ensures |tree.shards| > 0 && forall k :: Inner(k) <==> tree.Inside(k)
    {
      hide ShardedBTree.Look, ShardedBTree.Inside, HeldForest, FindForest;
      forall k ensures |tree.shards| > 0 && (Inner(k) <==> tree.Inside(k)) { InnerInside(k); }
      InnerInside([]);
    }

    /** The insertions of `BulkInsert`, in argument order.  One of them can only be lost when its key
        was there before, in the table or in the batch. */
    method InsertEach(keys: seq<Key>, values: seq<Value>)
      requires Formed() && |keys| == |values|
      modifies Repr
      ensures Formed() && fresh(Repr - old(Repr))
      ensures grove == PutEach(tree.hash, old(grove), keys, values)
      ensures old(Sound()) ==> Sound()
      ensures old(Sound()) ==> (Intact() <==> old(Intact()) && AllKept(tree.hash, old(grove), keys, values))
      ensures old(Sound()) && AllKept(tree.hash, old(grove), keys, values) ==> view == PutAll(old(view), keys, values)
      ensures old(Sound()) && !AllKept(tree.hash, old(grove), keys, values) ==>
        exists i | 0 <= i < |keys| :: keys[i] in old(view) || keys[i] in keys[..i]
    {
      hide Formed, Sound, Intact, Inner, PutAll, PutEach, AllKept, PutForest, HeldForest;
      ghost var hash, f, sound, whole := tree.hash, grove, Sound(), Intact();
      PutNone(view, keys, values);
      EachNone(hash, f, keys, values);
      for n := 0 to |keys|
        invariant Formed() && fresh(Repr - old(Repr))
        invariant grove == PutEach(hash, f, keys[..n], values[..n])
        invariant sound ==> Sound()
        invariant sound ==> (Intact() <==> whole && AllKept(hash, f, keys[..n], values[..n]))
        invariant sound && AllKept(hash, f, keys[..n], values[..n]) ==> view == PutAll(old(view), keys[..n], values[..n])
        invariant sound ==> forall k | k in view :: k in old(view) || k in keys[..n]
        invariant sound && !AllKept(hash, f, keys[..n], values[..n]) ==> exists i | 0 <= i < n :: keys[i] in old(view) || keys[i] in keys[..i]
      {
        PutNext(old(view), keys, values, n);
        EachNext(hash, f, keys, values, n);
        InnerIs(keys[n]);
        if sound && Inner(keys[n]) { InnerHeld(keys[n]); }
        Insert(keys[n], values[n]);
      }
      assert keys[..|keys|] == keys && values[..|values|] == values;
    }

    lemma InnerIs(key: Key)
      ensures Inner(key) <==> HeldForest(tree.hash, grove, key)
    {
    }

    /** Follows the shape functions on any shards; where lookups show `view`, says whether it had the
        key; where no overwrite was lost, removes it. */
    method Delete(key: Key) returns (deleted: bool)
      requires Formed()
      modifies Repr
      ensures Formed() && Repr == old(Repr)
      ensures grove == CutForest(tree.hash, old(grove), key)
      ensures old(Sound()) ==> (deleted <==> key in old(view))
      ensures old(Intact()) ==> Sound() && Intact() && view == old(view) - {key}
    {
      hide ShardedBTree.Valid, ShardedBTree.Sound, ShardedBTree.View, ShardedBTree.Look, ShardedBTree.Objects, ShardedBTree.Grove,
        ShardedBTree.Apart, Get, CutForest;
      ghost var whole, sound := Intact(), Sound();
      if sound { GetSome(key); }
      if whole { IntactView(); }
      deleted := tree.Delete(key);
      grove := tree.Grove();
      if whole {
        view := view - {key};
        Shows();
      }
    }

    lemma GetSome(key: Key)
      requires Sound()
      ensures |tree.shards| > 0 && (tree.Look(key).Some? <==> key in view)
    {
      hide ShardedBTree.Look;
      assert tree.Look(key) == Get(view, key);
    }

    /** Whatever was lost before, the table is empty and whole. */
    method Clear()
      requires Formed()
      modifies Repr
      ensures Formed() && Sound() && Intact() && view == map[] && fresh(Repr - old(Repr))
      ensures grove == EmptyForest(|old(grove)|)
    {
      hide ShardedBTree.Valid, ShardedBTree.Sound, ShardedBTree.View, ShardedBTree.Look, ShardedBTree.Objects, ShardedBTree.Grove, Get;
      tree.Clear();
      view := map[];
      grove := tree.Grove();
      Repr := Repr + (set i | 0 <= i < |tree.shards| :: tree.shards[i]);
      tree.ValidApart();
      Shows();
    }

    /** What the shards show between two keys, by key; where no overwrite was lost, the pairs of the map.
        An error for a reversed range. */
    method GetRange(lo: Key, hi: Key) returns (r: Option<seq<Entry>>)
      requires Formed()
      ensures r.None? <==> Less(hi, lo)
      ensures r.Some? ==> Rising(r.value) && multiset(r.value) == multiset(RangeIn(grove, lo, hi))
      ensures r.Some? && Intact() ==> Sorted(r.value) && ToMap(r.value) == Inlying(view, lo, hi)
    {
      hide ShardedBTree.Valid, ShardedBTree.Sound, ShardedBTree.View, ShardedBTree.Look, ShardedBTree.Objects, ShardedBTree.Grove, Get, Less, Sorted,
        ToMap, Rising, RangeIn;
      if Intact() { IntactView(); }
      var range := tree.GetRange(lo, hi);
      if range.InvalidRange? { return None; }
      r := Some(Zip(range.keys, range.values));
    }

    /** The entries in the order in which `ForEach` shows them to a callback that never refuses. */
    method Pairs() returns (all: seq<Entry>)
      requires Formed()
      ensures all == PairsIn(grove)
      ensures Intact() ==> Enumerates(all, view)
    {
      hide ShardedBTree.Valid, ShardedBTree.Sound, ShardedBTree.View, ShardedBTree.Look, ShardedBTree.Objects, ShardedBTree.Grove, Get, Enumerates,
        PairsIn;
      if Intact() { PairsEnumerate(); }
      var collect := (acc: seq<Entry>, e: Entry) => (acc + [e], true);
      var more;
      all, more := tree.ForEach(collect, []);
      Collected(collect, [], PairsIn(grove));
      assert [] + PairsIn(grove) == PairsIn(grove);
    }

    lemma PairsEnumerate()
      requires Intact()
      ensures Enumerates(PairsIn(grove), view)
    {
      hide ShardedBTree.Valid, ShardedBTree.Sound, ShardedBTree.View, ShardedBTree.Look, ShardedBTree.Objects, ShardedBTree.Grove, Enumerates, PairsIn;
      IntactView();
      tree.PairsListed(|tree.shards|);
    }
  }

  /** The pairs put into a map one after the other. */
  function PutAll(m: Store, keys: seq<Key>, values: seq<Value>): Store
    requires |keys| == |values|
  {
    if keys == [] then m
    else
      var n := |keys| - 1;
      PutAll(m, keys[..n], values[..n])[keys[n] := values[n]]
  }

  lemma PutNone(m: Store, keys: seq<Key>, values: seq<Value>)
    ensures PutAll(m, keys[..0], values[..0]) == m
  {
  }

  lemma PutNext(m: Store, keys: seq<Key>, values: seq<Value>, n: nat)
    requires |keys| == |values| && n < |keys|
    ensures PutAll(m, keys[..n + 1], values[..n + 1]) == PutAll(m, keys[..n], values[..n])[keys[n] := values[n]]
  {
    assert keys[..n + 1][..n] == keys[..n] && values[..n + 1][..n] == values[..n];
  }

  /** The shards after the insertions one after the other. */
  function PutEach(hash: Hash, f: Forest, keys: seq<Key>, values: seq<Value>): (g: Forest)
    requires |keys| == |values|
    ensures |g| == |f|
  {
    if keys == [] then f
    else
      var n := |keys| - 1;
      PutForest(hash, PutEach(hash, f, keys[..n], values[..n]), Entry(keys[n], values[n]))
  }

  /** None of the insertions meets its key in an inner node. */
  predicate AllKept(hash: Hash, f: Forest, keys: seq<Key>, values: seq<Value>)
    requires |keys| == |values|
  {
    keys == [] ||
      var n := |keys| - 1;
      AllKept(hash, f, keys[..n], values[..n]) && !HeldForest(hash, PutEach(hash, f, keys[..n], values[..n]), keys[n])
  }

  lemma EachNone(hash: Hash, f: Forest, keys: seq<Key>, values: seq<Value>)
    ensures PutEach(hash, f, keys[..0], values[..0]) == f && AllKept(hash, f, keys[..0], values[..0])
  {
  }

  lemma EachNext(hash: Hash, f: Forest, keys: seq<Key>, values: seq<Value>, n: nat)
    requires |keys| == |values| && n < |keys|
    ensures var g := PutEach(hash, f, keys[..n], values[..n]);
      && PutEach(hash, f, keys[..n + 1], values[..n + 1]) == PutForest(hash, g, Entry(keys[n], values[n]))
      && (AllKept(hash, f, keys[..n + 1], values[..n + 1]) <==> AllKept(hash, f, keys[..n], values[..n]) && !HeldForest(hash, g, keys[n]))
  {
    assert keys[..n + 1][..n] == keys[..n] && values[..n + 1][..n] == values[..n];
  }

  lemma {:induction false} Collected(collect: Scans.Callback<seq<Entry>>, acc: seq<Entry>, s: seq<Entry>)
    requires forall a, e :: collect(a, e) == (a + [e], true)
    ensures Scans.Walk(collect, acc, s) == (acc + s, true)
    decreases |s|
  {
    if s == [] {
      assert acc + s == acc;
    } else {
      Collected(collect, acc + [s[0]], s[1..]);
      assert acc + [s[0]] + s[1..] == acc + s;
    }
  }
}
