/** Which keys a table would lose the overwrite of, and what that does to a log that is replayed into
    another number of shards. */
module Resharding {
  import opened Bytes
  import opened Entries
  import opened Nodes
  import opened Btrees
  import opened Routing
  import opened Forests
  import opened Sharded
  import opened Searching
  import opened Tables

  ghost function Smaller(keys: set<Key>, key: Key): set<Key> {
    set k | k in keys && Less(k, key)
  }

  /** The keys of a table that share the shard of `key`. */
  ghost function Sharing(t: Table, key: Key): set<Key>
    reads t
    requires t.grove != []
  {
    set k | k in t.view && Route(t.tree.hash, |t.grove|, k) == Route(t.tree.hash, |t.grove|, key)
  }

  lemma SmallerAt(s: seq<Entry>, i: nat)
    requires Sorted(s) && i < |s|
    ensures |Smaller(ToMap(s).Keys, s[i].key)| == i
  {
    hide Less, ToMap, Sorted, Smaller;
    var p := s[..i];
    SortedPrefix(s, i);
    ToMapSize(p);
    forall k ensures k in Smaller(ToMap(s).Keys, s[i].key) <==> k in ToMap(p) { SmallerIs(s, i, k); }
    assert Smaller(ToMap(s).Keys, s[i].key) == ToMap(p).Keys;
    assert |ToMap(p)| == |ToMap(p).Keys|;
  }

  lemma SortedPrefix(s: seq<Entry>, i: nat)
    requires Sorted(s) && i <= |s|
    ensures Sorted(s[..i])
  {
    hide Less;
  }

  lemma SmallerIs(s: seq<Entry>, i: nat, k: Key)
    requires Sorted(s) && i < |s|
    ensures k in Smaller(ToMap(s).Keys, s[i].key) <==> k in ToMap(s[..i])
  {
    hide Less, ToMap;
    ToMapKeys(s);
    ToMapKeys(s[..i]);
    if j :| 0 <= j < |s| && s[j].key == k {
      LessTotal(s[i].key, k);
      assert j < i ==> s[..i][j] == s[j];
    }
  }

  /** The shard of `key` holds the pairs that share it. */
  lemma ShardHolds(t: Table, key: Key) returns (b: Btree)
    requires t.Intact()
    ensures t.grove != [] && b in t.tree.shards && b.Valid() && b.Ordered()
    ensures b.View().Keys == Sharing(t, key) && (forall k | k in b.View() :: b.View()[k] == t.view[k])
    ensures t.Inner(key) <==> b.Inside(key)
  {
    hide Route, Btree.Valid, Btree.Contents, Btree.Inside, Btree.Form, ShardedBTree.Sound, ShardedBTree.Look, HeldForest;
    t.IntactView();
    t.InnerInside(key);
    var tree := t.tree;
    var ms, n := tree.Maps(), |tree.shards|;
    b := tree.shards[Route(tree.hash, n, key)];
    var i := Route(tree.hash, n, key);
    assert ms[i] == b.View();
    forall k ensures k in b.View() <==> k in Sharing(t, key) {
      MergedPairs(tree.hash, ms, k);
      if k in Sharing(t, key) {
        var j :| 0 <= j < n && k in ms[j];
        assert j == i;
      }
    }
    forall k | k in b.View() ensures b.View()[k] == t.view[k] { MergedPairs(tree.hash, ms, k); }
  }

  /** A key that shares its shard with at most three others is always overwritten. */
  lemma FewInner(t: Table, key: Key)
    requires t.Intact() && t.grove != [] && |Sharing(t, key)| <= MAX_KEYS
    ensures !t.Inner(key)
  {
    hide Table.Intact, Table.Inner, HeldInside, Sorted, ToMap, Matches, Distinct;
    var b := ShardHolds(t, key);
    ToMapSize(b.Contents());
    assert |b.View()| == |b.View().Keys|;
    if b.model.Some? { FewInside(b.model.value, b.height, key); }
  }

  lemma FiveMiddle(b: Btree, key: Key)
    requires b.Valid() && b.Ordered() && |b.View()| == 5 && key in b.View()
    ensures b.Inside(key) <==> |Smaller(b.View().Keys, key)| == 2
  {
    hide Less, ToMap, Sorted, Smaller, Matches, Distinct, HeldInside, InOrder;
    var s := b.Contents();
    ToMapSize(s);
    ToMapKeys(s);
    var i :| 0 <= i < |s| && s[i].key == key;
    SmallerAt(s, i);
    FiveInside(b.model.value, b.height, key);
    SortedKeys(s, i, 2);
  }

  /** Of five keys in a shard, the overwrite of the middle one is lost and no other. */
  lemma FiveInner(t: Table, key: Key)
    requires t.Intact() && t.grove != [] && key in t.view && |Sharing(t, key)| == 5
    ensures t.Inner(key) <==> |Smaller(Sharing(t, key), key)| == 2
  {
    hide Table.Intact, Table.Inner, Less, Btree.Valid, Btree.Ordered, Btree.View, Btree.Inside;
    var b := ShardHolds(t, key);
    assert |b.View()| == |b.View().Keys|;
    assert key in b.View();
    FiveMiddle(b, key);
  }

  lemma SortedKeys(s: seq<Entry>, i: nat, j: nat)
    requires Sorted(s) && i < |s| && j < |s|
    ensures s[i].key == s[j].key <==> i == j
  {
    hide Less;
    LessOrder();
  }

  // ------------------------------------------------------------------ examples

  const FIVE: seq<Key> := [[1], [2], [4], [5], [3]]

  function Same(v: Value): seq<Value> {
    [v, v, v, v, v]
  }

  lemma FivePut(v: Value)
    ensures PutAll(map[], FIVE, Same(v)) == map[[1] := v, [2] := v, [4] := v, [5] := v, [3] := v]
  {
    hide PutAll;
    PutNone(map[], FIVE, Same(v));
    PutNext(map[], FIVE, Same(v), 0);
    PutNext(map[], FIVE, Same(v), 1);
    PutNext(map[], FIVE, Same(v), 2);
    PutNext(map[], FIVE, Same(v), 3);
    PutNext(map[], FIVE, Same(v), 4);
    assert FIVE[..5] == FIVE && Same(v)[..5] == Same(v);
  }

  /** A table of some shard count with five pairs. */
  method Filled(numShards: nat, hash: Hash, v: Value) returns (t: Table)
    requires numShards > 0
    ensures t.Formed() && t.Sound() && t.Intact() && fresh(t.Repr) && t.view == map[[1] := v, [2] := v, [4] := v, [5] := v, [3] := v]
    ensures t.tree.hash == hash && |t.grove| == numShards
  {
    hide Table.Formed, Table.Sound, Table.Intact, PutAll;
    t := new Table(numShards, 1, hash);
    FivePut(v);
    t.InsertEach(FIVE, Same(v));
  }

  /** In one shard, the middle of the five keys is the one whose overwrite is lost. */
  lemma MiddleOfFive(t: Table, key: Key)
    requires t.Intact() && |t.grove| == 1 && t.view.Keys == {[1], [2], [4], [5], [3]} && key in t.view
    ensures t.Inner(key) <==> key == [3]
  {
    hide Table.Intact, Table.Inner, Less, Smaller;
    assert Sharing(t, key) == t.view.Keys == {[1], [2], [4], [5], [3]};
    FiveInner(t, key);
    MiddleCount(key[0]);
    assert key == [key[0]];
  }

  lemma SingleLess(a: Byte, b: Byte)
    ensures Less([a], [b]) <==> a < b
  {
  }

  lemma MiddleCount(b: Byte)
    requires 1 <= b <= 5
    ensures |Smaller({[1], [2], [4], [5], [3]}, [b])| == 2 <==> b == 3
  {
    hide Less;
    forall a: Byte { SingleLess(a, b); }
    var below := Smaller({[1], [2], [4], [5], [3]}, [b]);
    if b == 1 {
      assert below == {};
    } else if b == 2 {
      var one: set<Key> := {[1]};
      assert below == one && |one| == 1;
    } else if b == 3 {
      assert below == {[1], [2]};
    } else {
      assert {[1], [2], [3]} <= below;
      assert |{[1], [2], [3]} + (below - {[1], [2], [3]})| >= 3;
      assert below == {[1], [2], [3]} + (below - {[1], [2], [3]});
    }
  }

  function ByFirst(k: Key): nat {
    if k == [] then 0 else k[0] as nat
  }

  /** The same six insertions, into one shard and into six: the two tables show different values for
      the key that was inserted twice. */
  method SameInsertsTwoShardCounts() returns (one: Table, six: Table)
    ensures one.Sound() && six.Sound() && [3] in one.view && [3] in six.view
    ensures one.view[[3]] == [0] && six.view[[3]] == [1]
  {
    hide Table.Formed, Table.Sound, Table.Intact, Table.Inner, PutForest;
    one := Filled(1, ByFirst, [0]);
    MiddleOfFive(one, [3]);
    one.Insert([3], [1]);
    six := Filled(6, ByFirst, [0]);
    assert Sharing(six, [3]) == {[3]};
    FewInner(six, [3]);
    six.Insert([3], [1]);
  }

  /** The middle key of five goes on showing the old value. */
  method InsertAgain(t: Table, key: Key)
    requires t.Formed() && t.Sound() && t.Inner([3]) && [3] in t.view && t.view[[3]] == [0]
    modifies t.Repr
    ensures t.Formed() && t.Sound() && t.Inner([3]) && [3] in t.view && t.view[[3]] == [0] && fresh(t.Repr - old(t.Repr))
  {
    hide Table.Formed, Table.Sound, Table.Intact, Table.Inner, PutForest;
    t.Insert(key, [1]);
  }

  /** Five pairs, a checkpoint, and all five inserted again: every key is settled by the new log, and
      yet the live table keeps an old value that the log does not have. */
  method SettledYetDifferent() returns (live: Table, reopened: Table)
    ensures live.Sound() && reopened.Sound() && [3] in live.view && [3] in reopened.view
    ensures live.view[[3]] == [0] && reopened.view[[3]] == [1]
  {
    hide Table.Formed, Table.Sound, Table.Intact, Table.Inner;
    live := Filled(1, ByFirst, [0]);
    MiddleOfFive(live, [3]);
    InsertAgain(live, [1]);
    InsertAgain(live, [2]);
    InsertAgain(live, [4]);
    InsertAgain(live, [5]);
    InsertAgain(live, [3]);
    reopened := Filled(1, ByFirst, [1]);
  }
}
