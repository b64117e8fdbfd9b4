/** The sharded tree as a value: one shape a shard. */
module Forests {
  import opened Bytes
  import opened Entries
  import opened Shapes
  import opened Routing

  type Forest = seq<Option<Shape>>

  function EmptyForest(n: nat): (f: Forest)
    ensures |f| == n && forall i | 0 <= i < n :: f[i] == None
  {
    seq(n, i => None)
  }

  function PutForest(hash: Hash, f: Forest, e: Entry): (g: Forest)
    ensures |g| == |f|
  {
    if f == [] then f else var i := Route(hash, |f|, e.key); f[i := Some(InsertShape(f[i], e))]
  }

  function CutForest(hash: Hash, f: Forest, key: Key): (g: Forest)
    ensures |g| == |f|
  {
    if f == [] then f else var i := Route(hash, |f|, key); f[i := DeleteShape(f[i], key)]
  }

  function FindForest(hash: Hash, f: Forest, key: Key): Option<Value> {
    if f == [] then None else FindOpt(f[Route(hash, |f|, key)], key)
  }

  /** An inner node of the key's shard holds the key. */
  predicate HeldForest(hash: Hash, f: Forest, key: Key) {
    f != [] && HeldOpt(f[Route(hash, |f|, key)], key)
  }

  /** The pairs in the order of `ForEach`: shard by shard, each by key. */
  ghost function PairsIn(f: Forest): seq<Entry> {
    if f == [] then [] else PairsIn(f[..|f| - 1]) + PairsOpt(f[|f| - 1])
  }

  lemma PairsNone(f: Forest)
    ensures PairsIn(f[..0]) == []
  {
  }

  lemma PairsNext(f: Forest, i: nat)
    requires i < |f|
    ensures PairsIn(f[..i + 1]) == PairsIn(f[..i]) + PairsOpt(f[i])
  {
    assert f[..i + 1][..i] == f[..i];
  }

  /** What one shard more or less holds. */
  lemma {:induction false} PairsPut(f: Forest, i: nat, x: Option<Shape>)
    requires i < |f|
    ensures |PairsIn(f[i := x])| == |PairsIn(f)| - |PairsOpt(f[i])| + |PairsOpt(x)|
  {
    hide PairsOpt;
    var n := |f| - 1;
    if i == n {
      assert f[i := x][..n] == f[..n];
    } else {
      PairsPut(f[..n], i, x);
      assert f[i := x][..n] == f[..n][i := x];
    }
  }

  /** What the range queries of all shards collect. */
  function RangeIn(f: Forest, lo: Key, hi: Key): seq<Entry> {
    if f == [] then [] else RangeIn(f[..|f| - 1], lo, hi) + RangeOpt(f[|f| - 1], lo, hi)
  }

  lemma RangeNone(f: Forest, lo: Key, hi: Key)
    ensures RangeIn(f[..0], lo, hi) == []
  {
  }

  lemma RangeNext(f: Forest, lo: Key, hi: Key, i: nat)
    requires i < |f|
    ensures RangeIn(f[..i + 1], lo, hi) == RangeIn(f[..i], lo, hi) + RangeOpt(f[i], lo, hi)
  {
    hide RangeOpt;
    assert f[..i + 1][..i] == f[..i];
  }

  /** The keys deleted one after the other. */
  function CutEach(hash: Hash, f: Forest, keys: seq<Key>): (g: Forest)
    ensures |g| == |f|
  {
    if keys == [] then f else CutForest(hash, CutEach(hash, f, keys[..|keys| - 1]), keys[|keys| - 1])
  }

  lemma CutNone(hash: Hash, f: Forest, keys: seq<Key>)
    ensures CutEach(hash, f, keys[..0]) == f
  {
  }

  lemma CutNext(hash: Hash, f: Forest, keys: seq<Key>, i: nat)
    requires i < |keys|
    ensures CutEach(hash, f, keys[..i + 1]) == CutForest(hash, CutEach(hash, f, keys[..i]), keys[i])
  {
    hide CutForest;
    assert keys[..i + 1][..i] == keys[..i];
  }

  /** The pairs come shard by shard, the first shard first. */
  lemma {:induction false} PairsConcat(f: Forest, g: Forest)
    ensures PairsIn(f + g) == PairsIn(f) + PairsIn(g)
    ensures |g| == 1 ==> PairsIn(g) == PairsOpt(g[0])
  {
    hide PairsOpt;
    if g == [] {
      assert f + g == f;
    } else {
      var n := |g| - 1;
      PairsConcat(f, g[..n]);
      assert (f + g)[..|f + g| - 1] == f + g[..n] && (f + g)[|f + g| - 1] == g[n];
    }
  }

  /** The keys are deleted in the order of the list. */
  lemma {:induction false} CutConcat(hash: Hash, f: Forest, a: seq<Key>, b: seq<Key>)
    ensures CutEach(hash, f, a + b) == CutEach(hash, CutEach(hash, f, a), b)
    ensures |b| == 1 ==> CutEach(hash, f, b) == CutForest(hash, f, b[0])
  {
    hide CutForest;
    if b == [] {
      assert a + b == a;
    } else {
      var n := |b| - 1;
      CutConcat(hash, f, a, b[..n]);
      assert (a + b)[..|a + b| - 1] == a + b[..n] && (a + b)[|a + b| - 1] == b[n];
    }
  }
}
