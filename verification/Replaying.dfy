/** What replaying a log means: a fold of its entries over a store, which is any value with
    deterministic operations, and over maps in particular. */
module Replaying {
  import opened Bytes
  import opened Fixed
  import opened LogCodec
  import opened LogMachine
  import opened Wal
  import opened Entries
  import opened Forests

  datatype Ops<!S> = Ops(insert: (S, Key, Value) -> S, remove: (S, Key) -> S, clear: S -> S)

  /** The switch of `recover`: unknown operations are passed over. */
  function Apply<S>(ops: Ops<S>, s: S, e: LogEntry): S {
    if e.op == OP_INSERT then ops.insert(s, e.key, e.value)
    else if e.op == OP_DELETE then ops.remove(s, e.key)
    else if e.op == OP_CLEAR then ops.clear(s)
    else s
  }

  function Fold<S>(ops: Ops<S>, s: S, es: seq<LogEntry>): S {
    if es == [] then s else Apply(ops, Fold(ops, s, es[..|es| - 1]), es[|es| - 1])
  }

  lemma FoldNext<S>(ops: Ops<S>, s: S, es: seq<LogEntry>, e: LogEntry)
    ensures Fold(ops, s, es + [e]) == Apply(ops, Fold(ops, s, es), e)
  {
    assert (es + [e])[..|es|] == es;
  }

  /** The entries whose operation is known. */
  function Known(es: seq<LogEntry>): seq<LogEntry> {
    if es == [] then []
    else
      var n := |es| - 1;
      Known(es[..n]) + if es[n].op in {1, 2, 3} then [es[n]] else []
  }

  /** Replay passes over entries with any other operation. */
  lemma {:induction false} UnknownSkipped<S>(ops: Ops<S>, s: S, es: seq<LogEntry>)
    ensures Fold(ops, s, es) == Fold(ops, s, Known(es))
  {
    if es != [] {
      var n := |es| - 1;
      UnknownSkipped(ops, s, es[..n]);
      if es[n].op in {1, 2, 3} {
        FoldNext(ops, s, Known(es[..n]), es[n]);
      } else {
        assert Known(es) == Known(es[..n]);
      }
    }
  }

  // ------------------------------------------------------------------ recovery

  /** `recover`: replay every readable entry into an empty tree. */
  method Recover<S>(ops: Ops<S>, empty: S, crc: Crc, image: seq<Byte>) returns (tree: S, count: nat)
    requires OpenImage(crc, image).Opened?
    ensures var es := OpenImage(crc, image).entries; tree == Fold(ops, empty, es) && count == |es|
  {
    hide Parse, Scan, FromLittle, Fold;
    tree, count := empty, 0;
    FoldNone(ops, empty);
    if image == [] { return; }
    var reader := new Reader(image, HEADER_SIZE);
    ghost var found := [];
    ghost var all := Scan(crc, image[HEADER_SIZE..]);
    while true
      invariant reader.data == image && reader.pos <= |image|
      invariant all == found + Scan(crc, image[reader.pos..])
      invariant tree == Fold(ops, empty, found) && count == |found|
      decreases |image| - reader.pos
    {
      ghost var at := reader.pos;
      ScanUnfold(crc, image[at..]);
      var e := reader.ReadEntry(crc);
      if e.None? {
        assert all == found;
        break;
      }
      assert image[at..][reader.pos - at..] == image[reader.pos..];
      assert found + ([e.value] + Scan(crc, image[reader.pos..])) == (found + [e.value]) + Scan(crc, image[reader.pos..]);
      FoldNext(ops, empty, found, e.value);
      found := found + [e.value];
      tree, count := Apply(ops, tree, e.value), count + 1;
    }
  }

  lemma FoldNone<S>(ops: Ops<S>, s: S)
    ensures Fold(ops, s, []) == s
  {
  }

  // ------------------------------------------------------- over the real shards

  /** The operations of the sharded tree on its shards as values. */
  function ForestOps(hash: Routing.Hash): Ops<Forest> {
    Ops(
      (f: Forest, k: Key, v: Value) => PutForest(hash, f, Entry(k, v)),
      (f: Forest, k: Key) => CutForest(hash, f, k),
      (f: Forest) => EmptyForest(|f|))
  }

  /** No logged insertion meets its key in an inner node. */
  ghost predicate KeptLog(hash: Routing.Hash, f: Forest, es: seq<LogEntry>) {
    es == [] ||
      var n := |es| - 1;
      KeptLog(hash, f, es[..n]) && (es[n].op == OP_INSERT ==> !HeldForest(hash, Fold(ForestOps(hash), f, es[..n]), es[n].key))
  }

  lemma KeptNext(hash: Routing.Hash, f: Forest, es: seq<LogEntry>, e: LogEntry)
    ensures KeptLog(hash, f, es + [e]) <==>
      KeptLog(hash, f, es) && (e.op == OP_INSERT ==> !HeldForest(hash, Fold(ForestOps(hash), f, es), e.key))
  {
    assert (es + [e])[..|es|] == es;
  }

  // ------------------------------------------------------------------ over maps

  function MapOps(): Ops<Routing.Store> {
    Ops((m: Routing.Store, k, v) => m[k := v], (m: Routing.Store, k) => m - {k}, (m: Routing.Store) => map[])
  }

  /** The same operations on maps split over shards. */
  function ShardOps(hash: Routing.Hash): Ops<seq<Routing.Store>> {
    Ops(
      (ms: seq<Routing.Store>, k: Key, v: Value) =>
        if |ms| == 0 then ms else var i := Routing.Route(hash, |ms|, k); ms[i := ms[i][k := v]],
      (ms: seq<Routing.Store>, k: Key) =>
        if |ms| == 0 then ms else var i := Routing.Route(hash, |ms|, k); ms[i := ms[i] - {k}],
      (ms: seq<Routing.Store>) => EmptyShards(|ms|))
  }

  function EmptyShards(n: nat): (ms: seq<Routing.Store>)
    ensures |ms| == n && forall i | 0 <= i < n :: ms[i] == map[]
  {
    seq(n, i => map[])
  }

  lemma EmptyMerged(hash: Routing.Hash, n: nat)
    requires n > 0
    ensures Routing.Routed(hash, EmptyShards(n)) && Routing.Merged(hash, EmptyShards(n)) == map[]
  {
  }

  /** One replayed entry does to the shards what it does to the map they stand for. */
  lemma ShardApply(hash: Routing.Hash, ms: seq<Routing.Store>, e: LogEntry)
    requires Routing.Routed(hash, ms)
    ensures var ns := Apply(ShardOps(hash), ms, e);
      && |ns| == |ms| && Routing.Routed(hash, ns)
      && Routing.Merged(hash, ns) == Apply(MapOps(), Routing.Merged(hash, ms), e)
  {
    hide Routing.Merged, Routing.Routed, Routing.Route, EmptyShards;
    Routing.RoutedSize(hash, ms);
    if e.op == OP_INSERT {
      Routing.MergedPut(hash, ms, e.key, e.value);
    } else if e.op == OP_DELETE {
      Routing.MergedRemove(hash, ms, e.key);
    } else if e.op == OP_CLEAR {
      EmptyMerged(hash, |ms|);
    }
  }

  /** Replaying into any number of shards gives the shards of the map the log stands for. */
  lemma {:induction false} ReplayAnyShards(hash: Routing.Hash, n: nat, es: seq<LogEntry>)
    requires n > 0
    ensures var ms := Fold(ShardOps(hash), EmptyShards(n), es);
      && |ms| == n && Routing.Routed(hash, ms)
      && Routing.Merged(hash, ms) == Fold(MapOps(), map[], es)
  {
    hide Apply, EmptyShards, Routing.Merged, Routing.Routed;
    if es == [] {
      EmptyMerged(hash, n);
    } else {
      var p := es[..|es| - 1];
      ReplayAnyShards(hash, n, p);
      ShardApply(hash, Fold(ShardOps(hash), EmptyShards(n), p), es[|es| - 1]);
    }
  }

  /** An entry that decides the fate of key `k`, whatever was there before. */
  predicate Settles(e: LogEntry, k: Key) {
    e.op == OP_CLEAR || ((e.op == OP_INSERT || e.op == OP_DELETE) && e.key == k)
  }

  /** Replaying over an old state and over nothing agree on `k` exactly when some entry settles it
      or the old state does not have it. */
  lemma {:induction false} FoldForgets(m: Routing.Store, es: seq<LogEntry>, k: Key)
    ensures Routing.Get(Fold(MapOps(), m, es), k) == Routing.Get(Fold(MapOps(), map[], es), k)
      <==> k !in m || exists i | 0 <= i < |es| :: Settles(es[i], k)
    ensures (forall i | 0 <= i < |es| :: !Settles(es[i], k)) ==>
      Routing.Get(Fold(MapOps(), m, es), k) == Routing.Get(m, k) && k !in Fold(MapOps(), map[], es)
  {
    if es != [] {
      var n := |es| - 1;
      FoldForgets(m, es[..n], k);
      assert forall i | 0 <= i < n :: es[..n][i] == es[i];
    }
  }

  /** After a checkpoint the dropped entries are gone: reopening restores the live map if and only
      if every key the tree held at the checkpoint has since been inserted, deleted or cleared. */
  lemma CheckpointLoses(base: Routing.Store, es: seq<LogEntry>)
    ensures Fold(MapOps(), map[], es) == Fold(MapOps(), base, es)
      <==> forall k | k in base :: exists i | 0 <= i < |es| :: Settles(es[i], k)
  {
    hide Fold, Settles;
    var a, b := Fold(MapOps(), base, es), Fold(MapOps(), map[], es);
    forall k ensures Routing.Get(a, k) == Routing.Get(b, k) <==> k !in base || exists i | 0 <= i < |es| :: Settles(es[i], k) {
      FoldForgets(base, es, k);
    }
    if forall k | k in base :: exists i | 0 <= i < |es| :: Settles(es[i], k) {
      Routing.SameMap(a, b);
    }
  }

  /** A pair, a checkpoint, a reopening: the pair is gone. */
  lemma CheckpointExample(key: Key, value: Value)
    ensures Fold(MapOps(), map[key := value], []) == map[key := value] && Fold(MapOps(), map[], []) == map[]
    ensures Fold(MapOps(), map[], []) != Fold(MapOps(), map[key := value], [])
  {
    CheckpointLoses(map[key := value], []);
    assert key in map[key := value];
  }
}
