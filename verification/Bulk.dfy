/** `ShardedBTree.BulkInsert`: one worker per shard, run in any interleaving.

    A shard is any value with a deterministic insertion, so the results hold of the B-tree as it
    is, whatever its insertion does with keys that are already there. */
module Bulk {
  import opened Bytes
  import opened Entries
  import opened Shapes
  import opened Routing
  import opened Forests
  import opened Sharded
  import opened Tables

  type Ins<!S> = (S, Entry) -> S

  /** Inserting `es` one by one into one shard. */
  function FoldIns<S>(ins: Ins<S>, s: S, es: seq<Entry>): S {
    if es == [] then s else ins(FoldIns(ins, s, es[..|es| - 1]), es[|es| - 1])
  }

  /** Inserting `es` one by one, in argument order, each into its shard. */
  function InsertAll<S>(ins: Ins<S>, hash: Hash, shards: seq<S>, es: seq<Entry>): (r: seq<S>)
    requires |shards| > 0
    ensures |r| == |shards|
  {
    if es == [] then shards
    else
      var p, e := InsertAll(ins, hash, shards, es[..|es| - 1]), es[|es| - 1];
      var i := Route(hash, |shards|, e.key);
      p[i := ins(p[i], e)]
  }

  /** The entries of `es` that go to shard `i`, in argument order. */
  function Group(hash: Hash, n: nat, es: seq<Entry>, i: nat): seq<Entry>
    requires n > 0
  {
    if es == [] then []
    else
      var p, e := Group(hash, n, es[..|es| - 1], i), es[|es| - 1];
      if Route(hash, n, e.key) == i then p + [e] else p
  }

  /** The grouping loop: the positions in `es` that go to each shard, for the shards that get any. */
  method BuildGroups(hash: Hash, n: nat, es: seq<Entry>) returns (groups: map<nat, seq<nat>>)
    requires n > 0
    ensures forall i :: i in groups <==> Group(hash, n, es, i) != []
    ensures forall i | i in groups :: Below(groups[i], |es|) && Picked(es, groups[i]) == Group(hash, n, es, i)
  {
    hide Route;
    groups := map[];
    for k := 0 to |es|
      invariant forall i :: i in groups <==> Group(hash, n, es[..k], i) != []
      invariant forall i | i in groups :: Below(groups[i], k) && Picked(es, groups[i]) == Group(hash, n, es[..k], i)
    {
      var i := Route(hash, n, es[k].key);
      assert es[..k + 1][..k] == es[..k];
      var before := if i in groups then groups[i] else [];
      PickedNext(es, before, k);
      groups := groups[i := before + [k]];
    }
    assert es[..|es|] == es;
  }

  ghost predicate Below(js: seq<nat>, n: nat) {
    forall i | 0 <= i < |js| :: js[i] < n
  }

  ghost function Picked(es: seq<Entry>, js: seq<nat>): seq<Entry>
    requires Below(js, |es|)
  {
    seq(|js|, i requires 0 <= i < |js| => es[js[i]])
  }

  lemma PickedNext(es: seq<Entry>, js: seq<nat>, k: nat)
    requires k < |es| && Below(js, |es|)
    ensures Picked(es, js + [k]) == Picked(es, js) + [es[k]]
  {
  }

  /** Each shard only ever sees its own group. */
  lemma {:induction false} InsertAllByGroup<S>(ins: Ins<S>, hash: Hash, shards: seq<S>, es: seq<Entry>, i: nat)
    requires i < |shards|
    ensures InsertAll(ins, hash, shards, es)[i] == FoldIns(ins, shards[i], Group(hash, |shards|, es, i))
  {
    hide Route;
    if es != [] {
      var p, e := es[..|es| - 1], es[|es| - 1];
      InsertAllByGroup(ins, hash, shards, p, i);
      var g := Group(hash, |shards|, p, i);
      if Route(hash, |shards|, e.key) == i {
        assert (g + [e])[..|g|] == g;
      }
    }
  }

  // ------------------------------------------------------------- the workers

  /** The shards, and how far each worker is in its group. */
  datatype State<S> = State(shards: seq<S>, done: seq<nat>)

  /** Worker `i` can insert the next entry of its group. */
  ghost predicate Enabled<S>(hash: Hash, es: seq<Entry>, st: State<S>, i: nat) {
    && |st.shards| == |st.done| > 0
    && i < |st.shards| && st.done[i] < |Group(hash, |st.shards|, es, i)|
  }

  ghost function Step<S>(ins: Ins<S>, hash: Hash, es: seq<Entry>, st: State<S>, i: nat): State<S>
    requires Enabled(hash, es, st, i)
  {
    var e := Group(hash, |st.shards|, es, i)[st.done[i]];
    State(st.shards[i := ins(st.shards[i], e)], st.done[i := st.done[i] + 1])
  }

  /** A run: the workers that move, one after another, in any order. */
  ghost predicate Run<S>(ins: Ins<S>, hash: Hash, es: seq<Entry>, states: seq<State<S>>, moves: seq<nat>) {
    && |states| == |moves| + 1
    && forall n | 0 <= n < |moves| ::
         Enabled(hash, es, states[n], moves[n]) && states[n + 1] == Step(ins, hash, es, states[n], moves[n])
  }

  ghost predicate Started<S>(shards: seq<S>, st: State<S>) {
    st.shards == shards && st.done == seq(|shards|, i => 0)
  }

  ghost predicate Finished<S>(hash: Hash, es: seq<Entry>, st: State<S>) {
    && |st.shards| == |st.done| > 0
    && forall i | 0 <= i < |st.shards| :: st.done[i] == |Group(hash, |st.shards|, es, i)|
  }

  /** Every shard holds its first entries, inserted in argument order. */
  ghost predicate Inv<S>(ins: Ins<S>, hash: Hash, shards: seq<S>, es: seq<Entry>, st: State<S>) {
    && |st.shards| == |st.done| == |shards| > 0
    && forall i | 0 <= i < |shards| ::
         && st.done[i] <= |Group(hash, |shards|, es, i)|
         && st.shards[i] == FoldIns(ins, shards[i], Group(hash, |shards|, es, i)[..st.done[i]])
  }

  lemma StepInv<S>(ins: Ins<S>, hash: Hash, shards: seq<S>, es: seq<Entry>, st: State<S>, i: nat)
    requires Inv(ins, hash, shards, es, st) && Enabled(hash, es, st, i)
    ensures Inv(ins, hash, shards, es, Step(ins, hash, es, st, i))
  {
    hide Group;
    var g, d := Group(hash, |shards|, es, i), st.done[i];
    assert g[..d + 1][..d] == g[..d];
  }

  lemma {:induction false} RunInv<S>(ins: Ins<S>, hash: Hash, shards: seq<S>, es: seq<Entry>, states: seq<State<S>>, moves: seq<nat>, n: nat)
    requires Run(ins, hash, es, states, moves) && n < |states|
    requires |shards| > 0 && Started(shards, states[0])
    ensures Inv(ins, hash, shards, es, states[n])
  {
    hide Step, Group;
    if n == 0 {
      assert forall i | 0 <= i < |shards| :: Group(hash, |shards|, es, i)[..0] == [];
    } else {
      RunInv(ins, hash, shards, es, states, moves, n - 1);
      StepInv(ins, hash, shards, es, states[n - 1], moves[n - 1]);
    }
  }

  /** Every interleaving of the workers ends where one-by-one insertion ends. */
  lemma AnyInterleaving<S>(ins: Ins<S>, hash: Hash, shards: seq<S>, es: seq<Entry>, states: seq<State<S>>, moves: seq<nat>)
    requires Run(ins, hash, es, states, moves)
    requires |shards| > 0 && Started(shards, states[0]) && Finished(hash, es, states[|moves|])
    ensures states[|moves|].shards == InsertAll(ins, hash, shards, es)
  {
    hide Step, Group, FoldIns, InsertAll;
    var last := states[|moves|];
    RunInv(ins, hash, shards, es, states, moves, |moves|);
    forall i | 0 <= i < |shards| ensures last.shards[i] == InsertAll(ins, hash, shards, es)[i] {
      var g := Group(hash, |shards|, es, i);
      assert g[..|g|] == g;
      InsertAllByGroup(ins, hash, shards, es, i);
    }
  }

  // -------------------------------------------------------------- over maps

  function PutEntry(m: Store, e: Entry): Store {
    m[e.key := e.value]
  }

  /** On maps, bulk insertion into the shards is bulk insertion into the one map they stand for. */
  lemma {:induction false} InsertAllMerged(hash: Hash, ms: seq<Store>, es: seq<Entry>)
    requires Routed(hash, ms)
    ensures Routed(hash, InsertAll(PutEntry, hash, ms, es))
    ensures Merged(hash, InsertAll(PutEntry, hash, ms, es)) == FoldIns(PutEntry, Merged(hash, ms), es)
  {
    hide Route, Merged;
    RoutedSize(hash, ms);
    if es != [] {
      var p, e := es[..|es| - 1], es[|es| - 1];
      InsertAllMerged(hash, ms, p);
      MergedPut(hash, InsertAll(PutEntry, hash, ms, p), e.key, e.value);
    }
  }

  lemma ZipLess(keys: seq<Key>, values: seq<Value>)
    requires |keys| == |values| > 0
    ensures var n := |keys| - 1;
      Zip(keys, values)[..n] == Zip(keys[..n], values[..n]) && Zip(keys, values)[n] == Entry(keys[n], values[n])
  {
  }

  /** So the last of the pairs with a key is the one that stays. */
  lemma {:induction false} FoldPuts(m: Store, keys: seq<Key>, values: seq<Value>)
    requires |keys| == |values|
    ensures FoldIns(PutEntry, m, Zip(keys, values)) == PutAll(m, keys, values)
  {
    if keys != [] {
      var n := |keys| - 1;
      ZipLess(keys, values);
      FoldPuts(m, keys[..n], values[..n]);
    }
  }

  // ------------------------------------------------------- over the real shards

  function PutShape(s: Option<Shape>, e: Entry): Option<Shape> {
    Some(InsertShape(s, e))
  }

  lemma {:induction false} InsertAllPuts(hash: Hash, f: Forest, keys: seq<Key>, values: seq<Value>)
    requires |keys| == |values| && f != []
    ensures InsertAll(PutShape, hash, f, Zip(keys, values)) == PutEach(hash, f, keys, values)
  {
    hide InsertShape;
    if keys != [] {
      var n := |keys| - 1;
      ZipLess(keys, values);
      InsertAllPuts(hash, f, keys[..n], values[..n]);
    }
  }

  /** Every interleaving of the workers of `BulkInsert` leaves the shards, to the last node, that the
      insertions one after the other leave. */
  lemma BulkIsSequential(hash: Hash, f: Forest, keys: seq<Key>, values: seq<Value>, states: seq<State<Option<Shape>>>, moves: seq<nat>)
    requires |keys| == |values| && f != [] && Run(PutShape, hash, Zip(keys, values), states, moves)
    requires Started(f, states[0]) && Finished(hash, Zip(keys, values), states[|moves|])
    ensures states[|moves|].shards == PutEach(hash, f, keys, values)
  {
    hide Run, Finished, InsertAll, PutEach;
    AnyInterleaving(PutShape, hash, f, Zip(keys, values), states, moves);
    InsertAllPuts(hash, f, keys, values);
  }
}
