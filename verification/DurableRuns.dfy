/** Runs of the durable tree: its calls, each one logging and then applying, interleaved with the
    steps of the log, and a crash at any point. */
module DurableRuns {
  import opened Bytes
  import opened Fixed
  import opened LogCodec
  import opened LogMachine
  import opened Replaying

  /** A logged change without its sequence number. */
  datatype Item = Item(op: Byte, key: Key, value: Value)

  /** `Insert`, `Delete` and `Clear` log one item; `BulkInsert` logs one for each pair. */
  datatype Call = Single(item: Item) | Batch(items: seq<Item>)

  function Items(call: Call): seq<Item> {
    match call
    case Single(item) => [item]
    case Batch(items) => items
  }

  /** `calls` have returned, `history` are the trees before, between and after them; `current` is the
      call in progress, of which `written` items have been handed to the log. */
  datatype Db<S> = Db(log: Log, calls: seq<Call>, history: seq<S>, current: Option<Call>, written: nat)

  datatype Move =
    | Begin(call: Call)
    | Step(action: Action)  // a step of the log
    | Finish                // the tree is changed and the call returns

  function ItemOf(e: LogEntry): Item {
    Item(e.op, e.key, e.value)
  }

  function ItemsOf(es: seq<LogEntry>): seq<Item> {
    seq(|es|, i requires 0 <= i < |es| => ItemOf(es[i]))
  }

  function Replayed<S>(ops: Ops<S>, s: S, items: seq<Item>): S {
    if items == [] then s
    else
      var n := |items| - 1;
      Apply(ops, Replayed(ops, s, items[..n]), LogEntry(0, items[n].op, items[n].key, items[n].value))
  }

  function Flat(calls: seq<Call>): seq<Item> {
    if calls == [] then [] else Flat(calls[..|calls| - 1]) + Items(calls[|calls| - 1])
  }

  ghost predicate Loggable(call: Call) {
    forall i | 0 <= i < |Items(call)| :: |Items(call)[i].key| < TWO32 && |Items(call)[i].value| < TWO32
  }

  /** A batch syncs the log after its last item; the log writes what the call in progress has next. */
  ghost predicate Can<S>(db: Db<S>, m: Move) {
    match m
    case Begin(call) => db.current.None? && db.log.phase.Idle? && Loggable(call)
    case Finish =>
      && db.current.Some? && db.log.phase.Idle? && db.written == |Items(db.current.value)| && db.history != []
      && (db.current.value.Batch? ==> db.log.synced == |db.log.stream|)
    case Step(a) =>
      && Enabled(db.log, a)
      && (a.Write? ==>
        && db.current.Some? && db.written < |Items(db.current.value)|
        && Items(db.current.value)[db.written] == Item(a.op, a.key, a.value))
  }

  ghost function Next<S>(crc: Crc, ops: Ops<S>, db: Db<S>, m: Move): Db<S>
    requires Can(db, m)
  {
    match m
    case Begin(call) => db.(current := Some(call), written := 0)
    case Finish =>
      var tree := Replayed(ops, db.history[|db.history| - 1], Items(db.current.value));
      db.(calls := db.calls + [db.current.value], history := db.history + [tree], current := None, written := 0)
    case Step(a) => db.(log := LogMachine.Step(crc, db.log, a), written := if a.Write? then db.written + 1 else db.written)
  }

  ghost function Opening<S>(empty: S, mode: SyncMode, batchSize: nat): Db<S> {
    Db(Fresh(mode, batchSize), [], [empty], None, 0)
  }

  // ------------------------------------------------------------- the invariant

  /** What the call in progress has handed to the log. */
  ghost function Pending<S>(db: Db<S>): seq<Item> {
    if db.current.Some? && db.written <= |Items(db.current.value)| then Items(db.current.value)[..db.written] else []
  }

  ghost predicate Accounted<S>(crc: Crc, ops: Ops<S>, empty: S, db: Db<S>) {
    && Inv(crc, db.log)
    && ItemsOf(db.log.started) == Flat(db.calls) + Pending(db)
    && (if db.current.Some? then db.written <= |Items(db.current.value)| && Loggable(db.current.value) else db.written == 0)
    && (!db.log.phase.Idle? ==> db.written > 0)
    && |db.history| == |db.calls| + 1
    && (forall i | 0 <= i <= |db.calls| :: db.history[i] == Replayed(ops, empty, Flat(db.calls[..i])))
    && (forall b | 0 <= b < |db.calls| && db.calls[b].Batch? :: Durable(crc, db.log, |Flat(db.calls[..b + 1])|))
  }

  lemma {:induction false} ReplayedConcat<S>(ops: Ops<S>, s: S, a: seq<Item>, b: seq<Item>)
    ensures Replayed(ops, s, a + b) == Replayed(ops, Replayed(ops, s, a), b)
  {
    if b == [] {
      assert a + b == a;
    } else {
      var n := |b| - 1;
      ReplayedConcat(ops, s, a, b[..n]);
      assert (a + b)[..|a| + n] == a + b[..n];
    }
  }

  lemma {:induction false} FoldIsReplayed<S>(ops: Ops<S>, s: S, es: seq<LogEntry>)
    ensures Fold(ops, s, es) == Replayed(ops, s, ItemsOf(es))
  {
    if es != [] {
      var n := |es| - 1;
      FoldIsReplayed(ops, s, es[..n]);
      assert ItemsOf(es)[..n] == ItemsOf(es[..n]);
    }
  }

  lemma FlatNext(calls: seq<Call>, call: Call)
    ensures Flat(calls + [call]) == Flat(calls) + Items(call)
  {
    assert (calls + [call])[..|calls|] == calls;
  }

  lemma OpeningGood<S>(crc: Crc, ops: Ops<S>, empty: S, mode: SyncMode, batchSize: nat)
    requires batchSize > 0
    ensures Accounted(crc, ops, empty, Opening(empty, mode, batchSize))
  {
    hide Inv;
    FreshInv(crc, mode, batchSize);
  }

  lemma BeginGood<S>(crc: Crc, ops: Ops<S>, empty: S, db: Db<S>, call: Call)
    requires Accounted(crc, ops, empty, db) && Can(db, Begin(call))
    ensures Accounted(crc, ops, empty, Next(crc, ops, db, Begin(call)))
  {
    hide Inv, Replayed, Flat, Durable;
    assert Items(call)[..0] == [];
  }

  lemma FinishGood<S>(crc: Crc, ops: Ops<S>, empty: S, db: Db<S>)
    requires Accounted(crc, ops, empty, db) && Can(db, Finish)
    ensures Accounted(crc, ops, empty, Next(crc, ops, db, Finish))
  {
    hide Inv, Replayed, Flat, Durable, Items;
    var t, call := Next(crc, ops, db, Finish), db.current.value;
    var n := |db.calls|;
    assert db.calls[..n] == db.calls;
    FlatNext(db.calls, call);
    assert Items(call)[..db.written] == Items(call);
    ReplayedConcat(ops, empty, Flat(db.calls), Items(call));
    forall i | 0 <= i <= n + 1 ensures t.history[i] == Replayed(ops, empty, Flat(t.calls[..i])) {
      if i <= n { assert t.calls[..i] == db.calls[..i]; } else { assert t.calls[..i] == t.calls; }
    }
    forall b | 0 <= b < n + 1 && t.calls[b].Batch? ensures Durable(crc, t.log, |Flat(t.calls[..b + 1])|) {
      if b < n {
        assert t.calls[..b + 1] == db.calls[..b + 1] && t.calls[b] == db.calls[b];
      } else {
        assert t.calls[..b + 1] == t.calls;
        AllSynced(crc, db.log);
        assert |db.log.started| == |ItemsOf(db.log.started)| == |Flat(t.calls)|;
      }
    }
  }

  lemma AllSynced(crc: Crc, s: Log)
    requires Inv(crc, s) && s.synced == |s.stream|
    ensures Durable(crc, s, |s.started|)
  {
    hide EncodeAll, Header;
    StartWhole(crc, s.started);
  }

  lemma LogStepGood<S>(crc: Crc, ops: Ops<S>, empty: S, db: Db<S>, a: Action)
    requires Accounted(crc, ops, empty, db) && Can(db, Step(a))
    ensures Accounted(crc, ops, empty, Next(crc, ops, db, Step(a)))
  {
    hide Inv, Replayed, Flat, Items;
    StepInv(crc, db.log, a);
    var t := Next(crc, ops, db, Step(a));
    StillIdle(crc, db.log, a);
    assert ItemsOf(t.log.started) == Flat(t.calls) + Pending(t) by { WrittenNext(crc, ops, db, a); }
    forall b | 0 <= b < |t.calls| && t.calls[b].Batch? ensures Durable(crc, t.log, |Flat(t.calls[..b + 1])|) {
      StillDurable(crc, db.log, a, |Flat(db.calls[..b + 1])|);
    }
  }

  lemma StillIdle(crc: Crc, s: Log, a: Action)
    requires Inv(crc, s) && Enabled(s, a)
    ensures LogMachine.Step(crc, s, a).phase.Idle? || a.Write? || !s.phase.Idle?
  {
  }

  lemma StillDurable(crc: Crc, s: Log, a: Action, n: nat)
    requires Inv(crc, s) && Enabled(s, a) && Durable(crc, s, n)
    ensures Durable(crc, LogMachine.Step(crc, s, a), n)
  {
    hide Encode, EncodeAll, Header;
    if a.Write? { StartKept(crc, s.started, LogEntry(NextSeq(s.sequence), a.op, a.key, a.value), n); }
  }

  lemma WrittenNext<S>(crc: Crc, ops: Ops<S>, db: Db<S>, a: Action)
    requires Can(db, Step(a)) && ItemsOf(db.log.started) == Flat(db.calls) + Pending(db)
    requires if db.current.Some? then db.written <= |Items(db.current.value)| else db.written == 0
    ensures var t := Next(crc, ops, db, Step(a)); ItemsOf(t.log.started) == Flat(t.calls) + Pending(t)
  {
    hide Encode, Flat, Items;
    if a.Write? {
      var e := LogEntry(NextSeq(db.log.sequence), a.op, a.key, a.value);
      assert ItemsOf(db.log.started + [e]) == ItemsOf(db.log.started) + [ItemOf(e)];
      var items, w := Items(db.current.value), db.written;
      assert items[..w + 1] == items[..w] + [items[w]];
    }
  }

  lemma MoveGood<S>(crc: Crc, ops: Ops<S>, empty: S, db: Db<S>, m: Move)
    requires Accounted(crc, ops, empty, db) && Can(db, m)
    ensures Accounted(crc, ops, empty, Next(crc, ops, db, m))
  {
    hide Accounted, Can, Next;
    match m
    case Begin(call) => BeginGood(crc, ops, empty, db, call);
    case Step(a) => LogStepGood(crc, ops, empty, db, a);
    case Finish => FinishGood(crc, ops, empty, db);
  }

  /** A run of the durable tree from an empty log. */
  ghost predicate Runs<S>(crc: Crc, ops: Ops<S>, empty: S, states: seq<Db<S>>, moves: seq<Move>) {
    && |states| == |moves| + 1
    && (exists mode, batchSize | batchSize > 0 :: states[0] == Opening(empty, mode, batchSize))
    && forall i | 0 <= i < |moves| :: Can(states[i], moves[i]) && states[i + 1] == Next(crc, ops, states[i], moves[i])
  }

  lemma {:induction false} RunsGood<S>(crc: Crc, ops: Ops<S>, empty: S, states: seq<Db<S>>, moves: seq<Move>, i: nat)
    requires Runs(crc, ops, empty, states, moves) && i < |states|
    ensures Accounted(crc, ops, empty, states[i])
  {
    hide Accounted, Can, Next;
    if i == 0 {
      var mode, batchSize :| batchSize > 0 && states[0] == Opening(empty, mode, batchSize);
      OpeningGood(crc, ops, empty, mode, batchSize);
    } else {
      RunsGood(crc, ops, empty, states, moves, i - 1);
      MoveGood(crc, ops, empty, states[i - 1], moves[i - 1]);
    }
  }

  // ------------------------------------------------------------------- crashes

  /** Where a cut after `n` items falls, when every batch lies before it: between two calls, and all
      calls after it logged one item each. */
  lemma {:induction false} Locate(calls: seq<Call>, n: nat) returns (m: nat)
    requires n <= |Flat(calls)| && forall b | 0 <= b < |calls| && calls[b].Batch? :: |Flat(calls[..b + 1])| <= n
    ensures m <= |calls| && |Flat(calls)| - n == |calls| - m && Flat(calls[..m]) == Flat(calls)[..n]
    ensures forall b | 0 <= b < |calls| && calls[b].Batch? :: b < m
  {
    hide Flat;
    if n == |Flat(calls)| {
      m := |calls|;
      assert calls[..m] == calls && Flat(calls)[..n] == Flat(calls);
    } else {
      FlatSome(calls);
      var last := |calls| - 1;
      var p := calls[..last];
      assert calls[..last + 1] == calls;
      assert !calls[last].Batch?;
      FlatNext(p, calls[last]);
      assert p + [calls[last]] == calls;
      forall b | 0 <= b < |p| && p[b].Batch? ensures |Flat(p[..b + 1])| <= n { assert p[..b + 1] == calls[..b + 1]; }
      m := Locate(p, n);
      assert p[..m] == calls[..m];
    }
  }

  lemma FlatSome(calls: seq<Call>)
    requires Flat(calls) != []
    ensures calls != []
  {
  }

  /** The batches that have returned are in every image that a crash can leave. */
  lemma BatchesSurvive<S>(crc: Crc, ops: Ops<S>, empty: S, db: Db<S>, d: seq<Byte>, n: nat, b: nat)
    requires Accounted(crc, ops, empty, db) && CrashImage(db.log, d) && (d == [] || |d| >= HEADER_SIZE)
    requires n <= |db.log.started| && OpenImage(crc, d) == Opened(db.log.started[..n])
    requires b < |db.calls| && db.calls[b].Batch?
    ensures |Flat(db.calls[..b + 1])| <= n
  {
    hide Inv, Replayed, Flat, OpenImage, Durable, Whole;
    DurableSurvives(crc, db.log, d, |Flat(db.calls[..b + 1])|);
    if d != [] {
      OpenCut(crc, db.log, d);
      var w := Whole(db.log.started, |d| - HEADER_SIZE);
      assert |db.log.started[..w]| == w && |db.log.started[..n]| == n;
    }
  }

  /** At every point of every run, a crash leaves a log that replays to the tree as it was after some
      call that had returned, or after part of the call in progress; no more calls that had returned
      are missing than the mode allows, and never a `BulkInsert` or anything before it. */
  lemma CrashRecoversLive<S>(crc: Crc, ops: Ops<S>, empty: S, states: seq<Db<S>>, moves: seq<Move>, i: nat, d: seq<Byte>)
    returns (m: nat, k: nat)
    requires Runs(crc, ops, empty, states, moves) && i < |states| && CrashImage(states[i].log, d)
    requires d == [] || |d| >= HEADER_SIZE
    ensures OpenImage(crc, d).Opened? && |states[i].history| == |states[i].calls| + 1
    ensures m <= |states[i].calls| <= m + MayLose(states[i].log)
    ensures forall b | 0 <= b < |states[i].calls| && states[i].calls[b].Batch? :: b < m
    ensures k <= |Pending(states[i])| && (k > 0 ==> m == |states[i].calls|)
    ensures Fold(ops, empty, OpenImage(crc, d).entries) == Replayed(ops, states[i].history[m], Pending(states[i])[..k])
  {
    hide Runs, Accounted, OpenImage, Replayed, Fold, Pending;
    RunsGood(crc, ops, empty, states, moves, i);
    m, k := CrashAt(crc, ops, empty, states[i], d);
  }

  lemma CrashAt<S>(crc: Crc, ops: Ops<S>, empty: S, db: Db<S>, d: seq<Byte>) returns (m: nat, k: nat)
    requires Accounted(crc, ops, empty, db) && CrashImage(db.log, d) && (d == [] || |d| >= HEADER_SIZE)
    ensures OpenImage(crc, d).Opened? && |db.history| == |db.calls| + 1
    ensures m <= |db.calls| <= m + MayLose(db.log)
    ensures forall b | 0 <= b < |db.calls| && db.calls[b].Batch? :: b < m
    ensures k <= |Pending(db)| && (k > 0 ==> m == |db.calls|)
    ensures Fold(ops, empty, OpenImage(crc, d).entries) == Replayed(ops, db.history[m], Pending(db)[..k])
  {
    hide Inv, OpenImage, Replayed, Fold, Flat, Pending, Durable, CrashImage, MayLose;
    var n := CrashRecovers(crc, db.log, d);
    var es, flat := db.log.started, Flat(db.calls);
    assert ItemsOf(es[..n]) == (flat + Pending(db))[..n];
    FoldIsReplayed(ops, empty, es[..n]);
    assert db.calls[..|db.calls|] == db.calls;
    CompletedItems(crc, ops, empty, db);
    if n < |flat| {
      forall b | 0 <= b < |db.calls| && db.calls[b].Batch? ensures |Flat(db.calls[..b + 1])| <= n {
        BatchesSurvive(crc, ops, empty, db, d, n, b);
      }
      m := Locate(db.calls, n);
      k := 0;
      assert (flat + Pending(db))[..n] == flat[..n];
      ReplayedNone(ops, db.history[m], Pending(db));
    } else {
      m, k := |db.calls|, n - |flat|;
      assert (flat + Pending(db))[..n] == flat + Pending(db)[..k];
      ReplayedConcat(ops, empty, flat, Pending(db)[..k]);
    }
  }

  lemma ReplayedNone<S>(ops: Ops<S>, s: S, items: seq<Item>)
    ensures Replayed(ops, s, items[..0]) == s
  {
  }

  lemma CompletedItems<S>(crc: Crc, ops: Ops<S>, empty: S, db: Db<S>)
    requires Accounted(crc, ops, empty, db)
    ensures |Flat(db.calls)| <= db.log.completed
  {
    hide EncodeAll, Header, Replayed, Flat, Durable;
    assert |db.log.started| == |ItemsOf(db.log.started)|;
    if !db.log.phase.Idle? { assert |Pending(db)| > 0; }
  }

  // ------------------------------------------------------------------ batches

  /** The log's steps while `call` is in progress, from the state `db` before it. */
  ghost predicate Inside<S>(crc: Crc, ops: Ops<S>, db: Db<S>, call: Call, states: seq<Db<S>>, moves: seq<Move>) {
    && Can(db, Begin(call)) && |states| == |moves| + 1 && states[0] == Next(crc, ops, db, Begin(call))
    && forall i | 0 <= i < |moves| ::
      moves[i].Step? && Can(states[i], moves[i]) && states[i + 1] == Next(crc, ops, states[i], moves[i])
  }

  /** A crash leaves some items of the call in progress and not the others. */
  ghost predicate Tears<S>(crc: Crc, db: Db<S>, d: seq<Byte>) {
    && db.current.Some? && CrashImage(db.log, d) && OpenImage(crc, d).Opened?
    && |Flat(db.calls)| < |OpenImage(crc, d).entries| < |Flat(db.calls)| + |Items(db.current.value)|
  }

  lemma {:induction false} InsideKeeps<S>(crc: Crc, ops: Ops<S>, empty: S, db: Db<S>, call: Call, states: seq<Db<S>>, moves: seq<Move>, i: nat)
    requires Accounted(crc, ops, empty, db) && Inside(crc, ops, db, call, states, moves) && i < |states|
    ensures Accounted(crc, ops, empty, states[i])
    ensures states[i].current == Some(call) && states[i].calls == db.calls && states[i].history == db.history
  {
    hide Accounted, Flat, LogMachine.Step;
    if i == 0 {
      MoveGood(crc, ops, empty, db, Begin(call));
    } else {
      InsideKeeps(crc, ops, empty, db, call, states, moves, i - 1);
      MoveGood(crc, ops, empty, states[i - 1], moves[i - 1]);
    }
  }

  /** The first item, written, flushed and returned, is in the file before the second. */
  lemma FirstItem<S>(crc: Crc, ops: Ops<S>, empty: S, db: Db<S>, call: Call) returns (states: seq<Db<S>>, moves: seq<Move>)
    requires Accounted(crc, ops, empty, db) && Can(db, Begin(call)) && Items(call) != []
    ensures Inside(crc, ops, db, call, states, moves)
    ensures states[|moves|].log.phase.Idle? && states[|moves|].written == 1
  {
    hide Accounted, Flat, Encode;
    var item := Items(call)[0];
    moves := [Step(Write(item.op, item.key, item.value)), Step(Flush), Step(Return)];
    var s0 := Next(crc, ops, db, Begin(call));
    var s1 := Next(crc, ops, s0, moves[0]);
    var s2 := Next(crc, ops, s1, moves[1]);
    states := [s0, s1, s2, Next(crc, ops, s2, moves[2])];
  }

  /** A crash inside a batch of two items or more can recover the first one alone. */
  lemma TearBatch<S>(crc: Crc, ops: Ops<S>, empty: S, db: Db<S>, call: Call) returns (states: seq<Db<S>>, moves: seq<Move>, d: seq<Byte>)
    requires Accounted(crc, ops, empty, db) && Can(db, Begin(call)) && |Items(call)| >= 2
    ensures Inside(crc, ops, db, call, states, moves) && Tears(crc, states[|moves|], d) && |db.history| == |db.calls| + 1
    ensures Fold(ops, empty, OpenImage(crc, d).entries) == Replayed(ops, db.history[|db.calls|], Items(call)[..1])
  {
    hide Inside, Can, Next, Flat, Inv, OpenImage, Replayed, Fold, Durable, Items;
    states, moves := FirstItem(crc, ops, empty, db, call);
    InsideSizes(crc, ops, db, call, states, moves);
    InsideKeeps(crc, ops, empty, db, call, states, moves, |moves|);
    var s := states[|moves|];
    d := IdleImage(crc, s.log);
    var es := s.log.started;
    assert |es| == |ItemsOf(es)|;
    FoldIsReplayed(ops, empty, es);
    assert db.calls[..|db.calls|] == db.calls;
    ReplayedConcat(ops, empty, Flat(db.calls), Items(call)[..1]);
  }

  lemma InsideSizes<S>(crc: Crc, ops: Ops<S>, db: Db<S>, call: Call, states: seq<Db<S>>, moves: seq<Move>)
    requires Inside(crc, ops, db, call, states, moves)
    ensures |states| == |moves| + 1
  {
    hide Can, Next;
  }

  /** Between calls the flushed file has every entry. */
  lemma IdleImage(crc: Crc, s: Log) returns (d: seq<Byte>)
    requires Inv(crc, s) && s.phase.Idle?
    ensures CrashImage(s, d) && OpenImage(crc, d) == Opened(s.started)
  {
    hide EncodeAll, Header, OpenImage;
    d := s.stream[..s.flushed];
    var n := ProcessCrashLosesNothing(crc, s);
    assert s.started[..n] == s.started;
  }

  /** `BulkInsert` is an atomic batch, for every crash at every point of it, if and only if it has at
      most one pair. */
  lemma BatchAtomic<S>(crc: Crc, ops: Ops<S>, empty: S, db: Db<S>, items: seq<Item>)
    requires Accounted(crc, ops, empty, db) && Can(db, Begin(Batch(items)))
    ensures (exists states, moves, d :: Inside(crc, ops, db, Batch(items), states, moves) && |states| == |moves| + 1 && Tears(crc, states[|moves|], d))
      <==> |items| >= 2
  {
    hide Accounted, Can, Next, Flat, Inside, OpenImage;
    if |items| >= 2 {
      var states, moves, d := TearBatch(crc, ops, empty, db, Batch(items));
      InsideSizes(crc, ops, db, Batch(items), states, moves);
    } else {
      forall states, moves, d | Inside(crc, ops, db, Batch(items), states, moves) && |states| == |moves| + 1
        ensures !Tears(crc, states[|moves|], d)
      {
        InsideKeeps(crc, ops, empty, db, Batch(items), states, moves, |moves|);
      }
    }
  }

  /** Two pairs, a crash, and one of them is there. */
  lemma TornPair(crc: Crc, k: Key, v: Value, k': Key, v': Value)
    returns (states: seq<Db<map<Key, Value>>>, moves: seq<Move>, d: seq<Byte>)
    requires |k| < TWO32 && |v| < TWO32 && |k'| < TWO32 && |v'| < TWO32
    ensures Inside(crc, MapOps(), Opening(map[], SyncAlways, 1), Batch([Item(OP_INSERT, k, v), Item(OP_INSERT, k', v')]), states, moves)
    ensures |states| == |moves| + 1 && CrashImage(states[|moves|].log, d) && OpenImage(crc, d).Opened?
    ensures Fold(MapOps(), map[], OpenImage(crc, d).entries) == map[k := v]
  {
    hide Accounted, Next, Flat, Inside, OpenImage, Fold, CrashImage;
    var db := Opening(map[], SyncAlways, 1);
    OpeningGood(crc, MapOps(), map[], SyncAlways, 1);
    var items := [Item(OP_INSERT, k, v), Item(OP_INSERT, k', v')];
    states, moves, d := TearBatch(crc, MapOps(), map[], db, Batch(items));
    InsideSizes(crc, MapOps(), db, Batch(items), states, moves);
    assert items[..1] == [items[0]] && [items[0]][..0] == [];
  }
}
