/** The durable tree: every change is logged, then applied; opening replays the log into a new
    sharded tree. */
module Durable {
  import opened Bytes
  import opened Entries
  import opened Nodes
  import opened Fixed
  import opened LogCodec
  import opened LogMachine
  import opened Wal
  import opened Replaying
  import opened DurableRuns
  import opened Routing
  import opened Forests
  import opened Tables
  import Resharding

  // ------------------------------------------------------- calls of the machine

  /** The account after a call that has returned. */
  ghost function Returned<S>(ops: Ops<S>, db: Db<S>, log: Log, call: Call): Db<S>
    requires db.history != []
  {
    Db(log, db.calls + [call], db.history + [Replayed(ops, db.history[|db.history| - 1], Items(call))], None, 0)
  }

  /** Between calls, with nothing in progress. */
  ghost predicate Resting<S>(db: Db<S>) {
    db.current.None? && db.written == 0 && db.log.phase.Idle? && db.history != []
  }

  /** `Append` of the next item of the call in progress. */
  lemma AppendGood<S>(crc: Crc, ops: Ops<S>, empty: S, db: Db<S>, item: Item)
    requires Accounted(crc, ops, empty, db) && db.log.phase.Idle? && db.current.Some? && db.written < |Items(db.current.value)|
    requires Items(db.current.value)[db.written] == item && |item.key| < TWO32 && |item.value| < TWO32
    ensures Accounted(crc, ops, empty, db.(log := AppendState(crc, db.log, item.op, item.key, item.value), written := db.written + 1))
  {
    hide Accounted, Items, LogMachine.Step;
    var w := Write(item.op, item.key, item.value);
    assert Can(db, Move.Step(w));
    MoveGood(crc, ops, empty, db, Move.Step(w));
    var d1 := db.(log := LogMachine.Step(crc, db.log, w), written := db.written + 1);
    StepPhases(crc, db.log, w);
    MoveGood(crc, ops, empty, d1, Move.Step(Flush));
    var d2 := d1.(log := LogMachine.Step(crc, d1.log, Flush));
    MoveGood(crc, ops, empty, d2, Move.Step(Return));
  }

  lemma StepPhases(crc: Crc, s: Log, w: Action)
    requires Enabled(s, w) && w.Write?
    ensures var s1 := LogMachine.Step(crc, s, w);
      Enabled(s1, Flush) && var s2 := LogMachine.Step(crc, s1, Flush); Enabled(s2, Return) && LogMachine.Step(crc, s2, Return).phase.Idle?
  {
    hide Encode;
  }

  /** `Insert`, `Delete` or `Clear`: one item is logged, then applied. */
  lemma SingleGood<S>(crc: Crc, ops: Ops<S>, empty: S, db: Db<S>, item: Item)
    requires Accounted(crc, ops, empty, db) && Resting(db) && |item.key| < TWO32 && |item.value| < TWO32
    ensures Accounted(crc, ops, empty, Returned(ops, db, AppendState(crc, db.log, item.op, item.key, item.value), Single(item)))
  {
    hide Accounted, AppendState, Replayed;
    MoveGood(crc, ops, empty, db, Begin(Single(item)));
    var d := db.(current := Some(Single(item)));
    AppendGood(crc, ops, empty, d, item);
    AppendRests(crc, db.log, item);
    var d1 := d.(log := AppendState(crc, db.log, item.op, item.key, item.value), written := 1);
    MoveGood(crc, ops, empty, d1, Finish);
  }

  lemma AppendRests(crc: Crc, s: Log, item: Item)
    requires s.phase.Idle? && |item.key| < TWO32 && |item.value| < TWO32
    ensures AppendState(crc, s, item.op, item.key, item.value).phase.Idle?
  {
    hide Encode;
  }

  /** The end of a `BulkInsert`: the log is synced, the items are applied. */
  lemma BatchGood<S>(crc: Crc, ops: Ops<S>, empty: S, db: Db<S>, items: seq<Item>)
    requires Accounted(crc, ops, empty, db) && db.log.phase.Idle? && db.current == Some(Batch(items)) && db.written == |items| && db.history != []
    ensures Accounted(crc, ops, empty, Returned(ops, db, LogMachine.Step(crc, db.log, Action.Sync), Batch(items)))
  {
    hide Accounted, Replayed;
    MoveGood(crc, ops, empty, db, Move.Step(Action.Sync));
    MoveGood(crc, ops, empty, db.(log := LogMachine.Step(crc, db.log, Action.Sync)), Finish);
  }

  lemma NothingYet<S>(crc: Crc, ops: Ops<S>, s: S, log: Log)
    requires Inv(crc, log) && log.started == [] && log.phase.Idle?
    ensures Accounted(crc, ops, s, Db(log, [], [s], None, 0))
  {
    hide Inv;
  }

  /** The last tree of an account is the log replayed. */
  lemma LastIsFold<S>(crc: Crc, ops: Ops<S>, empty: S, db: Db<S>)
    requires Accounted(crc, ops, empty, db) && db.current.None?
    ensures |db.history| == |db.calls| + 1 && db.history[|db.calls|] == Fold(ops, empty, db.log.started)
  {
    hide Inv, Replayed, Flat, Durable, Fold;
    assert db.calls[..|db.calls|] == db.calls;
    assert Flat(db.calls) + [] == Flat(db.calls);
    FoldIsReplayed(ops, empty, db.log.started);
  }

  lemma ReplayOne<S>(ops: Ops<S>, s: S, item: Item)
    ensures Replayed(ops, s, [item]) == Apply(ops, s, LogEntry(0, item.op, item.key, item.value))
  {
    assert [item][..0] == [];
  }

  // ------------------------------------------------------------------ the object

  class DurableBTree {
    const tree: Table
    const wal: WAL
    ghost var base: Forest          // the shards when the log was last truncated
    ghost var shown: Store          // what lookups showed then
    ghost var calls: seq<Call>      // the calls that have returned since
    ghost var history: seq<Forest>  // the shards before, between and after them

    ghost function Account(): Db<Forest>
      reads this, wal
    {
      Db(wal.State(), calls, history, None, 0)
    }

    ghost function Code(): Ops<Forest> {
      ForestOps(tree.tree.hash)
    }

    /** The log accounts for the shards, whatever writes were lost in them. */
    ghost predicate Valid()
      reads this, wal, tree, tree.Repr
    {
      && wal.Valid() && tree.Formed() && wal !in tree.Repr && this !in tree.Repr
      && Accounted(wal.crc, Code(), base, Account())
      && history != [] && tree.grove == history[|history| - 1]
    }

    /** Besides, no write has been lost, and lookups show what the log says. */
    ghost predicate Whole()
      reads this, wal, tree, tree.Repr
    {
      Valid() && tree.Intact() && tree.view == Fold(MapOps(), shown, wal.started)
    }

    /** The shards are the log replayed over the shards at the last truncation. */
    lemma GroveIsLog()
      requires Valid()
      ensures tree.grove == Fold(Code(), base, wal.started)
    {
      hide Accounted, Fold;
      LastIsFold(wal.crc, Code(), base, Account());
    }

    constructor (tree: Table, wal: WAL, ghost base: Forest, ghost calls: seq<Call>, ghost history: seq<Forest>)
      ensures this.tree == tree && this.wal == wal
      ensures this.base == base && shown == map[] && this.calls == calls && this.history == history
    {
      this.tree, this.wal := tree, wal;
      this.base, shown, this.calls, this.history := base, map[], calls, history;
    }

    /** Logged, then applied, on any tree.  Where no write was lost before, this one is lost exactly
        when an inner node holds the key, so never for a new key. */
    method Insert(key: Key, value: Value)
      requires Valid() && |key| < TWO32 && |value| < TWO32
      modifies this`calls, this`history, tree.Repr, wal
      ensures Valid() && fresh(tree.Repr - old(tree.Repr))
      ensures Account() == Returned(Code(), old(Account()), wal.State(), Single(Item(OP_INSERT, key, value)))
      ensures tree.grove == PutForest(tree.tree.hash, old(tree.grove), Entry(key, value))
      ensures old(Whole()) ==> (Whole() <==> !old(tree.Inner(key)))
      ensures old(Whole()) && key !in old(tree.view) ==> Whole()
    {
      hide Inv, Fold, AppendState, NextSeq, Numbered, WAL.Tracks, Accounted, Replayed, Table.Formed, Table.Sound, Table.Intact, Table.Inner, PutForest, WAL.State;
      ghost var db, item, started := Account(), Item(OP_INSERT, key, value), wal.started;
      if tree.Intact() {
        tree.IntactSound();
        if tree.Inner(key) { tree.InnerHeld(key); }
      }
      AccountRests();
      SingleGood(wal.crc, Code(), base, db, item);
      ReplayOne(Code(), tree.grove, item);
      var seqno := wal.Append(OP_INSERT, key, value);
      FoldNext(MapOps(), shown, started, LogEntry(seqno, OP_INSERT, key, value));
      tree.Insert(key, value);
      calls, history := calls + [Single(item)], history + [tree.grove];
    }

    lemma AccountRests()
      ensures Account().log.phase.Idle? && Account().log == wal.State()
    {
    }

    method Delete(key: Key) returns (deleted: bool)
      requires Valid() && |key| < TWO32
      modifies this`calls, this`history, tree.Repr, wal
      ensures Valid() && tree.Repr == old(tree.Repr)
      ensures Account() == Returned(Code(), old(Account()), wal.State(), Single(Item(OP_DELETE, key, [])))
      ensures tree.grove == CutForest(tree.tree.hash, old(tree.grove), key)
      ensures old(tree.Sound()) ==> (deleted <==> key in old(tree.view))
      ensures old(Whole()) ==> Whole() && tree.view == old(tree.view) - {key}
    {
      hide Inv, Fold, AppendState, NextSeq, Numbered, WAL.Tracks, Accounted, Replayed, Table.Formed, Table.Sound, Table.Intact, CutForest, WAL.State;
      ghost var db, item, started := Account(), Item(OP_DELETE, key, []), wal.started;
      AccountRests();
      SingleGood(wal.crc, Code(), base, db, item);
      ReplayOne(Code(), tree.grove, item);
      var seqno := wal.Append(OP_DELETE, key, []);
      FoldNext(MapOps(), shown, started, LogEntry(seqno, OP_DELETE, key, []));
      deleted := tree.Delete(key);
      calls, history := calls + [Single(item)], history + [tree.grove];
    }

    /** Whatever was lost before, the tree is empty and whole. */
    method Clear()
      requires Valid()
      modifies this`calls, this`history, tree.Repr, wal
      ensures Valid() && Whole() && fresh(tree.Repr - old(tree.Repr)) && tree.view == map[]
      ensures Account() == Returned(Code(), old(Account()), wal.State(), Single(Item(OP_CLEAR, [], [])))
      ensures tree.grove == EmptyForest(|old(tree.grove)|)
    {
      hide Inv, Fold, AppendState, NextSeq, Numbered, WAL.Tracks, Accounted, Replayed, Table.Formed, Table.Sound, Table.Intact, WAL.State;
      ghost var db, item, started := Account(), Item(OP_CLEAR, [], []), wal.started;
      AccountRests();
      SingleGood(wal.crc, Code(), base, db, item);
      ReplayOne(Code(), tree.grove, item);
      var seqno := wal.Append(OP_CLEAR, [], []);
      FoldNext(MapOps(), shown, started, LogEntry(seqno, OP_CLEAR, [], []));
      tree.Clear();
      calls, history := calls + [Single(item)], history + [tree.grove];
    }

    /** All pairs are logged and synced before the first is applied. */
    method BulkInsert(keys: seq<Key>, values: seq<Value>) returns (ok: bool)
      requires Valid()
      requires forall i | 0 <= i < |keys| :: |keys[i]| < TWO32
      requires forall i | 0 <= i < |values| :: |values[i]| < TWO32
      modifies this`calls, this`history, tree.Repr, wal
      ensures Valid() && fresh(tree.Repr - old(tree.Repr))
      ensures ok <==> |keys| == |values|
      ensures !ok ==> Account() == old(Account()) && tree.grove == old(tree.grove) && (Whole() <==> old(Whole()))
      ensures ok ==> wal.synced == |wal.file| && Account() == Returned(Code(), old(Account()), wal.State(), Batch(Inserts(keys, values)))
      ensures ok ==> tree.grove == PutEach(tree.tree.hash, old(tree.grove), keys, values)
      ensures ok && old(Whole()) ==> (Whole() <==> AllKept(tree.tree.hash, old(tree.grove), keys, values))
    {
      hide Inv, Fold, AppendState, NextSeq, Numbered, WAL.Tracks, Accounted, Replayed, PutAll, PutEach, AllKept, Table.Formed, Table.Sound, Table.Intact, WAL.State;
      if |keys| != |values| { return false; }
      ghost var db, items, whole := Account(), Inserts(keys, values), Whole();
      if whole { tree.IntactSound(); }
      LogEach(keys, values);
      BatchGood(wal.crc, Code(), base, Db(wal.State(), calls, history, Some(Batch(items)), |items|), items);
      wal.Sync();
      ReplayEach(tree.tree.hash, tree.grove, keys, values);
      tree.InsertEach(keys, values);
      calls, history := calls + [Batch(items)], history + [tree.grove];
      AccountRests();
      ok := true;
    }

    /** The logging loop of `BulkInsert`. */
    method LogEach(keys: seq<Key>, values: seq<Value>)
      requires Valid() && |keys| == |values|
      requires forall i | 0 <= i < |keys| :: |keys[i]| < TWO32 && |values[i]| < TWO32
      modifies wal
      ensures wal.Valid() && wal.State().phase.Idle?
      ensures Accounted(wal.crc, Code(), base, Db(wal.State(), calls, history, Some(Batch(Inserts(keys, values))), |keys|))
      ensures Fold(MapOps(), shown, wal.started) == PutAll(Fold(MapOps(), shown, old(wal.started)), keys, values)
    {
      hide Inv, Fold, AppendState, NextSeq, Numbered, WAL.Tracks, Accounted, Replayed, PutAll, WAL.State;
      ghost var items, m := Inserts(keys, values), Fold(MapOps(), shown, wal.started);
      AccountRests();
      InsertsLoggable(keys, values);
      MoveGood(wal.crc, Code(), base, Account(), Begin(Batch(items)));
      PutNone(m, keys, values);
      for i := 0 to |keys|
        invariant wal.Valid() && wal.State().phase.Idle?
        invariant Accounted(wal.crc, Code(), base, Db(wal.State(), calls, history, Some(Batch(items)), i))
        invariant Fold(MapOps(), shown, wal.started) == PutAll(m, keys[..i], values[..i])
      {
        ghost var started := wal.started;
        AppendGood(wal.crc, Code(), base, Db(wal.State(), calls, history, Some(Batch(items)), i), items[i]);
        AppendRests(wal.crc, wal.State(), items[i]);
        var seqno := wal.Append(OP_INSERT, keys[i], values[i]);
        FoldNext(MapOps(), shown, started, LogEntry(seqno, OP_INSERT, keys[i], values[i]));
        PutNext(m, keys, values, i);
      }
      assert keys[..|keys|] == keys && values[..|values|] == values;
    }

    method Checkpoint()
      requires Valid()
      modifies this`base, this`shown, this`calls, this`history, wal
      ensures Valid() && wal.started == [] && base == tree.grove == old(tree.grove) && shown == tree.view == old(tree.view)
      ensures tree.Intact() ==> Whole()
    {
      hide Inv, Table.Formed, Table.Sound, Table.Intact, Accounted;
      wal.Checkpoint();
      base, shown, calls, history := tree.grove, tree.view, [], [tree.grove];
      AccountRests();
      NothingYet(wal.crc, Code(), base, wal.State());
    }
  }

  function Inserts(keys: seq<Key>, values: seq<Value>): (items: seq<Item>)
    requires |keys| == |values|
    ensures |items| == |keys|
  {
    seq(|keys|, i requires 0 <= i < |keys| => Item(OP_INSERT, keys[i], values[i]))
  }

  lemma InsertsLoggable(keys: seq<Key>, values: seq<Value>)
    requires |keys| == |values| && forall i | 0 <= i < |keys| :: |keys[i]| < TWO32 && |values[i]| < TWO32
    ensures Loggable(Batch(Inserts(keys, values)))
  {
  }

  lemma {:induction false} ReplayEach(hash: Hash, f: Forest, keys: seq<Key>, values: seq<Value>)
    requires |keys| == |values|
    ensures Replayed(ForestOps(hash), f, Inserts(keys, values)) == PutEach(hash, f, keys, values)
    decreases |keys|
  {
    hide PutForest;
    if keys != [] {
      var n := |keys| - 1;
      ReplayEach(hash, f, keys[..n], values[..n]);
      assert Inserts(keys, values)[..n] == Inserts(keys[..n], values[..n]);
    }
  }

  // ------------------------------------------------------------------ recovery

  /** The switch of `recover` on a real tree. */
  method ApplyEntry(tree: Table, e: LogEntry)
    requires tree.Formed()
    modifies tree.Repr
    ensures tree.Formed() && fresh(tree.Repr - old(tree.Repr))
    ensures tree.grove == Apply(ForestOps(tree.tree.hash), old(tree.grove), e)
    ensures old(tree.Intact()) && (e.op == OP_INSERT ==> !old(tree.Inner(e.key))) ==>
      tree.Intact() && tree.view == Apply(MapOps(), old(tree.view), e)
  {
    hide Table.Formed, Table.Sound, Table.Intact, Table.Inner, PutForest, CutForest;
    if tree.Intact() { tree.IntactSound(); }
    if e.op == OP_INSERT {
      tree.Insert(e.key, e.value);
    } else if e.op == OP_DELETE {
      var deleted := tree.Delete(e.key);
    } else if e.op == OP_CLEAR {
      tree.Clear();
    }
  }

  /** Every logged insertion is of a key that the log so far does not leave in the map. */
  ghost predicate NoOverwrite(es: seq<LogEntry>) {
    forall i | 0 <= i < |es| && es[i].op == OP_INSERT :: es[i].key !in Fold(MapOps(), map[], es[..i])
  }

  /** At no point does the log leave more than four keys for a shard. */
  ghost predicate Sparse(hash: Hash, n: nat, es: seq<LogEntry>) {
    n > 0 && forall i | 0 <= i < |es| && es[i].op == OP_INSERT :: |Mates(hash, n, Fold(MapOps(), map[], es[..i]), es[i].key)| <= MAX_KEYS
  }

  /** The keys that share the shard of `key`. */
  ghost function Mates(hash: Hash, n: nat, m: Store, key: Key): set<Key>
    requires n > 0
  {
    set k | k in m && Route(hash, n, k) == Route(hash, n, key)
  }

  /** Where nothing was lost so far, a log without overwrites and one with few keys lose nothing. */
  lemma NotLost(tree: Table, es: seq<LogEntry>, i: nat)
    requires tree.Intact() && i < |es| && es[i].op == OP_INSERT && tree.view == Fold(MapOps(), map[], es[..i])
    requires NoOverwrite(es) || Sparse(tree.tree.hash, |tree.grove|, es)
    ensures !tree.Inner(es[i].key)
  {
    hide Table.Intact, Table.Inner, Fold, Route;
    tree.IntactSound();
    if tree.Inner(es[i].key) { tree.InnerHeld(es[i].key); }
    if Sparse(tree.tree.hash, |tree.grove|, es) {
      assert Resharding.Sharing(tree, es[i].key) == Mates(tree.tree.hash, |tree.grove|, tree.view, es[i].key);
      Resharding.FewInner(tree, es[i].key);
    }
  }

  /** The first `n` entries of a log have been replayed into shards `f`, which stood for no pair where
      `clean` says so. */
  ghost predicate Underway(tree: Table, f: Forest, all: seq<LogEntry>, n: nat, clean: bool)
    reads tree, tree.Repr
    requires n <= |all|
  {
    var hash, es := tree.tree.hash, all[..n];
    && tree.Formed() && |tree.grove| == |f| && tree.grove == Fold(ForestOps(hash), f, es)
    && (clean && KeptLog(hash, f, es) ==> tree.Intact() && tree.view == Fold(MapOps(), map[], es))
    && (clean && (NoOverwrite(all) || Sparse(hash, |f|, all)) ==> KeptLog(hash, f, es))
  }

  method ReplayNext(tree: Table, e: LogEntry, ghost f: Forest, ghost all: seq<LogEntry>, ghost n: nat, ghost clean: bool)
    requires n < |all| && all[n] == e && Underway(tree, f, all, n, clean)
    modifies tree.Repr
    ensures Underway(tree, f, all, n + 1, clean) && fresh(tree.Repr - old(tree.Repr))
  {
    hide Fold, Apply, Table.Formed, Table.Sound, Table.Intact, Table.Inner, NoOverwrite, Sparse, KeptLog, HeldForest;
    ghost var hash, es := tree.tree.hash, all[..n];
    assert all[..n + 1] == es + [e];
    FoldNext(MapOps(), map[], es, e);
    FoldNext(ForestOps(hash), f, es, e);
    KeptNext(hash, f, es, e);
    tree.InnerIs(e.key);
    if clean && KeptLog(hash, f, es) && e.op == OP_INSERT && (NoOverwrite(all) || Sparse(hash, |f|, all)) { NotLost(tree, all, n); }
    SameWidth(hash, tree.grove, e);
    ApplyEntry(tree, e);
  }

  /** `recover` into a real tree: on every log its shards are the log replayed on values.  Where no
      logged insertion meets its key in an inner node, lookups show the map the log stands for; so
      for logs without overwrites, and for logs that never leave more than four keys for a shard. */
  method RecoverInto(tree: Table, crc: Crc, image: seq<Byte>) returns (count: nat)
    requires tree.Formed() && OpenImage(crc, image).Opened?
    modifies tree.Repr
    ensures tree.Formed() && fresh(tree.Repr - old(tree.Repr))
    ensures var es, hash := OpenImage(crc, image).entries, tree.tree.hash;
      && count == |es| && tree.grove == Fold(ForestOps(hash), old(tree.grove), es)
      && (old(tree.Intact()) && old(tree.view) == map[] && (NoOverwrite(es) || Sparse(hash, |old(tree.grove)|, es)) ==>
        KeptLog(hash, old(tree.grove), es))
      && (old(tree.Intact()) && old(tree.view) == map[] && KeptLog(hash, old(tree.grove), es) ==>
        tree.Intact() && tree.view == Fold(MapOps(), map[], es))
  {
    hide Parse, Scan, FromLittle, Fold, Table.Formed, Table.Intact, NoOverwrite, Sparse, KeptLog;
    ghost var all, f, clean := OpenImage(crc, image).entries, tree.grove, tree.Intact() && tree.view == map[];
    count := 0;
    assert all[..0] == [];
    FoldNone(MapOps(), map[]);
    FoldNone(ForestOps(tree.tree.hash), f);
    KeptNone(tree.tree.hash, f);
    if image == [] { return; }
    var reader := new Reader(image, HEADER_SIZE);
    while true
      invariant reader.data == image && reader.pos <= |image| && reader !in tree.Repr
      invariant count <= |all| && Underway(tree, f, all, count, clean) && fresh(tree.Repr - old(tree.Repr))
      invariant all[count..] == Scan(crc, image[reader.pos..])
      decreases |image| - reader.pos
    {
      ghost var at := reader.pos;
      ScanUnfold(crc, image[at..]);
      var e := reader.ReadEntry(crc);
      if e.None? { break; }
      assert image[at..][reader.pos - at..] == image[reader.pos..];
      assert all[count..][0] == e.value && all[count..][1..] == all[count + 1..];
      ReplayNext(tree, e.value, f, all, count, clean);
      count := count + 1;
    }
    assert all[..count] == all;
  }

  lemma KeptNone(hash: Hash, f: Forest)
    ensures KeptLog(hash, f, [])
  {
  }

  lemma SameWidth(hash: Hash, f: Forest, e: LogEntry)
    ensures |Apply(ForestOps(hash), f, e)| == |f|
  {
    hide PutForest, CutForest;
  }

  // ------------------------------------------------------------------- reopening

  /** The entries of a reopened log, each as a call of its own. */
  ghost function Singles(es: seq<LogEntry>): (calls: seq<Call>)
    ensures |calls| == |es|
  {
    seq(|es|, i requires 0 <= i < |es| => Single(ItemOf(es[i])))
  }

  ghost function Ages<S>(ops: Ops<S>, empty: S, es: seq<LogEntry>): (history: seq<S>)
    ensures |history| == |es| + 1
  {
    seq(|es| + 1, i requires 0 <= i <= |es| => Fold(ops, empty, es[..i]))
  }

  lemma {:induction false} FlatSingles(es: seq<LogEntry>)
    ensures Flat(Singles(es)) == ItemsOf(es)
  {
    if es != [] {
      var n := |es| - 1;
      FlatSingles(es[..n]);
      assert Singles(es)[..n] == Singles(es[..n]);
      assert ItemsOf(es) == ItemsOf(es[..n]) + [ItemOf(es[n])];
    }
  }

  lemma ReopenedGood<S>(crc: Crc, ops: Ops<S>, empty: S, log: Log)
    requires Inv(crc, log) && log.phase.Idle?
    ensures Accounted(crc, ops, empty, Db(log, Singles(log.started), Ages(ops, empty, log.started), None, 0))
  {
    hide Inv, Fold, Flat, Replayed;
    var es := log.started;
    var db := Db(log, Singles(es), Ages(ops, empty, es), None, 0);
    FlatSingles(es);
    assert Flat(Singles(es)) + [] == ItemsOf(es);
    forall i | 0 <= i <= |es| ensures db.history[i] == Replayed(ops, empty, Flat(db.calls[..i])) {
      assert db.calls[..i] == Singles(es[..i]);
      FlatSingles(es[..i]);
      FoldIsReplayed(ops, empty, es[..i]);
    }
  }

  function Width(numShards: int, numCPU: nat): nat {
    if numShards <= 0 then numCPU else numShards
  }

  /** `NewDurableBTree` on any file: an error exactly for a bad header; the shards are the readable
      entries replayed on values; the tree can go on exactly when the file has no torn tail. */
  method Open(crc: Crc, mode: SyncMode, batchSize: int, image: seq<Byte>, numShards: int, numCPU: nat, hash: Hash)
    returns (db: DurableBTree?)
    requires numCPU > 0
    ensures db == null <==> OpenImage(crc, image).Corrupt?
    ensures db != null ==> fresh(db) && fresh(db.wal) && fresh(db.tree.Repr) && db.tree.Formed() && db.wal.crc == crc && db.tree.tree.hash == hash
    ensures db != null ==> db.base == EmptyForest(Width(numShards, numCPU)) && db.shown == map[]
    ensures db != null ==> db.wal.State() == Reopened(crc, mode, if batchSize <= 0 then DEFAULT_BATCH else batchSize, image)
    ensures db != null ==> (db.Valid() <==> Tidy(crc, image))
    ensures db != null ==>
      var es, empty := OpenImage(crc, image).entries, EmptyForest(Width(numShards, numCPU));
      && db.tree.grove == Fold(ForestOps(hash), empty, es)
      && (NoOverwrite(es) || Sparse(hash, |empty|, es) ==> KeptLog(hash, empty, es))
      && (KeptLog(hash, empty, es) ==> db.tree.Intact() && db.tree.view == Fold(MapOps(), map[], es))
  {
    hide Inv, Fold, Scan, FromLittle, NoOverwrite, Sparse, KeptLog, Table.Formed, Table.Sound, Table.Intact, Tidy, OpenImage, Accounted, WAL.State;
    var wal := OpenWAL(crc, mode, batchSize, image);
    if wal == null { return null; }
    var tree := new Table(numShards, numCPU, hash);
    ghost var empty, es := tree.grove, OpenImage(crc, image).entries;
    var count := RecoverInto(tree, crc, image);
    db := new DurableBTree(tree, wal, empty, Singles(es), Ages(ForestOps(hash), empty, es));
    ReopenedStarted(crc, mode, if batchSize <= 0 then DEFAULT_BATCH else batchSize, image);
    db.AccountRests();
    if Tidy(crc, image) { ReopenedGood(crc, ForestOps(hash), empty, wal.State()); }
    assert es[..|es|] == es;
  }

  lemma ReopenedStarted(crc: Crc, mode: SyncMode, batchSize: nat, image: seq<Byte>)
    requires OpenImage(crc, image).Opened?
    ensures Reopened(crc, mode, batchSize, image).started == OpenImage(crc, image).entries
  {
  }

  /** Between calls the file holds the log, with no torn tail. */
  /** Reopening the file of a running tree.  With as many shards, a log that was never truncated gives
      the live shards again, lost writes and all.  With any number of shards, the new tree shows what
      the live one shows if and only if every key held at the last truncation has been inserted,
      deleted or cleared since, provided neither of them has lost a write. */
  method Reopen(db: DurableBTree, mode: SyncMode, batchSize: int, numShards: int, numCPU: nat, hash: Hash) returns (again: DurableBTree)
    requires db.Valid() && numCPU > 0
    ensures fresh(again) && again.Valid() && again.base == EmptyForest(Width(numShards, numCPU))
    ensures again.tree.grove == Fold(ForestOps(hash), again.base, db.wal.started)
    ensures hash == db.tree.tree.hash && again.base == db.base ==> again.tree.grove == db.tree.grove
    ensures NoOverwrite(db.wal.started) || Sparse(hash, |again.base|, db.wal.started) ==> KeptLog(hash, again.base, db.wal.started)
    ensures KeptLog(hash, again.base, db.wal.started) ==> again.Whole() && again.tree.view == Fold(MapOps(), map[], db.wal.started)
    ensures db.Whole() && KeptLog(hash, again.base, db.wal.started) ==>
      (again.tree.view == db.tree.view <==>
        forall k | k in db.shown :: exists i | 0 <= i < |db.wal.started| :: Settles(db.wal.started[i], k))
  {
    hide Inv, Fold, NoOverwrite, Sparse, KeptLog, OpenImage, Tidy, Settles, Table.Formed, Table.Sound, Table.Intact, Accounted, WAL.State;
    FileIsLog(db.wal);
    db.GroveIsLog();
    CheckpointLoses(db.shown, db.wal.started);
    var r := Open(db.wal.crc, mode, batchSize, db.wal.file, numShards, numCPU, hash);
    again := r;
    again.GroveIsLog();
    StartedIs(again, db.wal.crc, mode, if batchSize <= 0 then DEFAULT_BATCH else batchSize, db.wal.file);
  }

  lemma StartedIs(db: DurableBTree, crc: Crc, mode: SyncMode, batchSize: nat, image: seq<Byte>)
    requires OpenImage(crc, image).Opened? && db.wal.State() == Reopened(crc, mode, batchSize, image)
    ensures db.wal.started == OpenImage(crc, image).entries
  {
  }

  /** A crash between calls, and a reopening with the same configuration: the tree is as it was after
      some call, missing no more calls than the mode allows, and never a `BulkInsert` or anything
      before it; it can go on exactly when the crash left no torn tail. */
  method CrashAndReopen(db: DurableBTree, d: seq<Byte>, mode: SyncMode, batchSize: int, numShards: int, numCPU: nat)
    returns (again: DurableBTree, ghost m: nat)
    requires db.Valid() && numCPU > 0 && db.base == EmptyForest(Width(numShards, numCPU))
    requires CrashImage(db.wal.State(), d) && (d == [] || |d| >= HEADER_SIZE)
    ensures fresh(again) && again.tree.Formed() && OpenImage(db.wal.crc, d).Opened? && (again.Valid() <==> Tidy(db.wal.crc, d))
    ensures m <= |db.calls| <= m + MayLose(db.wal.State()) && |db.history| == |db.calls| + 1
    ensures forall b | 0 <= b < |db.calls| && db.calls[b].Batch? :: b < m
    ensures again.tree.grove == db.history[m]
  {
    hide Inv, Fold, NoOverwrite, Sparse, KeptLog, OpenImage, Tidy, Table.Formed, Table.Sound, Table.Intact, Accounted, WAL.State, CrashImage, Replayed;
    ghost var k;
    db.AccountRests();
    m, k := CrashAt(db.wal.crc, db.Code(), db.base, db.Account(), d);
    ReplayedNone(db.Code(), db.history[m], Pending(db.Account()));
    assert Pending(db.Account())[..k] == Pending(db.Account())[..0];
    ghost var history := db.history;
    var r := Open(db.wal.crc, mode, batchSize, d, numShards, numCPU, db.tree.tree.hash);
    again := r;
  }
}
