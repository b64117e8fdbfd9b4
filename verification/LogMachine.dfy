/** The log as a machine of small steps, so that a crash can fall between any two of them. */
module LogMachine {
  import opened Bytes
  import opened Fixed
  import opened LogCodec

  datatype SyncMode = SyncNone | SyncBatch | SyncAlways

  /** Where the one writer is in `Append`. */
  datatype Phase = Idle | Written | Flushed

  /** `stream` is everything written to the buffered writer of the current file; the first
      `flushed` bytes have reached the operating system, the first `synced` are on disk.
      `started` are the entries of this file, of which the first `completed` have returned. */
  datatype Log = Log(
    mode: SyncMode, batchSize: nat,
    stream: seq<Byte>, flushed: nat, synced: nat,
    sequence: nat, batchCount: nat,
    phase: Phase, started: seq<LogEntry>, completed: nat)

  datatype Action =
    | Write(op: Byte, key: Key, value: Value)  // `writeEntry` into the buffer
    | Spill(upTo: nat)                         // the buffer empties itself early
    | Flush                                    // `writer.Flush`
    | Return                                   // `Append` returns, after `file.Sync` if the mode asks for it
    | Sync                                     // an explicit `Sync`

  /** A file that has just been given its header. */
  function Fresh(mode: SyncMode, batchSize: nat): Log {
    Log(mode, batchSize, Header(), HEADER_SIZE, 0, 0, 0, Idle, [], 0)
  }

  function NextSeq(sequence: nat): nat {
    (sequence + 1) % TWO64
  }

  /** Whether the call in progress will call `file.Sync` before it returns. */
  predicate Syncs(s: Log) {
    s.mode.SyncAlways? || (s.mode.SyncBatch? && s.batchCount >= s.batchSize)
  }

  predicate Enabled(s: Log, a: Action) {
    match a
    case Write(op, key, value) => s.phase.Idle? && |key| < TWO32 && |value| < TWO32
    case Spill(upTo) => s.flushed <= upTo <= |s.stream|
    case Flush => s.phase.Written?
    case Return => s.phase.Flushed?
    case Sync => s.phase.Idle?
  }

  function Step(crc: Crc, s: Log, a: Action): Log
    requires Enabled(s, a)
  {
    match a
    case Write(op, key, value) =>
      var e := LogEntry(NextSeq(s.sequence), op, key, value);
      s.(stream := s.stream + Encode(crc, e), started := s.started + [e], sequence := e.seqno,
         batchCount := s.batchCount + 1, phase := Written)
    case Spill(upTo) => s.(flushed := upTo)
    case Flush => s.(flushed := |s.stream|, phase := Flushed)
    case Return =>
      s.(phase := Idle, completed := s.completed + 1,
         synced := if Syncs(s) then s.flushed else s.synced,
         batchCount := if Syncs(s) && s.mode.SyncBatch? then 0 else s.batchCount)
    case Sync => s.(flushed := |s.stream|, synced := |s.stream|)
  }

  /** Where entry `n` of the file begins. */
  function Start(crc: Crc, es: seq<LogEntry>, n: nat): nat
    requires n <= |es|
  {
    HEADER_SIZE + |EncodeAll(crc, es[..n])|
  }

  /** The first `n` entries are on disk. */
  ghost predicate Durable(crc: Crc, s: Log, n: nat) {
    n <= |s.started| && (n == 0 || Start(crc, s.started, n) <= s.synced)
  }

  /** What every step keeps. */
  ghost predicate Inv(crc: Crc, s: Log) {
    && s.batchSize > 0
    && s.stream == Header() + EncodeAll(crc, s.started) && AllEncodable(s.started)
    && |s.started| == s.completed + (if s.phase.Idle? then 0 else 1)
    && s.synced <= s.flushed <= |s.stream|
    && Start(crc, s.started, s.completed) <= s.flushed
    && (!s.phase.Written? ==> s.flushed == |s.stream|)
    && (s.mode.SyncAlways? ==> Durable(crc, s, s.completed))
    && (s.mode.SyncBatch? ==>
        && s.batchCount <= s.batchSize - (if s.phase.Idle? then 1 else 0)
        && (!s.phase.Idle? ==> s.batchCount > 0)
        && (s.batchCount <= |s.started| ==> Durable(crc, s, |s.started| - s.batchCount)))
  }

  lemma {:induction false} StartWhole(crc: Crc, es: seq<LogEntry>)
    ensures Start(crc, es, |es|) == HEADER_SIZE + |EncodeAll(crc, es)|
    ensures Start(crc, es, 0) == HEADER_SIZE
  {
    assert es[..|es|] == es && es[..0] == [];
  }

  lemma StartKept(crc: Crc, es: seq<LogEntry>, e: LogEntry, n: nat)
    requires n <= |es|
    ensures Start(crc, es + [e], n) == Start(crc, es, n)
  {
    assert (es + [e])[..n] == es[..n];
  }

  lemma FreshInv(crc: Crc, mode: SyncMode, batchSize: nat)
    requires batchSize > 0
    ensures Inv(crc, Fresh(mode, batchSize))
  {
  }

  lemma WriteInv(crc: Crc, s: Log, op: Byte, key: Key, value: Value)
    requires Inv(crc, s) && Enabled(s, Write(op, key, value))
    ensures Inv(crc, Step(crc, s, Write(op, key, value)))
  {
    hide Encode, EncodeAll, Header;
    var e := LogEntry(NextSeq(s.sequence), op, key, value);
    EncodeAllConcat(crc, s.started, [e]);
    EncodeAllOne(crc, e);
    StartWhole(crc, s.started);
    StartKept(crc, s.started, e, s.completed);
    if s.batchCount <= |s.started| {
      StartKept(crc, s.started, e, |s.started| - s.batchCount);
    }
    assert Header() + EncodeAll(crc, s.started) + Encode(crc, e) == Header() + (EncodeAll(crc, s.started) + Encode(crc, e));
  }

  lemma StepInv(crc: Crc, s: Log, a: Action)
    requires Inv(crc, s) && Enabled(s, a)
    ensures Inv(crc, Step(crc, s, a))
  {
    hide Encode, EncodeAll, Header;
    StartWhole(crc, s.started);
    match a
    case Write(op, key, value) => WriteInv(crc, s, op, key, value);
    case Spill(upTo) =>
    case Flush =>
    case Return =>
    case Sync =>
  }

  // -------------------------------------------------------------------- runs

  /** A run of the machine, from a fresh or a reopened file. */
  ghost predicate Run(crc: Crc, states: seq<Log>, actions: seq<Action>) {
    && |states| == |actions| + 1 && Inv(crc, states[0])
    && forall i | 0 <= i < |actions| :: Enabled(states[i], actions[i]) && states[i + 1] == Step(crc, states[i], actions[i])
  }

  lemma {:induction false} RunInv(crc: Crc, states: seq<Log>, actions: seq<Action>, i: nat)
    requires Run(crc, states, actions) && i < |states|
    ensures Inv(crc, states[i])
  {
    hide Step, Inv;
    if i > 0 {
      RunInv(crc, states, actions, i - 1);
      StepInv(crc, states[i - 1], actions[i - 1]);
    }
  }

  // ------------------------------------------------------------------ crashes

  /** What a machine crash can leave in the file: at least what was synced, at most what was flushed. */
  ghost predicate CrashImage(s: Log, d: seq<Byte>) {
    d <= s.stream && s.synced <= |d| <= s.flushed
  }

  datatype Opened = Corrupt | Opened(entries: seq<LogEntry>)

  /** What `NewWAL` and `Replay` make of a file: an empty file gets a header, a file without a
      valid header is refused, any other is scanned. */
  function OpenImage(crc: Crc, d: seq<Byte>): Opened {
    if d == [] then Opened([])
    else if |d| < HEADER_SIZE || FromLittle(d[..4]) != WAL_MAGIC || FromLittle(d[4..8]) != WAL_VERSION then Corrupt
    else Opened(Scan(crc, d[HEADER_SIZE..]))
  }

  lemma HeaderValid(d: seq<Byte>)
    requires Header() <= d
    ensures FromLittle(d[..4]) == WAL_MAGIC && FromLittle(d[4..8]) == WAL_VERSION
  {
    hide Little, FromLittle;
    Widths();
    LittleRoundTrip(WAL_MAGIC, 4);
    LittleRoundTrip(WAL_VERSION, 4);
    var h := Header();
    assert d[..8] == h;
    assert d[..4] == h[..4] == Little(WAL_MAGIC, 4) && d[4..8] == h[4..8] == Little(WAL_VERSION, 4);
  }

  /** The images a reopened log refuses are exactly those that end inside the header. */
  lemma OpenCut(crc: Crc, s: Log, d: seq<Byte>)
    requires Inv(crc, s) && d <= s.stream
    ensures OpenImage(crc, d).Corrupt? <==> 0 < |d| < HEADER_SIZE
    ensures |d| >= HEADER_SIZE ==> OpenImage(crc, d) == Opened(s.started[..Whole(s.started, |d| - HEADER_SIZE)])
  {
    hide Encode, EncodeAll, Scan, Whole, Header, FromLittle;
    if |d| >= HEADER_SIZE {
      var c := |d| - HEADER_SIZE;
      assert d == (Header() + EncodeAll(crc, s.started))[..|d|];
      assert d[..HEADER_SIZE] == Header();
      HeaderValid(d);
      assert d[HEADER_SIZE..] == EncodeAll(crc, s.started)[..c];
      CutScan(crc, s.started, c);
    }
  }

  /** A file opens exactly when it is empty or starts with the eight bytes of the header. */
  lemma OpenExactly(crc: Crc, d: seq<Byte>)
    ensures OpenImage(crc, d).Opened? <==> d == [] || [0x31, 0x4C, 0x41, 0x57, 1, 0, 0, 0] <= d
  {
    hide FromLittle, Little, Scan;
    HeaderBytes();
    if |d| >= HEADER_SIZE {
      if Header() <= d { HeaderValid(d); }
      if OpenImage(crc, d).Opened? {
        FromLittleBack(d[..4]);
        FromLittleBack(d[4..8]);
        assert d[..8] == d[..4] + d[4..8];
      }
    }
  }

  /** A log whose header is written but not synced, as a new, a truncated and a rotated one is: a crash
      can leave one to seven bytes of it, and such a file does not open. */
  lemma HeaderTorn(crc: Crc, s: Log, n: nat)
    requires s.stream == Header() && s.flushed == HEADER_SIZE && s.synced == 0 && 0 < n < HEADER_SIZE
    ensures CrashImage(s, Header()[..n]) && OpenImage(crc, Header()[..n]) == Corrupt
  {
    hide FromLittle;
  }

  /** How many completed calls a mode may lose. */
  function MayLose(s: Log): nat {
    match s.mode
    case SyncAlways => 0
    case SyncBatch => if s.batchSize == 0 then 0 else s.batchSize - 1
    case SyncNone => s.completed
  }

  lemma DurableSurvives(crc: Crc, s: Log, d: seq<Byte>, n: nat)
    requires Inv(crc, s) && d <= s.stream && Durable(crc, s, n) && s.synced <= |d|
    ensures n == 0 || (|d| >= HEADER_SIZE && n <= Whole(s.started, |d| - HEADER_SIZE))
  {
    hide Encode, EncodeAll, Scan, Whole, Header;
    if n > 0 {
      WholeAtLeast(crc, s.started, n, |d| - HEADER_SIZE);
    }
  }

  /** Whatever the crash leaves, a file that opens holds a prefix of the entries, in order, missing
      at most what the mode may lose.  It fails to open only when the crash fell inside a header
      that had never been synced. */
  lemma CrashRecovers(crc: Crc, s: Log, d: seq<Byte>) returns (n: nat)
    requires Inv(crc, s) && CrashImage(s, d)
    ensures OpenImage(crc, d).Corrupt? <==> 0 < |d| < HEADER_SIZE
    ensures n <= |s.started| && n + MayLose(s) >= s.completed
    ensures OpenImage(crc, d).Opened? ==> OpenImage(crc, d).entries == s.started[..n]
    ensures s.synced >= HEADER_SIZE ==> OpenImage(crc, d).Opened?
  {
    hide Encode, EncodeAll, Scan, Whole, Header, FromLittle;
    OpenCut(crc, s, d);
    n := if |d| >= HEADER_SIZE then Whole(s.started, |d| - HEADER_SIZE) else 0;
    match s.mode
    case SyncAlways => DurableSurvives(crc, s, d, s.completed);
    case SyncBatch =>
      if s.batchCount <= |s.started| {
        DurableSurvives(crc, s, d, |s.started| - s.batchCount);
      }
    case SyncNone =>
  }

  /** If only the process dies, no completed call is lost in any mode. */
  lemma ProcessCrashLosesNothing(crc: Crc, s: Log) returns (n: nat)
    requires Inv(crc, s)
    ensures s.completed <= n <= |s.started|
    ensures OpenImage(crc, s.stream[..s.flushed]) == Opened(s.started[..n])
  {
    hide Encode, EncodeAll, Scan, Whole, Header, FromLittle;
    var d := s.stream[..s.flushed];
    OpenCut(crc, s, d);
    WholeAtLeast(crc, s.started, s.completed, |d| - HEADER_SIZE);
    n := Whole(s.started, |d| - HEADER_SIZE);
  }

  /** At every point of every run from a fresh or a reopened file, every crash recovers a prefix. */
  lemma RunCrashRecovers(crc: Crc, states: seq<Log>, actions: seq<Action>, i: nat, d: seq<Byte>) returns (n: nat)
    requires Run(crc, states, actions) && i < |states| && CrashImage(states[i], d)
    ensures n <= |states[i].started| && n + MayLose(states[i]) >= states[i].completed
    ensures OpenImage(crc, d) == if 0 < |d| < HEADER_SIZE then Corrupt else Opened(states[i].started[..n])
    ensures states[i].synced >= HEADER_SIZE ==> OpenImage(crc, d).Opened?
  {
    hide Inv, OpenImage;
    RunInv(crc, states, actions, i);
    n := CrashRecovers(crc, states[i], d);
  }

  // --------------------------------------------------------------- reopening

  /** The log of a file that `NewWAL` has opened and that is on disk as it was read. */
  function Reopened(crc: Crc, mode: SyncMode, batchSize: nat, image: seq<Byte>): Log
    requires OpenImage(crc, image).Opened?
  {
    var es := OpenImage(crc, image).entries;
    if image == [] then Fresh(mode, batchSize)
    else Log(mode, batchSize, image, |image|, |image|, LastSeq(es), 0, Idle, es, |es|)
  }

  /** The file has no torn tail. */
  predicate Tidy(crc: Crc, image: seq<Byte>)
    requires OpenImage(crc, image).Opened?
  {
    image == [] || image == Header() + EncodeAll(crc, OpenImage(crc, image).entries)
  }

  lemma {:induction false} ScanEncodable(crc: Crc, d: seq<Byte>)
    ensures AllEncodable(Scan(crc, d))
    decreases |d|
  {
    hide Parse, Begins;
    if Parse(crc, d).Good? {
      ParsedBegins(crc, d);
      ScanEncodable(crc, d[Parse(crc, d).used..]);
    }
  }

  /** A reopened log is a log again, with all that the machine promises, if and only if its file has no
      torn tail. */
  lemma ReopenedInv(crc: Crc, mode: SyncMode, batchSize: nat, image: seq<Byte>)
    requires batchSize > 0 && OpenImage(crc, image).Opened?
    ensures Inv(crc, Reopened(crc, mode, batchSize, image)) <==> Tidy(crc, image)
  {
    hide Encode, EncodeAll, Scan, Header, FromLittle;
    if image == [] {
      FreshInv(crc, mode, batchSize);
    } else {
      ScanEncodable(crc, image[HEADER_SIZE..]);
      StartWhole(crc, OpenImage(crc, image).entries);
    }
  }

  /** What a crash leaves has no torn tail exactly when it ends where an entry ends. */
  lemma CutTidy(crc: Crc, s: Log, d: seq<Byte>)
    requires Inv(crc, s) && d <= s.stream && |d| >= HEADER_SIZE
    ensures OpenImage(crc, d).Opened?
    ensures Tidy(crc, d) <==> exists n | 0 <= n <= |s.started| :: |d| == Start(crc, s.started, n)
  {
    hide Encode, EncodeAll, Scan, Whole, Header, FromLittle;
    OpenCut(crc, s, d);
    var c := |d| - HEADER_SIZE;
    var n := Whole(s.started, c);
    var torn := CutImage(crc, s.started, c);
    assert d == (Header() + EncodeAll(crc, s.started))[..|d|];
    assert d == Header() + EncodeAll(crc, s.started)[..c];
    if Tidy(crc, d) { assert |d| == Start(crc, s.started, n); }
    if m :| 0 <= m <= |s.started| && |d| == Start(crc, s.started, m) {
      WholeAtLeast(crc, s.started, m, c);
      PrefixLength(crc, s.started, m, n);
      assert torn == [];
    }
  }

  lemma PrefixLength(crc: Crc, es: seq<LogEntry>, m: nat, n: nat)
    requires m <= n <= |es|
    ensures |EncodeAll(crc, es[..m])| <= |EncodeAll(crc, es[..n])|
  {
    hide Encode, EncodeAll;
    EncodeAllConcat(crc, es[..m], es[m..n]);
    assert es[..m] + es[m..n] == es[..n];
  }

  // --------------------------------------------------------------- numbering

  /** The entries of the file are numbered without a gap, and the last one has the number `sequence`. */
  ghost predicate Numbered(s: Log) {
    forall i | 0 <= i < |s.started| :: s.started[i].seqno + |s.started| == s.sequence + i + 1
  }

  lemma NumbersRise(s: Log, i: nat, j: nat)
    requires Numbered(s) && i < j < |s.started|
    ensures s.started[i].seqno < s.started[j].seqno <= s.sequence && s.started[|s.started| - 1].seqno == s.sequence
  {
  }

  /** The sequence number is one of 64 bits. */
  lemma NextSeqIs(n: nat)
    requires n < TWO64
    ensures NextSeq(n) == if n + 1 == TWO64 then 0 else n + 1
  {
  }

  /** Below 2^64 every step keeps the numbering. */
  lemma StepNumbered(crc: Crc, s: Log, a: Action)
    requires Numbered(s) && Enabled(s, a) && (a.Write? ==> s.sequence + 1 < TWO64)
    ensures Numbered(Step(crc, s, a)) && Step(crc, s, a).sequence == s.sequence + if a.Write? then 1 else 0
  {
    hide Encode;
    var t := Step(crc, s, a);
    forall i | 0 <= i < |t.started| ensures t.started[i].seqno + |t.started| == t.sequence + i + 1 {
      if i < |s.started| { assert t.started[i] == s.started[i]; }
    }
  }

  lemma {:induction false} RunNumbered(crc: Crc, states: seq<Log>, actions: seq<Action>, i: nat)
    requires Run(crc, states, actions) && i < |states| && Numbered(states[0]) && states[0].sequence + |actions| < TWO64
    ensures Numbered(states[i]) && states[0].sequence <= states[i].sequence <= states[0].sequence + i
  {
    hide Step, Inv, Numbered;
    if i > 0 {
      RunNumbered(crc, states, actions, i - 1);
      StepNumbered(crc, states[i - 1], actions[i - 1]);
    }
  }

  /** Whatever a crash leaves of the file, the reopened log is numbered again.  It goes on where the last
      entry it has stood, so behind a file with all its entries as the live log would; behind a file
      without any it begins again at zero. */
  lemma ReopenedNumbered(crc: Crc, s: Log, d: seq<Byte>, mode: SyncMode, batchSize: nat)
    requires Inv(crc, s) && Numbered(s) && d <= s.stream && (d == [] || |d| >= HEADER_SIZE)
    ensures OpenImage(crc, d).Opened? && Numbered(Reopened(crc, mode, batchSize, d))
    ensures var t := Reopened(crc, mode, batchSize, d);
      && t.started <= s.started
      && (if t.started == [] then t.sequence == 0 else t.sequence + (|s.started| - |t.started|) == s.sequence)
  {
    hide Encode, EncodeAll, Scan, Whole, Header, FromLittle, Inv;
    OpenCut(crc, s, d);
  }
}
