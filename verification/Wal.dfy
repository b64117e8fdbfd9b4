/** The write-ahead log object and its reader. */
module Wal {
  import opened Bytes
  import opened Fixed
  import opened LogCodec
  import opened LogMachine
  import Archives

  const DEFAULT_BATCH: nat := 100

  /** The buffered reader over a file. */
  class Reader {
    const data: seq<Byte>
    var pos: nat

    constructor (data: seq<Byte>, start: nat)
      requires start <= |data|
      ensures this.data == data && pos == start
    {
      this.data, pos := data, start;
    }

    /** `io.ReadFull`: all `n` bytes or none. */
    method ReadFull(n: nat) returns (r: Option<seq<Byte>>)
      requires pos <= |data|
      modifies this
      ensures pos <= |data|
      ensures if old(pos) + n <= |data| then r == Some(data[old(pos)..old(pos) + n]) && pos == old(pos) + n else r == None
    {
      if pos + n > |data| {
        pos := |data|;
        return None;
      }
      r := Some(data[pos..pos + n]);
      pos := pos + n;
    }

    /** A length of four bytes, and as many bytes as it says. */
    method ReadSized() returns (r: Option<seq<Byte>>)
      requires pos <= |data|
      modifies this
      ensures pos <= |data|
      ensures var p := old(pos);
        if p + 4 > |data| || p + 4 + FromLittle(data[p..p + 4]) > |data| then r == None
        else var n := FromLittle(data[p..p + 4]); r == Some(data[p + 4..p + 4 + n]) && pos == p + 4 + n
    {
      hide FromLittle;
      var length := ReadFull(4);
      if length.None? { return None; }
      r := ReadFull(FromLittle(length.value));
    }

    /** `readEntry`, one field after another. */
    method ReadEntry(crc: Crc) returns (r: Option<LogEntry>)
      requires pos <= |data|
      modifies this
      ensures pos <= |data|
      ensures var p := Parse(crc, data[old(pos)..]);
        if p.Stop? then r == None else r == Some(p.entry) && pos == old(pos) + p.used
    {
      hide FromLittle, Checksum, Parse;
      ParseAtIs(crc, data, pos);
      var length := ReadFull(4);
      if length.None? { return None; }
      var seqno := ReadFull(8);
      if seqno.None? { return None; }
      var op := ReadFull(1);
      if op.None? { return None; }
      var key := ReadSized();
      if key.None? { return None; }
      var value := ReadSized();
      if value.None? { return None; }
      var checksum := ReadFull(4);
      if checksum.None? { return None; }
      var e := LogEntry(FromLittle(seqno.value), op.value[0], key.value, value.value);
      if FromLittle(checksum.value) != Checksum(crc, e) { return None; }
      r := Some(e);
    }
  }

  /** `Parse` of what is left from `at` on, with every field at its place in the file. */
  ghost function ParseAt(crc: Crc, data: seq<Byte>, at: nat): Parsed
    requires at <= |data|
  {
    if |data| < at + 17 then Stop else
    var k := FromLittle(data[at + 13..at + 17]);
    if |data| < at + 21 + k then Stop else
    var v := FromLittle(data[at + 17 + k..at + 21 + k]);
    if |data| < at + 25 + k + v then Stop else
    var e := LogEntry(FromLittle(data[at + 4..at + 12]), data[at + 12], data[at + 17..at + 17 + k],
      data[at + 21 + k..at + 21 + k + v]);
    if FromLittle(data[at + 21 + k + v..at + 25 + k + v]) != Checksum(crc, e) then Stop else Good(e, 25 + k + v)
  }

  lemma ParseAtIs(crc: Crc, data: seq<Byte>, at: nat)
    requires at <= |data|
    ensures ParseAt(crc, data, at) == Parse(crc, data[at..])
  {
    hide FromLittle, Checksum;
    var d := data[at..];
    forall i, j | 0 <= i <= j <= |d| ensures d[i..j] == data[at + i..at + j] { }
  }

  /** `validateAndRecover`: check the header, find the last sequence number. */
  method ValidateAndRecover(crc: Crc, image: seq<Byte>) returns (ok: bool, sequence: nat)
    requires image != []
    ensures ok <==> OpenImage(crc, image).Opened?
    ensures ok ==> var es := OpenImage(crc, image).entries; sequence == if es == [] then 0 else es[|es| - 1].seqno
  {
    hide FromLittle, Parse, Scan;
    sequence := 0;
    if |image| < HEADER_SIZE { return false, 0; }
    if FromLittle(image[..4]) != WAL_MAGIC { return false, 0; }
    if FromLittle(image[4..8]) != WAL_VERSION { return false, 0; }
    var reader := new Reader(image, HEADER_SIZE);
    ghost var found := [];
    ghost var all := Scan(crc, image[HEADER_SIZE..]);
    while true
      invariant reader.data == image && reader.pos <= |image|
      invariant all == found + Scan(crc, image[reader.pos..])
      invariant sequence == LastSeq(found)
      decreases |image| - reader.pos
    {
      ghost var at := reader.pos;
      ScanUnfold(crc, image[at..]);
      var e := reader.ReadEntry(crc);
      if e.None? { break; }
      assert image[at..][reader.pos - at..] == image[reader.pos..];
      assert found + ([e.value] + Scan(crc, image[reader.pos..])) == (found + [e.value]) + Scan(crc, image[reader.pos..]);
      found := found + [e.value];
      sequence := e.value.seqno;
    }
    ok := true;
  }

  lemma ScanUnfold(crc: Crc, d: seq<Byte>)
    ensures var p := Parse(crc, d);
      Scan(crc, d) == if p.Stop? then [] else [p.entry] + Scan(crc, d[p.used..])
    ensures Parse(crc, d).Good? ==> 0 < Parse(crc, d).used <= |d|
  {
  }

  /** A whole `Append` as a run of the machine. */
  function AppendState(crc: Crc, s: Log, op: Byte, key: Key, value: Value): Log
    requires s.phase.Idle? && |key| < TWO32 && |value| < TWO32
  {
    Step(crc, Step(crc, Step(crc, s, Write(op, key, value)), Flush), Return)
  }

  lemma AppendInv(crc: Crc, s: Log, op: Byte, key: Key, value: Value)
    requires Inv(crc, s) && s.phase.Idle? && |key| < TWO32 && |value| < TWO32
    ensures Inv(crc, AppendState(crc, s, op, key, value))
  {
    hide Inv;
    StepInv(crc, s, Write(op, key, value));
    var t := Step(crc, s, Write(op, key, value));
    StepInv(crc, t, Flush);
    StepInv(crc, Step(crc, t, Flush), Return);
  }

  lemma AppendNumbered(crc: Crc, s: Log, op: Byte, key: Key, value: Value)
    requires Numbered(s) && s.phase.Idle? && |key| < TWO32 && |value| < TWO32 && s.sequence + 1 < TWO64
    ensures Numbered(AppendState(crc, s, op, key, value))
  {
    hide Numbered;
    StepNumbered(crc, s, Write(op, key, value));
    var t := Step(crc, s, Write(op, key, value));
    StepNumbered(crc, t, Flush);
    StepNumbered(crc, Step(crc, t, Flush), Return);
  }

  class WAL {
    const crc: Crc
    const mode: SyncMode
    const batchSize: nat
    var file: seq<Byte>    // bytes handed to the operating system
    var buffer: seq<Byte>  // bytes in the buffered writer
    var synced: nat        // bytes of the file known to be on disk
    var sequence: nat
    var batchCount: nat
    var lastCheckpoint: nat
    var archives: map<nat, seq<Byte>>
    ghost var started: seq<LogEntry>

    ghost function State(): Log
      reads this
    {
      Log(mode, batchSize, file + buffer, |file|, synced, sequence, batchCount, Idle, started, |started|)
    }

    ghost predicate Valid()
      reads this
    {
      buffer == [] && Inv(crc, State())
    }

    /** `d` is an account of this log's files. */
    ghost predicate Tracks(d: Archives.Disk)
      reads this
    {
      && d.current == started && d.sequence == sequence
      && Archives.NamesDiffer(d.archives) && archives == Archives.Files(crc, d.archives)
    }

    /** `NewWAL` on an empty file: the header is flushed and not synced. */
    constructor (crc: Crc, mode: SyncMode, batchSize: int, archives: map<nat, seq<Byte>> := map[])
      ensures Valid() && Numbered(State()) && this.archives == archives && (archives == map[] ==> Tracks(Archives.EMPTY))
      ensures State() == Fresh(mode, if batchSize <= 0 then DEFAULT_BATCH else batchSize) && this.crc == crc
    {
      this.crc, this.mode := crc, mode;
      this.batchSize := if batchSize <= 0 then DEFAULT_BATCH else batchSize;
      file, buffer, synced := Header(), [], 0;
      sequence, batchCount, lastCheckpoint, this.archives, started := 0, 0, 0, archives, [];
      new;
      assert file + buffer == Header();
      FreshInv(crc, mode, this.batchSize);
    }

    /** `NewWAL` on a file with a valid header, whose last readable entry has number `sequence`. */
    constructor Existing(crc: Crc, mode: SyncMode, batchSize: int, image: seq<Byte>, sequence: nat, archives: map<nat, seq<Byte>> := map[])
      requires image != [] && OpenImage(crc, image).Opened? && sequence == LastSeq(OpenImage(crc, image).entries)
      ensures State() == Reopened(crc, mode, if batchSize <= 0 then DEFAULT_BATCH else batchSize, image) && this.crc == crc
      ensures file == image && this.archives == archives && (Valid() <==> Tidy(crc, image))
    {
      this.crc, this.mode := crc, mode;
      this.batchSize := if batchSize <= 0 then DEFAULT_BATCH else batchSize;
      file, buffer, synced := image, [], |image|;
      this.sequence, batchCount, lastCheckpoint, this.archives, started := sequence, 0, 0, archives, OpenImage(crc, image).entries;
      new;
      assert file + buffer == image;
      ReopenedInv(crc, mode, this.batchSize, image);
    }

    method WriteEntry(e: LogEntry)
      modifies this`buffer
      ensures buffer == old(buffer) + Encode(crc, e)
    {
      hide Little, Checksum;
      var entryLen := 8 + 1 + 4 + |e.key| + 4 + |e.value| + 4;
      buffer := buffer + Little(entryLen, 4);
      buffer := buffer + Little(e.seqno, 8);
      buffer := buffer + [e.op];
      buffer := buffer + Little(|e.key|, 4);
      buffer := buffer + e.key;
      buffer := buffer + Little(|e.value|, 4);
      buffer := buffer + e.value;
      buffer := buffer + Little(Checksum(crc, e), 4);
      assert buffer == old(buffer) + Encode(crc, e);
    }

    method FlushBuffer()
      modifies this`file, this`buffer
      ensures file == old(file + buffer) && buffer == []
    {
      file, buffer := file + buffer, [];
    }

    method SyncFile()
      modifies this`file, this`buffer, this`synced
      ensures file == old(file + buffer) && buffer == [] && synced == |file|
    {
      FlushBuffer();
      synced := |file|;
    }

    method MaybeSync()
      modifies this`file, this`buffer, this`synced, this`batchCount
      ensures file == old(file + buffer) && buffer == []
      ensures var syncs := mode.SyncAlways? || (mode.SyncBatch? && old(batchCount) >= batchSize);
        && synced == (if syncs then |file| else old(synced))
        && batchCount == (if syncs && mode.SyncBatch? then 0 else old(batchCount))
    {
      match mode
      case SyncAlways => SyncFile();
      case SyncBatch =>
        if batchCount >= batchSize {
          batchCount := 0;
          SyncFile();
        } else {
          FlushBuffer();
        }
      case SyncNone => FlushBuffer();
    }

    method Append(op: Byte, key: Key, value: Value) returns (seqno: nat)
      requires Valid() && |key| < TWO32 && |value| < TWO32
      modifies this
      ensures Valid() && State() == AppendState(crc, old(State()), op, key, value)
      ensures started == old(started) + [LogEntry(seqno, op, key, value)] && seqno == sequence == NextSeq(old(sequence))
      ensures old(Numbered(State())) && old(sequence) + 1 < TWO64 ==> Numbered(State())
      ensures forall d | old(Tracks(d)) && old(sequence) + 1 < TWO64 :: Tracks(Archives.Step(d, Archives.Append(op, key, value)))
    {
      hide Encode, EncodeAll, Inv, Header, Numbered;
      AppendInv(crc, State(), op, key, value);
      if Numbered(State()) && sequence + 1 < TWO64 { AppendNumbered(crc, State(), op, key, value); }
      sequence := (sequence + 1) % TWO64;
      seqno := sequence;
      ghost var stream := file + buffer;
      var e := LogEntry(sequence, op, key, value);
      WriteEntry(e);
      started := started + [e];
      batchCount := batchCount + 1;
      assert file + buffer == stream + Encode(crc, e);
      MaybeSync();
      assert file + buffer == file;
    }

    method Sync()
      requires Valid()
      modifies this`file, this`buffer, this`synced
      ensures Valid() && State() == Step(crc, old(State()), Action.Sync) && synced == |file|
    {
      hide Inv;
      StepInv(crc, State(), Action.Sync);
      SyncFile();
      assert file + buffer == file;
    }

    /** `Checkpoint`: the entries of the file are dropped, the numbering goes on. */
    method Checkpoint()
      requires Valid()
      modifies this`file, this`buffer, this`synced, this`lastCheckpoint, this`started
      ensures Valid() && Numbered(State()) && file == Header() && lastCheckpoint == sequence
      ensures State() == Fresh(mode, batchSize).(sequence := old(sequence), batchCount := old(batchCount))
      ensures forall d | old(Tracks(d)) :: Tracks(Archives.Step(d, Archives.Checkpoint))
    {
      SyncFile();
      lastCheckpoint := sequence;
      file, buffer, synced, started := Header(), [], 0, [];
      assert file + buffer == Header() + EncodeAll(crc, []);
    }

    /** `RotateLog`: the file, whole and synced, becomes the archive named after the sequence. */
    method RotateLog() returns (name: nat)
      requires Valid()
      modifies this`file, this`buffer, this`synced, this`archives, this`started
      ensures Valid() && Numbered(State()) && file == Header()
      ensures State() == Fresh(mode, batchSize).(sequence := old(sequence), batchCount := old(batchCount))
      ensures name == sequence && archives == old(archives)[name := Archives.FileBytes(crc, old(started))]
      ensures forall d | old(Tracks(d)) :: Tracks(Archives.Step(d, Archives.Rotate))
    {
      forall d: Archives.Disk | Tracks(d)
        ensures archives[sequence := Archives.FileBytes(crc, started)] == Archives.Files(crc, Archives.Step(d, Archives.Rotate).archives)
        ensures Archives.NamesDiffer(Archives.Step(d, Archives.Rotate).archives)
      {
        Archives.FilesRename(crc, d.archives, d.sequence, d.current);
      }
      SyncFile();
      archives := archives[sequence := file];
      name := sequence;
      file, buffer, synced, started := Header(), [], 0, [];
      assert file + buffer == Header() + EncodeAll(crc, []);
    }
  }

  /** `NewWAL` on any file, with the rotated files beside it: an error exactly for a bad header; the log
      resumes from the last readable entry, and is a valid log again exactly when the file has no torn
      tail. */
  method OpenWAL(crc: Crc, mode: SyncMode, batchSize: int, image: seq<Byte>, archives: map<nat, seq<Byte>> := map[]) returns (r: WAL?)
    ensures r == null <==> OpenImage(crc, image).Corrupt?
    ensures r != null ==> fresh(r) && r.crc == crc && r.archives == archives && (r.Valid() <==> Tidy(crc, image))
    ensures r != null ==> r.State() == Reopened(crc, mode, if batchSize <= 0 then DEFAULT_BATCH else batchSize, image)
  {
    hide FromLittle, Parse, Scan, Inv, Header, Numbered;
    if image == [] {
      r := new WAL(crc, mode, batchSize, archives);
      return;
    }
    var ok, sequence := ValidateAndRecover(crc, image);
    if !ok { return null; }
    r := new WAL.Existing(crc, mode, batchSize, image, sequence, archives);
  }

  /** A running log opened again: the same entries and archives.  With an entry in the file the numbering
      goes on where it was; with none it begins again at zero. */
  method ReopenWAL(w: WAL, mode: SyncMode, batchSize: int) returns (r: WAL)
    requires w.Valid() && Numbered(w.State())
    ensures fresh(r) && r.Valid() && Numbered(r.State()) && r.started == w.started && r.archives == w.archives
    ensures r.sequence == if w.started == [] then 0 else w.sequence
    ensures forall d | w.Tracks(d) :: r.Tracks(Archives.Step(d, Archives.Reopen))
  {
    hide FromLittle, Scan, Inv, Header, Encode, EncodeAll, Whole, Archives.Files;
    FileIsLog(w);
    ReopenedNumbered(w.crc, w.State(), w.file, mode, if batchSize <= 0 then DEFAULT_BATCH else batchSize);
    var o := OpenWAL(w.crc, mode, batchSize, w.file, w.archives);
    r := o;
  }

  lemma FileIsLog(wal: WAL)
    requires wal.Valid()
    ensures wal.file == wal.State().stream && |wal.file| >= HEADER_SIZE
    ensures OpenImage(wal.crc, wal.file) == Opened(wal.started) && Tidy(wal.crc, wal.file)
  {
    hide Scan, FromLittle, EncodeAll, Encode, Header;
    var s := wal.State();
    assert s.stream == wal.file;
    var n := ProcessCrashLosesNothing(wal.crc, s);
    assert s.stream[..s.flushed] == wal.file && s.started[..n] == s.started;
  }
}
