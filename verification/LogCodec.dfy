/** The bytes of the write-ahead log and the scan that reads them back. */
module LogCodec {
  import opened Bytes
  import opened Fixed

  const OP_INSERT: Byte := 1
  const OP_DELETE: Byte := 2
  const OP_CLEAR: Byte := 3
  const WAL_MAGIC: nat := 0x57414C31
  const WAL_VERSION: nat := 1
  const HEADER_SIZE: nat := 8

  datatype LogEntry = LogEntry(seqno: nat, op: Byte, key: Key, value: Value)

  /** Any function of bytes; CRC-32 in the program. */
  type Crc = seq<Byte> -> nat

  /** The bytes that the checksum is computed from: the lengths are not among them. */
  function Covered(e: LogEntry): seq<Byte> {
    Little(e.seqno, 8) + [e.op] + e.key + e.value
  }

  function Checksum(crc: Crc, e: LogEntry): (c: nat)
    ensures c < TWO32
  {
    crc(Covered(e)) % TWO32
  }

  /** What the fixed widths can carry. */
  predicate Encodable(e: LogEntry) {
    e.seqno < TWO64 && |e.key| < TWO32 && |e.value| < TWO32
  }

  function Header(): (h: seq<Byte>)
    ensures |h| == HEADER_SIZE
  {
    Little(WAL_MAGIC, 4) + Little(WAL_VERSION, 4)
  }

  /** The bytes that a log file starts with: `WAL1` backwards, and the version. */
  lemma HeaderBytes()
    ensures Header() == [0x31, 0x4C, 0x41, 0x57, 1, 0, 0, 0]
  {
    hide Little;
    LittleIs(WAL_MAGIC, 4);
    LittleIs(0x57414C, 3);
    LittleIs(0x5741, 2);
    LittleIs(0x57, 1);
    LittleIs(WAL_VERSION, 4);
    LittleIs(0, 3);
    LittleIs(0, 2);
    LittleIs(0, 1);
    LittleIs(0, 0);
  }

  /** The number of bytes an entry takes, with its length prefix. */
  function Size(e: LogEntry): nat {
    25 + |e.key| + |e.value|
  }

  /** `writeEntry`. */
  function Encode(crc: Crc, e: LogEntry): (b: seq<Byte>)
    ensures |b| == Size(e)
  {
    Little(Size(e) - 4, 4) + Little(e.seqno, 8) + [e.op]
    + Little(|e.key|, 4) + e.key + Little(|e.value|, 4) + e.value + Little(Checksum(crc, e), 4)
  }

  function EncodeAll(crc: Crc, es: seq<LogEntry>): seq<Byte> {
    if es == [] then [] else Encode(crc, es[0]) + EncodeAll(crc, es[1..])
  }

  datatype Parsed = Stop | Good(entry: LogEntry, used: nat)

  /** `readEntry`: field by field, every short read stops, and so does a wrong checksum.  The
      length prefix is read and not used. */
  function Parse(crc: Crc, d: seq<Byte>): (r: Parsed)
    ensures r.Good? ==> 0 < r.used <= |d|
  {
    if |d| < 17 then Stop else
    var k := FromLittle(d[13..17]);
    if |d| < 21 + k then Stop else
    var v := FromLittle(d[17 + k..21 + k]);
    if |d| < 25 + k + v then Stop else
    var e := LogEntry(FromLittle(d[4..12]), d[12], d[17..17 + k], d[21 + k..21 + k + v]);
    if FromLittle(d[21 + k + v..25 + k + v]) != Checksum(crc, e) then Stop
    else Good(e, 25 + k + v)
  }

  /** All entries up to the first that does not parse. */
  function Scan(crc: Crc, d: seq<Byte>): seq<LogEntry>
    decreases |d|
  {
    match Parse(crc, d)
    case Stop => []
    case Good(e, used) => [e] + Scan(crc, d[used..])
  }

  /** How many of `es` end at or before byte `c`. */
  function Whole(es: seq<LogEntry>, c: nat): (n: nat)
    ensures n <= |es|
  {
    if es == [] || Size(es[0]) > c then 0 else 1 + Whole(es[1..], c - Size(es[0]))
  }

  /** The sequence number a reopened log resumes from. */
  function LastSeq(es: seq<LogEntry>): nat {
    if es == [] then 0 else es[|es| - 1].seqno
  }

  // ------------------------------------------------------------- one entry

  /** The layout of an encoded entry, byte by byte. */
  lemma Layout(crc: Crc, e: LogEntry)
    ensures var b, k, v := Encode(crc, e), |e.key|, |e.value|;
      && |b| == 25 + k + v && b[..4] == Little(21 + k + v, 4)
      && b[4..12] == Little(e.seqno, 8) && b[12] == e.op
      && b[13..17] == Little(k, 4) && b[17..17 + k] == e.key
      && b[17 + k..21 + k] == Little(v, 4) && b[21 + k..21 + k + v] == e.value
      && b[21 + k + v..] == Little(Checksum(crc, e), 4)
  {
    hide Little, Checksum;
    var b, k, v := Encode(crc, e), |e.key|, |e.value|;
    assert b[..4] == Little(21 + k + v, 4);
    assert b[4..12] == Little(e.seqno, 8);
    assert b[13..17] == Little(k, 4);
    assert b[17..17 + k] == e.key;
    assert b[17 + k..21 + k] == Little(v, 4);
    assert b[21 + k..21 + k + v] == e.value;
  }

  lemma SameSlice(s: seq<Byte>, t: seq<Byte>, a: nat, b: nat, i: nat, j: nat)
    requires a <= i <= j <= b && b <= |s| && b <= |t| && s[a..b] == t[a..b]
    ensures s[i..j] == t[i..j]
  {
    forall x | i <= x < j ensures s[x] == t[x] { assert s[x] == s[a..b][x - a] && t[x] == t[a..b][x - a]; }
  }

  lemma JoinSlices(s: seq<Byte>, t: seq<Byte>, i: nat, j: nat, k: nat)
    requires i <= j <= k && k <= |s| && k <= |t| && s[i..j] == t[i..j] && s[j..k] == t[j..k]
    ensures s[i..k] == t[i..k]
  {
    assert s[i..k] == s[i..j] + s[j..k];
    assert t[i..k] == t[i..j] + t[j..k];
  }

  /** `d` starts with the entry, whatever its length prefix says. */
  ghost predicate Begins(crc: Crc, e: LogEntry, d: seq<Byte>) {
    Size(e) <= |d| && d[4..Size(e)] == Encode(crc, e)[4..]
  }

  /** The byte positions of an entry's fields. */
  lemma Fields(crc: Crc, e: LogEntry, d: seq<Byte>)
    requires Begins(crc, e, d)
    ensures var k, v := |e.key|, |e.value|;
      && |d| >= 25 + k + v
      && d[4..12] == Little(e.seqno, 8) && d[12] == e.op
      && d[13..17] == Little(k, 4) && d[17..17 + k] == e.key
      && d[17 + k..21 + k] == Little(v, 4) && d[21 + k..21 + k + v] == e.value
      && d[21 + k + v..25 + k + v] == Little(Checksum(crc, e), 4)
  {
    hide Little, Checksum, Encode;
    Layout(crc, e);
    var b, n, k, v := Encode(crc, e), Size(e), |e.key|, |e.value|;
    assert b[4..] == b[4..n] && b[21 + k + v..] == b[21 + k + v..n];
    SameSlice(d, b, 4, n, 4, 12);
    SameSlice(d, b, 4, n, 12, 13);
    assert d[12] == d[12..13][0] == b[12..13][0] == b[12];
    SameSlice(d, b, 4, n, 13, 17);
    SameSlice(d, b, 4, n, 17, 17 + k);
    SameSlice(d, b, 4, n, 17 + k, 21 + k);
    SameSlice(d, b, 4, n, 21 + k, 21 + k + v);
    SameSlice(d, b, 4, n, 21 + k + v, n);
  }

  lemma WholeBegins(crc: Crc, e: LogEntry, d: seq<Byte>)
    requires Encode(crc, e) <= d
    ensures Begins(crc, e, d)
  {
    hide Encode;
    assert d[..Size(e)] == Encode(crc, e);
    assert d[4..Size(e)] == d[..Size(e)][4..];
  }

  lemma ParseBegins(crc: Crc, e: LogEntry, d: seq<Byte>)
    requires Encodable(e) && Begins(crc, e, d)
    ensures Parse(crc, d) == Good(e, Size(e))
  {
    hide Little, FromLittle, Checksum, Begins;
    Fields(crc, e, d);
    Widths();
    LittleRoundTrip(e.seqno, 8);
    LittleRoundTrip(|e.key|, 4);
    LittleRoundTrip(|e.value|, 4);
    LittleRoundTrip(Checksum(crc, e), 4);
  }

  /** An entry followed by anything is read back whole. */
  lemma ParseWhole(crc: Crc, e: LogEntry, d: seq<Byte>)
    requires Encodable(e) && Encode(crc, e) <= d
    ensures Parse(crc, d) == Good(e, Size(e))
  {
    hide Encode, Begins;
    WholeBegins(crc, e, d);
    ParseBegins(crc, e, d);
  }

  /** What is read is there: every byte but the length prefix is that of the entry. */
  lemma ParsedBegins(crc: Crc, d: seq<Byte>)
    requires Parse(crc, d).Good?
    ensures var p := Parse(crc, d); Encodable(p.entry) && p.used == Size(p.entry) && Begins(crc, p.entry, d)
  {
    hide Little, FromLittle, Checksum, Encode;
    var k := FromLittle(d[13..17]);
    var v := FromLittle(d[17 + k..21 + k]);
    var e, n := Parse(crc, d).entry, 25 + k + v;
    FromLittleBound(d[4..12]);
    FromLittleBound(d[13..17]);
    FromLittleBound(d[17 + k..21 + k]);
    Widths();
    FromLittleBack(d[4..12]);
    FromLittleBack(d[13..17]);
    FromLittleBack(d[17 + k..21 + k]);
    FromLittleBack(d[21 + k + v..n]);
    Pieces(crc, e, d, k, v);
  }

  lemma Pieces(crc: Crc, e: LogEntry, d: seq<Byte>, k: nat, v: nat)
    requires k == |e.key| && v == |e.value| && |d| >= 25 + k + v
    requires d[4..12] == Little(e.seqno, 8) && d[12] == e.op
    requires d[13..17] == Little(k, 4) && d[17..17 + k] == e.key
    requires d[17 + k..21 + k] == Little(v, 4) && d[21 + k..21 + k + v] == e.value
    requires d[21 + k + v..25 + k + v] == Little(Checksum(crc, e), 4)
    ensures Begins(crc, e, d)
  {
    hide Little, Checksum, Encode;
    var b, n := Encode(crc, e), 25 + k + v;
    Layout(crc, e);
    assert b[21 + k + v..n] == b[21 + k + v..] && b[4..n] == b[4..];
    assert d[12..13] == [d[12]] && b[12..13] == [b[12]];
    JoinSlices(d, b, 4, 12, 13);
    JoinSlices(d, b, 4, 13, 17);
    JoinSlices(d, b, 4, 17, 17 + k);
    JoinSlices(d, b, 4, 17 + k, 21 + k);
    JoinSlices(d, b, 4, 21 + k, 21 + k + v);
    JoinSlices(d, b, 4, 21 + k + v, n);
  }

  /** `readEntry` reads an entry if and only if the bytes after the length prefix are those that
      `writeEntry` writes for it, checksum included. */
  lemma ParseExactly(crc: Crc, d: seq<Byte>, e: LogEntry, n: nat)
    ensures Parse(crc, d) == Good(e, n) <==> Encodable(e) && n == Size(e) && Begins(crc, e, d)
  {
    hide Parse, Begins, Encode;
    if Parse(crc, d) == Good(e, n) { ParsedBegins(crc, d); }
    if Encodable(e) && n == Size(e) && Begins(crc, e, d) { ParseBegins(crc, e, d); }
  }

  /** The checksum of a written entry is that of the bytes of sequence number, operation, key and
      value in the file. */
  lemma ChecksumInFile(crc: Crc, e: LogEntry, d: seq<Byte>)
    requires Encode(crc, e) <= d
    ensures var k, v := |e.key|, |e.value|;
      |d| >= 25 + k + v && FromLittle(d[21 + k + v..25 + k + v]) == crc(d[4..13] + d[17..17 + k] + d[21 + k..21 + k + v]) % TWO32
  {
    hide Little, FromLittle, Encode, Begins;
    WholeBegins(crc, e, d);
    Fields(crc, e, d);
    Widths();
    LittleRoundTrip(Checksum(crc, e), 4);
    assert d[4..13] == d[4..12] + [d[12]];
    assert Covered(e) == d[4..13] + d[17..17 + |e.key|] + d[21 + |e.key|..21 + |e.key| + |e.value|];
  }

  /** Two entries have the same checksum under every checksum function exactly when they differ at most
      in where the key ends and the value begins. */
  lemma CoveredExactly(a: LogEntry, b: LogEntry)
    requires Encodable(a) && Encodable(b)
    ensures (forall crc: Crc :: Checksum(crc, a) == Checksum(crc, b)) <==>
      a.seqno == b.seqno && a.op == b.op && a.key + a.value == b.key + b.value
  {
    hide Little, FromLittle;
    var x, y := Covered(a), Covered(b);
    assert x == Little(a.seqno, 8) + [a.op] + (a.key + a.value) && y == Little(b.seqno, 8) + [b.op] + (b.key + b.value);
    if forall crc: Crc :: Checksum(crc, a) == Checksum(crc, b) {
      var crc: Crc := d => if d == x then 1 else 0;
      assert Checksum(crc, a) == Checksum(crc, b);
      assert x == y;
      Widths();
      LittleRoundTrip(a.seqno, 8);
      LittleRoundTrip(b.seqno, 8);
      assert x[..8] == Little(a.seqno, 8) && y[..8] == Little(b.seqno, 8);
      assert x[8] == a.op && y[8] == b.op && x[9..] == a.key + a.value && y[9..] == b.key + b.value;
    }
  }

  /** One byte moved from key to value: number, operation and checksum of the written entry stay, and the
      altered bytes are read as another entry. */
  lemma BoundaryMoved(crc: Crc, n: nat, op: Byte, x: Byte)
    requires n < TWO64
    ensures var a, b := LogEntry(n, op, [x], []), LogEntry(n, op, [], [x]);
      && Encode(crc, a)[..13] == Encode(crc, b)[..13] && Encode(crc, a)[22..] == Encode(crc, b)[22..]
      && Parse(crc, Encode(crc, b)) == Good(b, 26)
  {
    hide Little, FromLittle, Encode, Parse, Checksum;
    var a, b := LogEntry(n, op, [x], []), LogEntry(n, op, [], [x]);
    Layout(crc, a);
    Layout(crc, b);
    ParseWhole(crc, b, Encode(crc, b));
    assert a.key + a.value == b.key + b.value;
    CoveredExactly(a, b);
    assert Checksum(crc, a) == Checksum(crc, b);
    var p, q := Encode(crc, a), Encode(crc, b);
    assert p[..13] == p[..4] + p[4..12] + [p[12]] && q[..13] == q[..4] + q[4..12] + [q[12]];
  }

  /** A damaged entry: the bytes are those of `e` but for the length prefix and the checksum, which is
      another one. */
  ghost predicate Damaged(crc: Crc, e: LogEntry, b: seq<Byte>) {
    |b| == Size(e) && b[4..Size(e) - 4] == Encode(crc, e)[4..Size(e) - 4] && b[Size(e) - 4..] != Encode(crc, e)[Size(e) - 4..]
  }

  lemma DamagedUnread(crc: Crc, e: LogEntry, b: seq<Byte>, tail: seq<Byte>)
    requires Encodable(e) && Damaged(crc, e, b)
    ensures Parse(crc, b + tail) == Stop
  {
    hide Little, FromLittle, Checksum, Encode;
    var d, n, k, v := b + tail, Size(e), |e.key|, |e.value|;
    var w := Encode(crc, e);
    Layout(crc, e);
    assert d[4..n - 4] == b[4..n - 4];
    SameSlice(d, w, 4, n - 4, 4, 12);
    SameSlice(d, w, 4, n - 4, 12, 13);
    assert d[12] == d[12..13][0] == w[12..13][0] == w[12];
    SameSlice(d, w, 4, n - 4, 13, 17);
    SameSlice(d, w, 4, n - 4, 17, 17 + k);
    SameSlice(d, w, 4, n - 4, 17 + k, 21 + k);
    SameSlice(d, w, 4, n - 4, 21 + k, 21 + k + v);
    Widths();
    LittleRoundTrip(e.seqno, 8);
    LittleRoundTrip(k, 4);
    LittleRoundTrip(v, 4);
    assert d[n - 4..n] == b[n - 4..];
    FromLittleBack(b[n - 4..]);
  }

  /** An entry that is cut short is not read at all. */
  lemma ParseTorn(crc: Crc, e: LogEntry, d: seq<Byte>)
    requires Encodable(e) && d <= Encode(crc, e) && |d| < Size(e)
    ensures Parse(crc, d) == Stop
  {
    hide Little, FromLittle, Checksum, Encode;
    var b := Encode(crc, e);
    Layout(crc, e);
    Widths();
    LittleRoundTrip(|e.key|, 4);
    LittleRoundTrip(|e.value|, 4);
    if |d| >= 17 {
      assert d[13..17] == b[13..17];
      var k := |e.key|;
      if |d| >= 21 + k {
        assert d[17 + k..21 + k] == b[17 + k..21 + k];
      }
    }
  }

  // --------------------------------------------------------------- the log

  ghost predicate AllEncodable(es: seq<LogEntry>) {
    forall i | 0 <= i < |es| :: Encodable(es[i])
  }

  /** Entries in front of any tail are read back, and the scan goes on at the tail. */
  lemma {:induction false} ScanThrough(crc: Crc, es: seq<LogEntry>, tail: seq<Byte>)
    requires AllEncodable(es)
    ensures Scan(crc, EncodeAll(crc, es) + tail) == es + Scan(crc, tail)
  {
    hide Encode, Parse, Scan, EncodeAll;
    EncodeAllIs(crc, es);
    if es == [] {
      assert EncodeAll(crc, es) + tail == tail;
      assert es + Scan(crc, tail) == Scan(crc, tail);
    } else {
      var b, rest := Encode(crc, es[0]), EncodeAll(crc, es[1..]);
      var d := EncodeAll(crc, es) + tail;
      assert d == b + (rest + tail);
      ParseWhole(crc, es[0], d);
      ScanStep(crc, d, es[0], Size(es[0]));
      assert d[Size(es[0])..] == rest + tail;
      ScanThrough(crc, es[1..], tail);
      assert [es[0]] + (es[1..] + Scan(crc, tail)) == es + Scan(crc, tail);
    }
  }

  /** Entries that are whole, then a damaged one: the scan stops there, whatever follows. */
  lemma DamageStops(crc: Crc, es: seq<LogEntry>, e: LogEntry, b: seq<Byte>, tail: seq<Byte>)
    requires AllEncodable(es) && Encodable(e) && Damaged(crc, e, b)
    ensures Scan(crc, EncodeAll(crc, es) + b + tail) == es
  {
    hide Encode, EncodeAll, Damaged, Parse;
    DamagedUnread(crc, e, b, tail);
    ScanThrough(crc, es, b + tail);
    assert EncodeAll(crc, es) + b + tail == EncodeAll(crc, es) + (b + tail);
    assert Scan(crc, b + tail) == [];
    assert es + [] == es;
  }

  /** The bytes of an entry overwritten by those of another one of its size, its checksum left: the
      scan stops there unless the two have the same checksum. */
  lemma AlteredStops(crc: Crc, es: seq<LogEntry>, e: LogEntry, a: LogEntry, tail: seq<Byte>)
    requires AllEncodable(es) && Encodable(e) && Encodable(a) && Size(a) == Size(e) && Checksum(crc, a) != Checksum(crc, e)
    ensures Scan(crc, EncodeAll(crc, es) + (Encode(crc, a)[..Size(a) - 4] + Encode(crc, e)[Size(e) - 4..]) + tail) == es
  {
    hide Encode, EncodeAll, Scan, Checksum, Little;
    var n := Size(a);
    var x, y := Encode(crc, a), Encode(crc, e);
    var b := x[..n - 4] + y[n - 4..];
    Layout(crc, a);
    Layout(crc, e);
    Widths();
    LittleRoundTrip(Checksum(crc, a), 4);
    LittleRoundTrip(Checksum(crc, e), 4);
    assert b[4..n - 4] == x[4..n - 4] && b[n - 4..] == y[n - 4..];
    DamageStops(crc, es, a, b, tail);
  }

  lemma EncodeAllIs(crc: Crc, es: seq<LogEntry>)
    ensures EncodeAll(crc, es) == if es == [] then [] else Encode(crc, es[0]) + EncodeAll(crc, es[1..])
  {
  }

  lemma ScanStep(crc: Crc, d: seq<Byte>, e: LogEntry, used: nat)
    requires Parse(crc, d) == Good(e, used)
    ensures used <= |d| && Scan(crc, d) == [e] + Scan(crc, d[used..])
  {
  }

  /** Where the last whole entry before byte `c` ends. */
  function WholeEnd(crc: Crc, es: seq<LogEntry>, c: nat): nat {
    |EncodeAll(crc, es[..Whole(es, c)])|
  }

  /** A cut image is the whole entries before the cut and a torn rest that parses as nothing. */
  lemma {:induction false} CutImage(crc: Crc, es: seq<LogEntry>, c: nat) returns (torn: seq<Byte>)
    requires AllEncodable(es) && c <= |EncodeAll(crc, es)|
    ensures EncodeAll(crc, es)[..c] == EncodeAll(crc, es[..Whole(es, c)]) + torn
    ensures Parse(crc, torn) == Stop
    ensures torn == [] || (Whole(es, c) < |es| && torn <= Encode(crc, es[Whole(es, c)]) && |torn| < Size(es[Whole(es, c)]))
  {
    hide Encode;
    if es == [] {
      torn := [];
    } else {
      var b, rest := Encode(crc, es[0]), EncodeAll(crc, es[1..]);
      if Size(es[0]) > c {
        torn := b[..c];
        assert EncodeAll(crc, es)[..c] == torn;
        assert EncodeAll(crc, es[..0]) + torn == torn;
        ParseTorn(crc, es[0], torn);
      } else {
        var n := Whole(es[1..], c - Size(es[0]));
        torn := CutImage(crc, es[1..], c - Size(es[0]));
        assert EncodeAll(crc, es)[..c] == b + rest[..c - Size(es[0])];
        assert es[..n + 1][1..] == es[1..][..n];
        assert b + (EncodeAll(crc, es[1..][..n]) + torn) == EncodeAll(crc, es[..n + 1]) + torn;
      }
    }
  }

  /** For every log and every byte cut, the scan returns exactly the entries that end at or before
      the cut. */
  lemma CutScan(crc: Crc, es: seq<LogEntry>, c: nat)
    requires AllEncodable(es) && c <= |EncodeAll(crc, es)|
    ensures Scan(crc, EncodeAll(crc, es)[..c]) == es[..Whole(es, c)]
  {
    hide Encode, EncodeAll, Parse, Whole;
    var torn := CutImage(crc, es, c);
    var whole := es[..Whole(es, c)];
    ScanThrough(crc, whole, torn);
    assert whole + [] == whole;
  }

  lemma {:induction false} EncodeAllConcat(crc: Crc, a: seq<LogEntry>, b: seq<LogEntry>)
    ensures EncodeAll(crc, a + b) == EncodeAll(crc, a) + EncodeAll(crc, b)
  {
    hide Encode, EncodeAll;
    EncodeAllIs(crc, a);
    EncodeAllIs(crc, a + b);
    if a == [] {
      assert a + b == b;
    } else {
      EncodeAllConcat(crc, a[1..], b);
      assert (a + b)[1..] == a[1..] + b;
    }
  }

  /** The entry count before a cut does not drop when the cut moves right, and is everything at the end. */
  lemma {:induction false} WholeAtLeast(crc: Crc, es: seq<LogEntry>, n: nat, c: nat)
    requires n <= |es| && |EncodeAll(crc, es[..n])| <= c
    ensures n <= Whole(es, c)
  {
    hide Encode;
    if n > 0 {
      assert es[..n][1..] == es[1..][..n - 1];
      WholeAtLeast(crc, es[1..], n - 1, c - Size(es[0]));
    }
  }

  // --------------------------------------------------- appending to a cut log

  /** A new entry behind a torn one is misread: some entry shows it. */
  lemma TornMisreads(crc: Crc, torn: seq<Byte>, seqno: nat) returns (e: LogEntry)
    requires torn != [] && seqno < TWO64
    ensures Encodable(e) && e.seqno == seqno && (e.op == OP_INSERT || (e.op == OP_DELETE && e.value == []))
    ensures Scan(crc, torn + Encode(crc, e)) != [e]
  {
    hide Little, FromLittle, Checksum, Parse;
    var m := |torn|;
    if m >= 13 {
      e := LogEntry(seqno, if torn[12] == OP_INSERT then OP_DELETE else OP_INSERT, [], []);
      var d := torn + Encode(crc, e);
      ParseOp(crc, d);
      assert d[12] == torn[12];
    } else {
      var zero: Byte, one: Byte := 0, 1;
      e := LogEntry(seqno, OP_INSERT, [], seq(m, i => zero) + [one]);
      var b, d := Encode(crc, e), torn + Encode(crc, e);
      Layout(crc, e);
      assert b[21..21 + (m + 1)] == e.value;
      assert b[21] == b[21..21 + (m + 1)][0] == zero;
      assert d[21 + m] == b[21];
      if Scan(crc, d) == [e] {
        ParseValue(crc, d, m);
      }
    }
  }

  lemma ParseOp(crc: Crc, d: seq<Byte>)
    ensures Scan(crc, d) != [] ==> |d| > 12 && Scan(crc, d)[0].op == d[12]
  {
    hide FromLittle, Checksum;
  }

  lemma ParseValue(crc: Crc, d: seq<Byte>, m: nat)
    requires Scan(crc, d) != [] && Scan(crc, d)[0].key == [] && |Scan(crc, d)[0].value| == m + 1
    ensures |d| > 21 + m && Scan(crc, d)[0].value[m] == d[21 + m]
  {
    hide FromLittle, Checksum;
  }

  /** `more` numbers on from `last`, as a reopened log does. */
  ghost predicate Continues(last: nat, more: seq<LogEntry>) {
    forall i | 0 <= i < |more| :: more[i].seqno == last + 1 + i
  }

  /** Everything appended after reopening is read back together with what was there. */
  ghost predicate Appendable(crc: Crc, image: seq<Byte>) {
    var kept := Scan(crc, image);
    forall more: seq<LogEntry> | AllEncodable(more) && Continues(LastSeq(kept), more) ::
      Scan(crc, image + EncodeAll(crc, more)) == kept + more
  }

  /** Reopening does not remove a torn tail, so appending to a cut log is safe exactly when the cut
      is at the end of an entry. */
  lemma AppendAfterCut(crc: Crc, es: seq<LogEntry>, c: nat)
    requires AllEncodable(es) && c <= |EncodeAll(crc, es)|
    requires LastSeq(es[..Whole(es, c)]) + 1 < TWO64
    ensures Appendable(crc, EncodeAll(crc, es)[..c]) <==> c == WholeEnd(crc, es, c)
  {
    hide Encode, EncodeAll, Parse, Whole, Scan, LastSeq;
    var torn := CutImage(crc, es, c);
    var whole, image := es[..Whole(es, c)], EncodeAll(crc, es)[..c];
    CutScan(crc, es, c);
    if torn == [] {
      forall more: seq<LogEntry> | AllEncodable(more) && Continues(LastSeq(whole), more)
        ensures Scan(crc, image + EncodeAll(crc, more)) == whole + more
      {
        EncodeAllConcat(crc, whole, more);
        assert image + EncodeAll(crc, more) == EncodeAll(crc, whole + more) + [];
        ScanThrough(crc, whole + more, []);
        ScanNothing(crc);
        assert (whole + more) + [] == whole + more;
      }
    } else {
      var e := TornMisreads(crc, torn, LastSeq(whole) + 1);
      EncodeAllOne(crc, e);
      assert image + EncodeAll(crc, [e]) == EncodeAll(crc, whole) + (torn + Encode(crc, e));
      ScanThrough(crc, whole, torn + Encode(crc, e));
      assert whole + Scan(crc, torn + Encode(crc, e)) != whole + [e] by {
        assert (whole + Scan(crc, torn + Encode(crc, e)))[|whole|..] == Scan(crc, torn + Encode(crc, e));
        assert (whole + [e])[|whole|..] == [e];
      }
      assert AllEncodable([e]) && Continues(LastSeq(whole), [e]);
    }
  }

  lemma ScanNothing(crc: Crc)
    ensures Scan(crc, []) == []
  {
  }

  lemma EncodeAllOne(crc: Crc, e: LogEntry)
    ensures EncodeAll(crc, [e]) == Encode(crc, e)
  {
    hide Encode;
    assert [e][1..] == [];
    assert EncodeAll(crc, []) == [];
  }
}
