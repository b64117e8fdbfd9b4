/** The byte formats of the secondary indexes: lists of primary keys, and composite index keys. */
module KeyLists {
  import opened Bytes
  import opened Fixed

  /** Length-prefixed strings, one after another. */
  function EncodeEach(keys: seq<Key>): (b: seq<Byte>)
    ensures |b| == EachSize(keys)
  {
    if keys == [] then [] else EncodeEach(keys[..|keys| - 1]) + Little(|keys[|keys| - 1]|, 4) + keys[|keys| - 1]
  }

  function EachSize(keys: seq<Key>): nat {
    if keys == [] then 0 else EachSize(keys[..|keys| - 1]) + 4 + |keys[|keys| - 1]|
  }

  /** `[count:4][len1:4][key1]...`. */
  function EncodeKeys(keys: seq<Key>): seq<Byte> {
    Little(|keys|, 4) + EncodeEach(keys)
  }

  ghost predicate Fits(keys: seq<Key>) {
    |keys| < TWO32 && forall i | 0 <= i < |keys| :: |keys[i]| < TWO32
  }

  /** `binary.LittleEndian.PutUint32(buf[offset:], n)`. */
  method PutUint32(buf: array<Byte>, offset: nat, n: nat)
    requires offset + 4 <= buf.Length
    modifies buf
    ensures buf[..offset] == old(buf[..offset])
    ensures buf[offset..offset + 4] == Little(n, 4)
  {
    hide Little;
    var b := Little(n, 4);
    forall i | 0 <= i < 4 {
      buf[offset + i] := b[i];
    }
    assert buf[offset..offset + 4] == b;
  }

  /** `copy(buf[offset:], k)`. */
  method CopyInto(buf: array<Byte>, offset: nat, k: Key)
    requires offset + |k| <= buf.Length
    modifies buf
    ensures buf[..offset] == old(buf[..offset])
    ensures buf[offset..offset + |k|] == k
  {
    forall i | 0 <= i < |k| {
      buf[offset + i] := k[i];
    }
    assert buf[offset..offset + |k|] == k;
  }

  /** One turn of the writing loop. */
  method PutKey(buf: array<Byte>, offset: nat, k: Key) returns (end: nat)
    requires offset + 4 + |k| <= buf.Length
    modifies buf
    ensures end == offset + 4 + |k| && buf[..end] == old(buf[..offset]) + Little(|k|, 4) + k
  {
    hide Little;
    PutUint32(buf, offset, |k|);
    assert buf[..offset + 4] == buf[..offset] + buf[offset..offset + 4];
    end := offset + 4;
    CopyInto(buf, end, k);
    assert buf[..end + |k|] == buf[..end] + buf[end..end + |k|];
    end := end + |k|;
  }

  /** `encodePrimaryKeys`: size the buffer, then fill it. */
  method EncodePrimaryKeys(keys: seq<Key>) returns (buf: array<Byte>)
    ensures fresh(buf) && buf[..] == EncodeKeys(keys)
  {
    hide Little, EncodeEach, EachSize;
    var size := 4;
    EachNone();
    for i := 0 to |keys|
      invariant size == 4 + EachSize(keys[..i])
    {
      EachNext(keys, i);
      size := size + 4 + |keys[i]|;
    }
    assert keys[..|keys|] == keys;
    buf := new Byte[size](i => 0);
    PutUint32(buf, 0, |keys|);
    var offset := 4;
    for i := 0 to |keys|
      invariant offset == 4 + EachSize(keys[..i]) <= buf.Length == 4 + EachSize(keys)
      invariant buf[..offset] == Little(|keys|, 4) + EncodeEach(keys[..i])
    {
      EachNext(keys, i);
      EachGrows(keys, i + 1);
      offset := PutKey(buf, offset, keys[i]);
    }
    assert buf[..offset] == buf[..];
  }

  lemma EachNone()
    ensures EncodeEach([]) == [] && EachSize([]) == 0
  {
  }

  lemma EachNext(keys: seq<Key>, i: nat)
    requires i < |keys|
    ensures EachSize(keys[..i + 1]) == EachSize(keys[..i]) + 4 + |keys[i]|
    ensures EncodeEach(keys[..i + 1]) == EncodeEach(keys[..i]) + Little(|keys[i]|, 4) + keys[i]
  {
    assert keys[..i + 1][..i] == keys[..i];
  }

  lemma {:induction false} EachGrows(keys: seq<Key>, i: nat)
    requires i <= |keys|
    ensures EachSize(keys[..i]) <= EachSize(keys)
    decreases |keys| - i
  {
    if i < |keys| {
      EachGrows(keys, i + 1);
      EachNext(keys, i);
    } else {
      assert keys[..i] == keys;
    }
  }

  // ------------------------------------------------------------------ decoding

  /** At most `n` keys from byte `at` on; a key that does not fit ends the list. */
  function DecodeFrom(data: seq<Byte>, at: nat, n: nat): seq<Key>
    requires at <= |data|
    decreases n
  {
    if n == 0 || at + 4 > |data| then []
    else
      var len := FromLittle(data[at..at + 4]);
      if at + 4 + len > |data| then []
      else [data[at + 4..at + 4 + len]] + DecodeFrom(data, at + 4 + len, n - 1)
  }

  function DecodeKeys(data: seq<Byte>): seq<Key> {
    if |data| < 4 then [] else DecodeFrom(data, 4, FromLittle(data[..4]))
  }

  /** `decodePrimaryKeys`, in bounds on any input. */
  method DecodePrimaryKeys(data: seq<Byte>) returns (keys: seq<Key>)
    ensures keys == DecodeKeys(data)
  {
    hide FromLittle, DecodeFrom;
    keys := [];
    if |data| < 4 { return; }
    var count := FromLittle(data[..4]);
    var offset, i := 4, 0;
    while i < count && offset < |data|
      invariant 0 <= i <= count && 4 <= offset <= |data|
      invariant keys + DecodeFrom(data, offset, count - i) == DecodeKeys(data)
    {
      DecodeStep(data, offset, count - i);
      if offset + 4 > |data| { break; }
      var keyLen := FromLittle(data[offset..offset + 4]);
      if offset + 4 + keyLen > |data| { break; }
      ghost var rest := DecodeFrom(data, offset + 4 + keyLen, count - i - 1);
      var key := data[offset + 4..offset + 4 + keyLen];
      assert keys + ([key] + rest) == (keys + [key]) + rest;
      keys := keys + [key];
      offset, i := offset + 4 + keyLen, i + 1;
    }
    DecodeStep(data, offset, count - i);
    assert keys + [] == keys;
  }

  lemma DecodeStep(data: seq<Byte>, at: nat, n: nat)
    requires at <= |data|
    ensures n == 0 || at + 4 > |data| ==> DecodeFrom(data, at, n) == []
    ensures n > 0 && at + 4 <= |data| ==>
      var len := FromLittle(data[at..at + 4]);
      DecodeFrom(data, at, n) == if at + 4 + len > |data| then []
                                 else [data[at + 4..at + 4 + len]] + DecodeFrom(data, at + 4 + len, n - 1)
  {
  }

  /** Reading position `i` of an encoded list yields the keys from `i` on. */
  lemma {:induction false} DecodeAt(keys: seq<Key>, data: seq<Byte>, i: nat)
    requires Fits(keys) && i <= |keys| && data == EncodeKeys(keys)
    ensures 4 + EachSize(keys[..i]) <= |data|
    ensures DecodeFrom(data, 4 + EachSize(keys[..i]), |keys| - i) == keys[i..]
    decreases |keys| - i
  {
    hide Little, FromLittle, EncodeEach, EachSize;
    EachGrows(keys, i);
    if i < |keys| {
      var at := 4 + EachSize(keys[..i]);
      EachNext(keys, i);
      EachGrows(keys, i + 1);
      PieceAt(keys, data, i);
      Widths();
      LittleRoundTrip(|keys[i]|, 4);
      DecodeAt(keys, data, i + 1);
      assert keys[i..] == [keys[i]] + keys[i + 1..];
    }
  }

  lemma {:induction false} EncodePrefix(keys: seq<Key>, i: nat)
    requires i <= |keys|
    ensures EncodeEach(keys[..i]) <= EncodeEach(keys)
    decreases |keys| - i
  {
    hide Little;
    if i < |keys| {
      EncodePrefix(keys, i + 1);
      EachNext(keys, i);
    } else {
      assert keys[..i] == keys;
    }
  }

  lemma PieceAt(keys: seq<Key>, data: seq<Byte>, i: nat)
    requires i < |keys| && data == EncodeKeys(keys)
    ensures var at := 4 + EachSize(keys[..i]);
      && at + 4 + |keys[i]| <= |data|
      && data[at..at + 4] == Little(|keys[i]|, 4) && data[at + 4..at + 4 + |keys[i]|] == keys[i]
  {
    hide Little, EncodeEach, EachSize;
    EncodePrefix(keys, i + 1);
    EachNext(keys, i);
    var at, k := 4 + EachSize(keys[..i]), keys[i];
    var front := Little(|keys|, 4) + EncodeEach(keys[..i]);
    var piece := front + Little(|k|, 4) + k;
    assert Little(|keys|, 4) + EncodeEach(keys[..i + 1]) == piece;
    assert piece == data[..|piece|];
    assert data[at..at + 4] == piece[at..at + 4] && data[at + 4..at + 4 + |k|] == piece[at + 4..at + 4 + |k|];
  }

  /** Decoding undoes encoding, empty keys and the empty list included. */
  lemma KeysRoundTrip(keys: seq<Key>)
    requires Fits(keys)
    ensures DecodeKeys(EncodeKeys(keys)) == keys
  {
    hide Little, FromLittle, EncodeEach;
    var data := EncodeKeys(keys);
    assert data[..4] == Little(|keys|, 4);
    Widths();
    LittleRoundTrip(|keys|, 4);
    assert keys[..0] == [];
    DecodeAt(keys, data, 0);
  }

  /** The bytes of a list: the count, then each key behind its length. */
  lemma ListBytes()
    ensures EncodeKeys([[7], [8, 9]]) == [2, 0, 0, 0, 1, 0, 0, 0, 7, 2, 0, 0, 0, 8, 9]
  {
    hide Little, EncodeEach;
    var keys: seq<Key> := [[7], [8, 9]];
    EachNone();
    EachNext(keys, 0);
    EachNext(keys, 1);
    assert keys[..0] == [] && keys[..2] == keys;
    SmallLittle(1);
    SmallLittle(2);
  }

  lemma SmallLittle(n: Byte)
    ensures Little(n, 4) == [n, 0, 0, 0]
  {
    hide Little;
    LittleIs(n, 4);
    LittleIs(0, 3);
    LittleIs(0, 2);
    LittleIs(0, 1);
    LittleIs(0, 0);
  }

  /** Where key `n` of an encoded list begins. */
  function KeyStart(keys: seq<Key>, n: nat): nat
    requires n <= |keys|
  {
    4 + EachSize(keys[..n])
  }

  lemma StartOrder(keys: seq<Key>, i: nat, n: nat)
    requires i <= n <= |keys|
    ensures KeyStart(keys, i) <= KeyStart(keys, n) <= |EncodeKeys(keys)|
  {
    hide EachSize, EncodeEach;
    EachGrows(keys[..n], i);
    assert keys[..n][..i] == keys[..i];
    EachGrows(keys, n);
  }

  /** Bytes that agree with a list up to key `n`, where the reading ends, are read as its first `n` keys. */
  lemma {:induction false} DecodeSome(keys: seq<Key>, data: seq<Byte>, n: nat, i: nat)
    requires Fits(keys) && i <= n <= |keys| && KeyStart(keys, n) <= |data| && KeyStart(keys, n) <= |EncodeKeys(keys)|
    requires data[..KeyStart(keys, n)] == EncodeKeys(keys)[..KeyStart(keys, n)]
    requires DecodeFrom(data, KeyStart(keys, n), |keys| - n) == []
    ensures KeyStart(keys, i) <= |data| && DecodeFrom(data, KeyStart(keys, i), |keys| - i) == keys[i..n]
    decreases n - i
  {
    hide Little, FromLittle, EncodeEach, EachSize, EncodeKeys, DecodeFrom;
    StartOrder(keys, i, n);
    if i < n {
      var at, k, end := KeyStart(keys, i), keys[i], KeyStart(keys, n);
      var whole := EncodeKeys(keys);
      EachNext(keys, i);
      StartOrder(keys, i + 1, n);
      PieceAt(keys, whole, i);
      assert data[at..at + 4] == data[..end][at..at + 4] == whole[..end][at..at + 4] == whole[at..at + 4];
      assert data[at + 4..at + 4 + |k|] == data[..end][at + 4..at + 4 + |k|] == whole[..end][at + 4..at + 4 + |k|] == k;
      Widths();
      LittleRoundTrip(|k|, 4);
      DecodeStep(data, at, |keys| - i);
      DecodeSome(keys, data, n, i + 1);
      assert keys[i..n] == [k] + keys[i + 1..n];
    }
  }

  /** A stored list that is cut short is read as the keys that end before the cut. */
  lemma DecodeCut(keys: seq<Key>, c: nat, n: nat)
    requires Fits(keys) && n <= |keys| && KeyStart(keys, n) <= c <= |EncodeKeys(keys)| && (n < |keys| ==> c < KeyStart(keys, n + 1))
    ensures DecodeKeys(EncodeKeys(keys)[..c]) == keys[..n]
  {
    hide Little, FromLittle, EncodeEach, EachSize, EncodeKeys, DecodeFrom;
    var whole, at := EncodeKeys(keys), KeyStart(keys, n);
    var data := whole[..c];
    CountOf(keys);
    StartOrder(keys, 0, n);
    NoKeysYet(keys);
    assert data[..4] == whole[..4] && data[..at] == whole[..at];
    DecodeStep(data, at, |keys| - n);
    if n < |keys| {
      EachNext(keys, n);
      PieceAt(keys, whole, n);
      Widths();
      LittleRoundTrip(|keys[n]|, 4);
      if at + 4 <= c { assert data[at..at + 4] == whole[at..at + 4]; }
    }
    DecodeSome(keys, data, n, 0);
  }

  lemma CountOf(keys: seq<Key>)
    requires Fits(keys)
    ensures |EncodeKeys(keys)| >= 4 && FromLittle(EncodeKeys(keys)[..4]) == |keys|
  {
    hide Little, FromLittle, EncodeEach;
    assert EncodeKeys(keys)[..4] == Little(|keys|, 4);
    Widths();
    LittleRoundTrip(|keys|, 4);
  }

  lemma NoKeysYet(keys: seq<Key>)
    ensures KeyStart(keys, 0) == 4
  {
    assert keys[..0] == [];
  }

  /** Bytes behind a list are not read. */
  lemma DecodeMore(keys: seq<Key>, tail: seq<Byte>)
    requires Fits(keys)
    ensures DecodeKeys(EncodeKeys(keys) + tail) == keys
  {
    hide Little, FromLittle, EncodeEach, EachSize, EncodeKeys, DecodeFrom;
    var whole, n := EncodeKeys(keys), |keys|;
    var data := whole + tail;
    CountOf(keys);
    NoKeysYet(keys);
    StartOrder(keys, n, n);
    assert data[..4] == whole[..4] && data[..KeyStart(keys, n)] == whole[..KeyStart(keys, n)];
    DecodeStep(data, KeyStart(keys, n), 0);
    DecodeSome(keys, data, n, 0);
    assert keys[0..n] == keys;
  }

  // ----------------------------------------------------------- composite keys

  /** The parts every extractor takes from a record, or nothing if one takes none. */
  function Parts(exts: seq<Extractor>, value: Value): Option<seq<Key>> {
    if exts == [] then Some([])
    else
      var n := |exts| - 1;
      match Parts(exts[..n], value)
      case None => None
      case Some(ps) => (match exts[n](value) case None => None case Some(p) => Some(ps + [p]))
  }

  /** `CompositeExtractor`.  With no extractors at all the result is nil. */
  method CompositeExtract(exts: seq<Extractor>, value: Value) returns (r: Option<Key>)
    ensures r == if exts == [] || Parts(exts, value).None? then None else Some(EncodeEach(Parts(exts, value).value))
  {
    hide Little, EncodeEach, Parts;
    var result: Key := [];
    EachNone();
    PartsNone(exts, value);
    for i := 0 to |exts|
      invariant Parts(exts[..i], value).Some? && |Parts(exts[..i], value).value| == i
      invariant result == EncodeEach(Parts(exts[..i], value).value)
    {
      PartsNext(exts, value, i);
      var part := exts[i](value);
      if part.None? {
        NoneLater(exts, value, i + 1);
        return None;
      }
      EachLast(Parts(exts[..i], value).value, part.value);
      result := result + Little(|part.value|, 4) + part.value;
    }
    assert exts[..|exts|] == exts;
    if exts == [] { return None; }
    return Some(result);
  }

  lemma PartsNone(exts: seq<Extractor>, value: Value)
    ensures Parts(exts[..0], value) == Some([])
  {
  }

  lemma PartsNext(exts: seq<Extractor>, value: Value, i: nat)
    requires i < |exts| && Parts(exts[..i], value).Some?
    ensures Parts(exts[..i + 1], value) ==
      if exts[i](value).None? then None else Some(Parts(exts[..i], value).value + [exts[i](value).value])
  {
    assert exts[..i + 1][..i] == exts[..i];
  }

  /** Part `i` is what extractor `i` takes, and all of them must take one. */
  lemma {:induction false} PartsExactly(exts: seq<Extractor>, value: Value)
    ensures Parts(exts, value).Some? <==> forall i | 0 <= i < |exts| :: exts[i](value).Some?
    ensures Parts(exts, value).Some? ==> |Parts(exts, value).value| == |exts|
    ensures Parts(exts, value).Some? ==> forall i | 0 <= i < |exts| :: exts[i](value) == Some(Parts(exts, value).value[i])
  {
    if exts != [] {
      var n := |exts| - 1;
      PartsExactly(exts[..n], value);
      forall i | 0 <= i < n ensures exts[..n][i] == exts[i] { }
    }
  }

  lemma EachLast(ps: seq<Key>, p: Key)
    ensures EncodeEach(ps + [p]) == EncodeEach(ps) + Little(|p|, 4) + p
  {
    assert (ps + [p])[..|ps|] == ps;
  }

  lemma {:induction false} NoneLater(exts: seq<Extractor>, value: Value, i: nat)
    requires i <= |exts| && Parts(exts[..i], value).None?
    ensures Parts(exts, value).None?
    decreases |exts| - i
  {
    if i == |exts| {
      assert exts[..i] == exts;
    } else {
      assert exts[..i + 1][..i] == exts[..i];
      NoneLater(exts, value, i + 1);
    }
  }

  /** For a fixed number of parts, two composite keys are equal exactly when all parts are. */
  lemma CompositeInjective(a: seq<Key>, b: seq<Key>)
    requires |a| == |b| && Fits(a) && Fits(b)
    ensures EncodeEach(a) == EncodeEach(b) <==> a == b
  {
    hide EncodeEach, DecodeKeys;
    if EncodeEach(a) == EncodeEach(b) {
      KeysRoundTrip(a);
      KeysRoundTrip(b);
    }
  }
}
