/** Byte strings, the order `bytes.Compare` puts on them, and options. */
module Bytes {
  type Byte = x: int | 0 <= x < 256
  type Key = seq<Byte>
  type Value = seq<Byte>

  datatype Option<+T> = None | Some(value: T)

  /** The index key of a record, if it has one. */
  type Extractor = Value -> Option<Key>

  /** `bytes.Compare(a, b) < 0`: lexicographic, a proper prefix comes first. */
  predicate Less(a: Key, b: Key) {
    && b != []
    && (a == [] || a[0] < b[0] || (a[0] == b[0] && Less(a[1..], b[1..])))
  }

  /** `bytes.Compare(a, b) <= 0`. */
  predicate AtMost(a: Key, b: Key) {
    !Less(b, a)
  }

  /** The strings agree on their first `n` bytes, and there the first one ends or has the lower byte. */
  ghost predicate Precedes(a: Key, b: Key, n: nat) {
    n <= |a| && n < |b| && a[..n] == b[..n] && (n == |a| || a[n] < b[n])
  }

  lemma SameFirst(a: Key, b: Key, n: nat)
    requires Precedes(a, b, n) && n > 0
    ensures a != [] && b != [] && a[0] == b[0]
  {
    assert a[..n][0] == b[..n][0];
  }

  /** The order is decided by the first byte in which two strings differ. */
  lemma {:induction false} LessExactly(a: Key, b: Key)
    ensures Less(a, b) <==> exists n: nat :: Precedes(a, b, n)
  {
    if a == [] || b == [] || a[0] != b[0] {
      if b != [] && (a == [] || a[0] < b[0]) { assert Precedes(a, b, 0); }
      forall n: nat | Precedes(a, b, n) ensures Less(a, b) {
        if n > 0 { SameFirst(a, b, n); }
      }
    } else {
      LessExactly(a[1..], b[1..]);
      if Less(a[1..], b[1..]) {
        var n: nat :| Precedes(a[1..], b[1..], n);
        assert a[..n + 1] == [a[0]] + a[1..][..n] && b[..n + 1] == [b[0]] + b[1..][..n];
        assert Precedes(a, b, n + 1);
      }
      forall n: nat | Precedes(a, b, n) ensures Less(a[1..], b[1..]) {
        assert n > 0;
        assert a[1..][..n - 1] == a[..n][1..] && b[1..][..n - 1] == b[..n][1..];
        assert Precedes(a[1..], b[1..], n - 1);
      }
    }
  }

  lemma {:induction false} LessTrans(a: Key, b: Key, c: Key)
    requires Less(a, b) && Less(b, c)
    ensures Less(a, c)
  {
    if a != [] && a[0] == b[0] && b[0] == c[0] {
      LessTrans(a[1..], b[1..], c[1..]);
    }
  }

  lemma {:induction false} LessTotal(a: Key, b: Key)
    ensures Less(a, b) || a == b || Less(b, a)
    ensures !(Less(a, b) && Less(b, a))
    ensures a == b ==> !Less(a, b)
  {
    if a != [] && b != [] && a[0] == b[0] {
      LessTotal(a[1..], b[1..]);
      assert a == [a[0]] + a[1..] && b == [b[0]] + b[1..];
    }
  }

  /** `bytes.Compare` is a strict total order: the two lemmas above, for all keys at once. */
  lemma LessOrder()
    ensures forall a: Key, b: Key, c: Key {:trigger Less(a, b), Less(b, c)} ::
              Less(a, b) && Less(b, c) ==> Less(a, c)
    ensures forall a: Key, b: Key {:trigger Less(a, b)} ::
              (Less(a, b) ==> !Less(b, a) && a != b) && (!Less(a, b) && a != b ==> Less(b, a))
  {
    forall a: Key, b: Key, c: Key | Less(a, b) && Less(b, c)
      ensures Less(a, c)
    {
      LessTrans(a, b, c);
    }
    forall a: Key, b: Key
      ensures (Less(a, b) ==> !Less(b, a) && a != b) && (!Less(a, b) && a != b ==> Less(b, a))
    {
      LessTotal(a, b);
    }
  }
}
