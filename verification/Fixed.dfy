/** Fixed-width little-endian numbers, as `encoding/binary` writes them. */
module Fixed {
  import opened Bytes

  function Pow256(w: nat): (p: nat)
    ensures p > 0
  {
    if w == 0 then 1 else 256 * Pow256(w - 1)
  }

  /** The low `w` bytes of `n`, least significant first: wider numbers are truncated. */
  function Little(n: nat, w: nat): (b: seq<Byte>)
    ensures |b| == w
  {
    if w == 0 then [] else [n % 256] + Little(n / 256, w - 1)
  }

  function FromLittle(b: seq<Byte>): nat {
    if b == [] then 0 else b[0] + 256 * FromLittle(b[1..])
  }

  /** Reading back gives the number, for every number that fits. */
  lemma {:induction false} LittleRoundTrip(n: nat, w: nat)
    requires n < Pow256(w)
    ensures FromLittle(Little(n, w)) == n
  {
    if w > 0 {
      LittleRoundTrip(n / 256, w - 1);
      assert Little(n, w)[1..] == Little(n / 256, w - 1);
    }
  }

  lemma {:induction false} FromLittleBound(b: seq<Byte>)
    ensures FromLittle(b) < Pow256(|b|)
  {
    if b != [] { FromLittleBound(b[1..]); }
  }

  lemma LittleIs(n: nat, w: nat)
    ensures Little(n, w) == if w == 0 then [] else [n % 256] + Little(n / 256, w - 1)
  {
  }

  lemma FromLittleIs(b: seq<Byte>)
    ensures FromLittle(b) == if b == [] then 0 else b[0] + 256 * FromLittle(b[1..])
  {
  }

  lemma Digits(x: Byte, r: nat)
    ensures (x + 256 * r) % 256 == x && (x + 256 * r) / 256 == r
  {
  }

  /** Writing back gives the bytes, for every byte string. */
  lemma {:induction false} FromLittleBack(b: seq<Byte>)
    ensures Little(FromLittle(b), |b|) == b
  {
    hide Little, FromLittle;
    FromLittleIs(b);
    LittleIs(FromLittle(b), |b|);
    if b != [] {
      Digits(b[0], FromLittle(b[1..]));
      FromLittleBack(b[1..]);
      assert b == [b[0]] + b[1..];
    }
  }

  lemma TimesNext(d: nat, p: nat)
    ensures d * (p + 1) == d * p + d
  {
  }

  lemma {:induction false} Times(d: nat, p: nat, q: nat)
    requires p < q
    ensures d * p + d <= d * q
  {
    TimesNext(d, q - 1);
    if p < q - 1 { Times(d, p, q - 1); }
  }

  lemma Quotient(n: nat, d: nat, q: nat, r: nat)
    requires r < d && n == d * q + r
    ensures n / d == q
  {
    var p := n / d;
    assert n == d * p + n % d;
    if p < q { Times(d, p, q); }
    if q < p { Times(d, q, p); }
  }

  lemma DivideTwice(n: nat, p: nat)
    requires p > 0
    ensures n / 256 / p == n / (256 * p)
  {
    var m := n / 256;
    var q, r, s := m / p, m % p, n % 256;
    assert m == p * q + r && n == 256 * m + s;
    assert 256 * (p * q) == (256 * p) * q;
    Quotient(n, 256 * p, q, 256 * r + s);
  }

  /** Byte `i` is the `i`-th digit to the base 256, the least significant one first. */
  lemma {:induction false} LittleDigit(n: nat, w: nat, i: nat)
    requires i < w
    ensures Little(n, w)[i] == n / Pow256(i) % 256
  {
    if i > 0 {
      LittleDigit(n / 256, w - 1, i - 1);
      DivideTwice(n, Pow256(i - 1));
    }
  }

  const TWO32: nat := 0x1_0000_0000
  const TWO64: nat := 0x1_0000_0000_0000_0000

  lemma Widths()
    ensures Pow256(4) == TWO32 && Pow256(8) == TWO64
  {
    assert Pow256(1) == 256 * Pow256(0);
    assert Pow256(2) == 256 * Pow256(1);
    assert Pow256(3) == 256 * Pow256(2);
    assert Pow256(4) == 256 * Pow256(3);
    assert Pow256(5) == 256 * Pow256(4);
    assert Pow256(6) == 256 * Pow256(5);
    assert Pow256(7) == 256 * Pow256(6);
    assert Pow256(8) == 256 * Pow256(7);
  }
}
