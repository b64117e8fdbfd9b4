/** In-order traversal of one B-tree node: child, key, child, key, ..., child. */
module Weaving {
  /** `cs[0] + [ks[0]] + cs[1] + ... + [ks[n-1]] + cs[n]`. */
  function Weave<T>(cs: seq<seq<T>>, ks: seq<T>): seq<T> {
    if cs == [] then []
    else if ks == [] then cs[0]
    else cs[0] + [ks[0]] + Weave(cs[1..], ks[1..])
  }

  /** `cs[0] + [ks[0]] + ... + cs[n-1] + [ks[n-1]]`. */
  function Heads<T>(cs: seq<seq<T>>, ks: seq<T>): seq<T> {
    if cs == [] || ks == [] then [] else cs[0] + [ks[0]] + Heads(cs[1..], ks[1..])
  }

  /** `[ks[0]] + cs[0] + ... + [ks[n-1]] + cs[n-1]`. */
  function Tails<T>(cs: seq<seq<T>>, ks: seq<T>): seq<T> {
    if cs == [] || ks == [] then [] else [ks[0]] + cs[0] + Tails(cs[1..], ks[1..])
  }

  /** `n` empty children, what a leaf has below its keys. */
  function Blank<T>(n: nat): (r: seq<seq<T>>)
    ensures |r| == n && forall i | 0 <= i < n :: r[i] == []
  {
    seq(n, i => [])
  }

  lemma {:induction false} WeaveTails<T>(cs: seq<seq<T>>, ks: seq<T>)
    requires |cs| == |ks| + 1
    ensures Weave(cs, ks) == cs[0] + Tails(cs[1..], ks)
  {
    if ks != [] {
      WeaveTails(cs[1..], ks[1..]);
      assert cs[1..][0] == cs[1];
    }
  }

  lemma {:induction false} WeaveHeads<T>(cs: seq<seq<T>>, ks: seq<T>, p: nat)
    requires |cs| == |ks| + 1 && p <= |ks|
    ensures Weave(cs, ks) == Heads(cs[..p], ks[..p]) + Weave(cs[p..], ks[p..])
  {
    if p == 0 {
      assert cs[p..] == cs && ks[p..] == ks;
    } else {
      WeaveHeads(cs[1..], ks[1..], p - 1);
      assert cs[..p][1..] == cs[1..][..p - 1] && ks[..p][1..] == ks[1..][..p - 1];
      assert cs[p..] == cs[1..][p - 1..] && ks[p..] == ks[1..][p - 1..];
    }
  }

  /** The traversal with child `p` in focus. */
  lemma WeaveFocus<T>(cs: seq<seq<T>>, ks: seq<T>, p: nat)
    requires |cs| == |ks| + 1 && p <= |ks|
    ensures Weave(cs, ks) == Heads(cs[..p], ks[..p]) + cs[p] + Tails(cs[p + 1..], ks[p..])
  {
    WeaveHeads(cs, ks, p);
    WeaveTails(cs[p..], ks[p..]);
    assert cs[p..][1..] == cs[p + 1..];
  }

  /** Two traversals with a separator between them are one. */
  lemma {:induction false} WeaveJoin<T>(c1: seq<seq<T>>, k1: seq<T>, x: T, c2: seq<seq<T>>, k2: seq<T>)
    requires |c1| == |k1| + 1 && |c2| == |k2| + 1
    ensures Weave(c1 + c2, k1 + [x] + k2) == Weave(c1, k1) + [x] + Weave(c2, k2)
  {
    var c, k := c1 + c2, k1 + [x] + k2;
    if k1 == [] {
      assert c[1..] == c2 && k[1..] == k2;
    } else {
      WeaveJoin(c1[1..], k1[1..], x, c2, k2);
      assert c[1..] == c1[1..] + c2 && k[1..] == k1[1..] + [x] + k2;
    }
  }

  lemma {:induction false} WeaveBlank<T>(ks: seq<T>)
    ensures Weave(Blank(|ks| + 1), ks) == ks
  {
    if ks != [] {
      WeaveBlank(ks[1..]);
      assert Blank<T>(|ks| + 1)[1..] == Blank<T>(|ks[1..]| + 1);
    }
  }

  lemma {:induction false} HeadsLast<T>(cs: seq<seq<T>>, ks: seq<T>)
    requires |cs| == |ks| > 0
    ensures |Heads(cs, ks)| > 0
    ensures Heads(cs, ks)[|Heads(cs, ks)| - 1] == ks[|ks| - 1]
  {
    if |ks| > 1 {
      HeadsLast(cs[1..], ks[1..]);
    }
  }
}
