/** How many entries a balanced tree of a given height holds. */
module Sizes {
  import opened Nodes
  import opened Subtrees
  import opened Scans

  function Pow(b: nat, n: nat): nat {
    if n == 0 then 1 else b * Pow(b, n - 1)
  }

  /** Bounds on every child give bounds on a stretch of them. */
  lemma {:induction false} StretchSize(t: Tree, i: nat, lo: int, hi: int)
    requires Arity(t) && i <= |t.kvs|
    requires forall j | 0 <= j <= i :: lo <= |Gaps(t)[j]| <= hi
    ensures (i + 1) * lo + i <= |Stretch(t, 0, i)| <= (i + 1) * hi + i
  {
    hide Gaps, Stretch;
    if i == 0 {
      StretchOne(t, 0);
    } else {
      StretchSize(t, i - 1, lo, hi);
      StretchNext(t, 0, i - 1);
    }
  }

  /** A tree of height `h` whose root has `k` entries holds `(k+1) * 3^h - 1` to `(k+1) * 5^h - 1`. */
  lemma {:induction false} NodeSize(t: Tree, h: nat)
    requires Balanced(t, h, 0)
    ensures (|t.kvs| + 1) * Pow(MIN_KEYS + 1, h) - 1 <= |InOrder(t)| <= (|t.kvs| + 1) * Pow(MAX_KEYS + 1, h) - 1
    decreases h
  {
    hide Balanced, InOrder, Stretch, Pow;
    BalancedIs(t, h, 0);
    if t.leaf {
      InOrderLeaf(t);
      PowZero(MIN_KEYS + 1);
      PowZero(MAX_KEYS + 1);
    } else {
      var lo, hi := Pow(MIN_KEYS + 1, h) - 1, Pow(MAX_KEYS + 1, h) - 1;
      forall j | 0 <= j <= |t.kvs| ensures lo <= |Gaps(t)[j]| <= hi {
        ChildSize(t, h, j);
      }
      StretchAll(t);
      StretchSize(t, |t.kvs|, lo, hi);
      Regroup(|t.kvs| + 1, Pow(MIN_KEYS + 1, h));
      Regroup(|t.kvs| + 1, Pow(MAX_KEYS + 1, h));
    }
  }

  lemma ChildSize(t: Tree, h: nat, j: nat)
    requires Balanced(t, h, 0) && !t.leaf && j <= |t.kvs|
    ensures Arity(t) && h > 0
    ensures Pow(MIN_KEYS + 1, h) - 1 <= |Gaps(t)[j]| <= Pow(MAX_KEYS + 1, h) - 1
    decreases h, 0
  {
    BalancedIs(t, h, 0);
    RowAt(t, h - 1, j);
    var c := t.children[j];
    BalancedIs(c, h - 1, MIN_KEYS);
    BalancedIs(c, h - 1, 0);
    NodeSize(c, h - 1);
    Scale(MIN_KEYS + 1, |c.kvs| + 1, Pow(MIN_KEYS + 1, h - 1));
    Scale(|c.kvs| + 1, MAX_KEYS + 1, Pow(MAX_KEYS + 1, h - 1));
  }

  lemma PowZero(b: nat)
    ensures Pow(b, 0) == 1
  {
  }

  lemma {:induction false} PowGrows(b: nat, n: nat)
    requires b > 0 && n > 0
    ensures Pow(b, n) >= b
  {
    if n > 1 {
      PowGrows(b, n - 1);
      Scale(1, b, Pow(b, n - 1));
    }
  }

  lemma Regroup(k: nat, p: nat)
    ensures k * (p - 1) + (k - 1) == k * p - 1
  {
  }

  lemma Scale(a: nat, b: nat, p: nat)
    requires a <= b
    ensures a * p <= b * p
  {
  }

  /** Every tree of height `h` holds between `2 * 3^h - 1` and `5^(h+1) - 1` entries. */
  lemma TreeSize(t: Tree, h: nat)
    requires Balanced(t, h, 1)
    ensures 2 * Pow(3, h) - 1 <= |InOrder(t)| <= Pow(5, h + 1) - 1
  {
    hide Balanced, InOrder;
    BalancedIs(t, h, 1);
    BalancedIs(t, h, 0);
    NodeSize(t, h);
    Scale(2, |t.kvs| + 1, Pow(3, h));
    Scale(|t.kvs| + 1, 5, Pow(5, h));
  }
}
