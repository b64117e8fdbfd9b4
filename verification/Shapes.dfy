/** The tree as a value: what each operation makes of its shape, with no object in sight.  The node
    objects are shown to follow these functions, on ordered trees and on all others. */
module Shapes {
  import opened Bytes
  import opened Entries
  import opened Weaving
  import opened Nodes

  datatype Shape = Shape(leaf: bool, kvs: seq<Entry>, children: seq<Shape>)

  /** What is left of a node after an insertion below it. */
  datatype Growth = Fits(whole: Shape) | Splits(l: Shape, m: Entry, r: Shape)

  predicate Fair(s: Shape) {
    s.leaf || |s.children| == |s.kvs| + 1
  }

  // ------------------------------------------------------------------- lookup

  function FindShape(s: Shape, key: Key): Option<Value> {
    var p := FindIndex(s.kvs, key);
    if p < |s.kvs| && s.kvs[p].key == key then Some(s.kvs[p].value)
    else if s.leaf || !Fair(s) then None
    else FindShape(s.children[p], key)
  }

  /** The descent for `key` meets it before it reaches a leaf. */
  predicate HeldShape(s: Shape, key: Key) {
    && !s.leaf && Fair(s)
    && var p := FindIndex(s.kvs, key);
      (p < |s.kvs| && s.kvs[p].key == key) || HeldShape(s.children[p], key)
  }

  function FindOpt(s: Option<Shape>, key: Key): Option<Value> {
    if s.None? then None else FindShape(s.value, key)
  }

  predicate HeldOpt(s: Option<Shape>, key: Key) {
    s.Some? && HeldShape(s.value, key)
  }

  // ------------------------------------------------------------------- ranges

  /** The entries that `getRange` collects: from the slot of `lo` on, child and entry by turns, until an
      entry is above `hi`. */
  function RangeShape(s: Shape, lo: Key, hi: Key): seq<Entry>
    decreases s, 2 * |s.kvs| + 2
  {
    RangeFrom(s, lo, hi, FindIndex(s.kvs, lo))
  }

  function RangeFrom(s: Shape, lo: Key, hi: Key, i: nat): seq<Entry>
    requires i <= |s.kvs|
    decreases s, 2 * (|s.kvs| - i) + 1
  {
    (if s.leaf || !Fair(s) then [] else RangeShape(s.children[i], lo, hi)) + RangeRest(s, lo, hi, i)
  }

  function RangeRest(s: Shape, lo: Key, hi: Key, i: nat): seq<Entry>
    requires i <= |s.kvs|
    decreases s, 2 * (|s.kvs| - i)
  {
    if i == |s.kvs| || Less(hi, s.kvs[i].key) then [] else [s.kvs[i]] + RangeFrom(s, lo, hi, i + 1)
  }

  function RangeOpt(s: Option<Shape>, lo: Key, hi: Key): seq<Entry> {
    if s.None? then [] else RangeShape(s.value, lo, hi)
  }

  // ---------------------------------------------------------------- insertion

  /** A node with one entry too many is cut at its median. */
  function Settle(w: Shape): Growth
    requires Fair(w)
  {
    if |w.kvs| <= MAX_KEYS then Fits(w)
    else
      var mid := |w.kvs| / 2;
      Splits(
        Shape(w.leaf, w.kvs[..mid], if w.leaf then [] else w.children[..mid + 1]), w.kvs[mid],
        Shape(w.leaf, w.kvs[mid + 1..], if w.leaf then [] else w.children[mid + 1..]))
  }

  /** A node whose child `p` was split takes the promoted entry, and the new child right of it, where
      a search for the promoted key ends. */
  function Place(s: Shape, p: nat, l: Shape, m: Entry, r: Shape): (w: Shape)
    requires !s.leaf && Fair(s) && p <= |s.kvs|
    ensures Fair(w) && !w.leaf
  {
    var i, cs := FindIndex(s.kvs, m.key), s.children[p := l];
    Shape(false, InsertEntry(s.kvs, m), cs[..i + 1] + [r] + cs[i + 1..])
  }

  function PutIn(s: Shape, e: Entry): Growth {
    if s.leaf then
      if Has(s.kvs, e.key) then Fits(s.(kvs := ReplaceEntry(s.kvs, e))) else Settle(s.(kvs := InsertEntry(s.kvs, e)))
    else if !Fair(s) then Fits(s)
    else
      var p := FindIndex(s.kvs, e.key);
      match PutIn(s.children[p], e)
      case Fits(c) => Fits(s.(children := s.children[p := c]))
      case Splits(l, m, r) => Settle(Place(s, p, l, m, r))
  }

  function InsertShape(s: Option<Shape>, e: Entry): Shape {
    if s.None? then Shape(true, [e], [])
    else
      match PutIn(s.value, e)
      case Fits(u) => u
      case Splits(l, m, r) => Shape(false, [m], [l, r])
  }

  // ----------------------------------------------------------------- deletion

  function First<T>(s: seq<T>): seq<T> {
    if s == [] then [] else s[..1]
  }

  function Last<T>(s: seq<T>): seq<T> {
    if s == [] then [] else s[|s| - 1..]
  }

  function DropFirst<T>(s: seq<T>): seq<T> {
    if s == [] then [] else s[1..]
  }

  function DropLast<T>(s: seq<T>): seq<T> {
    if s == [] then [] else s[..|s| - 1]
  }

  predicate Between(s: Shape, q: nat) {
    !s.leaf && Fair(s) && q < |s.kvs|
  }

  /** The last entry of child `q` goes up, the separator down into child `q + 1`. */
  function LendRight(s: Shape, q: nat): Shape
    requires Between(s, q)
  {
    var l, r := s.children[q], s.children[q + 1];
    var l' := Shape(l.leaf, DropLast(l.kvs), if l.leaf then [] else DropLast(l.children));
    var r' := Shape(r.leaf, [s.kvs[q]] + r.kvs, if r.leaf then [] else Last(l.children) + r.children);
    Shape(false, s.kvs[..q] + Last(l.kvs) + s.kvs[q + 1..], s.children[..q] + [l', r'] + s.children[q + 2..])
  }

  /** The first entry of child `q + 1` goes up, the separator down into child `q`. */
  function LendLeft(s: Shape, q: nat): Shape
    requires Between(s, q)
  {
    var l, r := s.children[q], s.children[q + 1];
    var l' := Shape(l.leaf, l.kvs + [s.kvs[q]], if l.leaf then [] else l.children + First(r.children));
    var r' := Shape(r.leaf, DropFirst(r.kvs), if r.leaf then [] else DropFirst(r.children));
    Shape(false, s.kvs[..q] + First(r.kvs) + s.kvs[q + 1..], s.children[..q] + [l', r'] + s.children[q + 2..])
  }

  /** Children `q` and `q + 1` become one, around their separator. */
  function Fuse(s: Shape, q: nat): Shape
    requires Between(s, q)
  {
    var l, r := s.children[q], s.children[q + 1];
    Shape(false, s.kvs[..q] + s.kvs[q + 1..],
      s.children[..q] + [Shape(l.leaf, l.kvs + [s.kvs[q]] + r.kvs, l.children + r.children)] + s.children[q + 2..])
  }

  /** The repair of child `pos`. */
  function FillAt(s: Shape, pos: nat): Shape {
    if s.leaf || !Fair(s) || s.kvs == [] || pos > |s.kvs| then s
    else if pos > 0 && |s.children[pos - 1].kvs| > MIN_KEYS then LendRight(s, pos - 1)
    else if pos < |s.kvs| && |s.children[pos + 1].kvs| > MIN_KEYS then LendLeft(s, pos)
    else Fuse(s, if pos >= |s.kvs| then |s.kvs| - 1 else pos)
  }

  /** `delete`: the shape that is left and the entry handed up. */
  function TakeOut(s: Shape, key: Key, seeking: bool): (Shape, Option<Entry>) {
    var pos, found := FindIndex(s.kvs, key), Has(s.kvs, key);
    if s.leaf then
      if seeking then (if s.kvs == [] then (s, None) else (s.(kvs := s.kvs[1..]), Some(s.kvs[0])))
      else if found then (s.(kvs := s.kvs[..pos] + s.kvs[pos + 1..]), Some(s.kvs[pos]))
      else (s, None)
    else if !Fair(s) then (s, None)
    else
      var p := if found then pos + 1 else pos;
      var (c, d) := TakeOut(s.children[p], key, seeking || found);
      if d.None? then (s, None)
      else
        var s' := Shape(false, if found then s.kvs[pos := d.value] else s.kvs, s.children[p := c]);
        (if |c.kvs| < MIN_KEYS then FillAt(s', p) else s', d)
  }

  /** A root without entries goes: to nothing, or to its only child. */
  function Lowered(s: Shape): Option<Shape> {
    if s.kvs != [] then Some(s)
    else if s.leaf then None
    else if s.children != [] then Some(s.children[0])
    else Some(s)
  }

  function DeleteShape(s: Option<Shape>, key: Key): Option<Shape> {
    if s.None? then None else Lowered(TakeOut(s.value, key, false).0)
  }

  /** The keys deleted one after the other. */
  function DeleteEach(s: Option<Shape>, keys: seq<Key>): Option<Shape> {
    if keys == [] then s else DeleteShape(DeleteEach(s, keys[..|keys| - 1]), keys[|keys| - 1])
  }

  /** In the order of the list. */
  lemma {:induction false} DeleteConcat(s: Option<Shape>, a: seq<Key>, b: seq<Key>)
    ensures DeleteEach(s, a + b) == DeleteEach(DeleteEach(s, a), b)
    ensures |b| == 1 ==> DeleteEach(s, b) == DeleteShape(s, b[0])
  {
    hide DeleteShape;
    if b == [] {
      assert a + b == a;
    } else {
      var n := |b| - 1;
      DeleteConcat(s, a, b[..n]);
      assert (a + b)[..|a + b| - 1] == a + b[..n] && (a + b)[|a + b| - 1] == b[n];
    }
  }

  lemma DeleteNone(s: Option<Shape>, keys: seq<Key>)
    ensures DeleteEach(s, keys[..0]) == s
  {
  }

  lemma DeleteNext(s: Option<Shape>, keys: seq<Key>, i: nat)
    requires i < |keys|
    ensures DeleteEach(s, keys[..i + 1]) == DeleteShape(DeleteEach(s, keys[..i]), keys[i])
  {
    hide DeleteShape;
    assert keys[..i + 1][..i] == keys[..i];
  }

  // ------------------------------------------------------- the shape of a tree

  ghost function ShapeOf(t: Tree): Shape {
    Shape(t.leaf, t.kvs, seq(|t.children|, i requires 0 <= i < |t.children| => ShapeOf(t.children[i])))
  }

  ghost function ShapesOf(ts: seq<Tree>): (r: seq<Shape>)
    ensures |r| == |ts|
  {
    seq(|ts|, i requires 0 <= i < |ts| => ShapeOf(ts[i]))
  }

  lemma ShapeIs(t: Tree)
    ensures ShapeOf(t) == Shape(t.leaf, t.kvs, ShapesOf(t.children))
    ensures Arity(t) ==> Fair(ShapeOf(t))
  {
  }

  lemma ShapesConcat(a: seq<Tree>, b: seq<Tree>)
    ensures ShapesOf(a + b) == ShapesOf(a) + ShapesOf(b)
  {
    hide ShapeOf;
  }

  lemma ShapesPut(ts: seq<Tree>, p: nat, c: Tree)
    requires p < |ts|
    ensures ShapesOf(ts[p := c]) == ShapesOf(ts)[p := ShapeOf(c)] && ShapesOf(ts)[p] == ShapeOf(ts[p])
  {
    hide ShapeOf;
  }

  lemma ShapesCut(ts: seq<Tree>, i: nat, j: nat)
    requires i <= j <= |ts|
    ensures ShapesOf(ts[i..j]) == ShapesOf(ts)[i..j]
    ensures ShapesOf(ts[..j]) == ShapesOf(ts)[..j] && ShapesOf(ts[i..]) == ShapesOf(ts)[i..]
  {
    hide ShapeOf;
  }

  lemma ShapesTwo(l: Tree, r: Tree)
    ensures ShapesOf([l, r]) == [ShapeOf(l), ShapeOf(r)] && ShapesOf([l]) == [ShapeOf(l)] && ShapesOf([]) == []
  {
    hide ShapeOf;
  }

  // ------------------------------------------------------------------ contents

  /** What lies between the entries of the root. */
  ghost function GapsIn(s: Shape): (r: seq<seq<Entry>>)
    ensures |r| == if s.leaf then |s.kvs| + 1 else |s.children|
    decreases s, 0
  {
    if s.leaf then Blank(|s.kvs| + 1)
    else seq(|s.children|, i requires 0 <= i < |s.children| => PairsOf(s.children[i]))
  }

  /** The entries, left to right. */
  ghost function PairsOf(s: Shape): seq<Entry>
    decreases s, 1
  {
    Weave(GapsIn(s), s.kvs)
  }

  ghost function PairsOpt(s: Option<Shape>): seq<Entry> {
    if s.None? then [] else PairsOf(s.value)
  }

  lemma {:induction false} InOrderShape(t: Tree)
    ensures InOrder(t) == PairsOf(ShapeOf(t))
  {
    hide Weave, ShapeOf;
    ShapeIs(t);
    if !t.leaf {
      forall i | 0 <= i < |t.children| ensures Gaps(t)[i] == GapsIn(ShapeOf(t))[i] {
        InOrderShape(t.children[i]);
        ShapesPut(t.children, i, t);
      }
    }
    assert Gaps(t) == GapsIn(ShapeOf(t));
  }
}
