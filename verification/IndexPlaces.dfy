/** A secondary index as a value: its lists, and the shards that its tree keeps them in.  The shards
    say which list overwrites the tree loses. */
module IndexPlaces {
  import opened Bytes
  import opened Entries
  import opened Routing
  import opened Forests
  import opened KeyLists
  import opened IndexSpec

  /** What the tree stores for a list of primary keys. */
  function Stored(unique: bool, keys: seq<Key>): Value
    requires keys != []
  {
    if unique then keys[0] else EncodeKeys(keys)
  }

  datatype Placed = Placed(state: IndexState, hash: Hash, grove: Forest)

  /** An index with nothing in it. */
  function NewPlaced(unique: bool, hash: Hash, shards: nat): Placed {
    Placed(IndexState(unique, map[], 0), hash, EmptyForest(shards))
  }

  /** `Clear`. */
  function Emptied(x: Placed): Placed {
    NewPlaced(x.state.unique, x.hash, |x.grove|)
  }

  /** An inner node of the tree holds the index key. */
  predicate Held(x: Placed, ik: Option<Key>) {
    ik.Some? && HeldForest(x.hash, x.grove, ik.value)
  }

  function Filing(x: Placed, ik: Key, keys: seq<Key>): Forest
    requires keys != []
  {
    PutForest(x.hash, x.grove, Entry(ik, Stored(x.state.unique, keys)))
  }

  /** The shards after `Index`. */
  function AddGrove(x: Placed, pk: Key, ik: Option<Key>): Forest {
    if ik.None? || Clash(x.state, ik) then x.grove
    else if ik.value !in x.state.lists then Filing(x, ik.value, [pk])
    else if pk in x.state.lists[ik.value] then x.grove
    else Filing(x, ik.value, x.state.lists[ik.value] + [pk])
  }

  /** The shards after `Remove`. */
  function DropGrove(x: Placed, pk: Key, ik: Option<Key>): Forest {
    if ik.None? then x.grove
    else if x.state.unique then CutForest(x.hash, x.grove, ik.value)
    else if ik.value !in x.state.lists then x.grove
    else
      var rest := Without(x.state.lists[ik.value], pk);
      if rest == [] then CutForest(x.hash, x.grove, ik.value) else Filing(x, ik.value, rest)
  }

  /** `Index`: false for a duplicate in a unique index. */
  function AddTo(x: Placed, pk: Key, ik: Option<Key>): (Placed, bool) {
    var (y, ok) := AddOn(x.state, pk, ik, Held(x, ik));
    (x.(state := y, grove := AddGrove(x, pk, ik)), ok)
  }

  /** `Remove`. */
  function DropFrom(x: Placed, pk: Key, ik: Option<Key>): Placed {
    x.(state := DropOn(x.state, pk, ik, Held(x, ik)), grove := DropGrove(x, pk, ik))
  }

  /** `Update`: the new index key meets the shards that the removal of the old one has left. */
  function ChangeIn(x: Placed, pk: Key, before: Option<Key>, after: Option<Key>): (Placed, bool) {
    if Raw(before) == Raw(after) then (x, true) else AddTo(DropFrom(x, pk, before), pk, after)
  }

  /** The tree loses the list overwrite of `Index`. */
  predicate AddLoses(x: Placed, pk: Key, ik: Option<Key>) {
    Held(x, ik) && Rewrites(x.state, pk, ik)
  }

  /** The tree loses the list overwrite of `Remove`. */
  predicate DropLoses(x: Placed, pk: Key, ik: Option<Key>) {
    Held(x, ik) && Shrinks(x.state, pk, ik)
  }

  /** An inner node holds the new index key when `Update` comes to add it. */
  predicate HeldAfter(x: Placed, pk: Key, before: Option<Key>, after: Option<Key>) {
    Held(DropFrom(x, pk, before), after)
  }

  /** The tree loses one of the two list overwrites of `Update`. */
  predicate ChangeLoses(x: Placed, pk: Key, before: Option<Key>, after: Option<Key>) {
    UpdateLoses(x.state, pk, before, after, Held(x, before), HeldAfter(x, pk, before, after))
  }

  lemma StoredOne(unique: bool, pk: Key)
    ensures Stored(unique, [pk]) == if unique then pk else EncodeKeys([pk])
  {
    hide EncodeKeys;
  }

  lemma AddNoKey(x: Placed, pk: Key)
    ensures AddTo(x, pk, None) == (x, true) && !AddLoses(x, pk, None)
  {
  }

  /** `Index` case by case: a key that is there or not, a record that is listed or not. */
  lemma AddCases(x: Placed, pk: Key, ik: Key)
    requires Held(x, Some(ik)) ==> ik in x.state.lists
    ensures var s, r := x.state, AddTo(x, pk, Some(ik));
      if ik !in s.lists then
        r == (Placed(s.(lists := s.lists[ik := [pk]], entries := s.entries + 1), x.hash, Filing(x, ik, [pk])), true)
      else if s.unique || pk in s.lists[ik] then r == (x, !s.unique)
      else
        var more := s.lists[ik] + [pk];
        r == (Placed(IndexState(s.unique, if Held(x, Some(ik)) then s.lists else s.lists[ik := more], s.entries + 1), x.hash, Filing(x, ik, more)), true)
    ensures AddLoses(x, pk, Some(ik)) <==> Held(x, Some(ik)) && !x.state.unique && pk !in x.state.lists[ik]
  {
    hide Held, Filing;
  }

  /** A record that is taken goes to the end of its list, unless it is in it. */
  lemma AddLists(x: Placed, pk: Key, ik: Key)
    requires Held(x, Some(ik)) ==> ik in x.state.lists
    requires AddTo(x, pk, Some(ik)).1 && !AddLoses(x, pk, Some(ik))
    ensures var y, was := AddTo(x, pk, Some(ik)).0.state, if ik in x.state.lists then x.state.lists[ik] else [];
      && y.lists == x.state.lists[ik := if pk in was then was else was + [pk]]
      && y.entries == x.state.entries + if pk in was then 0 else 1
  {
    hide Held, Filing, AddTo, AddLoses;
    AddCases(x, pk, ik);
    var ls := x.state.lists;
    if ik in ls { assert ls[ik := ls[ik]] == ls; }
    assert [] + [pk] == [pk];
  }

  /** `Remove` on a unique index takes the key out, whoever is filed under it. */
  lemma UniqueDrop(x: Placed, pk: Key, ik: Key)
    requires x.state.unique
    ensures var y := DropFrom(x, pk, Some(ik));
      && y.state == IndexState(true, x.state.lists - {ik}, if x.state.entries > 0 then x.state.entries - 1 else 0)
      && y.grove == CutForest(x.hash, x.grove, ik) && !DropLoses(x, pk, Some(ik))
  {
    hide Held, CutForest;
  }

  /** `Remove` on any other index takes the record out of its list, and counts one less even where the
      record was not in it. */
  lemma ListedDrop(x: Placed, pk: Key, ik: Key)
    requires !x.state.unique
    ensures ik !in x.state.lists ==> DropFrom(x, pk, Some(ik)) == x
    ensures ik in x.state.lists ==>
      DropFrom(x, pk, Some(ik)).state.entries == if x.state.entries > 0 then x.state.entries - 1 else 0
    ensures ik in x.state.lists && !DropLoses(x, pk, Some(ik)) ==>
      var y, rest := DropFrom(x, pk, Some(ik)).state, Without(x.state.lists[ik], pk);
      y.lists == if rest == [] then x.state.lists - {ik} else x.state.lists[ik := rest]
  {
    hide Held, Without, CutForest, Filing;
  }

  lemma AddToState(x: Placed, pk: Key, ik: Option<Key>)
    ensures AddTo(x, pk, ik).0.state == AddOn(x.state, pk, ik, Held(x, ik)).0
    ensures AddTo(x, pk, ik).1 <==> !Clash(x.state, ik)
    ensures !AddTo(x, pk, ik).1 ==> AddTo(x, pk, ik).0 == x
  {
    hide Held, Filing;
  }

  lemma ChangeInState(x: Placed, pk: Key, before: Option<Key>, after: Option<Key>)
    ensures (ChangeIn(x, pk, before, after).0.state, ChangeIn(x, pk, before, after).1)
      == ChangeOn(x.state, pk, before, after, Held(x, before), HeldAfter(x, pk, before, after))
  {
    hide Held, AddOn, DropOn, AddGrove, DropGrove;
  }

  /** Once the check of `Update` has passed, the index takes the change. */
  lemma NoRivalTaken(x: Placed, pk: Key, before: Option<Key>, after: Option<Key>)
    requires !Rival(x.state, before, after)
    ensures ChangeIn(x, pk, before, after).1
  {
    hide Held, AddTo, DropGrove, Without;
    if Raw(before) != Raw(after) { AddToState(DropFrom(x, pk, before), pk, after); }
  }
}
