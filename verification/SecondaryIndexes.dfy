/** The secondary index object: index keys to primary keys, kept as bytes in a sharded tree. */
module SecondaryIndexes {
  import opened Bytes
  import opened Fixed
  import opened Entries
  import opened KeyLists
  import opened IndexSpec
  import opened IndexRanges
  import opened Routing
  import opened Forests
  import opened Tables
  import opened IndexPlaces

  /** The tree holds, for every list, what it should. */
  ghost predicate Holds(unique: bool, tree: map<Key, Value>, lists: map<Key, seq<Key>>) {
    && tree.Keys == lists.Keys
    && forall ik | ik in lists :: lists[ik] != [] && Fits(lists[ik]) && tree[ik] == Stored(unique, lists[ik])
  }

  lemma HoldsAt(unique: bool, tree: map<Key, Value>, lists: map<Key, seq<Key>>, ik: Key)
    requires Holds(unique, tree, lists)
    ensures ik in tree <==> ik in lists
    ensures ik in lists ==> lists[ik] != [] && Fits(lists[ik]) && tree[ik] == Stored(unique, lists[ik])
    ensures ik in lists && !unique ==> DecodeKeys(tree[ik]) == lists[ik]
  {
    if ik in lists { KeysRoundTrip(lists[ik]); }
  }

  lemma HoldsPut(unique: bool, tree: map<Key, Value>, lists: map<Key, seq<Key>>, ik: Key, keys: seq<Key>)
    requires Holds(unique, tree, lists) && keys != [] && Fits(keys)
    ensures Holds(unique, tree[ik := Stored(unique, keys)], lists[ik := keys])
  {
  }

  lemma HoldsRemove(unique: bool, tree: map<Key, Value>, lists: map<Key, seq<Key>>, ik: Key)
    requires Holds(unique, tree, lists)
    ensures Holds(unique, tree - {ik}, lists - {ik})
  {
  }

  class SecondaryIndex {
    const extractor: Extractor
    const unique: bool
    const tree: Table
    var entries: nat
    ghost var lists: map<Key, seq<Key>>
    ghost var grove: Forest
    ghost var Repr: set<object>

    ghost function State(): IndexState
      reads this
    {
      IndexState(unique, lists, entries)
    }

    ghost function Model(): Placed
      reads this
    {
      Placed(State(), tree.tree.hash, grove)
    }

    /** What lookups in the tree show is what `lists` say. */
    ghost predicate Shown()
      reads this, Repr
    {
      && this in Repr && tree in Repr && tree.Repr <= Repr && this !in tree.Repr && tree.grove == grove
      && tree.Sound() && WellFormed(State()) && Holds(unique, tree.view, lists)
    }

    /** Besides, the tree has lost no overwrite. */
    ghost predicate Valid()
      reads this, Repr
    {
      Shown() && tree.Intact()
    }

    constructor (extractor: Extractor, unique: bool, numShards: int, numCPU: nat, hash: Hash)
      requires numCPU > 0
      ensures Shown() && Valid() && RoomIn(State()) && fresh(Repr)
      ensures this.extractor == extractor && this.unique == unique
      ensures Model() == NewPlaced(unique, hash, if numShards <= 0 then 4 else numShards)
    {
      var shards := if numShards <= 0 then 4 else numShards;
      this.extractor, this.unique := extractor, unique;
      tree := new Table(shards, numCPU, hash);
      entries, lists, grove := 0, map[], EmptyForest(shards);
      new;
      Repr := {this} + tree.Repr;
    }

    /** `idx.tree.Insert`: the list is stored unless an inner node holds its key. */
    method Write(ik: Key, stored: Value, ghost keys: seq<Key>)
      requires Shown() && keys != [] && Fits(keys) && stored == Stored(unique, keys)
      requires NoRepeat(keys) && (unique ==> |keys| == 1)
      modifies Repr
      ensures Shown() && fresh(Repr - old(Repr)) && entries == old(entries) && grove == Filing(old(Model()), ik, keys)
      ensures lists == if Held(old(Model()), Some(ik)) then old(lists) else old(lists)[ik := keys]
      ensures Valid() <==> old(Valid()) && !Held(old(Model()), Some(ik))
    {
      hide EncodeKeys, DecodeKeys, Holds, WellFormed, Filed, Table.Sound, Table.Intact, Stored, Fits, NoRepeat, PutForest, HeldForest;
      HoldsAt(unique, tree.view, lists, ik);
      FormedPut(State(), ik, keys);
      HoldsPut(unique, tree.view, lists, ik, keys);
      tree.SoundFormed();
      ghost var lost := tree.Inner(ik);
      tree.Insert(ik, stored);
      if !lost { lists := lists[ik := keys]; }
      grove := tree.grove;
      Repr := Repr + tree.Repr;
    }

    lemma HeldListed(ik: Key)
      requires Shown() && Held(Model(), Some(ik))
      ensures ik in lists
    {
      hide EncodeKeys, DecodeKeys, Holds, WellFormed, Filed, Table.Sound, HeldForest;
      tree.InnerHeld(ik);
      HoldsAt(unique, tree.view, lists, ik);
    }

    /** `Index`: exactly the addition on the value; false for a duplicate in a unique index. */
    method Index(pk: Key, value: Value) returns (ok: bool)
      requires Shown() && RoomIn(State()) && |pk| < TWO32
      modifies Repr
      ensures Shown() && fresh(Repr - old(Repr))
      ensures (Model(), ok) == AddTo(old(Model()), pk, extractor(value))
      ensures Valid() <==> old(Valid()) && !AddLoses(old(Model()), pk, extractor(value))
    {
      hide Shown, Valid, Filing, Held, AddTo, AddLoses, RoomIn;
      var indexKey := extractor(value);
      if indexKey.None? {
        AddNoKey(Model(), pk);
        return true;
      }
      var added;
      ok, added := Enter(indexKey.value, pk);
      if added { Recount(entries + 1); }
    }

    /** `Index` of a record that has a key, but for the counter. */
    method Enter(ik: Key, pk: Key) returns (ok: bool, added: bool)
      requires Shown() && RoomIn(State()) && |pk| < TWO32
      modifies Repr
      ensures Shown() && fresh(Repr - old(Repr)) && entries == old(entries) && this in Repr
      ensures (Model().(state := State().(entries := entries + if added then 1 else 0)), ok) == AddTo(old(Model()), pk, Some(ik))
      ensures Valid() <==> old(Valid()) && !AddLoses(old(Model()), pk, Some(ik))
    {
      hide EncodeKeys, DecodeKeys, Holds, WellFormed, Table.Sound, Table.Intact, Fits, NoRepeat, Filing, Held, AddTo, AddLoses, Stored, RoomIn;
      HoldsAt(unique, tree.view, lists, ik);
      if Held(Model(), Some(ik)) { HeldListed(ik); }
      AddCases(Model(), pk, ik);
      OneKey(pk);
      StoredOne(unique, pk);
      tree.SoundFormed();
      var existing := tree.Find(ik);
      if unique {
        if existing.Some? { return false, false; }
        Write(ik, pk, [pk]);
        return true, true;
      }
      if existing.None? {
        var buf := EncodePrimaryKeys([pk]);
        Write(ik, buf[..], [pk]);
        return true, true;
      }
      added := Append(ik, pk, existing.value);
      return true, added;
    }

    method Recount(n: nat)
      requires Shown()
      modifies this`entries
      ensures Shown() && (Valid() <==> old(Valid())) && entries == n
    {
      hide EncodeKeys, DecodeKeys, Holds, WellFormed, Table.Sound, Table.Intact;
      SameFormed(State(), State().(entries := n));
      entries := n;
    }

    /** The branch of `Index` for a list that is there. */
    method Append(ik: Key, pk: Key, existing: Value) returns (added: bool)
      requires Shown() && RoomIn(State()) && |pk| < TWO32 && !unique && ik in lists && existing == Stored(unique, lists[ik])
      modifies Repr
      ensures Shown() && fresh(Repr - old(Repr)) && entries == old(entries)
      ensures added <==> pk !in old(lists)[ik]
      ensures grove == if added then Filing(old(Model()), ik, old(lists)[ik] + [pk]) else old(grove)
      ensures lists == if added && !Held(old(Model()), Some(ik)) then old(lists)[ik := old(lists)[ik] + [pk]] else old(lists)
      ensures Valid() <==> old(Valid()) && !(added && Held(old(Model()), Some(ik)))
    {
      hide EncodeKeys, DecodeKeys, Holds, WellFormed, Filed, Table.Sound, Table.Intact, Fits, NoRepeat, Filing, HeldForest;
      HoldsAt(unique, tree.view, lists, ik);
      var list := DecodePrimaryKeys(existing);
      for i := 0 to |list|
        invariant forall j | 0 <= j < i :: list[j] != pk
      {
        if list[i] == pk { return false; }
      }
      Longer(State(), ik, pk);
      var buf := EncodePrimaryKeys(list + [pk]);
      Write(ik, buf[..], list + [pk]);
      return true;
    }

    /** `Remove`: exactly the removal on the value. */
    method Remove(pk: Key, value: Value)
      requires Valid()
      modifies Repr
      ensures Shown() && fresh(Repr - old(Repr))
      ensures Model() == DropFrom(old(Model()), pk, extractor(value))
      ensures Valid() <==> !DropLoses(old(Model()), pk, extractor(value))
      ensures old(RoomIn(State())) ==> RoomIn(State())
    {
      hide Holds, WellFormed, Without, Table.Sound, Table.Intact, NoRepeat, Filing, HeldForest, CutForest;
      var indexKey := extractor(value);
      if indexKey.None? { return; }
      if !unique {
        var found := Unfile(pk, indexKey.value);
        if !found { return; }
      } else {
        Erase(indexKey.value);
      }
      if entries > 0 { Recount(entries - 1); }
    }

    /** The branch of `Remove` for a list. */
    method Unfile(pk: Key, ik: Key) returns (found: bool)
      requires Valid() && !unique
      modifies Repr
      ensures Shown() && fresh(Repr - old(Repr)) && entries == old(entries)
      ensures found <==> ik in old(lists)
      ensures grove == DropGrove(old(Model()), pk, Some(ik)) && lists == DropFrom(old(Model()), pk, Some(ik)).state.lists
      ensures Valid() <==> !DropLoses(old(Model()), pk, Some(ik))
      ensures old(RoomIn(State())) ==> RoomIn(State())
    {
      hide EncodeKeys, DecodeKeys, Holds, WellFormed, Without, Table.Sound, Table.Intact, Fits, NoRepeat, Filing, HeldForest, CutForest;
      HoldsAt(unique, tree.view, lists, ik);
      tree.IntactSound();
      var existing := tree.Find(ik);
      if existing.None? { return false; }
      var newKeys := RemoveFrom(existing.value, pk, lists[ik]);
      if |newKeys| == 0 {
        Erase(ik);
      } else {
        Shorter(State(), ik, pk);
        var buf := EncodePrimaryKeys(newKeys);
        Write(ik, buf[..], newKeys);
      }
      return true;
    }

    /** `idx.tree.Delete`. */
    method Erase(ik: Key)
      requires Valid()
      modifies Repr
      ensures Valid() && Repr == old(Repr) && entries == old(entries) && lists == old(lists) - {ik}
      ensures grove == CutForest(tree.tree.hash, old(grove), ik)
    {
      hide EncodeKeys, DecodeKeys, Holds, Table.Sound, Table.Intact, CutForest;
      HoldsRemove(unique, tree.view, lists, ik);
      tree.IntactSound();
      var deleted := tree.Delete(ik);
      lists := lists - {ik};
      grove := tree.grove;
    }

    /** `Update`: remove and add, unless the two index keys compare equal. */
    method Update(pk: Key, oldValue: Value, newValue: Value) returns (ok: bool)
      requires Valid() && RoomIn(State()) && |pk| < TWO32
      modifies Repr
      ensures Shown() && fresh(Repr - old(Repr))
      ensures (Model(), ok) == ChangeIn(old(Model()), pk, extractor(oldValue), extractor(newValue))
      ensures Valid() <==> !ChangeLoses(old(Model()), pk, extractor(oldValue), extractor(newValue))
    {
      hide AddTo, Add, Drop, Held, DropGrove, Holds, WellFormed, Table.Sound, Table.Intact, Rewrites, Shrinks;
      if Raw(extractor(oldValue)) == Raw(extractor(newValue)) { return true; }
      DropOnOther(State(), pk, extractor(oldValue), extractor(newValue), Held(Model(), extractor(oldValue)));
      Remove(pk, oldValue);
      ok := Index(pk, newValue);
    }

    method FindOne(ik: Key) returns (r: Option<Key>)
      requires Shown()
      ensures r == if unique && ik in lists then Some(lists[ik][0]) else None
    {
      hide EncodeKeys, DecodeKeys, WellFormed, Table.Sound;
      if !unique { return None; }
      tree.SoundFormed();
      r := tree.Find(ik);
    }

    method FindAll(ik: Key) returns (r: Option<seq<Key>>)
      requires Shown()
      ensures r == if ik in lists then Some(lists[ik]) else None
    {
      hide EncodeKeys, DecodeKeys, Holds, Table.Sound;
      HoldsAt(unique, tree.view, lists, ik);
      tree.SoundFormed();
      var value := tree.Find(ik);
      if value.None? { return None; }
      if unique {
        assert lists[ik] == [lists[ik][0]];
        return Some([value.value]);
      }
      var pks := DecodePrimaryKeys(value.value);
      r := Some(pks);
    }

    /** `FindRange`: the lists that the tree shows in the range, by index key; where it has lost no
        overwrite, those of the index keys in the range.  An error for a reversed range. */
    method FindRange(lo: Key, hi: Key) returns (r: Option<seq<Key>>)
      requires Shown()
      ensures r.None? <==> Less(hi, lo)
      ensures r.Some? ==> exists s :: Rising(s) && multiset(s) == multiset(RangeIn(grove, lo, hi)) && r.value == Joined(unique, s)
      ensures r.Some? && Valid() ==> exists iks :: KeysBetween(iks, lists, lo, hi) && r.value == Flatten(lists, iks)
    {
      hide EncodeKeys, DecodeKeys, Holds, Less, Sorted, ToMap, Table.Formed, Table.Sound, Table.Intact, Rising, RangeIn, Joined;
      assert tree.view.Keys == lists.Keys by { forall k { HoldsAt(unique, tree.view, lists, k); } }
      tree.SoundFormed();
      var range := tree.GetRange(lo, hi);
      if range.None? { return None; }
      var s := range.value;
      if Valid() {
        ghost var iks := PairKeys(s, tree.view, lo, hi, lists);
        forall i | 0 <= i < |s| { HoldsAt(unique, tree.view, lists, s[i].key); }
        JoinedFlatten(unique, s, lists, iks);
      }
      var result := Join(s);
      r := Some(result);
    }

    /** The loop of `FindRange`. */
    method Join(s: seq<Entry>) returns (result: seq<Key>)
      ensures result == Joined(unique, s)
    {
      hide DecodeKeys, Joined;
      JoinedNone(unique);
      result := [];
      for i := 0 to |s|
        invariant result == Joined(unique, s[..i])
      {
        JoinedNext(unique, s, i);
        if unique {
          result := result + [s[i].value];
        } else {
          var pks := DecodePrimaryKeys(s[i].value);
          result := result + pks;
        }
      }
      assert s[..|s|] == s;
    }

    /** Whatever was lost before, the index is empty and whole. */
    method Clear()
      requires Shown()
      modifies Repr
      ensures Shown() && Valid() && RoomIn(State()) && fresh(Repr - old(Repr))
      ensures Model() == Emptied(old(Model()))
    {
      hide Table.Sound, Table.Intact, EncodeKeys, DecodeKeys;
      tree.SoundFormed();
      tree.Clear();
      entries, lists, grove := 0, map[], tree.grove;
      Repr := Repr + tree.Repr;
    }
  }

  /** `Remove` on a unique index, whoever was filed under the key: no lookup finds the key any more, the
      others find what they did, and the counter is one lower, or zero. */
  method RemoveUnique(x: SecondaryIndex, pk: Key, value: Value, other: Key)
    returns (one: Option<Key>, all: Option<seq<Key>>, others: Option<seq<Key>>)
    requires x.Valid() && x.unique && x.extractor(value).Some? && other != x.extractor(value).value
    modifies x.Repr
    ensures x.Valid() && one == None && all == None
    ensures others == if other in old(x.lists) then Some(old(x.lists)[other]) else None
    ensures x.entries == if old(x.entries) > 0 then old(x.entries) - 1 else 0
  {
    hide SecondaryIndex.Shown, SecondaryIndex.Valid, DropFrom, DropLoses, Held;
    UniqueDrop(x.Model(), pk, x.extractor(value).value);
    x.Remove(pk, value);
    one := x.FindOne(x.extractor(value).value);
    all := x.FindAll(x.extractor(value).value);
    others := x.FindAll(other);
  }

  lemma Shorter(x: IndexState, ik: Key, pk: Key)
    requires WellFormed(x) && ik in x.lists && !x.unique
    ensures NoRepeat(Without(x.lists[ik], pk))
  {
    WithoutMembers(x.lists[ik], pk);
  }

  lemma OneKey(pk: Key)
    requires |pk| < TWO32
    ensures Fits([pk]) && NoRepeat([pk])
  {
  }

  lemma FormedPut(x: IndexState, ik: Key, keys: seq<Key>)
    requires WellFormed(x) && keys != [] && NoRepeat(keys) && (x.unique ==> |keys| == 1)
    ensures WellFormed(x.(lists := x.lists[ik := keys]))
  {
  }

  lemma Longer(x: IndexState, ik: Key, pk: Key)
    requires WellFormed(x) && ik in x.lists && Fits(x.lists[ik]) && |x.lists[ik]| + 1 < TWO32 && |pk| < TWO32 && pk !in x.lists[ik]
    ensures Fits(x.lists[ik] + [pk]) && NoRepeat(x.lists[ik] + [pk])
  {
  }

  /** The filtering loop of `Remove`. */
  method RemoveFrom(stored: Value, pk: Key, ghost list: seq<Key>) returns (newKeys: seq<Key>)
    requires DecodeKeys(stored) == list && Fits(list)
    ensures newKeys == Without(list, pk) && Fits(newKeys) && |newKeys| <= |list|
  {
    hide DecodeKeys;
    WithoutMembers(list, pk);
    WithoutFits(list, pk);
    var keys := DecodePrimaryKeys(stored);
    newKeys := [];
    for i := 0 to |keys|
      invariant newKeys == Without(keys[..i], pk)
    {
      assert keys[..i + 1][..i] == keys[..i];
      if keys[i] != pk { newKeys := newKeys + [keys[i]]; }
    }
    assert keys[..|keys|] == keys;
  }

  lemma {:induction false} WithoutFits(s: seq<Key>, pk: Key)
    requires Fits(s)
    ensures Fits(Without(s, pk))
  {
    if s != [] {
      WithoutMembers(s, pk);
      var p := s[..|s| - 1];
      WithoutFits(p, pk);
    }
  }

  /** The lists that the pairs of the tree stand for, one after the other. */
  function Joined(unique: bool, s: seq<Entry>): seq<Key> {
    if s == [] then []
    else
      var n := |s| - 1;
      Joined(unique, s[..n]) + if unique then [s[n].value] else DecodeKeys(s[n].value)
  }

  lemma {:induction false} JoinedFlatten(unique: bool, s: seq<Entry>, lists: map<Key, seq<Key>>, iks: seq<Key>)
    requires |iks| == |s| && forall i | 0 <= i < |s| :: iks[i] in lists && lists[iks[i]] != [] && (unique ==> |lists[iks[i]]| == 1)
    requires forall i | 0 <= i < |s| :: if unique then s[i].value == lists[iks[i]][0] else DecodeKeys(s[i].value) == lists[iks[i]]
    ensures Joined(unique, s) == Flatten(lists, iks)
  {
    hide DecodeKeys;
    if s != [] {
      var n := |s| - 1;
      JoinedFlatten(unique, s[..n], lists, iks[..n]);
      if unique { assert lists[iks[n]] == [s[n].value]; }
    }
  }

  lemma JoinedNone(unique: bool)
    ensures Joined(unique, []) == []
  {
  }

  lemma JoinedNext(unique: bool, s: seq<Entry>, i: nat)
    requires i < |s|
    ensures Joined(unique, s[..i + 1]) == Joined(unique, s[..i]) + if unique then [s[i].value] else DecodeKeys(s[i].value)
  {
    hide DecodeKeys;
    assert s[..i + 1][..i] == s[..i];
  }
}
