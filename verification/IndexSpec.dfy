/** One secondary index as a value: its operations, and agreement with the records. */
module IndexSpec {
  import opened Bytes
  import opened Fixed

  type Records = map<Key, Value>

  /** The primary keys filed under each index key, and the entry counter. */
  datatype IndexState = IndexState(unique: bool, lists: map<Key, seq<Key>>, entries: nat)

  /** `pk` is filed under `ik`. */
  predicate Filed(x: IndexState, ik: Key, pk: Key) {
    ik in x.lists && pk in x.lists[ik]
  }

  ghost predicate NoRepeat(s: seq<Key>) {
    forall i, j | 0 <= i < j < |s| :: s[i] != s[j]
  }

  /** No empty list, no key twice in a list, one key per list in a unique index. */
  ghost predicate WellFormed(x: IndexState) {
    forall ik | ik in x.lists ::
      x.lists[ik] != [] && NoRepeat(x.lists[ik]) && (x.unique ==> |x.lists[ik]| == 1)
  }

  // ------------------------------------------------------------- the operations

  /** `Index`: false for a duplicate in a unique index. */
  function Add(x: IndexState, pk: Key, ik: Option<Key>): (IndexState, bool) {
    if ik.None? then (x, true)
    else if ik.value !in x.lists then (x.(lists := x.lists[ik.value := [pk]], entries := x.entries + 1), true)
    else if x.unique then (x, false)
    else if pk in x.lists[ik.value] then (x, true)
    else (x.(lists := x.lists[ik.value := x.lists[ik.value] + [pk]], entries := x.entries + 1), true)
  }

  function Without(s: seq<Key>, pk: Key): seq<Key> {
    if s == [] then [] else
    var p := Without(s[..|s| - 1], pk);
    if s[|s| - 1] == pk then p else p + [s[|s| - 1]]
  }

  function Less1(n: nat): nat {
    if n > 0 then n - 1 else 0
  }

  /** `Remove`: a unique index drops the index key, whoever is filed under it. */
  function Drop(x: IndexState, pk: Key, ik: Option<Key>): IndexState {
    if ik.None? then x
    else if x.unique then x.(lists := x.lists - {ik.value}, entries := Less1(x.entries))
    else if ik.value !in x.lists then x
    else
      var rest := Without(x.lists[ik.value], pk);
      x.(lists := if rest == [] then x.lists - {ik.value} else x.lists[ik.value := rest], entries := Less1(x.entries))
  }

  /** `bytes.Equal` on index keys: no key and the empty key are the same to it. */
  function Raw(ik: Option<Key>): Key {
    if ik.None? then [] else ik.value
  }

  /** Different index keys that `bytes.Equal` takes for equal. */
  predicate Blurred(a: Option<Key>, b: Option<Key>) {
    a != b && Raw(a) == Raw(b)
  }

  lemma BlurredExactly(a: Option<Key>, b: Option<Key>)
    ensures Blurred(a, b) <==> (a == None && b == Some([])) || (a == Some([]) && b == None)
  {
  }

  /** `Update`. */
  function Change(x: IndexState, pk: Key, before: Option<Key>, after: Option<Key>): (IndexState, bool) {
    if Raw(before) == Raw(after) then (x, true) else Add(Drop(x, pk, before), pk, after)
  }

  /** A unique index has the index key already. */
  predicate Clash(x: IndexState, ik: Option<Key>) {
    x.unique && ik.Some? && ik.value in x.lists
  }

  /** `Update` would give a unique index a key that it has already. */
  predicate Rival(x: IndexState, before: Option<Key>, after: Option<Key>) {
    before != after && Clash(x, after)
  }

  // -------------------------------------------- on a tree that can lose overwrites

  /** `Index` overwrites the list of an index key. */
  predicate Rewrites(x: IndexState, pk: Key, ik: Option<Key>) {
    ik.Some? && !x.unique && ik.value in x.lists && pk !in x.lists[ik.value]
  }

  /** `Remove` overwrites the list of an index key. */
  predicate Shrinks(x: IndexState, pk: Key, ik: Option<Key>) {
    ik.Some? && !x.unique && ik.value in x.lists && Without(x.lists[ik.value], pk) != []
  }

  /** `Index` where `inner` says that an inner node of the tree holds the index key. */
  function AddOn(x: IndexState, pk: Key, ik: Option<Key>, inner: bool): (IndexState, bool) {
    if inner && Rewrites(x, pk, ik) then (x.(entries := x.entries + 1), true) else Add(x, pk, ik)
  }

  function DropOn(x: IndexState, pk: Key, ik: Option<Key>, inner: bool): IndexState {
    if inner && Shrinks(x, pk, ik) then x.(entries := Less1(x.entries)) else Drop(x, pk, ik)
  }

  /** `Update`, with `inner` for the old index key and `inner'` for the new one when its turn comes. */
  function ChangeOn(x: IndexState, pk: Key, before: Option<Key>, after: Option<Key>, inner: bool, inner': bool): (IndexState, bool) {
    if Raw(before) == Raw(after) then (x, true) else AddOn(DropOn(x, pk, before, inner), pk, after, inner')
  }

  /** `Update` loses one of its two list overwrites. */
  predicate UpdateLoses(x: IndexState, pk: Key, before: Option<Key>, after: Option<Key>, inner: bool, inner': bool) {
    Raw(before) != Raw(after) && ((inner && Shrinks(x, pk, before)) || (inner' && Rewrites(x, pk, after)))
  }

  // ----------------------------------------------------------------- agreement

  ghost function Indexed(ext: Extractor, records: Records): set<Key> {
    set pk | pk in records && ext(records[pk]).Some?
  }

  /** Every index key has exactly the primary keys whose record extracts to it, and the counter is
      the number of such pairs. */
  ghost predicate Agrees(x: IndexState, ext: Extractor, records: Records) {
    && WellFormed(x)
    && (forall ik, pk :: Filed(x, ik, pk) <==> pk in records && ext(records[pk]) == Some(ik))
    && x.entries == |Indexed(ext, records)|
  }

  /** An index key is present exactly when some record extracts to it. */
  lemma Present(x: IndexState, ext: Extractor, records: Records, ik: Key)
    requires Agrees(x, ext, records)
    ensures ik in x.lists <==> exists pk | pk in records :: ext(records[pk]) == Some(ik)
  {
    if ik in x.lists {
      var pk := x.lists[ik][0];
      assert Filed(x, ik, pk);
    }
    if pk :| pk in records && ext(records[pk]) == Some(ik) {
      assert Filed(x, ik, pk);
    }
  }

  lemma {:induction false} WithoutMembers(s: seq<Key>, pk: Key)
    ensures forall k :: k in Without(s, pk) <==> k in s && k != pk
    ensures NoRepeat(s) ==> NoRepeat(Without(s, pk))
    ensures |Without(s, pk)| <= |s|
  {
    if s != [] {
      var n := |s| - 1;
      var p := s[..n];
      WithoutMembers(p, pk);
      assert s == p + [s[n]];
      if NoRepeat(s) && s[n] != pk {
        assert s[n] !in p;
      }
    }
  }

  lemma WithoutIs(s: seq<Key>, pk: Key)
    ensures s == [] ==> Without(s, pk) == []
    ensures s != [] ==> Without(s, pk) == Without(s[..|s| - 1], pk) + if s[|s| - 1] == pk then [] else [s[|s| - 1]]
  {
  }

  /** What is left of a list stays in order. */
  lemma {:induction false} WithoutSplit(a: seq<Key>, b: seq<Key>, pk: Key)
    ensures Without(a + b, pk) == Without(a, pk) + Without(b, pk)
    ensures |b| == 1 ==> Without(b, pk) == if b[0] == pk then [] else b
  {
    hide Without;
    WithoutIs(b, pk);
    if b == [] {
      assert a + b == a;
    } else {
      var n := |b| - 1;
      WithoutSplit(a, b[..n], pk);
      WithoutIs(a + b, pk);
      assert (a + b)[..|a + b| - 1] == a + b[..n] && (a + b)[|a + b| - 1] == b[n];
    }
    if |b| == 1 {
      WithoutIs(b[..0], pk);
      assert b == [b[0]];
    }
  }

  lemma IndexedPut(ext: Extractor, records: Records, pk: Key, value: Value)
    ensures Indexed(ext, records[pk := value]) == (Indexed(ext, records) - {pk}) + (if ext(value).Some? then {pk} else {})
  {
  }

  lemma IndexedRemove(ext: Extractor, records: Records, pk: Key)
    ensures Indexed(ext, records - {pk}) == Indexed(ext, records) - {pk}
  {
  }

  /** Only a unique index refuses, and only a key it has. */
  lemma AddSucceeds(x: IndexState, pk: Key, ik: Option<Key>)
    ensures Add(x, pk, ik).1 <==> !(x.unique && ik.Some? && ik.value in x.lists)
    ensures !Add(x, pk, ik).1 ==> Add(x, pk, ik).0 == x
  {
  }

  /** A successful `Add` files one pair and keeps all others. */
  lemma AddFiled(x: IndexState, pk: Key, ik: Option<Key>)
    requires WellFormed(x) && Add(x, pk, ik).1
    ensures var y := Add(x, pk, ik).0;
      && WellFormed(y) && y.unique == x.unique
      && (forall k, p :: Filed(y, k, p) <==> Filed(x, k, p) || (Some(k) == ik && p == pk))
      && y.entries == x.entries + if ik.Some? && !Filed(x, ik.value, pk) then 1 else 0
  {
    var y := Add(x, pk, ik).0;
    if ik.Some? {
      forall k, p ensures Filed(y, k, p) <==> Filed(x, k, p) || (Some(k) == ik && p == pk) {
      }
    }
  }

  /** Adding a new record's key keeps the index in agreement, when uniqueness allows it. */
  lemma AddAgrees(x: IndexState, ext: Extractor, records: Records, pk: Key, value: Value)
    requires Agrees(x, ext, records) && pk !in records
    requires x.unique && ext(value).Some? ==> ext(value).value !in x.lists
    ensures Add(x, pk, ext(value)).1 && Agrees(Add(x, pk, ext(value)).0, ext, records[pk := value])
  {
    hide WellFormed, Filed, Add, Agrees, Indexed;
    var ik, y := ext(value), Add(x, pk, ext(value)).0;
    AddSucceeds(x, pk, ik);
    AgreesMeans(x, ext, records, pk);
    AddFiled(x, pk, ik);
    AddCounts(x, ext, records, pk, value);
    forall k, p ensures Filed(y, k, p) <==> p in records[pk := value] && ext(records[pk := value][p]) == Some(k) {
      AgreesMeans(x, ext, records, p);
    }
    AgreesIf(y, ext, records[pk := value]);
  }

  lemma AddCounts(x: IndexState, ext: Extractor, records: Records, pk: Key, value: Value)
    requires Agrees(x, ext, records) && pk !in records && Add(x, pk, ext(value)).1
    ensures Add(x, pk, ext(value)).0.entries == |Indexed(ext, records[pk := value])|
  {
    hide WellFormed, Filed, Add, Agrees;
    AgreesMeans(x, ext, records, pk);
    AgreesCount(x, ext, records);
    AddFiled(x, pk, ext(value));
    IndexedPut(ext, records, pk, value);
    assert pk !in Indexed(ext, records);
    assert Indexed(ext, records) - {pk} == Indexed(ext, records);
  }

  lemma DropFiled(x: IndexState, ext: Extractor, records: Records, pk: Key)
    requires Agrees(x, ext, records) && pk in records
    ensures WellFormed(Drop(x, pk, ext(records[pk])))
    ensures forall k, p :: Filed(Drop(x, pk, ext(records[pk])), k, p) <==> Filed(x, k, p) && p != pk
  {
    var ik, y := ext(records[pk]), Drop(x, pk, ext(records[pk]));
    if ik.Some? {
      assert Filed(x, ik.value, pk);
      var l := x.lists[ik.value];
      WithoutMembers(l, pk);
      if x.unique { assert l == [pk]; }
    }
    forall k, p ensures Filed(y, k, p) <==> Filed(x, k, p) && p != pk {
      assert Filed(x, k, pk) <==> Some(k) == ik;
      if ik == Some(k) {
        assert p in x.lists[k] && p != pk <==> p in Without(x.lists[k], pk);
      }
    }
  }

  /** Removing a record's key keeps the index in agreement. */
  lemma DropAgrees(x: IndexState, ext: Extractor, records: Records, pk: Key)
    requires Agrees(x, ext, records) && pk in records
    ensures Agrees(Drop(x, pk, ext(records[pk])), ext, records - {pk})
  {
    hide Drop, WellFormed, Filed;
    var ik, y := ext(records[pk]), Drop(x, pk, ext(records[pk]));
    DropFiled(x, ext, records, pk);
    DropCount(x, pk, ik);
    IndexedRemove(ext, records, pk);
    if ik.Some? {
      assert pk in Indexed(ext, records);
      assert Filed(x, ik.value, pk);
    } else {
      assert pk !in Indexed(ext, records);
    }
    forall k, p ensures Filed(y, k, p) <==> p in records - {pk} && ext((records - {pk})[p]) == Some(k) {
      assert Filed(x, k, p) <==> p in records && ext(records[p]) == Some(k);
    }
  }

  lemma DropCount(x: IndexState, pk: Key, ik: Option<Key>)
    requires ik.Some? ==> Filed(x, ik.value, pk)
    ensures Drop(x, pk, ik).entries == if ik.Some? then Less1(x.entries) else x.entries
    ensures Drop(x, pk, ik).unique == x.unique
  {
  }

  /** Changing a record keeps the index in agreement if and only if the index keys before and after
      are not an absent key and an empty one. */
  lemma ChangeAgrees(x: IndexState, ext: Extractor, records: Records, pk: Key, value: Value)
    requires Agrees(x, ext, records) && pk in records
    requires var before, after := ext(records[pk]), ext(value);
      x.unique && after.Some? && before != after ==> after.value !in x.lists
    ensures Change(x, pk, ext(records[pk]), ext(value)).1
    ensures Agrees(Change(x, pk, ext(records[pk]), ext(value)).0, ext, records[pk := value])
      <==> !Blurred(ext(records[pk]), ext(value))
  {
    hide Filed, Drop, Add, Agrees;
    var before, after := ext(records[pk]), ext(value);
    if before == after {
      SameKeyAgrees(x, ext, records, pk, value);
    } else if Blurred(before, after) {
      BlurredDisagrees(x, ext, records, pk, value);
    } else {
      var r := records - {pk};
      DropAgrees(x, ext, records, pk);
      DropLists(x, pk, before);
      AddAgrees(Drop(x, pk, before), ext, r, pk, value);
      assert r[pk := value] == records[pk := value];
    }
  }

  lemma SameKeyAgrees(x: IndexState, ext: Extractor, records: Records, pk: Key, value: Value)
    requires Agrees(x, ext, records) && pk in records && ext(records[pk]) == ext(value)
    ensures Agrees(x, ext, records[pk := value])
  {
    hide WellFormed, Filed;
    assert Indexed(ext, records[pk := value]) == Indexed(ext, records);
  }

  lemma BlurredDisagrees(x: IndexState, ext: Extractor, records: Records, pk: Key, value: Value)
    requires Agrees(x, ext, records) && pk in records && Blurred(ext(records[pk]), ext(value))
    ensures !Agrees(x, ext, records[pk := value])
  {
    hide WellFormed, Filed, Indexed;
    assert Filed(x, [], pk) <==> ext(records[pk]) == Some([]);
    assert records[pk := value][pk] == value;
  }

  /** Dropping only takes index keys away. */
  lemma DropLists(x: IndexState, pk: Key, ik: Option<Key>)
    ensures Drop(x, pk, ik).lists.Keys <= x.lists.Keys && Drop(x, pk, ik).unique == x.unique
  {
  }

  /** `Insert` over a record that is already there adds its new index key and leaves the old one:
      the index still agrees if and only if the record had no index key or keeps the one it had. */
  lemma OverwriteAgrees(x: IndexState, ext: Extractor, records: Records, pk: Key, value: Value)
    requires Agrees(x, ext, records) && pk in records && Add(x, pk, ext(value)).1
    ensures Agrees(Add(x, pk, ext(value)).0, ext, records[pk := value])
      <==> ext(records[pk]) == None || ext(records[pk]) == ext(value)
  {
    hide Filed, Add, WellFormed, Agrees;
    var before, after, y := ext(records[pk]), ext(value), Add(x, pk, ext(value)).0;
    AgreesMeans(x, ext, records, pk);
    AddFiled(x, pk, after);
    if before == None || before == after {
      OverwriteCounts(x, ext, records, pk, value);
      forall k, p ensures Filed(y, k, p) <==> p in records[pk := value] && ext(records[pk := value][p]) == Some(k) {
        AgreesMeans(x, ext, records, p);
      }
      AgreesIf(y, ext, records[pk := value]);
    } else {
      assert Filed(y, before.value, pk);
      if Agrees(y, ext, records[pk := value]) { AgreesMeans(y, ext, records[pk := value], pk); }
    }
  }

  lemma AgreesMeans(x: IndexState, ext: Extractor, records: Records, p: Key)
    requires Agrees(x, ext, records)
    ensures WellFormed(x) && forall k :: Filed(x, k, p) <==> p in records && ext(records[p]) == Some(k)
  {
  }

  lemma AgreesIf(x: IndexState, ext: Extractor, records: Records)
    requires WellFormed(x) && x.entries == |Indexed(ext, records)|
    requires forall k, p :: Filed(x, k, p) <==> p in records && ext(records[p]) == Some(k)
    ensures Agrees(x, ext, records)
  {
  }

  lemma OverwriteCounts(x: IndexState, ext: Extractor, records: Records, pk: Key, value: Value)
    requires Agrees(x, ext, records) && pk in records && Add(x, pk, ext(value)).1
    requires ext(records[pk]) == None || ext(records[pk]) == ext(value)
    ensures Add(x, pk, ext(value)).0.entries == |Indexed(ext, records[pk := value])|
  {
    hide Filed, Add, WellFormed;
    var before, after := ext(records[pk]), ext(value);
    AddFiled(x, pk, after);
    IndexedPut(ext, records, pk, value);
    if before == None {
      assert pk !in Indexed(ext, records);
      if after.Some? { assert !Filed(x, after.value, pk); }
    } else {
      assert pk in Indexed(ext, records);
      assert Indexed(ext, records) - {pk} + {pk} == Indexed(ext, records);
      assert Filed(x, after.value, pk);
    }
  }

  /** An index cannot agree with two record maps that give a key different index keys. */
  lemma OneRecord(x: IndexState, ext: Extractor, a: Records, b: Records, pk: Key)
    requires Agrees(x, ext, a) && pk in a && pk in b && ext(a[pk]) != ext(b[pk])
    ensures !Agrees(x, ext, b)
  {
    hide WellFormed, Indexed;
    if ext(a[pk]).Some? {
      assert Filed(x, ext(a[pk]).value, pk);
    } else {
      assert !Filed(x, ext(b[pk]).value, pk);
    }
  }

  // ------------------------------------------------- agreement and lost overwrites

  /** The records after a write that the primary tree may lose. */
  function Written(records: Records, pk: Key, value: Value, lost: bool): Records {
    if lost then records else records[pk := value]
  }

  /** Adding a stored record's key again: harmless exactly when it adds nothing. */
  lemma ReAddAgrees(x: IndexState, ext: Extractor, records: Records, pk: Key, after: Option<Key>)
    requires Agrees(x, ext, records) && pk in records && Add(x, pk, after).1
    ensures Agrees(Add(x, pk, after).0, ext, records) <==> after == None || after == ext(records[pk])
  {
    hide Filed, WellFormed, Add, Agrees;
    AgreesMeans(x, ext, records, pk);
    AddFiled(x, pk, after);
    if after.Some? {
      if after == ext(records[pk]) {
        assert Filed(x, after.value, pk);
        AddFiledAgain(x, pk, after.value);
      } else {
        assert Filed(Add(x, pk, after).0, after.value, pk);
        if Agrees(Add(x, pk, after).0, ext, records) { AgreesMeans(Add(x, pk, after).0, ext, records, pk); }
      }
    } else {
      AddNone(x, pk);
    }
  }

  lemma AddFiledAgain(x: IndexState, pk: Key, ik: Key)
    requires Filed(x, ik, pk)
    ensures Add(x, pk, Some(ik)).0 == x
  {
  }

  lemma AddNone(x: IndexState, pk: Key)
    ensures Add(x, pk, None) == (x, true)
  {
  }

  /** A list overwrite that is lost while adding. */
  lemma LostAddDisagrees(x: IndexState, ext: Extractor, records: Records, pk: Key, value: Value, lost: bool)
    requires Agrees(x, ext, records) && Rewrites(x, pk, ext(value)) && (lost ==> pk in records)
    ensures !Agrees(x.(entries := x.entries + 1), ext, Written(records, pk, value, lost))
  {
    hide WellFormed, Indexed;
    if !lost {
      assert !Filed(x.(entries := x.entries + 1), ext(value).value, pk);
      assert records[pk := value][pk] == value;
    }
  }

  /** When `Insert` keeps an index in agreement, all losses considered. */
  ghost predicate InsertKeeps(x: IndexState, ext: Extractor, records: Records, pk: Key, value: Value, lost: bool, inner: bool) {
    && !(inner && Rewrites(x, pk, ext(value)))
    && (pk in records ==>
      if lost then ext(value) in {None, ext(records[pk])} else ext(records[pk]) in {None, ext(value)})
  }

  lemma InsertAgrees(x: IndexState, ext: Extractor, records: Records, pk: Key, value: Value, lost: bool, inner: bool)
    requires Agrees(x, ext, records) && !Clash(x, ext(value)) && (lost ==> pk in records)
    ensures AddOn(x, pk, ext(value), inner).1
    ensures Agrees(AddOn(x, pk, ext(value), inner).0, ext, Written(records, pk, value, lost))
      <==> InsertKeeps(x, ext, records, pk, value, lost, inner)
  {
    hide Filed, WellFormed, Add, Agrees;
    AddSucceeds(x, pk, ext(value));
    if inner && Rewrites(x, pk, ext(value)) {
      LostAddDisagrees(x, ext, records, pk, value, lost);
    } else if pk !in records {
      AddAgrees(x, ext, records, pk, value);
    } else if lost {
      ReAddAgrees(x, ext, records, pk, ext(value));
    } else {
      OverwriteAgrees(x, ext, records, pk, value);
    }
  }

  /** `Delete` keeps an index in agreement exactly when no list overwrite is lost. */
  lemma DeleteAgrees(x: IndexState, ext: Extractor, records: Records, pk: Key, inner: bool)
    requires Agrees(x, ext, records) && pk in records
    ensures Agrees(DropOn(x, pk, ext(records[pk]), inner), ext, records - {pk})
      <==> !(inner && Shrinks(x, pk, ext(records[pk])))
  {
    hide Filed, WellFormed, Drop, Agrees, Without, Indexed;
    var ik := ext(records[pk]);
    if inner && Shrinks(x, pk, ik) {
      AgreesMeans(x, ext, records, pk);
      var y := x.(entries := Less1(x.entries));
      SameFiled(x, y, ik.value, pk);
      if Agrees(y, ext, records - {pk}) { AgreesMeans(y, ext, records - {pk}, pk); }
    } else {
      DropAgrees(x, ext, records, pk);
    }
  }

  lemma SameFiled(x: IndexState, y: IndexState, ik: Key, pk: Key)
    requires x.lists == y.lists
    ensures Filed(x, ik, pk) <==> Filed(y, ik, pk)
  {
  }

  /** When `Update` keeps an index in agreement: every write of the three goes through, or all that
      are tried get lost. */
  ghost predicate UpdateKeeps(x: IndexState, pk: Key, before: Option<Key>, after: Option<Key>, lost: bool, inner: bool, inner': bool) {
    if Raw(before) == Raw(after) then lost || before == after
    else if lost then inner && Shrinks(x, pk, before) && inner' && Rewrites(x, pk, after)
    else !UpdateLoses(x, pk, before, after, inner, inner')
  }

  lemma UpdateAgrees(x: IndexState, ext: Extractor, records: Records, pk: Key, value: Value, lost: bool, inner: bool, inner': bool)
    requires Agrees(x, ext, records) && pk in records
    requires ext(records[pk]) != ext(value) ==> !Clash(x, ext(value))
    ensures var before, after := ext(records[pk]), ext(value);
      && ChangeOn(x, pk, before, after, inner, inner').1
      && (Agrees(ChangeOn(x, pk, before, after, inner, inner').0, ext, Written(records, pk, value, lost))
        <==> UpdateKeeps(x, pk, before, after, lost, inner, inner'))
  {
    hide Filed, WellFormed, Add, Drop, Agrees, Without, Indexed, Clash;
    var before, after := ext(records[pk]), ext(value);
    if Raw(before) == Raw(after) {
      if !lost { ChangeSame(x, ext, records, pk, value); }
    } else if inner && Shrinks(x, pk, before) {
      LostDrop(x, ext, records, pk, value, lost, inner');
    } else {
      KeptDrop(x, ext, records, pk, value, lost, inner');
    }
  }

  lemma ChangeSame(x: IndexState, ext: Extractor, records: Records, pk: Key, value: Value)
    requires Agrees(x, ext, records) && pk in records && Raw(ext(records[pk])) == Raw(ext(value))
    ensures Agrees(x, ext, records[pk := value]) <==> ext(records[pk]) == ext(value)
  {
    hide Agrees;
    if ext(records[pk]) == ext(value) { SameKeyAgrees(x, ext, records, pk, value); } else { BlurredDisagrees(x, ext, records, pk, value); }
  }

  /** The old key was removed as it should be. */
  lemma KeptDrop(x: IndexState, ext: Extractor, records: Records, pk: Key, value: Value, lost: bool, inner': bool)
    requires Agrees(x, ext, records) && pk in records && ext(records[pk]) != ext(value) && !Clash(x, ext(value))
    ensures var y := Drop(x, pk, ext(records[pk]));
      && AddOn(y, pk, ext(value), inner').1 && (Rewrites(y, pk, ext(value)) <==> Rewrites(x, pk, ext(value)))
      && (Agrees(AddOn(y, pk, ext(value), inner').0, ext, Written(records, pk, value, lost))
        <==> !lost && !(inner' && Rewrites(x, pk, ext(value))))
  {
    hide Filed, WellFormed, Add, Drop, Agrees, Indexed;
    var before, after, r := ext(records[pk]), ext(value), records - {pk};
    var y := Drop(x, pk, before);
    DropAgrees(x, ext, records, pk);
    DropOther(x, pk, before, after);
    DropLists(x, pk, before);
    AddSucceeds(y, pk, after);
    assert r[pk := value] == records[pk := value];
    if inner' && Rewrites(y, pk, after) {
      LostAddDisagrees(y, ext, r, pk, value, false);
      if lost { MissingDisagrees(y, ext, r, records, pk); }
    } else {
      AddAgrees(y, ext, r, pk, value);
      if lost { OneRecord(Add(y, pk, after).0, ext, records[pk := value], records, pk); }
    }
  }

  /** Dropping under one index key does not touch the others. */
  lemma DropOther(x: IndexState, pk: Key, before: Option<Key>, after: Option<Key>)
    requires before != after
    ensures Rewrites(Drop(x, pk, before), pk, after) <==> Rewrites(x, pk, after)
  {
    hide Without;
  }

  lemma DropOnOther(x: IndexState, pk: Key, before: Option<Key>, after: Option<Key>, inner: bool)
    requires before != after
    ensures Rewrites(DropOn(x, pk, before, inner), pk, after) <==> Rewrites(x, pk, after)
  {
    hide Without, Drop;
    DropOther(x, pk, before, after);
  }

  /** An index that lacks a record's key and counts one too many cannot agree. */
  lemma MissingDisagrees(y: IndexState, ext: Extractor, r: Records, records: Records, pk: Key)
    requires Agrees(y, ext, r) && r == records - {pk} && pk in records
    ensures !Agrees(y.(entries := y.entries + 1), ext, records)
  {
    hide WellFormed;
    if ext(records[pk]).Some? {
      assert !Filed(y.(entries := y.entries + 1), ext(records[pk]).value, pk);
    } else {
      assert Indexed(ext, records) == Indexed(ext, r);
    }
  }

  /** The removal of the old key was lost. */
  lemma LostDrop(x: IndexState, ext: Extractor, records: Records, pk: Key, value: Value, lost: bool, inner': bool)
    requires Agrees(x, ext, records) && pk in records && ext(records[pk]) != ext(value) && Shrinks(x, pk, ext(records[pk]))
    ensures var y := x.(entries := Less1(x.entries));
      && AddOn(y, pk, ext(value), inner').1 && (Rewrites(y, pk, ext(value)) <==> Rewrites(x, pk, ext(value)))
      && (Agrees(AddOn(y, pk, ext(value), inner').0, ext, Written(records, pk, value, lost))
        <==> lost && inner' && Rewrites(x, pk, ext(value)))
  {
    hide Filed, WellFormed, Add, Agrees, Without;
    var before, after := ext(records[pk]), ext(value);
    var y := x.(entries := Less1(x.entries));
    CountedOnce(x, ext, records, pk);
    AddSucceeds(y, pk, after);
    if inner' && Rewrites(x, pk, after) {
      assert y.(entries := y.entries + 1) == x;
      if !lost { OneRecord(x, ext, records, records[pk := value], pk); }
    } else {
      DropLostFiled(x, ext, records, pk, value, lost);
    }
  }

  lemma CountedOnce(x: IndexState, ext: Extractor, records: Records, pk: Key)
    requires Agrees(x, ext, records) && pk in records && ext(records[pk]).Some?
    ensures x.entries > 0 && Filed(x, ext(records[pk]).value, pk)
  {
    hide WellFormed;
    assert pk in Indexed(ext, records);
  }

  lemma DropLostFiled(x: IndexState, ext: Extractor, records: Records, pk: Key, value: Value, lost: bool)
    requires Agrees(x, ext, records) && pk in records && ext(records[pk]) != ext(value) && Shrinks(x, pk, ext(records[pk]))
    ensures var y := x.(entries := Less1(x.entries));
      !Agrees(Add(y, pk, ext(value)).0, ext, Written(records, pk, value, lost))
  {
    hide Filed, WellFormed, Add, Agrees, Without, Indexed;
    var before, after, y := ext(records[pk]), ext(value), x.(entries := Less1(x.entries));
    var z, r := Add(y, pk, after).0, Written(records, pk, value, lost);
    CountedOnce(x, ext, records, pk);
    AgreesMeans(x, ext, records, pk);
    SameFiled(x, y, before.value, pk);
    assert WellFormed(y) by { SameFormed(x, y); }
    AddSucceeds(y, pk, after);
    AddFiled(y, pk, after);
    if after == None { AddNone(y, pk); }
    if Agrees(z, ext, r) {
      AgreesMeans(z, ext, r, pk);
      assert Filed(z, before.value, pk);
      AgreesCount(x, ext, records);
      AgreesCount(z, ext, r);
    }
  }

  lemma SameFormed(x: IndexState, y: IndexState)
    requires x.lists == y.lists && x.unique == y.unique && WellFormed(x)
    ensures WellFormed(y)
  {
  }

  lemma AgreesCount(x: IndexState, ext: Extractor, records: Records)
    requires Agrees(x, ext, records)
    ensures x.entries == |Indexed(ext, records)|
  {
  }

  /** A new index over existing records, empty, agrees if and only if no record has an index key. */
  lemma EmptyAgrees(unique: bool, ext: Extractor, records: Records)
    ensures Agrees(IndexState(unique, map[], 0), ext, records) <==> forall pk | pk in records :: ext(records[pk]) == None
  {
    var x := IndexState(unique, map[], 0);
    if forall pk | pk in records :: ext(records[pk]) == None {
      assert Indexed(ext, records) == {};
    } else {
      var pk :| pk in records && ext(records[pk]).Some?;
      assert !Filed(x, ext(records[pk]).value, pk);
    }
  }

  /** Two records with the same index key. */
  ghost predicate Twins(ext: Extractor, records: Records, p: Key, q: Key) {
    p in records && q in records && p != q && ext(records[p]).Some? && ext(records[p]) == ext(records[q])
  }

  ghost predicate HasTwins(ext: Extractor, records: Records) {
    exists p, q :: Twins(ext, records, p, q)
  }

  /** A unique index that agrees with its records has no two of them under one key. */
  lemma OnePerKey(x: IndexState, ext: Extractor, records: Records, p: Key, q: Key)
    requires Agrees(x, ext, records) && x.unique && p in records && q in records
    requires ext(records[p]).Some? && ext(records[p]) == ext(records[q])
    ensures p == q
  {
    hide Indexed;
    var ik := ext(records[p]).value;
    assert Filed(x, ik, p) && Filed(x, ik, q);
  }

  /** One indexed record, inserted again with a value that has another index key. */
  lemma OverwriteExample(x: IndexState, ext: Extractor)
    requires ext([7]) == Some([7]) && ext([8]) == Some([8])
    requires x == Add(IndexState(false, map[], 0), [1], ext([7])).0
    ensures Agrees(x, ext, map[[1] := [7]]) && !Agrees(Add(x, [1], ext([8])).0, ext, map[[1] := [8]])
  {
    hide Agrees;
    var none: Records := map[];
    EmptyAgrees(false, ext, none);
    AddAgrees(IndexState(false, map[], 0), ext, none, [1], [7]);
    assert none[[1] := [7]] == map[[1] := [7]];
    OverwriteAgrees(x, ext, map[[1] := [7]], [1], [8]);
    assert map[[1] := [7]][[1] := [8]] == map[[1] := [8]];
  }

  /** A record with no index key updated to one whose index key is empty. */
  lemma UpdateExample(ext: Extractor)
    requires ext([7]) == None && ext([8]) == Some([])
    ensures var x := IndexState(true, map[], 0);
      Agrees(x, ext, map[[1] := [7]]) && !Agrees(Change(x, [1], ext([7]), ext([8])).0, ext, map[[1] := [8]])
  {
    hide Agrees;
    var r: Records := map[[1] := [7]];
    EmptyAgrees(true, ext, r);
    ChangeAgrees(IndexState(true, map[], 0), ext, r, [1], [8]);
    assert r[[1] := [8]] == map[[1] := [8]];
  }

  // ------------------------------------------------------------ room in the lists

  /** Every list can take one more key before its 32-bit count overflows. */
  ghost predicate RoomIn(x: IndexState) {
    forall ik | ik in x.lists :: |x.lists[ik]| + 1 < TWO32
  }

  lemma {:induction false} DistinctBound(s: seq<Key>, keys: set<Key>)
    requires NoRepeat(s) && forall i | 0 <= i < |s| :: s[i] in keys
    ensures |s| <= |keys|
  {
    if s != [] {
      var k, p := s[|s| - 1], s[..|s| - 1];
      DistinctBound(p, keys - {k});
    }
  }

  /** A list has no more keys than there are records. */
  lemma AgreeingRoom(x: IndexState, ext: Extractor, records: Records, ik: Key)
    requires Agrees(x, ext, records) && ik in x.lists
    ensures |x.lists[ik]| <= |records|
  {
    hide Indexed;
    forall i | 0 <= i < |x.lists[ik]| ensures x.lists[ik][i] in records.Keys {
      assert Filed(x, ik, x.lists[ik][i]);
    }
    DistinctBound(x.lists[ik], records.Keys);
    assert |records| == |records.Keys|;
  }

  lemma AgreesRoom(x: IndexState, ext: Extractor, records: Records)
    requires Agrees(x, ext, records) && |records| + 1 < TWO32
    ensures RoomIn(x)
  {
    hide Agrees;
    forall ik | ik in x.lists ensures |x.lists[ik]| + 1 < TWO32 { AgreeingRoom(x, ext, records, ik); }
  }
}
