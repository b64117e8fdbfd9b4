/** Filling a new index from the records that are there. */
module IndexRebuild {
  import opened Bytes
  import opened Entries
  import opened Fixed
  import opened Routing
  import opened Tables
  import opened IndexSpec
  import opened IndexPlaces
  import opened IndexBases
  import opened SecondaryIndexes
  import opened IndexLists

  // ------------------------------------------------------------------- rebuilding

  lemma FiledRoom(x: IndexState, keys: set<Key>)
    requires WellFormed(x) && |keys| + 1 < TWO32 && forall ik, p | Filed(x, ik, p) :: p in keys
    ensures RoomIn(x)
  {
    forall ik | ik in x.lists ensures |x.lists[ik]| + 1 < TWO32 {
      forall i | 0 <= i < |x.lists[ik]| ensures x.lists[ik][i] in keys { assert Filed(x, ik, x.lists[ik][i]); }
      DistinctBound(x.lists[ik], keys);
    }
  }

  /** A record whose key is missing from the index. */
  ghost predicate Missing(x: IndexState, ext: Extractor, d: Records, p: Key) {
    p in d && ext(d[p]).Some? && !Filed(x, ext(d[p]).value, p)
  }

  /** An index that has been through the records `d`, and has lost one of them or none. */
  ghost predicate Building(x: IndexState, ext: Extractor, d: Records, lost: bool) {
    && (forall ik, p | Filed(x, ik, p) :: p in d)
    && if lost then !x.unique && HasTwins(ext, d) && exists p :: Missing(x, ext, d, p) else Agrees(x, ext, d)
  }

  lemma BuildingEnds(x: IndexState, ext: Extractor, d: Records, lost: bool)
    requires Building(x, ext, d, lost)
    ensures Agrees(x, ext, d) <==> !lost
    ensures lost ==> !x.unique && HasTwins(ext, d)
    ensures x.unique ==> !HasTwins(ext, d)
  {
    hide WellFormed, Indexed, Filed;
    if !lost && x.unique {
      forall p, q ensures !Twins(ext, d, p, q) { if Twins(ext, d, p, q) { OnePerKey(x, ext, d, p, q); } }
    }
  }

  lemma MoreTwins(ext: Extractor, d: Records, pk: Key, value: Value)
    requires HasTwins(ext, d) && pk !in d
    ensures HasTwins(ext, d[pk := value])
  {
    var p, q :| Twins(ext, d, p, q);
    assert Twins(ext, d[pk := value], p, q);
  }

  lemma SharedTwins(x: IndexState, ext: Extractor, d: Records, pk: Key, value: Value)
    requires Agrees(x, ext, d) && pk !in d && ext(value).Some? && ext(value).value in x.lists
    ensures HasTwins(ext, d[pk := value])
  {
    hide Agrees;
    Present(x, ext, d, ext(value).value);
    var p :| p in d && ext(d[p]) == ext(value);
    assert Twins(ext, d[pk := value], p, pk);
  }

  lemma BuildStep(x: IndexState, ext: Extractor, d: Records, lost: bool, pk: Key, value: Value, inner: bool)
    requires WellFormed(x) && Building(x, ext, d, lost) && pk !in d
    ensures Clash(x, ext(value)) ==> x.unique && !lost && !Rewrites(x, pk, ext(value))
    ensures Clash(x, ext(value)) ==> !AddOn(x, pk, ext(value), inner).1 && HasTwins(ext, d[pk := value])
    ensures !Clash(x, ext(value)) ==> AddOn(x, pk, ext(value), inner).1
    ensures !Clash(x, ext(value)) ==>
      Building(AddOn(x, pk, ext(value), inner).0, ext, d[pk := value], lost || (inner && Rewrites(x, pk, ext(value))))
  {
    hide WellFormed, Filed, Add, Agrees, Indexed, HasTwins;
    var ik, e := ext(value), d[pk := value];
    AddSucceeds(x, pk, ik);
    if Clash(x, ik) {
      SharedTwins(x, ext, d, pk, value);
    } else {
      BuildFiled(x, ext, d, pk, ik, inner);
      if lost {
        MoreTwins(ext, d, pk, value);
        var p :| Missing(x, ext, d, p);
        assert Missing(AddOn(x, pk, ik, inner).0, ext, e, p);
      } else if inner && Rewrites(x, pk, ik) {
        SharedTwins(x, ext, d, pk, value);
        SameFiled(x, AddOn(x, pk, ik, inner).0, ik.value, pk);
        assert Missing(AddOn(x, pk, ik, inner).0, ext, e, pk);
      } else {
        AddAgrees(x, ext, d, pk, value);
      }
    }
  }

  lemma BuildFiled(x: IndexState, ext: Extractor, d: Records, pk: Key, ik: Option<Key>, inner: bool)
    requires WellFormed(x) && !Clash(x, ik) && forall k, p | Filed(x, k, p) :: p in d
    ensures forall k, p :: Filed(AddOn(x, pk, ik, inner).0, k, p) ==> Filed(x, k, p) || p == pk
    ensures AddOn(x, pk, ik, inner).0.unique == x.unique
  {
    hide WellFormed, Add;
    AddSucceeds(x, pk, ik);
    if !(inner && Rewrites(x, pk, ik)) { AddFiled(x, pk, ik); }
  }

  /** The records of the first `n` pairs. */
  ghost function Seen(pairs: seq<Entry>, n: nat): Records
    requires n <= |pairs|
  {
    if n == 0 then map[] else Seen(pairs, n - 1)[pairs[n - 1].key := pairs[n - 1].value]
  }

  lemma {:induction false} SeenKeys(pairs: seq<Entry>, n: nat)
    requires n <= |pairs| && DistinctKeys(pairs)
    ensures forall k :: k in Seen(pairs, n) <==> exists i | 0 <= i < n :: pairs[i].key == k
    ensures forall i | 0 <= i < n :: Seen(pairs, n)[pairs[i].key] == pairs[i].value
    ensures forall i | n <= i < |pairs| :: pairs[i].key !in Seen(pairs, n)
  {
    if n > 0 { SeenKeys(pairs, n - 1); }
  }

  lemma SeenAll(pairs: seq<Entry>, records: Records)
    requires Enumerates(pairs, records)
    ensures Seen(pairs, |pairs|) == records
  {
    SeenKeys(pairs, |pairs|);
    forall k ensures k in records <==> k in Seen(pairs, |pairs|) {
      if k in records { assert Entry(k, records[k]) in pairs; }
      if k in Seen(pairs, |pairs|) {
        var i :| 0 <= i < |pairs| && pairs[i].key == k;
        assert pairs[i] in pairs;
      }
    }
    forall k | k in records ensures records[k] == Seen(pairs, |pairs|)[k] {
      assert Entry(k, records[k]) in pairs;
    }
  }

  lemma BuildNone(unique: bool, ext: Extractor, pairs: seq<Entry>)
    ensures Building(IndexState(unique, map[], 0), ext, Seen(pairs, 0), false)
  {
    hide Agrees;
    EmptyAgrees(unique, ext, map[]);
  }

  lemma SeenNext(pairs: seq<Entry>, i: nat, records: Records)
    requires i < |pairs| && Enumerates(pairs, records)
    ensures pairs[i].key !in Seen(pairs, i) && Seen(pairs, i + 1) == Seen(pairs, i)[pairs[i].key := pairs[i].value]
    ensures |pairs[i].key| < TWO32 || !(forall pk | pk in records :: |pk| < TWO32)
    ensures Part(Seen(pairs, i + 1), records) && Part(Seen(pairs, i), records)
  {
    SeenKeys(pairs, i);
    SeenKeys(pairs, i + 1);
    assert pairs[i] in pairs;
    forall n | n <= i + 1 && n >= i ensures Part(Seen(pairs, n), records) {
      SeenKeys(pairs, n);
      forall k | k in Seen(pairs, n) ensures k in records && records[k] == Seen(pairs, n)[k] {
        var j :| 0 <= j < n && pairs[j].key == k;
        assert pairs[j] in pairs;
      }
    }
  }

  ghost predicate Part(d: Records, records: Records) {
    forall k | k in d :: k in records && records[k] == d[k]
  }

  lemma BuildRoom(x: SecondaryIndex, d: Records, lost: bool, records: Records)
    requires x.Shown() && Building(x.State(), x.extractor, d, lost) && Part(d, records) && |records| + 1 < TWO32
    ensures RoomIn(x.State()) && WellFormed(x.State())
  {
    hide Holds, Filed, Agrees, WellFormed, Table.Sound, RoomIn;
    assert d.Keys <= records.Keys;
    Bounded(d.Keys, records.Keys);
    assert |records| == |records.Keys|;
    FiledRoom(x.State(), d.Keys);
  }

  lemma Bounded(a: set<Key>, b: set<Key>)
    requires a <= b
    ensures |a| <= |b|
  {
    assert |b| == |a| + |b - a| by { assert a + (b - a) == b; }
  }

  lemma TwinsAmong(ext: Extractor, d: Records, records: Records)
    requires HasTwins(ext, d) && Part(d, records)
    ensures HasTwins(ext, records)
  {
    var p, q :| Twins(ext, d, p, q);
    assert Twins(ext, records, p, q);
  }

  /** One more record in the index. */
  lemma BuildTo(x: Placed, ext: Extractor, d: Records, lost: bool, pk: Key, value: Value)
    requires WellFormed(x.state) && Building(x.state, ext, d, lost) && pk !in d
    ensures AddTo(x, pk, ext(value)).1 ==>
      Building(AddTo(x, pk, ext(value)).0.state, ext, d[pk := value], lost || AddLoses(x, pk, ext(value)))
    ensures !AddTo(x, pk, ext(value)).1 ==> x.state.unique && HasTwins(ext, d[pk := value])
  {
    hide AddTo, AddOn, Held, Rewrites, Clash, Building, HasTwins, WellFormed;
    AddToState(x, pk, ext(value));
    BuildStep(x.state, ext, d, lost, pk, value, Held(x, ext(value)));
  }

  /** The rebuild loop: the pairs in the order of `ForEach`, until the first that is refused.  Only an
      index that is not unique can lose a write, and only where two records have the same key in it. */
  method Rebuild(x: SecondaryIndex, pairs: seq<Entry>, ghost records: Records) returns (ok: bool)
    requires x.Shown() && x.Valid() && x.State() == IndexState(x.unique, map[], 0) && Enumerates(pairs, records)
    requires |records| + 1 < TWO32 && forall pk | pk in records :: |pk| < TWO32
    modifies x.Repr
    ensures x.Shown() && fresh(x.Repr - old(x.Repr))
    ensures ok <==> (x.unique ==> !HasTwins(x.extractor, records))
    ensures ok ==> x.Model() == IndexAll(old(x.Model()), x.extractor, pairs)
    ensures ok ==> (x.Valid() <==> !IndexLoses(old(x.Model()), x.extractor, pairs))
    ensures ok ==> (Agrees(x.State(), x.extractor, records) <==> !IndexLoses(old(x.Model()), x.extractor, pairs))
    ensures ok && IndexLoses(old(x.Model()), x.extractor, pairs) ==> !x.unique && HasTwins(x.extractor, records)
  {
    hide AddTo, AddLoses, Agrees, Building, HasTwins, SecondaryIndex.Shown, SecondaryIndex.Valid, Seen, WellFormed, IndexAll, IndexLoses;
    ghost var y, ext := x.Model(), x.extractor;
    BuildNone(x.unique, ext, pairs);
    SeenAll(pairs, records);
    IndexNone(y, ext, pairs);
    for i := 0 to |pairs|
      invariant x.Shown() && fresh(x.Repr - old(x.Repr)) && x.Model() == IndexAll(y, ext, pairs[..i])
      invariant x.Valid() <==> !IndexLoses(y, ext, pairs[..i])
      invariant Building(x.State(), ext, Seen(pairs, i), IndexLoses(y, ext, pairs[..i]))
    {
      ghost var d, lost := Seen(pairs, i), IndexLoses(y, ext, pairs[..i]);
      SeenNext(pairs, i, records);
      BuildRoom(x, d, lost, records);
      IndexNext(y, ext, pairs, i);
      BuildTo(x.Model(), ext, d, lost, pairs[i].key, pairs[i].value);
      ok := x.Index(pairs[i].key, pairs[i].value);
      if !ok {
        TwinsAmong(ext, Seen(pairs, i + 1), records);
        return;
      }
    }
    assert pairs[..|pairs|] == pairs;
    BuildingEnds(x.State(), ext, records, IndexLoses(y, ext, pairs));
    return true;
  }
}
