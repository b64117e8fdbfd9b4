/** Range queries over an index: the lists of the index keys in a range, one after another. */
module IndexRanges {
  import opened Bytes
  import opened Entries
  import opened IndexSpec
  import Routing

  ghost predicate Increasing(ks: seq<Key>) {
    forall i, j | 0 <= i < j < |ks| :: Less(ks[i], ks[j])
  }

  /** Exactly the keys of `lists` between `lo` and `hi`, in increasing order. */
  ghost predicate KeysBetween(ks: seq<Key>, lists: map<Key, seq<Key>>, lo: Key, hi: Key) {
    Increasing(ks) && forall k :: k in ks <==> k in lists && InRange(k, lo, hi)
  }

  ghost function Flatten(lists: map<Key, seq<Key>>, ks: seq<Key>): seq<Key>
    requires forall k | k in ks :: k in lists
  {
    if ks == [] then [] else Flatten(lists, ks[..|ks| - 1]) + lists[ks[|ks| - 1]]
  }

  /** Indexed records, each once, by increasing index key. */
  ghost predicate InKeyOrder(pks: seq<Key>, ext: Extractor, records: Records) {
    && NoRepeat(pks)
    && (forall i | 0 <= i < |pks| :: pks[i] in records && ext(records[pks[i]]).Some?)
    && (forall i, j | 0 <= i < j < |pks| :: AtMost(ext(records[pks[i]]).value, ext(records[pks[j]]).value))
  }

  lemma PairKeys(s: seq<Entry>, m: map<Key, Value>, lo: Key, hi: Key, lists: map<Key, seq<Key>>) returns (ks: seq<Key>)
    requires Sorted(s) && ToMap(s) == Routing.Inlying(m, lo, hi) && m.Keys == lists.Keys
    ensures |ks| == |s| && KeysBetween(ks, lists, lo, hi)
    ensures forall i | 0 <= i < |s| :: ks[i] == s[i].key && s[i].key in m && s[i].value == m[s[i].key]
  {
    hide ToMap, Less;
    ks := seq(|s|, i requires 0 <= i < |s| => s[i].key);
    ToMapEntries(s);
    forall i | 0 <= i < |s| ensures s[i].key in m && s[i].value == m[s[i].key] { assert s[i] in s; }
    forall k ensures k in ks <==> k in lists && InRange(k, lo, hi) {
      if k in ks {
        var i :| 0 <= i < |ks| && ks[i] == k;
        assert s[i] in s;
      }
      if k in lists && InRange(k, lo, hi) {
        var e := Entry(k, m[k]);
        assert e in s;
        var i :| 0 <= i < |s| && s[i] == e;
        assert ks[i] == k;
      }
    }
  }

  /** The lists of increasing index keys, joined, are the records with those keys, by key. */
  lemma {:induction false} FlattenMeans(x: IndexState, ext: Extractor, records: Records, ks: seq<Key>)
    requires Agrees(x, ext, records) && Increasing(ks) && forall k | k in ks :: k in x.lists
    ensures var r := Flatten(x.lists, ks);
      && InKeyOrder(r, ext, records)
      && forall pk :: pk in r <==> pk in records && ext(records[pk]).Some? && ext(records[pk]).value in ks
  {
    hide Agrees, Less, AtMost;
    if ks != [] {
      var n := |ks| - 1;
      var p, k := ks[..n], ks[n];
      FlattenMeans(x, ext, records, p);
      ListMeans(x, ext, records, k);
      var r, l := Flatten(x.lists, p), x.lists[k];
      assert ks == p + [k];
      assert forall pk :: pk in r + l <==> pk in r || pk in l;
      AppendOrder(r, l, ext, records, p, k);
    }
  }

  lemma ListMeans(x: IndexState, ext: Extractor, records: Records, k: Key)
    requires Agrees(x, ext, records) && k in x.lists
    ensures NoRepeat(x.lists[k])
    ensures forall pk :: pk in x.lists[k] <==> pk in records && ext(records[pk]) == Some(k)
  {
    hide Indexed;
    forall pk ensures pk in x.lists[k] <==> pk in records && ext(records[pk]) == Some(k) { assert pk in x.lists[k] <==> Filed(x, k, pk); }
  }

  lemma AppendOrder(r: seq<Key>, l: seq<Key>, ext: Extractor, records: Records, p: seq<Key>, k: Key)
    requires InKeyOrder(r, ext, records) && NoRepeat(l) && Increasing(p + [k])
    requires forall pk | pk in l :: pk in records && ext(records[pk]) == Some(k)
    requires forall pk | pk in r :: pk in records && ext(records[pk]).Some? && ext(records[pk]).value in p
    ensures InKeyOrder(r + l, ext, records)
  {
    hide Less;
    var all := r + l;
    forall i | 0 <= i < |all| ensures all[i] in records && ext(records[all[i]]).Some? { }
    forall i, j | 0 <= i < j < |all|
      ensures all[i] != all[j] && AtMost(ext(records[all[i]]).value, ext(records[all[j]]).value)
    {
      LessTotal(k, k);
      if i < |r| && |r| <= j {
        assert all[i] in r && all[j] in l;
        var q :| 0 <= q < |p| && p[q] == ext(records[all[i]]).value;
        assert (p + [k])[q] == p[q] && (p + [k])[|p|] == k;
        LessTotal(p[q], k);
      } else if |r| <= i {
        assert l[i - |r|] != l[j - |r|] && l[i - |r|] in l && l[j - |r|] in l;
      }
    }
  }
}
