/** Maps split by a hash of the key, and the one map they stand for. */
module Routing {
  import opened Bytes
  import opened Entries
  import Scans

  type Store = map<Key, Value>
  type Hash = Key -> nat

  /** `getShardIndex`. */
  function Route(hash: Hash, n: nat, k: Key): (i: nat)
    requires n > 0
    ensures i < n
  {
    hash(k) % n
  }

  lemma RouteIs(hash: Hash, n: nat, k: Key)
    requires n > 0
    ensures Route(hash, n, k) == hash(k) % n
  {
  }

  /** Every key lies only where its hash sends it. */
  ghost predicate Routed(hash: Hash, ms: seq<Store>) {
    && |ms| > 0
    && forall i, k | 0 <= i < |ms| && k in ms[i] :: Route(hash, |ms|, k) == i
  }

  lemma RoutedSize(hash: Hash, ms: seq<Store>)
    requires Routed(hash, ms)
    ensures |ms| > 0
  {
  }

  ghost function AllKeys(ms: seq<Store>): set<Key> {
    set i, k | 0 <= i < |ms| && k in ms[i] :: k
  }

  /** The union of the shards. */
  ghost function Merged(hash: Hash, ms: seq<Store>): Store
    requires |ms| > 0
  {
    map k | k in AllKeys(ms) && k in ms[Route(hash, |ms|, k)] :: ms[Route(hash, |ms|, k)][k]
  }

  /** Under the routing invariant the merged map holds exactly the pairs of all shards. */
  lemma MergedPairs(hash: Hash, ms: seq<Store>, k: Key)
    requires Routed(hash, ms)
    ensures k in Merged(hash, ms) <==> exists i | 0 <= i < |ms| :: k in ms[i]
    ensures forall i | 0 <= i < |ms| && k in ms[i] :: Merged(hash, ms)[k] == ms[i][k]
    ensures k in Merged(hash, ms) <==> k in ms[Route(hash, |ms|, k)]
  {
  }

  ghost function Get(m: Store, k: Key): Option<Value> {
    if k in m then Some(m[k]) else None
  }

  lemma SameMap(a: Store, b: Store)
    requires forall k :: Get(a, k) == Get(b, k)
    ensures a == b
  {
    forall k ensures (k in a <==> k in b) && (k in a ==> a[k] == b[k]) {
      assert Get(a, k) == Get(b, k);
    }
  }

  /** A lookup in the merged map is a lookup in the shard the key is routed to. */
  lemma MergedGet(hash: Hash, ms: seq<Store>, k: Key)
    requires Routed(hash, ms)
    ensures Get(Merged(hash, ms), k) == Get(ms[Route(hash, |ms|, k)], k)
  {
    MergedPairs(hash, ms, k);
  }

  /** Changing one key in its shard changes that key in the merged map and nothing else. */
  lemma MergedUpdate(hash: Hash, ms: seq<Store>, k: Key, m: Store, whole: Store)
    requires Routed(hash, ms)
    requires forall x | x != k :: Get(m, x) == Get(ms[Route(hash, |ms|, k)], x)
    requires forall x | x != k :: Get(whole, x) == Get(Merged(hash, ms), x)
    requires Get(whole, k) == Get(m, k)
    ensures Routed(hash, ms[Route(hash, |ms|, k) := m])
    ensures Merged(hash, ms[Route(hash, |ms|, k) := m]) == whole
  {
    hide Merged, Route;
    var i := Route(hash, |ms|, k);
    var ns := ms[i := m];
    forall j, x | 0 <= j < |ns| && x in ns[j] ensures Route(hash, |ns|, x) == j {
      if j == i && x != k { assert Get(m, x) == Get(ms[i], x); }
    }
    forall x ensures Get(Merged(hash, ns), x) == Get(whole, x) {
      MergedGet(hash, ns, x);
      MergedGet(hash, ms, x);
    }
    SameMap(Merged(hash, ns), whole);
  }

  /** Writing a key in its shard writes it in the merged map. */
  lemma MergedPut(hash: Hash, ms: seq<Store>, k: Key, v: Value)
    requires Routed(hash, ms)
    ensures var i := Route(hash, |ms|, k);
      && Routed(hash, ms[i := ms[i][k := v]])
      && Merged(hash, ms[i := ms[i][k := v]]) == Merged(hash, ms)[k := v]
  {
    hide Merged, Route;
    MergedUpdate(hash, ms, k, ms[Route(hash, |ms|, k)][k := v], Merged(hash, ms)[k := v]);
  }

  lemma MergedRemove(hash: Hash, ms: seq<Store>, k: Key)
    requires Routed(hash, ms)
    ensures var i := Route(hash, |ms|, k);
      && Routed(hash, ms[i := ms[i] - {k}])
      && Merged(hash, ms[i := ms[i] - {k}]) == Merged(hash, ms) - {k}
      && (k in ms[i] <==> k in Merged(hash, ms))
  {
    hide Merged, Route;
    MergedGet(hash, ms, k);
    MergedUpdate(hash, ms, k, ms[Route(hash, |ms|, k)] - {k}, Merged(hash, ms) - {k});
  }

  // -------------------------------------------------------------------- size

  ghost function TotalSize(ms: seq<Store>): nat {
    if ms == [] then 0 else |ms[0]| + TotalSize(ms[1..])
  }

  /** Counting shard by shard counts the merged map. */
  lemma MergedSize(hash: Hash, ms: seq<Store>)
    requires Routed(hash, ms)
    ensures |Merged(hash, ms)| == TotalSize(ms)
  {
    forall k ensures k in Merged(hash, ms) <==> k in AllKeys(ms) { MergedPairs(hash, ms, k); }
    assert Merged(hash, ms).Keys == AllKeys(ms);
    assert |Merged(hash, ms)| == |Merged(hash, ms).Keys|;
    forall i, j | 0 <= i < j < |ms| ensures ms[i].Keys !! ms[j].Keys {
      forall k | k in ms[i].Keys ensures k !in ms[j].Keys {
        OnlyThere(hash, ms, i, j, k);
      }
    }
    DisjointSize(ms);
  }

  lemma OnlyThere(hash: Hash, ms: seq<Store>, i: nat, j: nat, k: Key)
    requires Routed(hash, ms) && i < |ms| && j < |ms| && i != j && k in ms[i]
    ensures k !in ms[j]
  {
    assert Route(hash, |ms|, k) == i;
  }

  lemma {:induction false} DisjointSize(ms: seq<Store>)
    requires forall i, j | 0 <= i < j < |ms| :: ms[i].Keys !! ms[j].Keys
    ensures |AllKeys(ms)| == TotalSize(ms)
  {
    if ms == [] {
      assert AllKeys(ms) == {};
    } else {
      var rest := ms[1..];
      DisjointSize(rest);
      AllKeysCons(ms);
      assert ms[0].Keys !! AllKeys(rest) by {
        forall k | k in AllKeys(rest) ensures k !in ms[0].Keys {
          var i :| 0 <= i < |rest| && k in rest[i];
          assert ms[0].Keys !! ms[i + 1].Keys;
        }
      }
    }
  }

  lemma AllKeysCons(ms: seq<Store>)
    requires ms != []
    ensures AllKeys(ms) == ms[0].Keys + AllKeys(ms[1..])
  {
    var rest := ms[1..];
    forall k | k in AllKeys(ms) ensures k in ms[0].Keys + AllKeys(rest) {
      var i :| 0 <= i < |ms| && k in ms[i];
      if i > 0 { assert k in rest[i - 1]; }
    }
    forall k | k in AllKeys(rest) ensures k in AllKeys(ms) {
      var i :| 0 <= i < |rest| && k in rest[i];
      assert k in ms[i + 1];
    }
  }

  // -------------------------------------------------------------------- order

  /** `sort.Slice` by key. */
  function SortByKey(s: seq<Entry>): seq<Entry> {
    if s == [] then [] else InsertEntry(SortByKey(s[1..]), s[0])
  }

  ghost predicate DistinctKeys(s: seq<Entry>) {
    forall i, j | 0 <= i < j < |s| :: s[i].key != s[j].key
  }

  lemma {:induction false} SortByKeySorts(s: seq<Entry>)
    requires DistinctKeys(s)
    ensures Sorted(SortByKey(s))
    ensures multiset(SortByKey(s)) == multiset(s)
    ensures forall e :: e in SortByKey(s) <==> e in s
  {
    hide Sorted, FindIndex, Less, ToMap, InsertEntry;
    if s == [] {
      NoEntries();
    } else {
      var t := s[1..];
      SortByKeySorts(t);
      var u := SortByKey(t);
      InsertMultiset(u, s[0]);
      assert s == [s[0]] + t;
      NewKey(s);
      SortedInsert(u, s[0]);
    }
    SameMembers(SortByKey(s), s);
  }

  /** By key; equal keys may follow each other. */
  ghost predicate Rising(s: seq<Entry>) {
    forall i, j | 0 <= i < j < |s| :: AtMost(s[i].key, s[j].key)
  }

  lemma InsertRises(s: seq<Entry>, e: Entry)
    requires Rising(s)
    ensures Rising(InsertEntry(s, e))
  {
    hide Less;
    var p, t := FindIndex(s, e.key), InsertEntry(s, e);
    forall i | p <= i < |s| ensures AtMost(e.key, s[i].key) {
      if p < i && Less(s[i].key, e.key) {
        LessTotal(s[p].key, s[i].key);
        if s[p].key != s[i].key { LessTrans(s[p].key, s[i].key, e.key); }
      }
    }
    forall i | 0 <= i < p ensures AtMost(s[i].key, e.key) { LessTotal(s[i].key, e.key); }
    forall i, j | 0 <= i < j < |t| ensures AtMost(t[i].key, t[j].key) {
      assert t[i] == if i < p then s[i] else if i == p then e else s[i - 1];
      assert t[j] == if j < p then s[j] else if j == p then e else s[j - 1];
      if i < p && p < j { assert AtMost(s[i].key, s[j - 1].key); }
    }
  }

  /** Whatever the keys, sorting loses no entry and invents none. */
  lemma {:induction false} SortByKeyRises(s: seq<Entry>)
    ensures Rising(SortByKey(s)) && multiset(SortByKey(s)) == multiset(s)
  {
    hide Rising, InsertEntry;
    if s == [] {
      RisesNone();
    } else {
      SortByKeyRises(s[1..]);
      InsertMultiset(SortByKey(s[1..]), s[0]);
      InsertRises(SortByKey(s[1..]), s[0]);
      assert s == [s[0]] + s[1..];
    }
  }

  lemma RisesNone()
    ensures Rising([])
  {
  }

  lemma SameMembers(a: seq<Entry>, b: seq<Entry>)
    requires multiset(a) == multiset(b)
    ensures forall e :: e in a <==> e in b
  {
    forall e ensures e in a <==> e in b { assert e in multiset(a) <==> e in multiset(b); }
  }

  lemma NewKey(s: seq<Entry>)
    requires DistinctKeys(s) && s != []
    ensures DistinctKeys(s[1..]) && forall e | e in s[1..] :: e.key != s[0].key
  {
    forall e | e in s[1..] ensures e.key != s[0].key {
      var i :| 0 <= i < |s[1..]| && s[1..][i] == e;
      assert s[i + 1] == e;
    }
  }

  lemma InsertMultiset(s: seq<Entry>, e: Entry)
    ensures multiset(InsertEntry(s, e)) == multiset(s) + multiset{e}
  {
    hide FindIndex, Less;
    var i := FindIndex(s, e.key);
    assert s == s[..i] + s[i..];
  }

  // ------------------------------------------------------------------- ranges

  /** The part of a map with keys in `[lo, hi]`. */
  ghost function Inlying(m: Store, lo: Key, hi: Key): Store {
    map k | k in m && InRange(k, lo, hi) :: m[k]
  }

  /** `e` is a pair of one of the first `n` shards. */
  ghost predicate InSome(ms: seq<Store>, n: nat, e: Entry)
    requires n <= |ms|
  {
    exists j | 0 <= j < n :: e.key in ms[j] && ms[j][e.key] == e.value
  }

  /** `all` lists the pairs of the first `n` shards, each once. */
  ghost predicate Listed(all: seq<Entry>, ms: seq<Store>, n: nat) {
    && n <= |ms|
    && DistinctKeys(all)
    && forall e :: e in all <==> InSome(ms, n, e)
  }

  lemma ListNone(ms: seq<Store>)
    ensures Listed([], ms, 0)
  {
  }

  lemma ListNext(hash: Hash, all: seq<Entry>, ms: seq<Store>, n: nat, s: seq<Entry>)
    requires Routed(hash, ms) && n < |ms| && Listed(all, ms, n)
    requires Sorted(s) && ToMap(s) == ms[n]
    ensures Listed(all + s, ms, n + 1)
  {
    hide Sorted, ToMap, Less, Route;
    ToMapEntries(s);
    SortedDistinct(s);
    var more := all + s;
    forall e ensures e in more <==> InSome(ms, n + 1, e) {
      if e in all {
        var j :| 0 <= j < n && e.key in ms[j] && ms[j][e.key] == e.value;
      }
      if InSome(ms, n + 1, e) {
        var j :| 0 <= j < n + 1 && e.key in ms[j] && ms[j][e.key] == e.value;
        if j < n { assert InSome(ms, n, e); }
      }
    }
    forall i, j | 0 <= i < |all| && 0 <= j < |s| ensures all[i].key != s[j].key {
      assert all[i] in all && s[j] in s;
      var m :| 0 <= m < n && all[i].key in ms[m];
      OnlyThere(hash, ms, m, n, all[i].key);
    }
    DistinctConcat(all, s);
  }

  /** `all` lists the pairs of `m`, each once. */
  ghost predicate Enumerates(all: seq<Entry>, m: Store) {
    DistinctKeys(all) && forall e :: e in all <==> e.key in m && m[e.key] == e.value
  }

  lemma ListAll(hash: Hash, all: seq<Entry>, ms: seq<Store>)
    requires Routed(hash, ms) && Listed(all, ms, |ms|)
    ensures Enumerates(all, Merged(hash, ms))
  {
    hide Route, Merged;
    var m := Merged(hash, ms);
    forall e ensures e in all <==> e.key in m && m[e.key] == e.value {
      MergedPairs(hash, ms, e.key);
      assert e in all <==> InSome(ms, |ms|, e);
    }
  }

  lemma SortedDistinct(s: seq<Entry>)
    requires Sorted(s)
    ensures DistinctKeys(s)
  {
    hide Less;
    forall i, j | 0 <= i < j < |s| ensures s[i].key != s[j].key { LessTotal(s[i].key, s[j].key); }
  }

  lemma DistinctConcat(a: seq<Entry>, b: seq<Entry>)
    requires DistinctKeys(a) && DistinctKeys(b)
    requires forall i, j | 0 <= i < |a| && 0 <= j < |b| :: a[i].key != b[j].key
    ensures DistinctKeys(a + b)
  {
    var s := a + b;
    forall i, j | 0 <= i < j < |s| ensures s[i].key != s[j].key {
      if j < |a| { assert s[i] == a[i] && s[j] == a[j]; }
      else if i < |a| { assert s[i] == a[i] && s[j] == b[j - |a|]; }
      else { assert s[i] == b[i - |a|] && s[j] == b[j - |a|]; }
    }
  }

  lemma {:induction false} WithinDistinct(s: seq<Entry>, lo: Key, hi: Key)
    requires DistinctKeys(s)
    ensures DistinctKeys(Within(s, lo, hi))
  {
    if s != [] {
      WithinDistinct(s[1..], lo, hi);
      WithinMembers(s[1..], lo, hi);
      var r := Within(s[1..], lo, hi);
      forall i | 0 <= i < |r| ensures s[0].key != r[i].key {
        assert r[i] in s[1..];
        var j :| 0 <= j < |s[1..]| && s[1..][j] == r[i];
      }
    }
  }

  /** Sorting what all shards answer gives the merged map's answer, in order. */
  lemma SortedRange(all: seq<Entry>, m: Store, lo: Key, hi: Key)
    requires Enumerates(all, m)
    ensures var s := SortByKey(Within(all, lo, hi));
      Sorted(s) && ToMap(s) == Inlying(m, lo, hi)
  {
    hide Sorted, ToMap, Less, SortByKey, Within;
    var w := Within(all, lo, hi);
    WithinMembers(all, lo, hi);
    WithinDistinct(all, lo, hi);
    SortByKeySorts(w);
    ToMapIs(SortByKey(w), Inlying(m, lo, hi));
  }

  // ----------------------------------------------------------- deleting ranges

  /** Removing, key by key, what a range query returned removes the range. */
  lemma RangeGone(s: seq<Entry>, m: Store, lo: Key, hi: Key)
    requires Sorted(s) && ToMap(s) == Inlying(m, lo, hi)
    ensures m - Scans.KeySet(s) == Scans.Outlying(m, lo, hi)
    ensures Scans.KeySet([]) == {}
    ensures forall i | 0 <= i < |s| :: s[i].key in m
    ensures |s| == |Inlying(m, lo, hi)|
  {
    hide Less, Sorted, ToMap;
    ToMapEntries(s);
    ToMapSize(s);
    forall k | k in m ensures k in Scans.KeySet(s) <==> InRange(k, lo, hi) {
      if InRange(k, lo, hi) {
        assert Entry(k, m[k]) in s;
        var i :| 0 <= i < |s| && s[i] == Entry(k, m[k]);
      }
      if i :| 0 <= i < |s| && s[i].key == k {
        assert s[i] in s;
      }
    }
    forall i | 0 <= i < |s| ensures s[i].key in m { assert s[i] in s; }
  }

  lemma {:induction false} TotalSizeNext(ms: seq<Store>, i: nat)
    requires i < |ms|
    ensures TotalSize(ms[..i + 1]) == TotalSize(ms[..i]) + |ms[i]|
  {
    if i == 0 {
      assert ms[..1][1..] == [] && ms[..0] == [];
    } else {
      TotalSizeNext(ms[1..], i - 1);
      assert ms[..i + 1][1..] == ms[1..][..i] && ms[..i][1..] == ms[1..][..i - 1];
    }
  }
}
