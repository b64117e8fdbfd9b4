/** The sharded tree: hash-routed B-trees that behave as one ordered map. */
module Sharded {
  import opened Bytes
  import opened Entries
  import opened Nodes
  import opened Shapes
  import opened Btrees
  import opened Routing
  import opened Forests
  import Scans

  class ShardedBTree {
    var shards: seq<Btree>
    const hash: Hash

    /** The node objects of all shards. */
    ghost function Objects(): set<Node>
      reads this, shards
    {
      set i, n | 0 <= i < |shards| && n in shards[i].Objects() :: n
    }

    ghost function Maps(): (ms: seq<Store>)
      reads this, shards
      ensures |ms| == |shards|
    {
      seq(|shards|, i requires 0 <= i < |shards| reads this, shards => shards[i].View())
    }

    /** The shards as values. */
    ghost function Grove(): (f: Forest)
      reads this, shards
      ensures |f| == |shards|
    {
      seq(|shards|, i requires 0 <= i < |shards| reads this, shards => shards[i].Form())
    }

    /** Shards share nothing and each is a well-formed tree. */
    ghost predicate Apart()
      reads this, shards, Objects()
    {
      && |shards| > 0
      && (forall i | 0 <= i < |shards| :: shards[i].Valid())
      && (forall i, j | 0 <= i < j < |shards| :: shards[i] != shards[j] && shards[i].Objects() !! shards[j].Objects())
    }

    /** Besides, lookups are guided, and every key is in the shard its hash selects. */
    ghost predicate Sound()
      reads this, shards, Objects()
    {
      && Apart()
      && (forall i | 0 <= i < |shards| :: shards[i].Guided())
      && (forall i, k | 0 <= i < |shards| && shards[i].Look(k).Some? :: Route(hash, |shards|, k) == i)
    }

    /** Shards share nothing, each is a well-formed ordered tree, and keys are where they hash. */
    ghost predicate Valid()
      reads this, shards, Objects()
    {
      Apart() && (forall i | 0 <= i < |shards| :: shards[i].Ordered()) && Routed(hash, Maps())
    }

    lemma ValidSound()
      requires Valid()
      ensures Sound()
    {
      hide Btree.Valid, Btree.Look, Btree.Guided, Btree.View, Btree.Ordered, Route;
      forall i | 0 <= i < |shards| ensures shards[i].Guided() { shards[i].OrderedGuided(); }
      forall i, k | 0 <= i < |shards| && shards[i].Look(k).Some? ensures Route(hash, |shards|, k) == i {
        shards[i].LookOrdered(k);
        assert Maps()[i] == shards[i].View();
      }
    }

    lemma ValidApart()
      requires Valid()
      ensures Apart() && |shards| > 0
    {
    }

    lemma SoundValid()
      requires Sound() && forall i | 0 <= i < |shards| :: shards[i].Ordered()
      ensures Valid()
    {
      hide Btree.Valid, Btree.Look, Btree.Guided, Btree.View, Btree.Ordered, Route;
      forall i, k | 0 <= i < |shards| && k in Maps()[i] ensures Route(hash, |shards|, k) == i {
        shards[i].LookOrdered(k);
      }
    }

    /** What `Find` returns. */
    ghost function Look(key: Key): Option<Value>
      reads this, shards
      requires |shards| > 0
    {
      shards[Route(hash, |shards|, key)].Look(key)
    }

    /** Lookups depend on the shapes only. */
    lemma GroveDescends(key: Key)
      requires |shards| > 0
      ensures Look(key) == FindForest(hash, Grove(), key) && (Inside(key) <==> HeldForest(hash, Grove(), key))
    {
      hide Btree.Look, Btree.Inside, Btree.Form, FindOpt, HeldOpt, Route;
      shards[Route(hash, |shards|, key)].FormDescends(key);
    }

    /** An inner key is found; so a key that is absent is in no inner node. */
    lemma InsideFound(key: Key)
      requires Apart() && Inside(key)
      ensures Look(key).Some?
    {
      hide Btree.Valid, Btree.Look, Btree.Inside;
      shards[Route(hash, |shards|, key)].InsideFound(key);
    }

    lemma LookValid(key: Key)
      requires Valid()
      ensures Look(key) == Get(View(), key)
      ensures Inside(key) ==> key in View()
    {
      hide Btree.Valid, Btree.Contents, Btree.Look, Btree.Inside, Sorted, ToMap, Merged, Route;
      var i := Route(hash, |shards|, key);
      MergedGet(hash, Maps(), key);
      shards[i].LookOrdered(key);
      assert Maps()[i] == shards[i].View();
    }

    /** The one map the shards stand for. */
    ghost function View(): Store
      reads this, shards
      requires |shards| > 0
    {
      Merged(hash, Maps())
    }

    lemma EmptyShards()
      requires |shards| > 0
      requires forall j | 0 <= j < |shards| :: shards[j].Valid() && shards[j].Contents() == [] && shards[j].Objects() == {} && shards[j].Form() == None
      requires forall j, k | 0 <= j < k < |shards| :: shards[j] != shards[k]
      ensures Valid() && View() == map[] && Objects() == {} && Grove() == EmptyForest(|shards|)
    {
      hide Btree.Valid, Btree.Contents, Btree.Objects;
      NoEntries();
      assert forall j | 0 <= j < |shards| :: Maps()[j] == map[];
    }

    constructor (numShards: int, numCPU: nat, hash: Hash)
      requires numCPU > 0
      ensures Valid() && View() == map[] && this.hash == hash
      ensures Objects() == {} && forall i | 0 <= i < |shards| :: fresh(shards[i])
      ensures |shards| == (if numShards <= 0 then numCPU else numShards) && Grove() == EmptyForest(|shards|)
    {
      hide Btree.Valid, Btree.Contents, Btree.Objects, Valid;
      this.hash := hash;
      shards := [];
      new;
      var n := if numShards <= 0 then numCPU else numShards;
      for i := 0 to n
        invariant |shards| == i
        invariant forall j | 0 <= j < i :: fresh(shards[j]) && shards[j].Valid() && shards[j].Contents() == [] && shards[j].Objects() == {} && shards[j].Form() == None
        invariant forall j, k | 0 <= j < k < i :: shards[j] != shards[k]
      {
        var t := new Btree();
        shards := shards + [t];
      }
      EmptyShards();
    }

    method Find(key: Key) returns (r: Option<Value>)
      requires Apart()
      ensures r == Look(key) == shards[hash(key) % |shards|].Look(key)
      ensures Valid() ==> r == Get(View(), key)
    {
      hide Matches, Balanced, Sorted, InOrder, ToMap, Merged, Repr;
      if Valid() { LookValid(key); }
      ghost var visited;
      r, visited := shards[Route(hash, |shards|, key)].Find(key);
    }

    /** The inner node check of the shard the key belongs to. */
    ghost predicate Inside(key: Key)
      reads this, shards
      requires |shards| > 0
    {
      shards[Route(hash, |shards|, key)].Inside(key)
    }

    lemma ShardObjectsExist()
      ensures forall i, n | 0 <= i < |shards| && n in shards[i].Objects() :: allocated(n)
    {
      forall i, n | 0 <= i < |shards| && n in shards[i].Objects() ensures allocated(n) {
        Existing(shards[i].model.value);
      }
    }

    lemma ObjectsExist()
      ensures forall n | n in Objects() :: allocated(n)
    {
      ShardObjectsExist();
    }

    /** Changing one shard with its own and new nodes keeps the shards apart. */
    twostate lemma OneChanged(i: nat)
      requires old(Apart()) && old(shards) == shards && i < |shards| && shards[i].Valid()
      requires fresh(shards[i].Objects() - old(shards[i].Objects()))
      requires forall j | 0 <= j < |shards| && j != i :: unchanged(shards[j])
      requires forall j, n | 0 <= j < |shards| && j != i && n in old(shards[j].Objects()) :: old(allocated(n)) && unchanged(n)
      ensures Apart() && fresh(Objects() - old(Objects()))
    {
      hide Matches, Balanced, Distinct, Repr;
      ghost var own := shards[i].Objects();
      forall j | 0 <= j < |shards| && j != i ensures shards[j].Valid() && shards[j].Objects() !! own {
        assert shards[j].Objects() == old(shards[j].Objects());
        assert old(shards[j].Valid());
      }
    }

    /** Follows the shape functions on any shards.  Where lookups are guided, it changes what `Find`
        returns for the key exactly when no inner node of its shard holds it, and for no other key;
        then, on ordered shards, it updates the one map.  A key that is absent is in no inner node. */
    method Insert(key: Key, value: Value)
      requires Apart()
      modifies shards, Objects()
      ensures Apart() && fresh(Objects() - old(Objects()))
      ensures Grove() == PutForest(hash, old(Grove()), Entry(key, value))
      ensures forall i | 0 <= i < |shards| && i != hash(key) % |shards| :: Grove()[i] == old(Grove())[i]
      ensures old(Sound()) ==> Sound()
      ensures old(Sound()) ==> forall k :: Look(k) == if k == key && !old(Inside(key)) then Some(value) else old(Look(k))
      ensures old(Sound()) ==> (Valid() <==> old(Valid()) && !old(Inside(key)))
      ensures old(Valid()) && !old(Inside(key)) ==> View() == old(View())[key := value]
      ensures old(Look(key)).None? ==> !old(Inside(key))
      ensures old(Valid()) && key !in old(View()) ==> Valid() && View() == old(View())[key := value]
      ensures old(Sound()) ==> forall k | old(Inside(k)) :: Inside(k)
      ensures old(Sound()) && old(Look(key)).Some? && !old(Inside(key)) ==> forall k :: Inside(k) <==> old(Inside(k))
    {
      hide Btree.Valid, Btree.Contents, Btree.Look, Btree.Inside, Btree.Guided, Btree.Ordered, Btree.View, Btree.Objects, Btree.Form, Route, Merged,
        Routed, InsertShape;
      ShardObjectsExist();
      ghost var ms, was := Maps(), Valid();
      if Sound() && forall i | 0 <= i < |shards| :: shards[i].Ordered() { SoundValid(); }
      if Inside(key) { InsideFound(key); }
      if was {
        ValidSound();
        LookValid(key);
        RoutedSize(hash, ms);
        MergedPut(hash, ms, key, value);
      }
      var i := Route(hash, |shards|, key);
      RouteIs(hash, |shards|, key);
      InsertAt(i, key, value);
      if was && !old(Inside(key)) {
        assert Maps() == ms[i := ms[i][key := value]];
      }
    }

    /** The insertion into one shard, which leaves the others alone. */
    method InsertAt(i: nat, key: Key, value: Value)
      requires Apart() && i < |shards|
      modifies shards[i], shards[i].Objects()
      ensures Apart() && fresh(Objects() - old(Objects()))
      ensures Grove() == old(Grove())[i := Some(InsertShape(old(Grove())[i], Entry(key, value)))]
      ensures Maps() == old(Maps())[i := shards[i].View()]
      ensures forall j | 0 <= j < |shards| && j != i :: (shards[j].Guided() <==> old(shards[j].Guided())) && (shards[j].Ordered() <==> old(shards[j].Ordered()))
      ensures forall j, k | 0 <= j < |shards| && j != i :: shards[j].Look(k) == old(shards[j].Look(k)) && (shards[j].Inside(k) <==> old(shards[j].Inside(k)))
      ensures old(shards[i].Guided()) ==> shards[i].Guided()
      ensures old(shards[i].Guided()) ==>
        forall k :: shards[i].Look(k) == if k == key && !old(shards[i].Inside(key)) then Some(value) else old(shards[i].Look(k))
      ensures old(shards[i].Guided()) ==> (shards[i].Ordered() <==> old(shards[i].Ordered()) && !old(shards[i].Inside(key)))
      ensures old(shards[i].Ordered()) && !old(shards[i].Inside(key)) ==> shards[i].View() == old(shards[i].View())[key := value]
      ensures old(shards[i].Guided()) ==> forall k | old(shards[i].Inside(k)) :: shards[i].Inside(k)
      ensures old(shards[i].Guided()) && old(shards[i].Look(key)).Some? && !old(shards[i].Inside(key)) ==>
        forall k :: shards[i].Inside(k) <==> old(shards[i].Inside(k))
    {
      hide Btree.Valid, Btree.Contents, Btree.Look, Btree.Inside, Btree.Guided, Btree.Ordered, Btree.View, Btree.Objects, Btree.Form, InsertShape;
      ShardObjectsExist();
      shards[i].Insert(key, value);
      OneChanged(i);
    }

    /** Follows the shape functions on any shards; where lookups are guided, reports whether the key was
        found; on ordered shards, removes it from the one map. */
    method Delete(key: Key) returns (deleted: bool)
      requires Apart()
      modifies shards, Objects()
      ensures Apart() && Objects() <= old(Objects())
      ensures Grove() == CutForest(hash, old(Grove()), key)
      ensures forall i | 0 <= i < |shards| && i != hash(key) % |shards| :: Grove()[i] == old(Grove())[i]
      ensures |PairsIn(Grove())| == |PairsIn(old(Grove()))| - if deleted then 1 else 0
      ensures old(Sound()) ==> (deleted <==> old(Look(key)).Some?)
      ensures old(Valid()) ==> Valid() && View() == old(View()) - {key} && (deleted <==> key in old(View()))
    {
      hide Btree.Valid, Btree.Contents, Btree.Look, Btree.Inside, Btree.Guided, Btree.Ordered, Btree.View, Btree.Objects, Btree.Form, Route, Merged,
        Routed, DeleteShape, PairsIn, PairsOpt;
      ShardObjectsExist();
      ghost var ms, was := Maps(), Valid();
      if was {
        RoutedSize(hash, ms);
        MergedRemove(hash, ms, key);
        MergedGet(hash, ms, key);
      }
      var i := Route(hash, |shards|, key);
      RouteIs(hash, |shards|, key);
      ghost var f := Grove();
      shards[i].FormContents();
      deleted := shards[i].Delete(key);
      OneChanged(i);
      shards[i].FormContents();
      PairsPut(f, i, shards[i].Form());
      if was { assert Maps() == ms[i := ms[i] - {key}]; }
    }

    /** Where every shard guides its descents the scans collect exactly the entries in range. */
    lemma RangeGuided(lo: Key, hi: Key, n: nat)
      requires Apart() && n <= |shards| && forall i | 0 <= i < |shards| :: shards[i].Guided()
      ensures RangeIn(Grove()[..n], lo, hi) == Within(PairsIn(Grove()[..n]), lo, hi)
      ensures n == |shards| ==> RangeIn(Grove(), lo, hi) == Within(PairsIn(Grove()), lo, hi)
    {
      hide Btree.Valid, Btree.Contents, Btree.Guided, Btree.Form, PairsIn, RangeIn, RangeOpt, Within;
      PairsNone(Grove());
      RangeNone(Grove(), lo, hi);
      WithinFirst([], lo, hi);
      for i := 0 to n
        invariant RangeIn(Grove()[..i], lo, hi) == Within(PairsIn(Grove()[..i]), lo, hi)
      {
        PairsNext(Grove(), i);
        RangeNext(Grove(), lo, hi, i);
        shards[i].FormContents();
        shards[i].RangeGuided(lo, hi);
        WithinConcat(PairsIn(Grove()[..i]), shards[i].Contents(), lo, hi);
      }
      if n == |shards| { assert Grove()[..n] == Grove(); }
    }

    /** On ordered shards the sorted answers are the one map's range. */
    lemma RangeSorted(lo: Key, hi: Key)
      requires Valid()
      ensures var s := SortByKey(RangeIn(Grove(), lo, hi)); Sorted(s) && ToMap(s) == Inlying(View(), lo, hi)
    {
      hide Btree.Valid, Btree.Ordered, Btree.Guided, Btree.Form, PairsIn, RangeIn, Within, SortByKey, Sorted, ToMap, Inlying, Enumerates;
      forall i | 0 <= i < |shards| ensures shards[i].Guided() { shards[i].OrderedGuided(); }
      RangeGuided(lo, hi, |shards|);
      PairsListed(|shards|);
      SortedRange(PairsIn(Grove()), View(), lo, hi);
    }

    /** All shards are asked, and the answers pooled and sorted: by key, exactly what the shards show; on
        ordered shards the pairs of the one map between two keys.  A reversed range is an error. */
    method GetRange(lo: Key, hi: Key) returns (r: RangeResult)
      requires Apart()
      ensures r.InvalidRange? <==> Less(hi, lo)
      ensures r.Range? ==> |r.keys| == |r.values| && Rising(Zip(r.keys, r.values))
      ensures r.Range? ==> multiset(Zip(r.keys, r.values)) == multiset(RangeIn(Grove(), lo, hi))
      ensures r.Range? && Valid() ==> Sorted(Zip(r.keys, r.values)) && ToMap(Zip(r.keys, r.values)) == Inlying(View(), lo, hi)
    {
      hide Btree.Valid, Btree.Contents, Btree.Guided, Btree.Ordered, Btree.Form, Btree.View, Sorted, ToMap, Merged, Route, Routed, Keys, Values,
        SortByKey, Less, Within, RangeIn, RangeOpt, Rising, Inlying;
      if Less(hi, lo) {
        return InvalidRange;
      }
      ghost var f := Grove();
      if Valid() { RangeSorted(lo, hi); }
      var pairs: seq<Entry> := [];
      RangeNone(f, lo, hi);
      for i := 0 to |shards|
        invariant Apart() && Grove() == f && (Valid() <==> old(Valid()))
        invariant pairs == RangeIn(f[..i], lo, hi)
      {
        ObjectsExist();
        var part := shards[i].GetRange(lo, hi);
        RangeNext(f, lo, hi, i);
        ZipBack(RangeOpt(f[i], lo, hi));
        pairs := pairs + Zip(part.keys, part.values);
      }
      assert f[..|shards|] == f;
      SortByKeyRises(pairs);
      ZipBack(SortByKey(pairs));
      r := Range(Keys(SortByKey(pairs)), Values(SortByKey(pairs)));
    }

    /** Keys deleted one after the other. */
    method DeleteKeys(keys: seq<Key>) returns (count: nat)
      requires Apart()
      modifies shards, Objects()
      ensures Apart() && Grove() == CutEach(hash, old(Grove()), keys) && count == |PairsIn(old(Grove()))| - |PairsIn(Grove())|
      ensures old(Valid()) ==> Valid() && View() == old(View()) - Among(keys)
    {
      hide Merged, Repr, Route, Routed, Valid, View, Objects, Apart, Sound, Grove, Look, CutForest, CutEach, PairsIn, Among;
      ObjectsExist();
      ApartShards();
      ghost var whole, f := Valid(), Grove();
      ghost var m := View();
      CutNone(hash, f, keys);
      AmongNone(keys);
      count := 0;
      for i := 0 to |keys|
        invariant Apart() && shards == old(shards) && |shards| > 0 && Objects() <= old(Objects())
        invariant Grove() == CutEach(hash, f, keys[..i]) && count == |PairsIn(f)| - |PairsIn(Grove())|
        invariant whole ==> Valid() && View() == m - Among(keys[..i])
      {
        CutNext(hash, f, keys, i);
        AmongNext(keys, i);
        var deleted := Delete(keys[i]);
        if deleted {
          count := count + 1;
        }
      }
      assert keys[..|keys|] == keys;
    }

    /** The keys that `GetRange` shows are deleted one after the other; ordered shards lose exactly the
        range. */
    method DeleteRange(lo: Key, hi: Key) returns (count: nat, ok: bool, ghost keys: seq<Key>)
      requires Apart()
      modifies shards, Objects()
      ensures Apart()
      ensures ok <==> !Less(hi, lo)
      ensures ok ==> exists s :: Rising(s) && multiset(s) == multiset(RangeIn(old(Grove()), lo, hi)) && keys == Keys(s)
      ensures ok ==> Grove() == CutEach(hash, old(Grove()), keys) && count == |PairsIn(old(Grove()))| - |PairsIn(Grove())|
      ensures !ok ==> Grove() == old(Grove()) && count == 0
      ensures old(Valid()) ==> Valid()
      ensures ok && old(Valid()) ==> View() == Scans.Outlying(old(View()), lo, hi) && count == |Inlying(old(View()), lo, hi)|
      ensures !ok && old(Valid()) ==> View() == old(View())
    {
      hide Sorted, ToMap, Merged, Repr, Route, Routed, Keys, Values, Less, Inlying, Scans.Outlying, Scans.KeySet, Valid, View, Objects, Apart,
        Sound, Grove, Look, CutEach, PairsIn, RangeIn, Rising;
      ObjectsExist();
      ApartShards();
      keys := [];
      var r := GetRange(lo, hi);
      if r.InvalidRange? {
        return 0, false, keys;
      }
      ghost var whole, m := Valid(), View();
      if whole {
        RangeGone(Zip(r.keys, r.values), m, lo, hi);
        KeysSet(Zip(r.keys, r.values));
        RangeSizes(m, lo, hi);
        ViewSize();
      }
      ZipKeys(r.keys, r.values);
      keys, ok := r.keys, true;
      count := DeleteKeys(r.keys);
      if whole {
        ApartShards();
        ViewSize();
      }
    }

    lemma ApartShards()
      requires Apart()
      ensures |shards| > 0
    {
    }

    /** On ordered shards the pairs in the order of `ForEach` are those of the one map, each once. */
    lemma PairsListed(n: nat)
      requires Valid() && n <= |shards|
      ensures Listed(PairsIn(Grove()[..n]), Maps(), n)
      ensures n == |shards| ==> Enumerates(PairsIn(Grove()), View())
    {
      hide Btree.Valid, Btree.Contents, Btree.View, Btree.Ordered, Btree.Form, Merged, Route, Routed, Listed, PairsIn, Enumerates;
      ListNone(Maps());
      PairsNone(Grove());
      for i := 0 to n
        invariant Listed(PairsIn(Grove()[..i]), Maps(), i)
      {
        PairsNext(Grove(), i);
        shards[i].FormContents();
        ShardList(i);
        ListNext(hash, PairsIn(Grove()[..i]), Maps(), i, shards[i].Contents());
      }
      if n == |shards| {
        assert Grove()[..n] == Grove();
        ListAll(hash, PairsIn(Grove()), Maps());
      }
    }

    lemma ShardList(i: nat)
      requires i < |shards| && shards[i].Ordered()
      ensures Sorted(shards[i].Contents()) && ToMap(shards[i].Contents()) == Maps()[i]
    {
    }

    method Count() returns (total: nat)
      requires Apart()
      ensures total == |PairsIn(Grove())|
      ensures Valid() ==> total == |View()|
    {
      hide Btree.Valid, Btree.Contents, Btree.View, Btree.Ordered, Btree.Form, Merged, Route, Routed, PairsIn;
      ghost var f, whole := Grove(), Valid();
      if whole { ViewSize(); }
      PairsNone(f);
      total := 0;
      for i := 0 to |shards|
        invariant Apart() && Grove() == f && total == |PairsIn(f[..i])|
      {
        ObjectsExist();
        PairsNext(f, i);
        shards[i].FormContents();
        var count := shards[i].CountKeys();
        total := total + count;
      }
      assert f[..|f|] == f;
    }

    lemma ViewSize()
      requires Valid()
      ensures |PairsIn(Grove())| == |View()|
    {
      hide Btree.Valid, Btree.Contents, Btree.View, Btree.Ordered, Btree.Form, Merged, Route, Routed, PairsIn, Sorted, ToMap;
      var f, ms := Grove(), Maps();
      PairsNone(f);
      for i := 0 to |shards|
        invariant |PairsIn(f[..i])| == TotalSize(ms[..i])
      {
        PairsNext(f, i);
        TotalSizeNext(ms, i);
        shards[i].FormContents();
        ShardList(i);
        ToMapSize(shards[i].Contents());
      }
      assert f[..|f|] == f && ms[..|ms|] == ms;
      MergedSize(hash, ms);
    }

    /** Every entry once, shard by shard, each by key, until the callback returns false. */
    method ForEach<S>(go: Scans.Callback<S>, st: S) returns (st': S, more: bool)
      requires Apart()
      ensures (st', more) == Scans.Walk(go, st, PairsIn(Grove()))
    {
      hide Btree.Valid, Btree.Contents, Btree.View, Btree.Ordered, Btree.Form, PairsIn, Scans.Walk;
      ghost var f := Grove();
      st', more := st, true;
      PairsNone(f);
      Scans.WalkOne(go, st, Entry([], []));
      var i := 0;
      while i < |shards| && more
        invariant 0 <= i <= |shards| && Apart() && Grove() == f && (st', more) == Scans.Walk(go, st, PairsIn(f[..i]))
      {
        ObjectsExist();
        PairsNext(f, i);
        shards[i].FormContents();
        Scans.WalkConcat(go, st, PairsIn(f[..i]), PairsOpt(f[i]));
        st', more := shards[i].ForEach(go, st');
        i := i + 1;
      }
      if !more { WalkStops(go, st, f, i); }
      assert f[..|f|] == f;
    }

    /** After a refusal the other shards make no difference. */
    static lemma WalkStops<S>(go: Scans.Callback<S>, st: S, f: Forest, i: nat)
      requires i <= |f| && !Scans.Walk(go, st, PairsIn(f[..i])).1
      ensures Scans.Walk(go, st, PairsIn(f)) == Scans.Walk(go, st, PairsIn(f[..i]))
    {
      hide PairsIn, Scans.Walk;
      for j := i to |f|
        invariant Scans.Walk(go, st, PairsIn(f[..j])) == Scans.Walk(go, st, PairsIn(f[..i]))
      {
        PairsNext(f, j);
        Scans.WalkConcat(go, st, PairsIn(f[..j]), PairsOpt(f[j]));
      }
      assert f[..|f|] == f;
    }

    /** Every shard is exchanged for a new one, whatever state it was in. */
    method Clear()
      requires |shards| > 0
      modifies this`shards
      ensures Valid() && View() == map[] && |shards| == old(|shards|) && Grove() == EmptyForest(|shards|)
      ensures Objects() == {} && forall i | 0 <= i < |shards| :: fresh(shards[i])
    {
      hide Btree.Valid, Btree.Contents, Btree.Objects, Routed, Merged;
      var i, next := 0, shards;
      while i < |shards|
        invariant 0 <= i <= |shards| == |next| && shards == old(shards)
        invariant forall j | 0 <= j < i :: fresh(next[j]) && next[j].Valid() && next[j].Contents() == [] && next[j].Objects() == {} && next[j].Form() == None
        invariant forall j, k | 0 <= j < k < i :: next[j] != next[k]
      {
        var t := new Btree();
        next := next[i := t];
        i := i + 1;
      }
      shards := next;
      EmptyShards();
    }
  }

  function Zip(keys: seq<Key>, values: seq<Value>): seq<Entry>
    requires |keys| == |values|
  {
    seq(|keys|, i requires 0 <= i < |keys| => Entry(keys[i], values[i]))
  }

  ghost function Among(keys: seq<Key>): set<Key> {
    set i | 0 <= i < |keys| :: keys[i]
  }

  lemma AmongNone(keys: seq<Key>)
    ensures Among(keys[..0]) == {}
  {
  }

  lemma AmongNext(keys: seq<Key>, i: nat)
    requires i < |keys|
    ensures Among(keys[..i + 1]) == Among(keys[..i]) + {keys[i]}
  {
    assert keys[..i + 1] == keys[..i] + [keys[i]];
  }

  lemma KeysSet(s: seq<Entry>)
    ensures Scans.KeySet(s) == Among(Keys(s))
  {
    forall i | 0 <= i < |s| ensures Keys(s)[i] == s[i].key { }
  }

  lemma RangeSizes(m: Store, lo: Key, hi: Key)
    ensures |Inlying(m, lo, hi)| + |Scans.Outlying(m, lo, hi)| == |m|
  {
    hide InRange;
    var a, b := Inlying(m, lo, hi), Scans.Outlying(m, lo, hi);
    assert a.Keys + b.Keys == m.Keys && a.Keys !! b.Keys;
    assert |m.Keys| == |a.Keys| + |b.Keys|;
    assert |m| == |m.Keys| && |a| == |a.Keys| && |b| == |b.Keys|;
  }

  lemma ZipKeys(keys: seq<Key>, values: seq<Value>)
    requires |keys| == |values|
    ensures Keys(Zip(keys, values)) == keys
  {
  }

  lemma ZipBack(s: seq<Entry>)
    ensures Zip(Keys(s), Values(s)) == s
  {
  }
}
