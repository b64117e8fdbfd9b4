/** The indexed tree as a value: its records, the shards that hold them, and its indexes by name.  The
    shards decide, before a call is made, which of its overwrites will be lost. */
module IndexBases {
  import opened Bytes
  import opened Entries
  import opened Fixed
  import opened Routing
  import opened Forests
  import opened IndexSpec
  import opened IndexPlaces

  datatype Column = Column(ext: Extractor, index: Placed)

  type Columns = map<string, Column>

  datatype Base = Base(records: Records, hash: Hash, grove: Forest, columns: Columns)

  /** An inner node of the primary tree holds the key. */
  predicate Inner(b: Base, key: Key) {
    HeldForest(b.hash, b.grove, key)
  }

  /** Every index agrees with the records. */
  ghost predicate Agreed(b: Base) {
    forall n | n in b.columns :: Agrees(b.columns[n].index.state, b.columns[n].ext, b.records)
  }

  /** Every list of every index can take one more key. */
  ghost predicate Roomy(b: Base) {
    forall n | n in b.columns :: RoomIn(b.columns[n].index.state)
  }

  /** Lists of indexes in step are no longer than there are records. */
  lemma AgreedRoomy(b: Base)
    requires Agreed(b) && |b.records| + 1 < TWO32
    ensures Roomy(b)
  {
    hide Agrees, RoomIn;
    forall n | n in b.columns ensures RoomIn(b.columns[n].index.state) {
      AgreesRoom(b.columns[n].index.state, b.columns[n].ext, b.records);
    }
  }

  // ------------------------------------------------------------- inserting

  /** A unique index has the record's index key already. */
  ghost predicate Taken(b: Base, value: Value) {
    exists n | n in b.columns :: Clash(b.columns[n].index.state, b.columns[n].ext(value))
  }

  ghost function AddColumns(cs: Columns, key: Key, value: Value): Columns {
    map n | n in cs :: cs[n].(index := AddTo(cs[n].index, key, cs[n].ext(value)).0)
  }

  /** `Insert` when it is not refused. */
  ghost function Inserted(b: Base, key: Key, value: Value): Base {
    Base(Written(b.records, key, value, Inner(b, key)), b.hash, PutForest(b.hash, b.grove, Entry(key, value)), AddColumns(b.columns, key, value))
  }

  /** `Insert` keeps an index in agreement, all losses considered. */
  ghost predicate AddKeeps(x: Placed, ext: Extractor, records: Records, key: Key, value: Value, lost: bool) {
    InsertKeeps(x.state, ext, records, key, value, lost, Held(x, ext(value)))
  }

  /** `Insert` loses no write. */
  ghost predicate InsertSafe(b: Base, key: Key, value: Value) {
    !Inner(b, key) && forall n | n in b.columns :: !AddLoses(b.columns[n].index, key, b.columns[n].ext(value))
  }

  /** `Insert` leaves every index in agreement. */
  ghost predicate InsertInStep(b: Base, key: Key, value: Value) {
    forall n | n in b.columns :: AddKeeps(b.columns[n].index, b.columns[n].ext, b.records, key, value, Inner(b, key))
  }

  // -------------------------------------------------------------- updating

  /** A unique index whose key changes has the new key already. */
  ghost predicate Contested(b: Base, was: Value, value: Value) {
    exists n | n in b.columns :: Rival(b.columns[n].index.state, b.columns[n].ext(was), b.columns[n].ext(value))
  }

  ghost function ChangeColumns(cs: Columns, key: Key, was: Value, value: Value): Columns {
    map n | n in cs :: cs[n].(index := ChangeIn(cs[n].index, key, cs[n].ext(was), cs[n].ext(value)).0)
  }

  /** `Update` when it is not refused. */
  ghost function Changed(b: Base, key: Key, value: Value): Base
    requires key in b.records
  {
    Base(Written(b.records, key, value, Inner(b, key)), b.hash, PutForest(b.hash, b.grove, Entry(key, value)),
      ChangeColumns(b.columns, key, b.records[key], value))
  }

  /** `Update` keeps an index in agreement, all losses considered. */
  ghost predicate ChangeKeeps(x: Placed, key: Key, before: Option<Key>, after: Option<Key>, lost: bool) {
    UpdateKeeps(x.state, key, before, after, lost, Held(x, before), HeldAfter(x, key, before, after))
  }

  /** `Update` loses no write. */
  ghost predicate UpdateSafe(b: Base, key: Key, value: Value)
    requires key in b.records
  {
    && !Inner(b, key)
    && forall n | n in b.columns :: !ChangeLoses(b.columns[n].index, key, b.columns[n].ext(b.records[key]), b.columns[n].ext(value))
  }

  /** `Update` leaves every index in agreement. */
  ghost predicate UpdateInStep(b: Base, key: Key, value: Value)
    requires key in b.records
  {
    forall n | n in b.columns ::
      ChangeKeeps(b.columns[n].index, key, b.columns[n].ext(b.records[key]), b.columns[n].ext(value), Inner(b, key))
  }

  // -------------------------------------------------------------- deleting

  ghost function DropColumns(cs: Columns, key: Key, value: Value): Columns {
    map n | n in cs :: cs[n].(index := DropFrom(cs[n].index, key, cs[n].ext(value)))
  }

  /** `Delete` of a record that is there. */
  ghost function Deleted(b: Base, key: Key): Base
    requires key in b.records
  {
    Base(b.records - {key}, b.hash, CutForest(b.hash, b.grove, key), DropColumns(b.columns, key, b.records[key]))
  }

  /** `Delete` rewrites no list whose key an inner node holds. */
  ghost predicate DeleteSafe(b: Base, key: Key)
    requires key in b.records
  {
    forall n | n in b.columns :: !DropLoses(b.columns[n].index, key, b.columns[n].ext(b.records[key]))
  }

  ghost function EmptyColumns(cs: Columns): Columns {
    map n | n in cs :: cs[n].(index := Emptied(cs[n].index))
  }

  /** `Clear`. */
  ghost function Cleared(b: Base): Base {
    Base(map[], b.hash, EmptyForest(|b.grove|), EmptyColumns(b.columns))
  }

  // ------------------------------------------------------- creating indexes

  /** The pairs added to an index one after the other. */
  ghost function IndexAll(x: Placed, ext: Extractor, pairs: seq<Entry>): Placed {
    if pairs == [] then x
    else
      var n := |pairs| - 1;
      AddTo(IndexAll(x, ext, pairs[..n]), pairs[n].key, ext(pairs[n].value)).0
  }

  /** One of these additions loses its list overwrite. */
  ghost predicate IndexLoses(x: Placed, ext: Extractor, pairs: seq<Entry>) {
    pairs != [] &&
      var n := |pairs| - 1;
      IndexLoses(x, ext, pairs[..n]) || AddLoses(IndexAll(x, ext, pairs[..n]), pairs[n].key, ext(pairs[n].value))
  }

  /** In the order of the list. */
  lemma {:induction false} IndexConcat(x: Placed, ext: Extractor, a: seq<Entry>, b: seq<Entry>)
    ensures IndexAll(x, ext, a + b) == IndexAll(IndexAll(x, ext, a), ext, b)
    ensures |b| == 1 ==> IndexAll(x, ext, b) == AddTo(x, b[0].key, ext(b[0].value)).0
  {
    hide AddTo;
    if b == [] {
      assert a + b == a;
    } else {
      var n := |b| - 1;
      IndexConcat(x, ext, a, b[..n]);
      assert (a + b)[..|a + b| - 1] == a + b[..n] && (a + b)[|a + b| - 1] == b[n];
    }
  }

  lemma IndexNone(x: Placed, ext: Extractor, pairs: seq<Entry>)
    ensures IndexAll(x, ext, pairs[..0]) == x && !IndexLoses(x, ext, pairs[..0])
  {
  }

  lemma IndexNext(x: Placed, ext: Extractor, pairs: seq<Entry>, n: nat)
    requires n < |pairs|
    ensures var y := IndexAll(x, ext, pairs[..n]);
      && IndexAll(x, ext, pairs[..n + 1]) == AddTo(y, pairs[n].key, ext(pairs[n].value)).0
      && (IndexLoses(x, ext, pairs[..n + 1]) <==> IndexLoses(x, ext, pairs[..n]) || AddLoses(y, pairs[n].key, ext(pairs[n].value)))
  {
    hide AddTo, AddLoses;
    assert pairs[..n + 1][..n] == pairs[..n];
  }

  /** A new index has four shards. */
  ghost function NewColumn(b: Base, ext: Extractor, unique: bool): Column {
    Column(ext, NewPlaced(unique, b.hash, 4))
  }

  /** `CreateIndex`. */
  ghost function Created(b: Base, name: string, ext: Extractor, unique: bool): Base {
    b.(columns := b.columns[name := NewColumn(b, ext, unique)])
  }

  /** `CreateIndexWithRebuild`: the records in the order of `ForEach`. */
  ghost function Rebuilt(b: Base, name: string, ext: Extractor, unique: bool): Base {
    b.(columns := b.columns[name := Column(ext, IndexAll(NewColumn(b, ext, unique).index, ext, PairsIn(b.grove)))])
  }

  ghost predicate RebuildSafe(b: Base, ext: Extractor, unique: bool) {
    !IndexLoses(NewColumn(b, ext, unique).index, ext, PairsIn(b.grove))
  }

  /** `DropIndex`. */
  ghost function Dropped(b: Base, name: string): Base {
    b.(columns := b.columns - {name})
  }

  // ------------------------------------------------------------- refusals

  /** An insertion is refused exactly when a stored record has the same key in a unique index. */
  lemma TakenMeans(b: Base, value: Value)
    requires Agreed(b)
    ensures Taken(b, value) <==> exists n, pk | n in b.columns && pk in b.records ::
      var c := b.columns[n]; c.index.state.unique && c.ext(value).Some? && c.ext(b.records[pk]) == c.ext(value)
  {
    hide Agrees;
    forall n | n in b.columns
      ensures Clash(b.columns[n].index.state, b.columns[n].ext(value)) <==>
        b.columns[n].index.state.unique && b.columns[n].ext(value).Some?
        && exists pk | pk in b.records :: b.columns[n].ext(b.records[pk]) == b.columns[n].ext(value)
    {
      var c := b.columns[n];
      if c.ext(value).Some? { Present(c.index.state, c.ext, b.records, c.ext(value).value); }
    }
  }

  lemma RivalMeans(c: Column, records: Records, key: Key, value: Value)
    requires Agrees(c.index.state, c.ext, records) && key in records
    ensures Rival(c.index.state, c.ext(records[key]), c.ext(value)) <==>
      c.index.state.unique && c.ext(value).Some? && exists pk | pk in records :: pk != key && c.ext(records[pk]) == c.ext(value)
  {
    hide Agrees;
    if c.ext(value).Some? { Present(c.index.state, c.ext, records, c.ext(value).value); }
    if c.index.state.unique && c.ext(value).Some? && c.ext(records[key]) == c.ext(value) {
      forall pk | pk in records && pk != key ensures c.ext(records[pk]) != c.ext(value) {
        if c.ext(records[pk]) == c.ext(value) { OnePerKey(c.index.state, c.ext, records, pk, key); }
      }
    }
  }

  /** An update is contested exactly when a different record has the new key of a unique index. */
  lemma ContestedMeans(b: Base, key: Key, value: Value)
    requires Agreed(b) && key in b.records
    ensures Contested(b, b.records[key], value) <==> exists n, pk | n in b.columns && pk in b.records && pk != key ::
      var c := b.columns[n]; c.index.state.unique && c.ext(value).Some? && c.ext(b.records[pk]) == c.ext(value)
  {
    hide Agrees, Rival;
    forall n | n in b.columns { RivalMeans(b.columns[n], b.records, key, value); }
  }
}
