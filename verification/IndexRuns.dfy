/** Whole sequential runs of the indexed tree. */
module IndexRuns {
  import opened Bytes
  import opened Entries
  import opened Fixed
  import opened Forests
  import opened Tables
  import opened IndexSpec
  import opened IndexPlaces
  import opened IndexBases
  import opened SecondaryIndexes
  import opened IndexMaps
  import opened IndexRebuild
  import opened IndexedTrees

  datatype Op =
    | Insert(key: Key, value: Value) | Update(key: Key, value: Value) | Delete(key: Key) | Clear
    | CreateIndex(name: string, ext: Extractor, unique: bool)
    | CreateIndexWithRebuild(name: string, ext: Extractor, unique: bool)
    | DropIndex(name: string)

  datatype Field = Field(ext: Extractor, unique: bool)

  /** A table of records with named fields, some of them unique.  It knows of no shards. */
  datatype Relation = Relation(records: Records, fields: map<string, Field>)

  // ------------------------------------------------------- runs of the relation

  /** A record other than `except` has the key of `value` in the unique field `n`. */
  ghost predicate Breaks(t: Relation, n: string, value: Value, except: Option<Key>) {
    && n in t.fields && t.fields[n].unique && t.fields[n].ext(value).Some?
    && exists pk | pk in t.records :: Some(pk) != except && t.fields[n].ext(t.records[pk]) == t.fields[n].ext(value)
  }

  ghost predicate Accepted(t: Relation, op: Op) {
    match op
    case Insert(key, value) => forall n :: !Breaks(t, n, value, None)
    case Update(key, value) => key in t.records && forall n :: !Breaks(t, n, value, Some(key))
    case Delete(key) => key in t.records
    case Clear => true
    case CreateIndex(name, ext, unique) => name !in t.fields
    case CreateIndexWithRebuild(name, ext, unique) => name !in t.fields && (unique ==> !HasTwins(ext, t.records))
    case DropIndex(name) => name in t.fields
  }

  ghost function Apply(t: Relation, op: Op): Relation {
    if !Accepted(t, op) then t else
      match op
      case Insert(key, value) => t.(records := t.records[key := value])
      case Update(key, value) => t.(records := t.records[key := value])
      case Delete(key) => t.(records := t.records - {key})
      case Clear => t.(records := map[])
      case CreateIndex(name, ext, unique) => t.(fields := t.fields[name := Field(ext, unique)])
      case CreateIndexWithRebuild(name, ext, unique) => t.(fields := t.fields[name := Field(ext, unique)])
      case DropIndex(name) => t.(fields := t.fields - {name})
  }

  ghost function ApplyAll(t: Relation, ops: seq<Op>): Relation
    decreases |ops|
  {
    if ops == [] then t else ApplyAll(Apply(t, ops[0]), ops[1..])
  }

  /** Which operations of a run are accepted. */
  ghost function Verdicts(t: Relation, ops: seq<Op>): seq<bool>
    decreases |ops|
  {
    if ops == [] then [] else [Accepted(t, ops[0])] + Verdicts(Apply(t, ops[0]), ops[1..])
  }

  // ------------------------------------------------- runs of the tree as a value

  /** What the tree stands for, its shards forgotten. */
  ghost function Meaning(b: Base): Relation {
    Relation(b.records, FieldsOf(b.columns))
  }

  ghost function FieldsOf(cs: Columns): map<string, Field> {
    map n | n in cs :: Field(cs[n].ext, cs[n].index.state.unique)
  }

  /** The tree after an operation, lost writes included. */
  ghost function Next(b: Base, op: Op): Base {
    if !Accepted(Meaning(b), op) then b else
      match op
      case Insert(key, value) => Inserted(b, key, value)
      case Update(key, value) => Changed(b, key, value)
      case Delete(key) => Deleted(b, key)
      case Clear => Cleared(b)
      case CreateIndex(name, ext, unique) => Created(b, name, ext, unique)
      case CreateIndexWithRebuild(name, ext, unique) => Rebuilt(b, name, ext, unique)
      case DropIndex(name) => Dropped(b, name)
  }

  /** The operation loses no write and leaves every index in agreement. */
  ghost predicate Safe(b: Base, op: Op) {
    Accepted(Meaning(b), op) ==>
      match op
      case Insert(key, value) => InsertSafe(b, key, value) && InsertInStep(b, key, value)
      case Update(key, value) => UpdateSafe(b, key, value) && UpdateInStep(b, key, value)
      case Delete(key) => DeleteSafe(b, key)
      case Clear => true
      case CreateIndex(name, ext, unique) => forall pk | pk in b.records :: ext(b.records[pk]) == None
      case CreateIndexWithRebuild(name, ext, unique) => RebuildSafe(b, ext, unique)
      case DropIndex(name) => true
  }

  ghost function NextAll(b: Base, ops: seq<Op>): Base
    decreases |ops|
  {
    if ops == [] then b else NextAll(Next(b, ops[0]), ops[1..])
  }

  /** How many operations of a run come before the first that is not safe. */
  ghost function FirstUnsafe(b: Base, ops: seq<Op>): (n: nat)
    ensures n <= |ops|
    decreases |ops|
  {
    if ops == [] || !Safe(b, ops[0]) then 0 else 1 + FirstUnsafe(Next(b, ops[0]), ops[1..])
  }

  lemma AddKeepsKind(x: Placed, pk: Key, ik: Option<Key>)
    ensures AddTo(x, pk, ik).0.state.unique == x.state.unique
  {
    hide Held, AddGrove;
  }

  lemma ChangeKeepsKind(x: Placed, pk: Key, before: Option<Key>, after: Option<Key>)
    ensures ChangeIn(x, pk, before, after).0.state.unique == x.state.unique
    ensures DropFrom(x, pk, before).state.unique == x.state.unique
  {
    hide Held, AddGrove, DropGrove, AddTo, Without;
    AddKeepsKind(DropFrom(x, pk, before), pk, after);
  }

  lemma {:induction false} RebuildKeepsKind(x: Placed, ext: Extractor, pairs: seq<Entry>)
    ensures IndexAll(x, ext, pairs).state.unique == x.state.unique
    ensures x.state.unique ==> !IndexLoses(x, ext, pairs)
  {
    hide AddTo, Held;
    if pairs != [] {
      var n := |pairs| - 1;
      RebuildKeepsKind(x, ext, pairs[..n]);
      AddKeepsKind(IndexAll(x, ext, pairs[..n]), pairs[n].key, ext(pairs[n].value));
    }
  }

  /** No call on the records changes the fields. */
  lemma FieldsAdded(cs: Columns, key: Key, value: Value)
    ensures FieldsOf(AddColumns(cs, key, value)) == FieldsOf(cs)
  {
    hide AddTo;
    forall n | n in cs { AddKeepsKind(cs[n].index, key, cs[n].ext(value)); }
  }

  lemma FieldsChanged(cs: Columns, key: Key, was: Value, value: Value)
    ensures FieldsOf(ChangeColumns(cs, key, was, value)) == FieldsOf(cs)
  {
    hide ChangeIn, DropFrom;
    forall n | n in cs { ChangeKeepsKind(cs[n].index, key, cs[n].ext(was), cs[n].ext(value)); }
  }

  lemma FieldsDropped(cs: Columns, key: Key, was: Value)
    ensures FieldsOf(DropColumns(cs, key, was)) == FieldsOf(cs)
  {
    hide ChangeIn, DropFrom;
    forall n | n in cs { ChangeKeepsKind(cs[n].index, key, cs[n].ext(was), None); }
  }

  lemma FieldsEmptied(cs: Columns)
    ensures FieldsOf(EmptyColumns(cs)) == FieldsOf(cs)
  {
  }

  lemma FieldsPut(cs: Columns, name: string, c: Column)
    ensures FieldsOf(cs[name := c]) == FieldsOf(cs)[name := Field(c.ext, c.index.state.unique)]
  {
  }

  lemma FieldsLess(cs: Columns, name: string)
    ensures FieldsOf(cs - {name}) == FieldsOf(cs) - {name}
  {
  }

  /** A safe operation does to the tree what it does to the relation. */
  lemma NextMeans(b: Base, op: Op)
    requires Safe(b, op)
    ensures Meaning(Next(b, op)) == Apply(Meaning(b), op)
  {
    hide AddColumns, ChangeColumns, DropColumns, EmptyColumns, FieldsOf, IndexAll, IndexLoses, InsertInStep, UpdateInStep, AddLoses, ChangeLoses,
      DropLoses, Breaks, HasTwins, Inner;
    if !Accepted(Meaning(b), op) { return; }
    match op
    case Insert(key, value) => FieldsAdded(b.columns, key, value);
    case Update(key, value) => FieldsChanged(b.columns, key, b.records[key], value);
    case Delete(key) => FieldsDropped(b.columns, key, b.records[key]);
    case Clear => FieldsEmptied(b.columns);
    case CreateIndex(name, ext, unique) => FieldsPut(b.columns, name, NewColumn(b, ext, unique));
    case CreateIndexWithRebuild(name, ext, unique) =>
      var c := Next(b, op).columns[name];
      RebuildKeepsKind(NewColumn(b, ext, unique).index, ext, PairsIn(b.grove));
      FieldsPut(b.columns, name, c);
    case DropIndex(name) => FieldsLess(b.columns, name);
  }

  // ------------------------------------------------------------- the tree itself

  /** No write has been lost, and every index is in step. */
  ghost predicate Standing(db: IndexedBTree)
    reads db, db.primary, db.primary.Repr, db.indexes.Values, MapRepr(db.indexes)
  {
    db.Valid() && db.InStep()
  }

  ghost predicate Small(records: Records, n: nat) {
    |records| + n < TWO32 && forall pk | pk in records :: |pk| < TWO32
  }

  ghost predicate Allowed(op: Op) {
    op.Insert? || op.Update? ==> |op.key| < TWO32
  }

  lemma SmallPut(records: Records, n: nat, key: Key, value: Value)
    requires Small(records, n + 1) && |key| < TWO32
    ensures Small(records[key := value], n)
  {
    assert records[key := value].Keys == records.Keys + {key};
    assert |records[key := value].Keys| <= |records.Keys| + 1;
    assert |records| == |records.Keys| && |records[key := value]| == |records[key := value].Keys|;
  }

  lemma SmallRemove(records: Records, n: nat, key: Key)
    requires Small(records, n)
    ensures Small(records - {key}, n)
  {
    assert (records - {key}).Keys <= records.Keys;
    Bounded((records - {key}).Keys, records.Keys);
    assert |records| == |records.Keys| && |records - {key}| == |(records - {key}).Keys|;
  }

  lemma SmallApply(t: Relation, op: Op, n: nat)
    requires Small(t.records, n + 1) && Allowed(op)
    ensures Small(Apply(t, op).records, n)
  {
    hide HasTwins, Breaks;
    match op
    case Insert(key, value) => SmallPut(t.records, n, key, value);
    case Update(key, value) => SmallPut(t.records, n, key, value);
    case Delete(key) => SmallRemove(t.records, n, key);
    case _ =>
  }

  lemma SmallLess(records: Records, n: nat)
    requires Small(records, n) && n > 0
    ensures Small(records, 1)
  {
  }

  lemma AcceptsInsert(b: Base, key: Key, value: Value)
    requires Agreed(b)
    ensures Accepted(Meaning(b), Insert(key, value)) <==> !Taken(b, value)
  {
    hide Agreed, Taken;
    TakenMeans(b, value);
    if !Taken(b, value) {
      forall n ensures !Breaks(Meaning(b), n, value, None) { }
    } else {
      var n, pk :| n in b.columns && pk in b.records && var c := b.columns[n];
        c.index.state.unique && c.ext(value).Some? && c.ext(b.records[pk]) == c.ext(value);
      assert Breaks(Meaning(b), n, value, None);
    }
  }

  lemma AcceptsUpdate(b: Base, key: Key, value: Value)
    requires Agreed(b) && key in b.records
    ensures Accepted(Meaning(b), Update(key, value)) <==> !Contested(b, b.records[key], value)
  {
    hide Agreed, Contested;
    ContestedMeans(b, key, value);
    if !Contested(b, b.records[key], value) {
      forall n ensures !Breaks(Meaning(b), n, value, Some(key)) { }
    } else {
      var n, pk :| n in b.columns && pk in b.records && pk != key && var c := b.columns[n];
        c.index.state.unique && c.ext(value).Some? && c.ext(b.records[pk]) == c.ext(value);
      assert Breaks(Meaning(b), n, value, Some(key));
    }
  }

  method StepInsert(db: IndexedBTree, key: Key, value: Value) returns (ok: bool)
    requires Standing(db) && Small(db.primary.view, 1) && |key| < TWO32
    modifies db.primary.Repr, MapRepr(db.indexes)
    ensures fresh(db.primary.Repr - old(db.primary.Repr)) && fresh(MapRepr(db.indexes) - old(MapRepr(db.indexes)))
    ensures db.Image() == Next(old(db.Image()), Insert(key, value)) && (ok <==> Accepted(Meaning(old(db.Image())), Insert(key, value)))
    ensures Standing(db) <==> Safe(old(db.Image()), Insert(key, value))
  {
    hide IndexedBTree.Valid, IndexedBTree.InStep, IndexedBTree.Shown, IndexedBTree.Image, MapRepr, Accepted, Meaning, InsertSafe, InsertInStep,
      Inserted, Taken, Agreed, Roomy;
    db.ValidShown();
    db.Owns();
    db.InStepIs();
    db.ImageIs(key);
    AgreedRoomy(db.Image());
    AcceptsInsert(db.Image(), key, value);
    ok := db.Insert(key, value);
  }

  method StepUpdate(db: IndexedBTree, key: Key, value: Value) returns (ok: bool)
    requires Standing(db) && Small(db.primary.view, 1) && |key| < TWO32
    modifies db.primary.Repr, MapRepr(db.indexes)
    ensures fresh(db.primary.Repr - old(db.primary.Repr)) && fresh(MapRepr(db.indexes) - old(MapRepr(db.indexes)))
    ensures db.Image() == Next(old(db.Image()), Update(key, value)) && (ok <==> Accepted(Meaning(old(db.Image())), Update(key, value)))
    ensures Standing(db) <==> Safe(old(db.Image()), Update(key, value))
  {
    hide IndexedBTree.Valid, IndexedBTree.InStep, IndexedBTree.Shown, IndexedBTree.Image, MapRepr, Breaks, UpdateSafe, UpdateInStep,
      Changed, Contested, Agreed, Roomy, FieldsOf;
    db.ValidShown();
    db.Owns();
    db.InStepIs();
    db.ImageIs(key);
    AgreedRoomy(db.Image());
    if key in db.primary.view { AcceptsUpdate(db.Image(), key, value); }
    var r := db.Update(key, value);
    ok := r.Updated?;
  }

  method StepDelete(db: IndexedBTree, key: Key) returns (ok: bool)
    requires Standing(db)
    modifies db.primary.Repr, MapRepr(db.indexes)
    ensures fresh(db.primary.Repr - old(db.primary.Repr)) && fresh(MapRepr(db.indexes) - old(MapRepr(db.indexes)))
    ensures db.Image() == Next(old(db.Image()), Delete(key)) && (ok <==> Accepted(Meaning(old(db.Image())), Delete(key)))
    ensures Standing(db) <==> Safe(old(db.Image()), Delete(key))
  {
    hide IndexedBTree.Valid, IndexedBTree.InStep, IndexedBTree.Shown, IndexedBTree.Image, MapRepr, DeleteSafe, Deleted, FieldsOf;
    db.ValidShown();
    db.Owns();
    db.ImageIs(key);
    ok := db.Delete(key);
  }

  method StepClear(db: IndexedBTree) returns (ok: bool)
    requires Standing(db)
    modifies db.primary.Repr, MapRepr(db.indexes)
    ensures fresh(db.primary.Repr - old(db.primary.Repr)) && fresh(MapRepr(db.indexes) - old(MapRepr(db.indexes)))
    ensures db.Image() == Next(old(db.Image()), Clear) && ok && Standing(db)
  {
    hide IndexedBTree.Valid, IndexedBTree.InStep, IndexedBTree.Shown, IndexedBTree.Image, MapRepr, Cleared, FieldsOf;
    db.ValidShown();
    db.Clear();
    return true;
  }

  lemma ImageNames(db: IndexedBTree, name: string)
    ensures name in Meaning(db.Image()).fields <==> name in db.indexes
    ensures Meaning(db.Image()).records == db.primary.view == db.Image().records
  {
  }

  lemma ReprLess(m: map<string, SecondaryIndex>, name: string)
    ensures MapRepr(m - {name}) <= MapRepr(m)
  {
  }

  method StepCreate(db: IndexedBTree, name: string, ext: Extractor, unique: bool) returns (ok: bool)
    requires Standing(db) && db.numCPU > 0
    modifies db`indexes
    ensures fresh(MapRepr(db.indexes) - old(MapRepr(db.indexes)))
    ensures db.Image() == Next(old(db.Image()), CreateIndex(name, ext, unique))
    ensures ok <==> Accepted(Meaning(old(db.Image())), CreateIndex(name, ext, unique))
    ensures Standing(db) <==> Safe(old(db.Image()), CreateIndex(name, ext, unique))
  {
    hide IndexedBTree.Valid, IndexedBTree.InStep, IndexedBTree.Shown, IndexedBTree.Image, MapRepr, Created, Meaning;
    ImageNames(db, name);
    ghost var before := db.indexes;
    ok := db.CreateIndex(name, ext, unique);
    if ok { ReprMore(before, name, db.indexes[name]); }
  }

  method StepRebuild(db: IndexedBTree, name: string, ext: Extractor, unique: bool) returns (ok: bool)
    requires Standing(db) && db.numCPU > 0 && Small(db.primary.view, 1)
    modifies db`indexes
    ensures fresh(MapRepr(db.indexes) - old(MapRepr(db.indexes)))
    ensures db.Image() == Next(old(db.Image()), CreateIndexWithRebuild(name, ext, unique))
    ensures ok <==> Accepted(Meaning(old(db.Image())), CreateIndexWithRebuild(name, ext, unique))
    ensures Standing(db) <==> Safe(old(db.Image()), CreateIndexWithRebuild(name, ext, unique))
  {
    hide IndexedBTree.Valid, IndexedBTree.InStep, IndexedBTree.Shown, IndexedBTree.Image, MapRepr, Rebuilt, RebuildSafe, Meaning, HasTwins;
    ImageNames(db, name);
    ghost var before := db.indexes;
    ok := db.CreateIndexWithRebuild(name, ext, unique);
    if ok { ReprMore(before, name, db.indexes[name]); }
  }

  method StepDrop(db: IndexedBTree, name: string) returns (ok: bool)
    requires Standing(db)
    modifies db`indexes
    ensures fresh(MapRepr(db.indexes) - old(MapRepr(db.indexes)))
    ensures db.Image() == Next(old(db.Image()), DropIndex(name))
    ensures (ok <==> Accepted(Meaning(old(db.Image())), DropIndex(name))) && Standing(db)
  {
    hide IndexedBTree.Valid, IndexedBTree.InStep, IndexedBTree.Shown, IndexedBTree.Image, MapRepr, Meaning;
    ImageNames(db, name);
    ReprLess(db.indexes, name);
    NotThere(db, name);
    ok := db.DropIndex(name);
  }

  lemma NotThere(db: IndexedBTree, name: string)
    ensures name !in db.indexes ==> Dropped(db.Image(), name) == db.Image()
  {
    if name !in db.indexes { assert db.Image().columns - {name} == db.Image().columns; }
  }

  /** One operation: accepted exactly when the relation accepts it, does to the tree what it does to
      the value, and loses no write and leaves every index in step exactly when it is safe. */
  method Step(db: IndexedBTree, op: Op) returns (ok: bool)
    requires Standing(db) && db.numCPU > 0 && Small(db.primary.view, 1) && Allowed(op)
    modifies db, db.primary.Repr, MapRepr(db.indexes)
    ensures fresh(db.primary.Repr - old(db.primary.Repr)) && fresh(MapRepr(db.indexes) - old(MapRepr(db.indexes)))
    ensures db.Image() == Next(old(db.Image()), op) && (ok <==> Accepted(Meaning(old(db.Image())), op))
    ensures Standing(db) <==> Safe(old(db.Image()), op)
  {
    hide Standing, Next, Small, MapRepr, IndexedBTree.Image, Meaning;
    match op
    case Insert(key, value) => ok := StepInsert(db, key, value);
    case Update(key, value) => ok := StepUpdate(db, key, value);
    case Delete(key) => ok := StepDelete(db, key);
    case Clear => ok := StepClear(db);
    case CreateIndex(name, ext, unique) => ok := StepCreate(db, name, ext, unique);
    case CreateIndexWithRebuild(name, ext, unique) => ok := StepRebuild(db, name, ext, unique);
    case DropIndex(name) => ok := StepDrop(db, name);
  }

  /** The first `n` operations of a run, up to the first that is not safe: the same calls are refused
      as in the relation, the same records are left, every index is in step with them, and no write
      is lost. */
  method Run(db: IndexedBTree, ops: seq<Op>, n: nat) returns (oks: seq<bool>)
    requires Standing(db) && db.numCPU > 0 && Small(db.primary.view, |ops| + 1) && forall i | 0 <= i < |ops| :: Allowed(ops[i])
    requires n <= FirstUnsafe(db.Image(), ops)
    modifies db, db.primary.Repr, MapRepr(db.indexes)
    ensures Standing(db) && db.Image() == NextAll(old(db.Image()), ops[..n])
    ensures Meaning(db.Image()) == ApplyAll(Meaning(old(db.Image())), ops[..n])
    ensures oks == Verdicts(Meaning(old(db.Image())), ops[..n])
    decreases |ops|
  {
    hide Standing, Next, Safe, Apply, Accepted, Small, Allowed, MapRepr, IndexedBTree.Image, Meaning;
    if n == 0 { return []; }
    assert ops[..n][0] == ops[0] && ops[..n][1..] == ops[1..][..n - 1];
    ghost var b := db.Image();
    ImageNames(db, "");
    NextMeans(b, ops[0]);
    SmallApply(Meaning(b), ops[0], |ops|);
    SmallLess(db.primary.view, |ops| + 1);
    var ok := Step(db, ops[0]);
    ImageNames(db, "");
    Stands(db);
    var rest := Run(db, ops[1..], n - 1);
    oks := [ok] + rest;
  }

  lemma Stands(db: IndexedBTree)
    requires Standing(db)
    ensures forall o | o in db.primary.Repr :: allocated(o)
    ensures forall o | o in MapRepr(db.indexes) :: allocated(o)
  {
    hide IndexedBTree.Valid, IndexedBTree.InStep, IndexedBTree.Shown, MapRepr;
    db.ValidShown();
    db.Owns();
  }

  /** All operations of a run up to the first that is not safe, and that one: after it a write has been
      lost or an index is out of step. */
  method RunUntil(db: IndexedBTree, ops: seq<Op>, n: nat) returns (oks: seq<bool>)
    requires Standing(db) && db.numCPU > 0 && Small(db.primary.view, |ops| + 1) && forall i | 0 <= i < |ops| :: Allowed(ops[i])
    requires n == FirstUnsafe(db.Image(), ops) < |ops|
    modifies db, db.primary.Repr, MapRepr(db.indexes)
    ensures !Standing(db) && db.Image() == NextAll(old(db.Image()), ops[..n + 1])
    ensures oks == Verdicts(Meaning(old(db.Image())), ops[..n + 1])
    decreases |ops|
  {
    hide Standing, Next, Safe, Apply, Accepted, Small, Allowed, MapRepr, IndexedBTree.Image, Meaning;
    ghost var b := db.Image();
    ImageNames(db, "");
    SmallApply(Meaning(b), ops[0], |ops|);
    SmallLess(db.primary.view, |ops| + 1);
    assert ops[..n + 1][0] == ops[0] && ops[..n + 1][1..] == ops[1..][..n];
    var ok := Step(db, ops[0]);
    if n == 0 {
      return [ok];
    }
    NextMeans(b, ops[0]);
    ImageNames(db, "");
    Stands(db);
    var rest := RunUntil(db, ops[1..], n - 1);
    oks := [ok] + rest;
  }

  // ------------------------------------------------------- unique indexes only

  /** All fields are unique. */
  ghost predicate AllUnique(b: Base) {
    forall n | n in b.columns :: b.columns[n].index.state.unique
  }

  /** Inner nodes of the primary tree hold keys of records. */
  ghost predicate Tidy(b: Base) {
    forall k | Inner(b, k) :: k in b.records
  }

  /** Between unique indexes, when an accepted operation is safe: an insertion over a record must not
      be lost, nor leave an index key of the old record behind; an update must not be lost, nor
      change an index key between none and the empty one; a new index must not miss a record. */
  ghost predicate UniqueSafe(b: Base, op: Op) {
    match op
    case Insert(key, value) => key in b.records ==>
      !Inner(b, key) && forall n | n in b.columns :: b.columns[n].ext(b.records[key]) == None
    case Update(key, value) => key in b.records ==>
      !Inner(b, key) && forall n | n in b.columns :: !Blurred(b.columns[n].ext(b.records[key]), b.columns[n].ext(value))
    case Delete(key) => true
    case Clear => true
    case CreateIndex(name, ext, unique) => forall pk | pk in b.records :: ext(b.records[pk]) == None
    case CreateIndexWithRebuild(name, ext, unique) => unique || RebuildSafe(b, ext, false)
    case DropIndex(name) => true
  }

  lemma SafeWhenUnique(b: Base, op: Op)
    requires Agreed(b) && AllUnique(b) && Tidy(b) && Accepted(Meaning(b), op)
    ensures Safe(b, op) <==> UniqueSafe(b, op)
  {
    hide Agreed, Breaks, FieldsOf, HasTwins, Inner, Held, Taken, HeldAfter, IndexLoses;
    match op
    case Insert(key, value) => InsertWhenUnique(b, key, value);
    case CreateIndexWithRebuild(name, ext, unique) => RebuildKeepsKind(NewColumn(b, ext, unique).index, ext, PairsIn(b.grove));
    case _ =>
  }

  lemma InsertWhenUnique(b: Base, key: Key, value: Value)
    requires Agreed(b) && AllUnique(b) && Tidy(b) && Accepted(Meaning(b), Insert(key, value))
    ensures InsertSafe(b, key, value) && InsertInStep(b, key, value) <==> UniqueSafe(b, Insert(key, value))
  {
    hide Agreed, Accepted, Inner, Held, Taken;
    AcceptsInsert(b, key, value);
    if key in b.records {
      TakenMeans(b, value);
      forall n | n in b.columns ensures b.columns[n].ext(value).Some? ==> b.columns[n].ext(b.records[key]) != b.columns[n].ext(value) { }
    }
  }

  lemma TidyImage(db: IndexedBTree)
    requires Standing(db)
    ensures Tidy(db.Image()) && Agreed(db.Image())
  {
    hide IndexedBTree.Valid, IndexedBTree.InStep, IndexedBTree.Shown, IndexedBTree.Image, Agreed, Inner, Table.Sound, Table.Inner;
    db.InStepIs();
    db.ValidShown();
    db.Opened();
    forall k | Inner(db.Image(), k) ensures k in db.Image().records {
      db.ImageIs(k);
      db.primary.InnerHeld(k);
    }
  }

  /** Insertions of new keys, deletions, `Clear`, and unique indexes that come and go. */
  ghost predicate Plain(t: Relation, op: Op) {
    match op
    case Insert(key, value) => key !in t.records
    case CreateIndexWithRebuild(name, ext, unique) => unique
    case _ => op.Delete? || op.Clear? || op.DropIndex?
  }

  ghost predicate PlainAll(t: Relation, ops: seq<Op>)
    decreases |ops|
  {
    ops == [] || (Plain(t, ops[0]) && PlainAll(Apply(t, ops[0]), ops[1..]))
  }

  lemma PlainSafe(b: Base, op: Op)
    requires Agreed(b) && AllUnique(b) && Tidy(b) && Plain(Meaning(b), op)
    ensures Safe(b, op)
  {
    hide Agreed, Accepted, AllUnique, Tidy, Safe;
    if Accepted(Meaning(b), op) { SafeWhenUnique(b, op); } else { Refused(b, op); }
  }

  lemma Refused(b: Base, op: Op)
    requires !Accepted(Meaning(b), op)
    ensures Safe(b, op)
  {
    hide Accepted, Meaning;
  }

  lemma PlainUnique(b: Base, op: Op)
    requires AllUnique(b) && Plain(Meaning(b), op) && Meaning(Next(b, op)) == Apply(Meaning(b), op)
    ensures AllUnique(Next(b, op))
  {
    hide Accepted, Next, HasTwins, Breaks;
    var c := Next(b, op);
    forall n | n in c.columns ensures c.columns[n].index.state.unique {
      assert n in Meaning(c).fields && Meaning(c).fields[n].unique == c.columns[n].index.state.unique;
      assert n in Meaning(b).fields ==> Meaning(b).fields[n].unique;
    }
  }

  /** Over unique indexes such a run is never unsafe: the tree is the relation from beginning to end. */
  method RunPlain(db: IndexedBTree, ops: seq<Op>) returns (oks: seq<bool>)
    requires Standing(db) && db.numCPU > 0 && Small(db.primary.view, |ops| + 1) && forall i | 0 <= i < |ops| :: Allowed(ops[i])
    requires AllUnique(db.Image()) && PlainAll(Meaning(db.Image()), ops)
    modifies db, db.primary.Repr, MapRepr(db.indexes)
    ensures Standing(db) && Meaning(db.Image()) == ApplyAll(Meaning(old(db.Image())), ops)
    ensures oks == Verdicts(Meaning(old(db.Image())), ops)
    decreases |ops|
  {
    hide Standing, Next, Safe, Apply, Accepted, Small, Allowed, MapRepr, IndexedBTree.Image, Meaning, AllUnique, Tidy, Agreed, Plain;
    if ops == [] { return []; }
    ghost var b := db.Image();
    TidyImage(db);
    PlainSafe(b, ops[0]);
    NextMeans(b, ops[0]);
    PlainUnique(b, ops[0]);
    ImageNames(db, "");
    SmallApply(Meaning(b), ops[0], |ops|);
    SmallLess(db.primary.view, |ops| + 1);
    var ok := Step(db, ops[0]);
    ImageNames(db, "");
    Stands(db);
    var rest := RunPlain(db, ops[1..]);
    oks := [ok] + rest;
  }

  // ------------------------------------------------- the constraints of the relation

  /** No two records agree on the key of a unique field. */
  ghost predicate Constrained(t: Relation) {
    forall n | n in t.fields && t.fields[n].unique :: !HasTwins(t.fields[n].ext, t.records)
  }

  /** A tree whose indexes are in step meets them. */
  lemma AgreedConstrained(b: Base)
    requires Agreed(b)
    ensures Constrained(Meaning(b))
  {
    hide Agrees;
    forall n | n in b.columns && b.columns[n].index.state.unique ensures !HasTwins(b.columns[n].ext, b.records) {
      var c := b.columns[n];
      forall p, q ensures !Twins(c.ext, b.records, p, q) {
        if Twins(c.ext, b.records, p, q) { OnePerKey(c.index.state, c.ext, b.records, p, q); }
      }
    }
  }

  /** The relation keeps its constraints through every run that creates unique indexes by rebuild only. */
  lemma {:induction false} ApplyAllConstrained(t: Relation, ops: seq<Op>)
    requires Constrained(t) && forall i | 0 <= i < |ops| :: ops[i].CreateIndex? ==> !ops[i].unique
    ensures Constrained(ApplyAll(t, ops))
    decreases |ops|
  {
    hide Constrained;
    if ops != [] {
      ApplyConstrained(t, ops[0]);
      ApplyAllConstrained(Apply(t, ops[0]), ops[1..]);
    }
  }

  lemma ApplyConstrained(t: Relation, op: Op)
    requires Constrained(t) && (op.CreateIndex? ==> !op.unique)
    ensures Constrained(Apply(t, op))
  {
    hide HasTwins, Breaks;
    var t' := Apply(t, op);
    forall n | n in t'.fields && t'.fields[n].unique ensures !HasTwins(t'.fields[n].ext, t'.records) {
      if n in t.fields && t'.fields[n] == t.fields[n] { KeptApart(t, op, n); }
    }
  }

  /** A constraint holds on after an operation. */
  lemma KeptApart(t: Relation, op: Op, n: string)
    requires n in t.fields && t.fields[n].unique && !HasTwins(t.fields[n].ext, t.records)
    ensures !HasTwins(t.fields[n].ext, Apply(t, op).records)
  {
    var records := Apply(t, op).records;
    forall p, q ensures !Twins(t.fields[n].ext, records, p, q) {
      assert !Twins(t.fields[n].ext, t.records, p, q);
      if op.Insert? && Accepted(t, op) { assert !Breaks(t, n, op.value, None); }
      if op.Update? && Accepted(t, op) { assert !Breaks(t, n, op.value, Some(op.key)); }
    }
  }
}
