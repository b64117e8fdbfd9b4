/** Indexes by name and the same indexes in a list: what the loops do to the list, seen by name. */
module IndexColumns {
  import opened Bytes
  import opened IndexSpec
  import opened IndexPlaces
  import opened IndexBases
  import opened SecondaryIndexes
  import opened IndexLists
  import opened IndexMaps
  import opened IndexRecords

  ghost function ColumnsOf(m: map<string, SecondaryIndex>): Columns
    reads m.Values
  {
    map n | n in m :: Column(m[n].extractor, m[n].Model())
  }

  /** A list of names, each once, with an index and its value for each. */
  ghost predicate Named(names: seq<string>, s: seq<SecondaryIndex>, ms: seq<Placed>) {
    |names| == |s| == |ms| && forall i, j | 0 <= i < j < |names| :: names[i] != names[j]
  }

  ghost function ByName(names: seq<string>, s: seq<SecondaryIndex>, ms: seq<Placed>): Columns
    requires Named(names, s, ms)
  {
    map i | 0 <= i < |names| :: names[i] := Column(s[i].extractor, ms[i])
  }

  lemma ListsNamed(m: map<string, SecondaryIndex>, s: seq<SecondaryIndex>, names: seq<string>)
    requires Lists(m, s, names)
    ensures Named(names, s, Models(s)) && ColumnsOf(m) == ByName(names, s, Models(s))
  {
    hide SecondaryIndex.Model;
    forall n | n in m ensures n in ByName(names, s, Models(s)) && ByName(names, s, Models(s))[n] == ColumnsOf(m)[n] {
      var i := ListsAt(m, s, names, n);
      assert names[i] in ByName(names, s, Models(s));
    }
  }

  lemma NamedAt(names: seq<string>, s: seq<SecondaryIndex>, ms: seq<Placed>, i: nat)
    requires Named(names, s, ms) && i < |s|
    ensures names[i] in ByName(names, s, ms) && ByName(names, s, ms)[names[i]] == Column(s[i].extractor, ms[i])
  {
  }

  lemma NamedIs(names: seq<string>, s: seq<SecondaryIndex>, ms: seq<Placed>, n: string) returns (i: nat)
    requires Named(names, s, ms) && n in ByName(names, s, ms)
    ensures i < |s| && names[i] == n && ByName(names, s, ms)[n] == Column(s[i].extractor, ms[i])
  {
    i :| i < |names| && names[i] == n;
  }

  lemma NamedAll(names: seq<string>, s: seq<SecondaryIndex>, ms: seq<Placed>)
    requires Named(names, s, ms)
    ensures forall i | 0 <= i < |s| :: names[i] in ByName(names, s, ms) && ByName(names, s, ms)[names[i]] == Column(s[i].extractor, ms[i])
    ensures forall n | n in ByName(names, s, ms) ::
      exists i | 0 <= i < |s| :: names[i] == n && ByName(names, s, ms)[n] == Column(s[i].extractor, ms[i])
  {
    hide ByName;
    forall i | 0 <= i < |s| { NamedAt(names, s, ms, i); }
    forall n | n in ByName(names, s, ms)
      ensures exists i | 0 <= i < |s| :: names[i] == n && ByName(names, s, ms)[n] == Column(s[i].extractor, ms[i])
    {
      var i := NamedIs(names, s, ms, n);
    }
  }

  lemma RoomListed(b: Base, names: seq<string>, s: seq<SecondaryIndex>, ms: seq<Placed>)
    requires Named(names, s, ms) && b.columns == ByName(names, s, ms)
    ensures Roomy(b) <==> AllRoom(ms)
  {
    hide RoomIn, ByName;
    NamedAll(names, s, ms);
  }

  // ------------------------------------------------------------- inserting

  lemma TakenListed(b: Base, names: seq<string>, s: seq<SecondaryIndex>, ms: seq<Placed>, value: Value)
    requires Named(names, s, ms) && b.columns == ByName(names, s, ms)
    ensures !Taken(b, value) <==> forall i | 0 <= i < |s| :: !Clash(ms[i].state, s[i].extractor(value))
  {
    hide Clash, ByName;
    NamedAll(names, s, ms);
  }

  lemma InsertListed(b: Base, names: seq<string>, s: seq<SecondaryIndex>, ms: seq<Placed>, key: Key, value: Value)
    requires Named(names, s, ms) && b.columns == ByName(names, s, ms)
    ensures InsertSafe(b, key, value) <==> !Inner(b, key) && NoneLost(ms, s, key, value)
    ensures InsertInStep(b, key, value) <==> AllAddKeep(ms, s, b.records, key, value, Inner(b, key))
  {
    hide AddLoses, AddKeeps, ByName, Inner;
    NamedAll(names, s, ms);
  }

  lemma AddNamed(names: seq<string>, s: seq<SecondaryIndex>, ms: seq<Placed>, key: Key, value: Value)
    requires Named(names, s, ms)
    ensures Named(names, s, AddAll(ms, s, key, value))
    ensures ByName(names, s, AddAll(ms, s, key, value)) == AddColumns(ByName(names, s, ms), key, value)
  {
    hide AddTo, ByName;
    NamedAll(names, s, ms);
    NamedAll(names, s, AddAll(ms, s, key, value));
    assert ByName(names, s, AddAll(ms, s, key, value)) == AddColumns(ByName(names, s, ms), key, value);
  }

  // -------------------------------------------------------------- updating

  lemma ContestedListed(b: Base, names: seq<string>, s: seq<SecondaryIndex>, ms: seq<Placed>, was: Value, value: Value)
    requires Named(names, s, ms) && b.columns == ByName(names, s, ms)
    ensures !Contested(b, was, value) <==> forall i | 0 <= i < |s| :: !Rival(ms[i].state, s[i].extractor(was), s[i].extractor(value))
  {
    hide Rival, ByName;
    NamedAll(names, s, ms);
  }

  lemma UpdateListed(b: Base, names: seq<string>, s: seq<SecondaryIndex>, ms: seq<Placed>, key: Key, value: Value)
    requires Named(names, s, ms) && b.columns == ByName(names, s, ms) && key in b.records
    ensures UpdateSafe(b, key, value) <==> !Inner(b, key) && NoChangeLost(ms, s, key, b.records[key], value)
    ensures UpdateInStep(b, key, value) <==> AllChangeKeep(ms, s, key, b.records[key], value, Inner(b, key))
  {
    hide ChangeLoses, ChangeKeeps, ByName, Inner;
    NamedAll(names, s, ms);
  }

  lemma ChangeNamed(names: seq<string>, s: seq<SecondaryIndex>, ms: seq<Placed>, key: Key, was: Value, value: Value)
    requires Named(names, s, ms)
    ensures Named(names, s, ChangeAll(ms, s, key, was, value))
    ensures ByName(names, s, ChangeAll(ms, s, key, was, value)) == ChangeColumns(ByName(names, s, ms), key, was, value)
  {
    hide ChangeIn, ByName;
    NamedAll(names, s, ms);
    NamedAll(names, s, ChangeAll(ms, s, key, was, value));
    assert ByName(names, s, ChangeAll(ms, s, key, was, value)) == ChangeColumns(ByName(names, s, ms), key, was, value);
  }

  // -------------------------------------------------------------- deleting

  lemma DeleteListed(b: Base, names: seq<string>, s: seq<SecondaryIndex>, ms: seq<Placed>, key: Key)
    requires Named(names, s, ms) && b.columns == ByName(names, s, ms) && key in b.records
    ensures DeleteSafe(b, key) <==> NoDropLost(ms, s, key, b.records[key])
  {
    hide DropLoses, ByName;
    NamedAll(names, s, ms);
  }

  lemma DropNamed(names: seq<string>, s: seq<SecondaryIndex>, ms: seq<Placed>, key: Key, value: Value)
    requires Named(names, s, ms)
    ensures Named(names, s, DropAll(ms, s, key, value))
    ensures ByName(names, s, DropAll(ms, s, key, value)) == DropColumns(ByName(names, s, ms), key, value)
  {
    hide DropFrom, ByName;
    NamedAll(names, s, ms);
    NamedAll(names, s, DropAll(ms, s, key, value));
    assert ByName(names, s, DropAll(ms, s, key, value)) == DropColumns(ByName(names, s, ms), key, value);
  }

  lemma EmptyNamed(names: seq<string>, s: seq<SecondaryIndex>, ms: seq<Placed>)
    requires Named(names, s, ms)
    ensures Named(names, s, EmptyAll(ms)) && ByName(names, s, EmptyAll(ms)) == EmptyColumns(ByName(names, s, ms))
  {
    hide Emptied, ByName;
    NamedAll(names, s, ms);
    NamedAll(names, s, EmptyAll(ms));
    assert ByName(names, s, EmptyAll(ms)) == EmptyColumns(ByName(names, s, ms));
  }
}
