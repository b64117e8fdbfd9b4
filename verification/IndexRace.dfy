/** Concurrent `Insert` calls on an indexed tree, interleaved at every access to shared state: each
    lookup of the uniqueness check, the primary write, each index write, and the rollback. */
module IndexRace {
  import opened Bytes
  import opened IndexSpec

  /** One call: its record, and the order in which its copy of the index map came out. */
  datatype Caller = Caller(pk: Key, value: Value, order: seq<nat>)

  datatype Pc =
    | Checking(i: nat) | Writing | Indexing(i: nat) | RollingBack(i: nat)
    | Refused | Undone(i: nat) | Stored

  /** The tree the calls start from. */
  datatype Setup = Setup(exts: seq<Extractor>, callers: seq<Caller>, records: Records, indexes: seq<IndexState>)

  datatype State = State(records: Records, indexes: seq<IndexState>, pcs: seq<Pc>)

  /** Indexes in agreement, callers with distinct primary keys that are not yet stored, and every
      caller going through each index once. */
  ghost predicate Proper(u: Setup) {
    && |u.exts| == |u.indexes|
    && (forall n | 0 <= n < |u.indexes| :: Agrees(u.indexes[n], u.exts[n], u.records))
    && (forall c | 0 <= c < |u.callers| :: u.callers[c].pk !in u.records && Permutes(u.callers[c].order, |u.indexes|))
    && (forall c, d | 0 <= c < d < |u.callers| :: u.callers[c].pk != u.callers[d].pk)
  }

  ghost predicate Permutes(order: seq<nat>, n: nat) {
    && |order| == n
    && (forall i | 0 <= i < n :: order[i] < n)
    && (forall m | 0 <= m < n :: m in order)
    && (forall i, j | 0 <= i < j < n :: order[i] != order[j])
  }

  ghost predicate Shaped(u: Setup, s: State) {
    Proper(u) && |s.indexes| == |u.indexes| && |s.pcs| == |u.callers|
    && forall c | 0 <= c < |s.pcs| :: Progress(u, s.pcs[c]) <= |u.indexes|
  }

  /** The index key of caller `c` in index `n`. */
  function KeyOf(u: Setup, c: nat, n: nat): Option<Key>
    requires c < |u.callers| && n < |u.exts|
  {
    u.exts[n](u.callers[c].value)
  }

  function Start(u: Setup): State {
    State(u.records, u.indexes, seq(|u.callers|, _ => Checking(0)))
  }

  predicate Returned(pc: Pc) {
    pc.Refused? || pc.Undone? || pc.Stored?
  }

  /** How many indexes the call has written. */
  function Progress(u: Setup, pc: Pc): nat {
    match pc
    case Indexing(i) => i
    case RollingBack(i) => i
    case Undone(i) => i
    case Stored => |u.indexes|
    case Checking(i) => 0
    case Writing => 0
    case Refused => 0
  }

  /** The next access of caller `c`. */
  ghost function Step(u: Setup, s: State, c: nat): State
    requires Shaped(u, s) && c < |s.pcs|
  {
    var me := u.callers[c];
    match s.pcs[c]
    case Checking(i) =>
      if i >= |me.order| then s.(pcs := s.pcs[c := Writing])
      else if Clash(s.indexes[me.order[i]], KeyOf(u, c, me.order[i])) then s.(pcs := s.pcs[c := Refused])
      else s.(pcs := s.pcs[c := Checking(i + 1)])
    case Writing => s.(records := s.records[me.pk := me.value], pcs := s.pcs[c := Indexing(0)])
    case Indexing(i) =>
      if i >= |me.order| then s.(pcs := s.pcs[c := Stored])
      else
        var n := me.order[i];
        var r := Add(s.indexes[n], me.pk, KeyOf(u, c, n));
        s.(indexes := s.indexes[n := r.0], pcs := s.pcs[c := if r.1 then Indexing(i + 1) else RollingBack(i)])
    case RollingBack(i) => s.(records := s.records - {me.pk}, pcs := s.pcs[c := Undone(i)])
    case Refused => s
    case Undone(_) => s
    case Stored => s
  }

  // ------------------------------------------------------------- record maps

  /** The value of a primary key: the initial one, or that of its caller. */
  ghost function Of(u: Setup, pk: Key): Value {
    if pk in u.records then u.records[pk]
    else if c: nat :| c < |u.callers| && u.callers[c].pk == pk then u.callers[c].value
    else []
  }

  ghost function Pks(u: Setup, who: set<nat>): set<Key> {
    set c | c in who && c < |u.callers| :: u.callers[c].pk
  }

  /** The initial records and those of some callers. */
  ghost function With(u: Setup, who: set<nat>): Records {
    map pk | pk in u.records.Keys + Pks(u, who) :: Of(u, pk)
  }

  lemma OfCaller(u: Setup, c: nat)
    requires Proper(u) && c < |u.callers|
    ensures Of(u, u.callers[c].pk) == u.callers[c].value
  {
    hide Agrees, Permutes;
  }

  lemma WithMember(u: Setup, who: set<nat>, c: nat)
    requires Proper(u) && c < |u.callers|
    ensures u.callers[c].pk in With(u, who) <==> c in who
    ensures c in who ==> With(u, who)[u.callers[c].pk] == u.callers[c].value
  {
    hide Agrees, Permutes, Of;
    OfCaller(u, c);
    if u.callers[c].pk in Pks(u, who) {
      var d :| d in who && d < |u.callers| && u.callers[d].pk == u.callers[c].pk;
      assert d == c;
    }
  }

  lemma WithAdd(u: Setup, who: set<nat>, c: nat)
    requires Proper(u) && c < |u.callers|
    ensures With(u, who + {c}) == With(u, who)[u.callers[c].pk := u.callers[c].value]
  {
    hide Agrees, Permutes, Of;
    OfCaller(u, c);
    assert Pks(u, who + {c}) == Pks(u, who) + {u.callers[c].pk};
  }

  lemma WithRemove(u: Setup, who: set<nat>, c: nat)
    requires Proper(u) && c < |u.callers|
    ensures With(u, who - {c}) == With(u, who) - {u.callers[c].pk}
  {
    hide Agrees, Permutes, Of;
    var pk := u.callers[c].pk;
    assert Pks(u, who - {c}) == Pks(u, who) - {pk};
  }

  lemma WithNone(u: Setup)
    ensures With(u, {}) == u.records
  {
  }

  // ------------------------------------------------------------- the invariant

  /** The call has written index `n`. */
  ghost predicate Wrote(u: Setup, s: State, c: nat, n: nat)
    requires Shaped(u, s) && c < |s.pcs|
  {
    exists i | 0 <= i < Progress(u, s.pcs[c]) :: u.callers[c].order[i] == n
  }

  ghost function Writers(u: Setup, s: State, n: nat): set<nat>
    requires Shaped(u, s)
  {
    set c: nat | c < |s.pcs| && Wrote(u, s, c, n)
  }

  /** The callers whose record is in the primary tree. */
  ghost function Holders(s: State): set<nat> {
    set c: nat | c < |s.pcs| && (s.pcs[c].Indexing? || s.pcs[c].RollingBack? || s.pcs[c].Stored?)
  }

  ghost predicate BlockedAt(u: Setup, s: State, c: nat, n: nat)
    requires |s.indexes| == |u.exts| && c < |u.callers|
  {
    n < |s.indexes| && Clash(s.indexes[n], KeyOf(u, c, n))
  }

  /** A call that failed did so because a unique index has its key, and still does. */
  ghost predicate Justified(u: Setup, s: State, c: nat)
    requires Shaped(u, s) && c < |s.pcs|
  {
    match s.pcs[c]
    case Refused => exists n :: BlockedAt(u, s, c, n)
    case RollingBack(i) => i < |u.indexes| && BlockedAt(u, s, c, u.callers[c].order[i])
    case Undone(i) => i < |u.indexes| && BlockedAt(u, s, c, u.callers[c].order[i])
    case _ => true
  }

  ghost predicate Inv(u: Setup, s: State) {
    && Shaped(u, s)
    && s.records == With(u, Holders(s))
    && (forall n | 0 <= n < |s.indexes| :: Agrees(s.indexes[n], u.exts[n], With(u, Writers(u, s, n))))
    && (forall n | 0 <= n < |s.indexes| :: Grown(u.indexes[n], s.indexes[n]))
    && (forall c | 0 <= c < |s.pcs| :: Justified(u, s, c))
  }

  predicate Grown(x: IndexState, y: IndexState) {
    x.unique == y.unique && x.lists.Keys <= y.lists.Keys
  }

  lemma AddGrows(x: IndexState, pk: Key, ik: Option<Key>)
    ensures Grown(x, Add(x, pk, ik).0)
    ensures Add(x, pk, ik).1 <==> !Clash(x, ik)
    ensures !Add(x, pk, ik).1 ==> Add(x, pk, ik).0 == x
  {
  }

  lemma StartInv(u: Setup)
    requires Proper(u)
    ensures Inv(u, Start(u))
  {
    hide Agrees, Permutes;
    WithNone(u);
    var s := Start(u);
    assert Holders(s) == {};
    forall n | 0 <= n < |s.indexes| ensures Writers(u, s, n) == {} { }
  }

  // ------------------------------------------------- every step keeps the invariant

  lemma StepShaped(u: Setup, s: State, c: nat)
    requires Shaped(u, s) && c < |s.pcs|
    ensures Shaped(u, Step(u, s, c))
    ensures forall d | 0 <= d < |s.pcs| && d != c :: Step(u, s, c).pcs[d] == s.pcs[d]
  {
    hide Agrees, Add, Clash;
  }

  lemma WritersSame(u: Setup, s: State, t: State, n: nat)
    requires Shaped(u, s) && Shaped(u, t)
    requires forall c | 0 <= c < |s.pcs| :: Progress(u, s.pcs[c]) == Progress(u, t.pcs[c])
    ensures Writers(u, s, n) == Writers(u, t, n)
  {
    hide Agrees, Progress, Permutes;
    forall c: nat | c < |s.pcs| ensures Wrote(u, s, c, n) <==> Wrote(u, t, c, n) { }
  }

  lemma WritersNext(u: Setup, s: State, t: State, c: nat, i: nat, n: nat)
    requires Shaped(u, s) && Shaped(u, t) && c < |s.pcs| && i < |u.indexes|
    requires s.pcs[c] == Indexing(i) && t.pcs == s.pcs[c := Indexing(i + 1)]
    ensures Writers(u, t, n) == if n == u.callers[c].order[i] then Writers(u, s, n) + {c} else Writers(u, s, n)
    ensures n == u.callers[c].order[i] ==> c !in Writers(u, s, n)
  {
    hide Agrees;
    var order := u.callers[c].order;
    forall d: nat | d < |s.pcs|
      ensures Wrote(u, t, d, n) <==> Wrote(u, s, d, n) || (d == c && n == order[i])
    {
      if d == c && n == order[i] { assert order[i] == n && i < Progress(u, t.pcs[c]); }
    }
  }

  lemma JustifiedGrows(u: Setup, s: State, t: State, c: nat)
    requires Shaped(u, s) && Shaped(u, t) && c < |s.pcs| && Justified(u, s, c)
    requires forall n | 0 <= n < |s.indexes| :: Grown(s.indexes[n], t.indexes[n])
    requires t.pcs[c] == s.pcs[c] || !(t.pcs[c].Refused? || t.pcs[c].RollingBack? || t.pcs[c].Undone?)
      || (s.pcs[c].RollingBack? && t.pcs[c] == Undone(s.pcs[c].i))
    ensures Justified(u, t, c)
  {
    hide Agrees, Progress;
    forall n: nat | BlockedAt(u, s, c, n) ensures BlockedAt(u, t, c, n) {
      assert Grown(s.indexes[n], t.indexes[n]);
    }
  }

  /** A step that changes no record and no index. */
  lemma QuietStep(u: Setup, s: State, t: State, c: nat)
    requires Inv(u, s) && Shaped(u, t) && c < |s.pcs| && t.records == s.records && t.indexes == s.indexes
    requires t.pcs == s.pcs[c := t.pcs[c]] && Progress(u, t.pcs[c]) == Progress(u, s.pcs[c])
    requires c in Holders(s) <==> c in Holders(t)
    requires Justified(u, t, c)
    ensures Inv(u, t)
  {
    hide Agrees, Permutes, Progress, With, KeyOf, Clash;
    assert Holders(t) == Holders(s);
    forall n | 0 <= n < |s.indexes| ensures Writers(u, t, n) == Writers(u, s, n) { WritersSame(u, s, t, n); }
    forall d | 0 <= d < |s.pcs| ensures Justified(u, t, d) {
      if d != c { JustifiedGrows(u, s, t, d); }
    }
  }

  /** The primary write, and its undoing. */
  lemma PrimaryStep(u: Setup, s: State, c: nat)
    requires Inv(u, s) && c < |s.pcs| && (s.pcs[c].Writing? || s.pcs[c].RollingBack?)
    ensures Inv(u, Step(u, s, c))
  {
    hide Agrees, Permutes, With, KeyOf, Clash, Add;
    var t := Step(u, s, c);
    StepShaped(u, s, c);
    if s.pcs[c].Writing? {
      assert Holders(t) == Holders(s) + {c};
      WithAdd(u, Holders(s), c);
    } else {
      assert Holders(t) == Holders(s) - {c};
      WithRemove(u, Holders(s), c);
    }
    forall n | 0 <= n < |s.indexes| ensures Writers(u, t, n) == Writers(u, s, n) { WritersSame(u, s, t, n); }
    forall d | 0 <= d < |s.pcs| ensures Justified(u, t, d) { JustifiedGrows(u, s, t, d); }
  }

  /** An index write that succeeds. */
  lemma IndexStep(u: Setup, s: State, c: nat)
    requires Inv(u, s) && c < |s.pcs| && s.pcs[c].Indexing? && s.pcs[c].i < |u.indexes|
    requires var n := u.callers[c].order[s.pcs[c].i]; !Clash(s.indexes[n], KeyOf(u, c, n))
    ensures Inv(u, Step(u, s, c))
  {
    hide Agrees, With, KeyOf, Clash, Add;
    var t, i := Step(u, s, c), s.pcs[c].i;
    var n := u.callers[c].order[i];
    StepShaped(u, s, c);
    AddGrows(s.indexes[n], u.callers[c].pk, KeyOf(u, c, n));
    assert Holders(t) == Holders(s);
    forall m | 0 <= m < |s.indexes|
      ensures Agrees(t.indexes[m], u.exts[m], With(u, Writers(u, t, m))) && Grown(s.indexes[m], t.indexes[m])
    {
      WritersNext(u, s, t, c, i, m);
      if m == n { IndexWritten(u, s, c, n); }
    }
    forall d | 0 <= d < |s.pcs| ensures Justified(u, t, d) { JustifiedGrows(u, s, t, d); }
  }

  lemma IndexWritten(u: Setup, s: State, c: nat, n: nat)
    requires Inv(u, s) && c < |s.pcs| && n < |s.indexes| && !Clash(s.indexes[n], KeyOf(u, c, n))
    requires c !in Writers(u, s, n)
    ensures Agrees(Add(s.indexes[n], u.callers[c].pk, KeyOf(u, c, n)).0, u.exts[n], With(u, Writers(u, s, n) + {c}))
  {
    hide Agrees, With, Writers, Add;
    WithMember(u, Writers(u, s, n), c);
    WithAdd(u, Writers(u, s, n), c);
    AddAgrees(s.indexes[n], u.exts[n], With(u, Writers(u, s, n)), u.callers[c].pk, u.callers[c].value);
  }

  /** Every access of every caller keeps the invariant. */
  lemma StepInv(u: Setup, s: State, c: nat)
    requires Inv(u, s) && c < |s.pcs|
    ensures Inv(u, Step(u, s, c))
  {
    hide Agrees, With, Clash, Add, Grown, KeyOf;
    StepShaped(u, s, c);
    var t, order := Step(u, s, c), u.callers[c].order;
    if s.pcs[c].Writing? || s.pcs[c].RollingBack? {
      PrimaryStep(u, s, c);
    } else if s.pcs[c].Indexing? && s.pcs[c].i < |order| && !Clash(s.indexes[order[s.pcs[c].i]], KeyOf(u, c, order[s.pcs[c].i])) {
      IndexStep(u, s, c);
    } else if s.pcs[c].Indexing? && s.pcs[c].i < |order| {
      var n := order[s.pcs[c].i];
      AddGrows(s.indexes[n], u.callers[c].pk, KeyOf(u, c, n));
      assert t.indexes == s.indexes;
      assert BlockedAt(u, t, c, n);
      QuietStep(u, s, t, c);
    } else {
      if s.pcs[c].Checking? && s.pcs[c].i < |order| { assert t.pcs[c].Refused? ==> BlockedAt(u, t, c, order[s.pcs[c].i]); }
      QuietStep(u, s, t, c);
    }
  }

  // ------------------------------------------------------------------- whole runs

  /** A schedule: whose access comes next, from the first to the last. */
  ghost function Run(u: Setup, schedule: seq<nat>): State
    requires Proper(u) && forall k | 0 <= k < |schedule| :: schedule[k] < |u.callers|
    ensures Inv(u, Run(u, schedule))
  {
    StartInv(u);
    if schedule == [] then Start(u) else
    var s := Run(u, schedule[..|schedule| - 1]);
    StepInv(u, s, schedule[|schedule| - 1]);
    Step(u, s, schedule[|schedule| - 1])
  }

  ghost predicate Finished(s: State) {
    forall c | 0 <= c < |s.pcs| :: Returned(s.pcs[c])
  }

  /** The callers that returned no error. */
  ghost function Winners(s: State): set<nat> {
    set c: nat | c < |s.pcs| && s.pcs[c].Stored?
  }

  /** A caller that failed after writing its key to index `n`. */
  ghost predicate Leaked(u: Setup, s: State, c: nat, n: nat)
    requires Shaped(u, s) && c < |s.pcs| && n < |u.exts|
  {
    s.pcs[c].Undone? && Wrote(u, s, c, n) && KeyOf(u, c, n).Some?
  }

  lemma WinnersWrote(u: Setup, s: State, n: nat)
    requires Inv(u, s) && Finished(s) && n < |u.indexes|
    ensures Winners(s) <= Writers(u, s, n)
    ensures forall c | c in Writers(u, s, n) - Winners(s) :: s.pcs[c].Undone?
  {
    hide Agrees, With;
    forall c | c in Winners(s) ensures Wrote(u, s, c, n) { assert n in u.callers[c].order; }
  }

  /** A key filed for a record that is not there any more breaks the agreement; nothing else does. */
  lemma ExtraRecords(x: IndexState, ext: Extractor, more: Records, fewer: Records)
    requires Agrees(x, ext, more) && fewer.Keys <= more.Keys && forall pk | pk in fewer :: fewer[pk] == more[pk]
    ensures Agrees(x, ext, fewer) <==> forall pk | pk in more && pk !in fewer :: ext(more[pk]) == None
  {
    hide WellFormed, Filed;
    if forall pk | pk in more && pk !in fewer :: ext(more[pk]) == None {
      assert Indexed(ext, more) == Indexed(ext, fewer);
    } else {
      var pk :| pk in more && pk !in fewer && ext(more[pk]).Some?;
      assert Filed(x, ext(more[pk]).value, pk);
    }
  }

  /** When every call has returned, the primary tree holds exactly the winners' records besides the
      initial ones, and an index is in agreement with it if and only if no failed call has left a
      key in it. */
  lemma RaceOutcome(u: Setup, s: State)
    requires Inv(u, s) && Finished(s)
    ensures s.records == With(u, Winners(s))
    ensures forall n | 0 <= n < |u.indexes| ::
      Agrees(s.indexes[n], u.exts[n], s.records) <==> forall c | 0 <= c < |s.pcs| :: !Leaked(u, s, c, n)
  {
    hide Agrees, With, Permutes;
    assert Holders(s) == Winners(s);
    forall n | 0 <= n < |u.indexes|
      ensures Agrees(s.indexes[n], u.exts[n], s.records) <==> forall c | 0 <= c < |s.pcs| :: !Leaked(u, s, c, n)
    {
      OutcomeAt(u, s, n);
    }
  }

  lemma OutcomeAt(u: Setup, s: State, n: nat)
    requires Inv(u, s) && Finished(s) && n < |u.indexes| && s.records == With(u, Winners(s))
    ensures Agrees(s.indexes[n], u.exts[n], s.records) <==> forall c | 0 <= c < |s.pcs| :: !Leaked(u, s, c, n)
  {
    hide Agrees, With, Permutes, Wrote;
    var more, fewer := With(u, Writers(u, s, n)), s.records;
    WinnersWrote(u, s, n);
    WithMore(u, Winners(s), Writers(u, s, n));
    ExtraRecords(s.indexes[n], u.exts[n], more, fewer);
    forall c: nat | c < |s.pcs|
      ensures u.callers[c].pk in more <==> Wrote(u, s, c, n)
      ensures u.callers[c].pk in fewer <==> c in Winners(s)
      ensures u.callers[c].pk in more ==> u.exts[n](more[u.callers[c].pk]) == KeyOf(u, c, n)
    {
      WithMember(u, Writers(u, s, n), c);
      WithMember(u, Winners(s), c);
    }
    if pk :| pk in more && pk !in fewer && u.exts[n](more[pk]).Some? {
      var c :| c in Writers(u, s, n) && u.callers[c].pk == pk;
      assert Leaked(u, s, c, n);
    }
    if c :| 0 <= c < |s.pcs| && Leaked(u, s, c, n) {
      assert u.callers[c].pk in more && u.callers[c].pk !in fewer;
    }
  }

  lemma WithMore(u: Setup, a: set<nat>, b: set<nat>)
    requires Proper(u) && a <= b
    ensures With(u, a).Keys <= With(u, b).Keys && forall pk | pk in With(u, a) :: With(u, a)[pk] == With(u, b)[pk]
    ensures forall pk | pk in With(u, b) && pk !in With(u, a) :: exists c | c in b && c < |u.callers| :: u.callers[c].pk == pk
  {
    hide Agrees, Permutes, Of;
  }

  /** In any reachable state, of the calls with the same key in a unique index at most one has
      written it; so at most one of them can win. */
  lemma OneWriter(u: Setup, s: State, n: nat, c: nat, d: nat)
    requires Inv(u, s) && n < |u.indexes| && u.indexes[n].unique
    requires c in Writers(u, s, n) && d in Writers(u, s, n)
    requires KeyOf(u, c, n).Some? && KeyOf(u, c, n) == KeyOf(u, d, n)
    ensures c == d
  {
    hide Agrees, With, Permutes, Wrote;
    var r := With(u, Writers(u, s, n));
    WithMember(u, Writers(u, s, n), c);
    WithMember(u, Writers(u, s, n), d);
    OnePerKey(s.indexes[n], u.exts[n], r, u.callers[c].pk, u.callers[d].pk);
  }

  /** How many accesses a call has left, at most. */
  function Remaining(u: Setup, pc: Pc): nat {
    var n := |u.indexes|;
    match pc
    case Checking(i) => if i <= n then n - i + n + 4 else n + 4
    case Writing => n + 3
    case Indexing(i) => if i <= n then n - i + 2 else 2
    case RollingBack(_) => 1
    case _ => 0
  }

  /** No call is ever stuck: until it returns, its next access brings it closer to returning and no
      other call is held up. */
  lemma StepProgresses(u: Setup, s: State, c: nat)
    requires Inv(u, s) && c < |s.pcs|
    ensures Returned(s.pcs[c]) <==> Remaining(u, s.pcs[c]) == 0
    ensures !Returned(s.pcs[c]) ==> Remaining(u, Step(u, s, c).pcs[c]) < Remaining(u, s.pcs[c])
    ensures forall d | 0 <= d < |s.pcs| && d != c :: Step(u, s, c).pcs[d] == s.pcs[d]
  {
    hide Agrees, Add, Clash, With;
    StepShaped(u, s, c);
    assert |u.callers[c].order| == |u.indexes|;
  }

  // ---------------------------------------------------------- one unique index

  /** No call reaches a unique index after another index. */
  ghost predicate UniqueFirst(u: Setup)
    requires Proper(u)
  {
    forall c, i | 0 <= c < |u.callers| && 0 < i < |u.callers[c].order| :: !u.indexes[u.callers[c].order[i]].unique
  }

  lemma OneIndexFirst(u: Setup)
    requires Proper(u) && |u.indexes| <= 1
    ensures UniqueFirst(u)
  {
    hide Agrees;
  }

  lemma NoLeak(u: Setup, s: State, c: nat, n: nat)
    requires Inv(u, s) && Finished(s) && UniqueFirst(u) && c < |s.pcs| && n < |u.indexes|
    ensures !Leaked(u, s, c, n)
  {
    hide Agrees, With;
    if s.pcs[c].Undone? {
      var i := s.pcs[c].i;
      assert Justified(u, s, c);
      assert Grown(u.indexes[u.callers[c].order[i]], s.indexes[u.callers[c].order[i]]);
    }
  }

  /** With one index, or any number of which the unique one is always visited first, every schedule
      that lets all calls return leaves every index in agreement with the records. */
  lemma RaceAgrees(u: Setup, schedule: seq<nat>)
    requires Proper(u) && UniqueFirst(u) && forall k | 0 <= k < |schedule| :: schedule[k] < |u.callers|
    requires Finished(Run(u, schedule))
    ensures var s := Run(u, schedule);
      forall n | 0 <= n < |u.indexes| :: Agrees(s.indexes[n], u.exts[n], s.records)
  {
    hide Agrees, With, Permutes, Wrote;
    var s := Run(u, schedule);
    RaceOutcome(u, s);
    forall c: nat, n: nat | c < |s.pcs| && n < |u.indexes| ensures !Leaked(u, s, c, n) { NoLeak(u, s, c, n); }
  }

  ghost predicate Contends(u: Setup, c: nat, n: nat, ik: Key)
    requires c < |u.callers| && n < |u.exts|
  {
    KeyOf(u, c, n) == Some(ik)
  }

  /** The only unique index is `n`. */
  ghost predicate OnlyUnique(u: Setup, n: nat) {
    n < |u.indexes| && forall m | 0 <= m < |u.indexes| :: u.indexes[m].unique <==> m == n
  }

  /** A failed call has a rival record under its key. */
  lemma FailedHasRival(u: Setup, s: State, n: nat, c: nat)
    requires Inv(u, s) && Finished(s) && OnlyUnique(u, n) && c < |s.pcs| && !s.pcs[c].Stored?
    ensures KeyOf(u, c, n).Some? && KeyOf(u, c, n).value in s.indexes[n].lists
  {
    hide Agrees, With, Grown;
    assert Returned(s.pcs[c]) && Justified(u, s, c);
    if s.pcs[c].Undone? { assert BlockedAt(u, s, c, u.callers[c].order[s.pcs[c].i]); }
    var m: nat :| BlockedAt(u, s, c, m);
    BlockedByUnique(u, s, n, c, m);
  }

  lemma BlockedByUnique(u: Setup, s: State, n: nat, c: nat, m: nat)
    requires Inv(u, s) && OnlyUnique(u, n) && c < |s.pcs| && BlockedAt(u, s, c, m)
    ensures m == n
  {
    hide Agrees, With;
    assert Grown(u.indexes[m], s.indexes[m]);
  }

  /** The index key of a stored record is that of an initial record or of a winner. */
  lemma RecordOwner(u: Setup, s: State, n: nat, pk: Key)
    requires Inv(u, s) && n < |u.indexes| && s.records == With(u, Winners(s)) && pk in s.records
    ensures (pk in u.records && s.records[pk] == u.records[pk])
      || exists c: nat | c in Winners(s) && c < |u.callers| :: u.callers[c].pk == pk && u.exts[n](s.records[pk]) == KeyOf(u, c, n)
  {
    hide Agrees, Permutes, Of;
    if pk in u.records {
      InitialOf(u, pk);
    } else {
      var c :| c in Winners(s) && c < |u.callers| && u.callers[c].pk == pk;
      OfCaller(u, c);
    }
  }

  lemma InitialOf(u: Setup, pk: Key)
    requires pk in u.records
    ensures Of(u, pk) == u.records[pk] && forall who :: pk in With(u, who) && With(u, who)[pk] == u.records[pk]
  {
  }

  /** Of the calls that contend for an index key that is free, exactly one succeeds; for one that is
      taken, none does; a call with no key in the unique index always succeeds. */
  lemma RaceForKey(u: Setup, schedule: seq<nat>, n: nat, ik: Key, c: nat)
    requires Proper(u) && UniqueFirst(u) && OnlyUnique(u, n) && forall k | 0 <= k < |schedule| :: schedule[k] < |u.callers|
    requires Finished(Run(u, schedule)) && c < |u.callers|
    ensures var s := Run(u, schedule);
      && (Contends(u, c, n, ik) && ik !in u.indexes[n].lists ==>
        exists w | w in Winners(s) && w < |u.callers| && Contends(u, w, n, ik) ::
          forall d | d in Winners(s) && d < |u.callers| && Contends(u, d, n, ik) :: d == w)
      && (Contends(u, c, n, ik) && ik in u.indexes[n].lists ==> c !in Winners(s))
      && (KeyOf(u, c, n) == None ==> c in Winners(s))
  {
    hide Agrees, With, Permutes, Grown;
    var s := Run(u, schedule);
    RaceOutcome(u, s);
    RaceAgrees(u, schedule);
    WinnersWrote(u, s, n);
    if c !in Winners(s) { FailedHasRival(u, s, n, c); }
    if Contends(u, c, n, ik) {
      Present(u.indexes[n], u.exts[n], u.records, ik);
      if ik in u.indexes[n].lists {
        if c in Winners(s) {
          var p :| p in u.records && u.exts[n](u.records[p]) == Some(ik);
          TakenStays(u, s, n, p, c);
        }
      } else {
        var w := FreeIsWon(u, s, n, ik, c);
        forall d | d in Winners(s) && d < |u.callers| && Contends(u, d, n, ik) ensures d == w { OneWriter(u, s, n, d, w); }
      }
    }
  }

  lemma TakenStays(u: Setup, s: State, n: nat, p: Key, c: nat)
    requires Inv(u, s) && n < |u.indexes| && u.indexes[n].unique && c in Writers(u, s, n)
    requires p in u.records && KeyOf(u, c, n).Some?
    ensures u.exts[n](u.records[p]) != KeyOf(u, c, n)
  {
    hide Agrees, With, Permutes, Wrote;
    WithMember(u, Writers(u, s, n), c);
    InitialOf(u, p);
    if u.exts[n](u.records[p]) == KeyOf(u, c, n) {
      OnePerKey(s.indexes[n], u.exts[n], With(u, Writers(u, s, n)), p, u.callers[c].pk);
    }
  }

  lemma FreeIsWon(u: Setup, s: State, n: nat, ik: Key, c: nat) returns (w: nat)
    requires Inv(u, s) && Finished(s) && OnlyUnique(u, n) && c < |s.pcs| && KeyOf(u, c, n) == Some(ik)
    requires Agrees(s.indexes[n], u.exts[n], s.records) && s.records == With(u, Winners(s))
    requires !exists p | p in u.records :: u.exts[n](u.records[p]) == Some(ik)
    ensures w in Winners(s) && w < |u.callers| && Contends(u, w, n, ik)
  {
    hide Agrees, With, Permutes, Grown;
    if c in Winners(s) { return c; }
    FailedHasRival(u, s, n, c);
    Present(s.indexes[n], u.exts[n], s.records, ik);
    var pk :| pk in s.records && u.exts[n](s.records[pk]) == Some(ik);
    RecordOwner(u, s, n, pk);
    w :| w in Winners(s) && w < |u.callers| && u.exts[n](s.records[pk]) == KeyOf(u, w, n);
  }

  lemma RunStep(u: Setup, schedule: seq<nat>, c: nat)
    requires Proper(u) && c < |u.callers| && forall k | 0 <= k < |schedule| :: schedule[k] < |u.callers|
    ensures Run(u, schedule + [c]) == Step(u, Run(u, schedule), c)
  {
    hide Agrees, Step;
    assert (schedule + [c])[..|schedule|] == schedule;
  }
}
