/** When concurrent `Insert` calls can leave an index out of agreement: a condition on the calls and
    the tree they start from. */
module IndexExposure {
  import opened Bytes
  import opened IndexSpec
  import opened IndexRace

  /** No unique index has a key of the caller at the start. */
  ghost predicate Free(u: Setup, c: nat)
    requires |u.exts| == |u.indexes| && c < |u.callers|
  {
    forall n | 0 <= n < |u.indexes| :: !Clash(u.indexes[n], KeyOf(u, c, n))
  }

  /** Two callers have the same key in unique index `n`. */
  ghost predicate Rivals(u: Setup, c: nat, d: nat, n: nat)
    requires |u.exts| == |u.indexes| && c < |u.callers| && d < |u.callers|
  {
    c != d && n < |u.indexes| && u.indexes[n].unique && KeyOf(u, c, n).Some? && KeyOf(u, c, n) == KeyOf(u, d, n)
  }

  /** Caller `c` comes to an index where `d` is a rival at step `j` of its order, after an index in
      which it has a key; and `d` comes to that index before every other one where they are rivals
      that `c` comes to earlier. */
  ghost predicate Exposed(u: Setup, c: nat, d: nat, j: nat)
    requires Proper(u)
  {
    && c < |u.callers| && d < |u.callers| && j < |u.indexes|
    && Free(u, c) && Free(u, d)
    && Rivals(u, c, d, u.callers[c].order[j])
    && (exists i | 0 <= i < j :: KeyOf(u, c, u.callers[c].order[i]).Some?)
    && forall i, k | 0 <= i < j && 0 <= k < |u.indexes| && Rivals(u, c, d, u.callers[c].order[i]) && u.callers[d].order[k] == u.callers[c].order[i] ::
      exists l | 0 <= l < k :: u.callers[d].order[l] == u.callers[c].order[j]
  }

  ghost predicate Schedule(u: Setup, schedule: seq<nat>) {
    forall k | 0 <= k < |schedule| :: schedule[k] < |u.callers|
  }

  /** A schedule that lets every call return and leaves an index out of agreement. */
  ghost predicate Astray(u: Setup, schedule: seq<nat>)
    requires Proper(u)
  {
    && Schedule(u, schedule) && Finished(Run(u, schedule))
    && exists n | 0 <= n < |u.indexes| :: Strays(u, Run(u, schedule), n)
  }

  ghost predicate Strays(u: Setup, s: State, n: nat) {
    n < |s.indexes| && n < |u.exts| && !Agrees(s.indexes[n], u.exts[n], s.records)
  }

  // ------------------------------------------------------------- passed checks

  /** How many indexes the call has checked. */
  function Checked(u: Setup, pc: Pc): nat {
    match pc
    case Checking(i) => i
    case Refused => 0
    case _ => |u.indexes|
  }

  ghost predicate Passed(u: Setup, s: State, c: nat)
    requires Shaped(u, s) && c < |s.pcs|
  {
    && Checked(u, s.pcs[c]) <= |u.indexes|
    && forall i | 0 <= i < Checked(u, s.pcs[c]) :: !Clash(u.indexes[u.callers[c].order[i]], KeyOf(u, c, u.callers[c].order[i]))
  }

  lemma StepPassed(u: Setup, s: State, c: nat, d: nat)
    requires Inv(u, s) && c < |s.pcs| && d < |s.pcs| && Passed(u, s, d)
    ensures Shaped(u, Step(u, s, c)) && Passed(u, Step(u, s, c), d)
  {
    hide Agrees, With, Add, Wrote;
    StepShaped(u, s, c);
    if d == c && s.pcs[c].Checking? && s.pcs[c].i < |u.indexes| {
      var n := u.callers[c].order[s.pcs[c].i];
      assert Grown(u.indexes[n], s.indexes[n]);
    }
  }

  /** Whoever has passed a check has no key of that index at the start. */
  lemma {:induction false} RunPassed(u: Setup, schedule: seq<nat>, c: nat)
    requires Proper(u) && Schedule(u, schedule) && c < |u.callers|
    ensures Passed(u, Run(u, schedule), c)
  {
    hide Agrees, Inv, Step, Passed, Permutes;
    if schedule == [] {
      StartPassed(u, c);
    } else {
      var p, last := schedule[..|schedule| - 1], schedule[|schedule| - 1];
      RunPassed(u, p, c);
      RunShaped(u, p);
      StepPassed(u, Run(u, p), last, c);
    }
  }

  lemma StartPassed(u: Setup, c: nat)
    requires Proper(u) && c < |u.callers|
    ensures Shaped(u, Start(u)) && Passed(u, Start(u), c)
  {
    hide Agrees;
  }

  lemma RunShaped(u: Setup, schedule: seq<nat>)
    requires Proper(u) && Schedule(u, schedule)
    ensures Inv(u, Run(u, schedule)) && Shaped(u, Run(u, schedule))
  {
    hide Agrees, With, Step, Permutes;
  }

  lemma PassedFree(u: Setup, s: State, c: nat)
    requires Shaped(u, s) && c < |s.pcs| && Passed(u, s, c) && Checked(u, s.pcs[c]) == |u.indexes|
    ensures Free(u, c)
  {
    hide Agrees, Clash;
    forall n | 0 <= n < |u.indexes| ensures !Clash(u.indexes[n], KeyOf(u, c, n)) {
      assert n in u.callers[c].order;
      var i :| 0 <= i < |u.callers[c].order| && u.callers[c].order[i] == n;
    }
  }

  // ------------------------------------------------- a key that is in an index has an owner

  /** Who put a key into a unique index: it was there at the start, or a caller wrote it. */
  lemma KeyOwner(u: Setup, s: State, n: nat, ik: Key) returns (w: Option<nat>)
    requires Inv(u, s) && n < |u.indexes| && ik in s.indexes[n].lists
    ensures w == None ==> ik in u.indexes[n].lists
    ensures w.Some? ==> w.value in Writers(u, s, n) && w.value < |u.callers| && KeyOf(u, w.value, n) == Some(ik)
  {
    hide Agrees, Permutes, Of, Wrote;
    var r := With(u, Writers(u, s, n));
    Present(s.indexes[n], u.exts[n], r, ik);
    var pk :| pk in r && u.exts[n](r[pk]) == Some(ik);
    if pk in u.records {
      InitialOf(u, pk);
      Present(u.indexes[n], u.exts[n], u.records, ik);
      return None;
    }
    var c :| c in Writers(u, s, n) && c < |u.callers| && u.callers[c].pk == pk;
    OfCaller(u, c);
    return Some(c);
  }

  /** A written key is in the index. */
  lemma WrittenKey(u: Setup, s: State, n: nat, d: nat)
    requires Inv(u, s) && n < |u.indexes| && d in Writers(u, s, n) && d < |u.callers| && KeyOf(u, d, n).Some?
    ensures KeyOf(u, d, n).value in s.indexes[n].lists
  {
    hide Agrees, Permutes, With, Wrote;
    WithMember(u, Writers(u, s, n), d);
    Present(s.indexes[n], u.exts[n], With(u, Writers(u, s, n)), KeyOf(u, d, n).value);
  }

  /** A caller is refused by an index exactly when a rival has written it. */
  lemma ClashesWithRival(u: Setup, s: State, c: nat, n: nat)
    requires Inv(u, s) && c < |s.pcs| && n < |u.indexes| && Free(u, c) && !Wrote(u, s, c, n)
    ensures Clash(s.indexes[n], KeyOf(u, c, n)) <==> exists d | 0 <= d < |s.pcs| && Rivals(u, c, d, n) :: Wrote(u, s, d, n)
  {
    hide Agrees, Permutes, With, Wrote, Of;
    assert Grown(u.indexes[n], s.indexes[n]);
    if Clash(s.indexes[n], KeyOf(u, c, n)) {
      var w := KeyOwner(u, s, n, KeyOf(u, c, n).value);
      assert w.Some? by { assert !Clash(u.indexes[n], KeyOf(u, c, n)); }
      assert Rivals(u, c, w.value, n) && Wrote(u, s, w.value, n);
    }
    if d :| 0 <= d < |s.pcs| && Rivals(u, c, d, n) && Wrote(u, s, d, n) { WrittenKey(u, s, n, d); }
  }

  // ------------------------------------------------------ astray only when exposed

  /** A caller that gave up at step `j` of its order. */
  lemma GaveUp(u: Setup, s: State, c: nat, n: nat) returns (d: nat, j: nat)
    requires Inv(u, s) && c < |s.pcs| && n < |u.indexes| && Leaked(u, s, c, n)
    requires forall e | 0 <= e < |s.pcs| :: Passed(u, s, e)
    ensures Exposed(u, c, d, j)
  {
    hide Agrees, With, Clash, Passed;
    j := s.pcs[c].i;
    var order := u.callers[c].order;
    assert Justified(u, s, c);
    var m := order[j];
    PassedFree(u, s, c);
    assert !Wrote(u, s, c, m);
    ClashesWithRival(u, s, c, m);
    d :| 0 <= d < |s.pcs| && Rivals(u, c, d, m) && Wrote(u, s, d, m);
    PassedFree(u, s, d);
    forall i, k | 0 <= i < j && 0 <= k < |u.indexes| && Rivals(u, c, d, order[i]) && u.callers[d].order[k] == order[i]
      ensures exists l | 0 <= l < k :: u.callers[d].order[l] == m
    {
      var l :| 0 <= l < Progress(u, s.pcs[d]) && u.callers[d].order[l] == m;
      if k <= l {
        assert Wrote(u, s, c, order[i]) && Wrote(u, s, d, order[i]);
        OneWriter(u, s, order[i], c, d);
        assert false;
      }
    }
    LeakedBefore(u, s, c, n);
  }

  lemma LeakedBefore(u: Setup, s: State, c: nat, n: nat)
    requires Shaped(u, s) && c < |s.pcs| && n < |u.indexes| && Leaked(u, s, c, n)
    ensures exists i | 0 <= i < s.pcs[c].i :: KeyOf(u, c, u.callers[c].order[i]).Some?
  {
    hide Agrees;
  }

  lemma AstrayExposed(u: Setup, schedule: seq<nat>) returns (c: nat, d: nat, j: nat)
    requires Proper(u) && Astray(u, schedule)
    ensures Exposed(u, c, d, j)
  {
    hide Agrees, With, Exposed, Leaked, Passed, Inv, Shaped, Proper;
    var s := Run(u, schedule);
    RunShaped(u, schedule);
    assert |s.pcs| == |u.callers| && |s.indexes| == |u.indexes| by { ShapedSizes(u, s); }
    var n :| 0 <= n < |u.indexes| && Strays(u, s, n);
    RaceOutcome(u, s);
    c :| 0 <= c < |s.pcs| && Leaked(u, s, c, n);
    forall e | 0 <= e < |s.pcs| ensures Passed(u, s, e) { RunPassed(u, schedule, e); }
    d, j := GaveUp(u, s, c, n);
  }

  lemma ShapedSizes(u: Setup, s: State)
    requires Shaped(u, s)
    ensures |s.pcs| == |u.callers| && |s.indexes| == |u.indexes| == |u.exts|
  {
    hide Agrees, Permutes;
  }

  // ------------------------------------------------------- exposed calls can go astray

  /** A schedule that leads to state `s`. */
  ghost predicate Leads(u: Setup, schedule: seq<nat>, s: State) {
    Proper(u) && Schedule(u, schedule) && Run(u, schedule) == s
  }

  lemma Onward(u: Setup, schedule: seq<nat>, s: State, c: nat)
    requires Leads(u, schedule, s) && c < |u.callers|
    ensures Inv(u, s) && Shaped(u, s) && |s.pcs| == |u.callers| && |s.indexes| == |u.indexes|
    ensures Leads(u, schedule + [c], Step(u, s, c))
  {
    hide Agrees, With, Step, Proper, Run;
    RunShaped(u, schedule);
    ShapedSizes(u, s);
    RunStep(u, schedule, c);
  }

  /** A caller with no key taken passes all checks of the initial indexes. */
  lemma CheckAll(u: Setup, schedule: seq<nat>, s: State, c: nat) returns (longer: seq<nat>)
    requires Leads(u, schedule, s) && c < |u.callers| && Free(u, c) && |s.pcs| == |u.callers|
    requires s.indexes == u.indexes && s.pcs[c] == Checking(0)
    ensures Leads(u, longer, s.(pcs := s.pcs[c := Writing]))
  {
    hide Agrees, With, Inv, Shaped, Proper, Step, Leads;
    longer := schedule;
    assert s.pcs[c := Checking(0)] == s.pcs;
    var t := s;
    for i := 0 to |u.indexes|
      invariant t == s.(pcs := s.pcs[c := Checking(i)]) && Leads(u, longer, t)
    {
      Onward(u, longer, t, c);
      CheckOne(u, t, c);
      longer, t := longer + [c], Step(u, t, c);
    }
    Onward(u, longer, t, c);
    CheckOne(u, t, c);
    longer := longer + [c];
    assert t.pcs[c := Writing] == s.pcs[c := Writing];
  }

  lemma CheckOne(u: Setup, s: State, c: nat)
    requires Shaped(u, s) && c < |s.pcs| && s.indexes == u.indexes && Free(u, c)
    requires s.pcs[c].Checking? && s.pcs[c].i <= |u.indexes|
    ensures Step(u, s, c) == s.(pcs := s.pcs[c := if s.pcs[c].i < |u.indexes| then Checking(s.pcs[c].i + 1) else Writing])
  {
    hide Agrees, Clash;
  }

  lemma WriteRecord(u: Setup, schedule: seq<nat>, s: State, c: nat) returns (longer: seq<nat>, t: State)
    requires Leads(u, schedule, s) && c < |u.callers| && |s.pcs| == |u.callers| && s.pcs[c] == Writing
    ensures Leads(u, longer, t) && t.indexes == s.indexes && t.pcs == s.pcs[c := Indexing(0)]
  {
    hide Agrees, With, Inv, Proper, Run;
    Onward(u, schedule, s, c);
    longer, t := schedule + [c], Step(u, s, c);
  }

  /** No rival of `c` has written index `n`. */
  ghost predicate Clear(u: Setup, s: State, c: nat, n: nat)
    requires Shaped(u, s) && c < |s.pcs|
  {
    forall d | 0 <= d < |s.pcs| && Rivals(u, c, d, n) :: !Wrote(u, s, d, n)
  }

  /** A caller writes the first `k` indexes of its order when no rival has written them. */
  lemma IndexUpTo(u: Setup, schedule: seq<nat>, s: State, c: nat, k: nat) returns (longer: seq<nat>, t: State)
    requires Leads(u, schedule, s) && Shaped(u, s) && c < |s.pcs| && Free(u, c) && s.pcs[c] == Indexing(0) && k <= |u.indexes|
    requires forall i | 0 <= i < k :: Clear(u, s, c, u.callers[c].order[i])
    ensures Leads(u, longer, t) && t.pcs == s.pcs[c := Indexing(k)]
  {
    hide Agrees, With, Inv, Step, Leads, Clear, Free, Permutes;
    longer, t := schedule, s;
    assert s.pcs[c := Indexing(0)] == s.pcs;
    for i := 0 to k
      invariant Leads(u, longer, t) && t.pcs == s.pcs[c := Indexing(i)]
    {
      Onward(u, longer, t, c);
      StillClear(u, s, t, c, i);
      IndexOne(u, t, c);
      longer, t := longer + [c], Step(u, t, c);
    }
  }

  lemma StillClear(u: Setup, s: State, t: State, c: nat, i: nat)
    requires Shaped(u, s) && Shaped(u, t) && c < |s.pcs| && i < |u.indexes| && Clear(u, s, c, u.callers[c].order[i])
    requires t.pcs == s.pcs[c := Indexing(i)]
    ensures Clear(u, t, c, u.callers[c].order[i]) && !Wrote(u, t, c, u.callers[c].order[i])
  {
    hide Agrees;
    var n := u.callers[c].order[i];
    forall d | 0 <= d < |t.pcs| && Rivals(u, c, d, n) ensures !Wrote(u, t, d, n) { assert !Wrote(u, s, d, n); }
  }

  lemma IndexOne(u: Setup, s: State, c: nat)
    requires Inv(u, s) && c < |s.pcs| && s.pcs[c].Indexing? && s.pcs[c].i < |u.indexes| && Free(u, c)
    requires Clear(u, s, c, u.callers[c].order[s.pcs[c].i]) && !Wrote(u, s, c, u.callers[c].order[s.pcs[c].i])
    ensures Step(u, s, c).pcs == s.pcs[c := Indexing(s.pcs[c].i + 1)]
  {
    hide Agrees, With, Free, Wrote, Rivals, Clash, Add;
    var n := u.callers[c].order[s.pcs[c].i];
    ClashesWithRival(u, s, c, n);
    AddGrows(s.indexes[n], u.callers[c].pk, KeyOf(u, c, n));
  }

  /** A caller whose next index a rival has written gives up. */
  lemma GiveUp(u: Setup, schedule: seq<nat>, s: State, c: nat, d: nat, j: nat) returns (longer: seq<nat>, t: State)
    requires Leads(u, schedule, s) && Inv(u, s) && c < |s.pcs| && d < |s.pcs| && j < |u.indexes| && s.pcs[c] == Indexing(j) && Free(u, c)
    requires Rivals(u, c, d, u.callers[c].order[j]) && Wrote(u, s, d, u.callers[c].order[j])
    ensures Leads(u, longer, t) && t.pcs == s.pcs[c := Undone(j)]
  {
    hide Agrees, With, Free, Clash, Add, Leads, Run;
    var n := u.callers[c].order[j];
    assert !Wrote(u, s, c, n);
    ClashesWithRival(u, s, c, n);
    AddGrows(s.indexes[n], u.callers[c].pk, KeyOf(u, c, n));
    Onward(u, schedule, s, c);
    t := Step(u, s, c);
    assert t.pcs == s.pcs[c := RollingBack(j)];
    Onward(u, schedule + [c], t, c);
    longer, t := schedule + [c] + [c], Step(u, t, c);
  }

  /** One call runs until it returns. */
  lemma {:induction false} FinishOne(u: Setup, schedule: seq<nat>, s: State, c: nat) returns (longer: seq<nat>, t: State)
    requires Leads(u, schedule, s) && Shaped(u, s) && c < |s.pcs|
    ensures Leads(u, longer, t) && Shaped(u, t) && |t.pcs| == |s.pcs| && Returned(t.pcs[c])
    ensures forall d | 0 <= d < |s.pcs| && (d != c || Returned(s.pcs[d])) :: t.pcs[d] == s.pcs[d]
    decreases Remaining(u, s.pcs[c])
  {
    hide Agrees, With, Inv, Step, Leads, Shaped, Remaining, Proper;
    ShapedSizes(u, s);
    if Returned(s.pcs[c]) { return schedule, s; }
    Onward(u, schedule, s, c);
    StepProgresses(u, s, c);
    StepShaped(u, s, c);
    ShapedSizes(u, Step(u, s, c));
    longer, t := FinishOne(u, schedule + [c], Step(u, s, c), c);
  }

  /** Every run can go on until all calls have returned. */
  lemma Finish(u: Setup, schedule: seq<nat>, s: State) returns (longer: seq<nat>, t: State)
    requires Leads(u, schedule, s) && Shaped(u, s)
    ensures Leads(u, longer, t) && |t.pcs| == |s.pcs| && Finished(t)
    ensures forall d | 0 <= d < |s.pcs| && Returned(s.pcs[d]) :: t.pcs[d] == s.pcs[d]
  {
    hide Leads, Shaped, Returned;
    longer, t := schedule, s;
    for c := 0 to |s.pcs|
      invariant Leads(u, longer, t) && Shaped(u, t) && |t.pcs| == |s.pcs|
      invariant forall d | 0 <= d < c :: Returned(t.pcs[d])
      invariant forall d | 0 <= d < |s.pcs| && Returned(s.pcs[d]) :: t.pcs[d] == s.pcs[d]
    {
      longer, t := FinishOne(u, longer, t, c);
    }
  }

  lemma LeadsInv(u: Setup, schedule: seq<nat>, s: State)
    requires Leads(u, schedule, s)
    ensures Inv(u, s) && Shaped(u, s) && |s.pcs| == |u.callers| && |s.indexes| == |u.indexes|
  {
    hide Agrees, With, Step, Proper, Run;
    RunShaped(u, schedule);
    ShapedSizes(u, s);
  }

  lemma LeadsStart(u: Setup)
    requires Proper(u)
    ensures Leads(u, [], Start(u))
  {
    hide Agrees, Permutes, Step;
  }

  /** Two callers have checked and written their records, and nobody has done anything else. */
  ghost predicate Poised(u: Setup, s: State, c: nat, d: nat, pc: Pc) {
    && |s.pcs| == |u.callers| && c < |s.pcs| && d < |s.pcs| && c != d && s.pcs[c] == pc && s.pcs[d] == Indexing(0)
    && forall e | 0 <= e < |s.pcs| && e != c && e != d :: s.pcs[e] == Checking(0)
  }

  lemma BothWrite(u: Setup, c: nat, d: nat) returns (schedule: seq<nat>, s: State)
    requires Proper(u) && c < |u.callers| && d < |u.callers| && c != d && Free(u, c) && Free(u, d)
    ensures Leads(u, schedule, s) && Poised(u, s, c, d, Indexing(0))
  {
    hide Leads, Free, Proper;
    schedule, s := [], Start(u);
    LeadsStart(u);
    schedule := CheckAll(u, schedule, s, c);
    s := s.(pcs := s.pcs[c := Writing]);
    schedule := CheckAll(u, schedule, s, d);
    s := s.(pcs := s.pcs[d := Writing]);
    schedule, s := WriteRecord(u, schedule, s, c);
    schedule, s := WriteRecord(u, schedule, s, d);
  }

  /** Nobody is in the way of `c`. */
  lemma FirstClear(u: Setup, s: State, c: nat, d: nat, n: nat)
    requires Shaped(u, s) && Poised(u, s, c, d, Indexing(0))
    ensures Clear(u, s, c, n)
  {
    hide Agrees;
  }

  /** The position in the order of `d` of the index where `c` will be refused. */
  lemma Meeting(u: Setup, c: nat, d: nat, j: nat) returns (p: nat)
    requires Proper(u) && c < |u.callers| && d < |u.callers| && j < |u.indexes|
    ensures p < |u.indexes| && u.callers[d].order[p] == u.callers[c].order[j]
  {
    hide Agrees;
    var m := u.callers[c].order[j];
    assert m in u.callers[d].order;
    p :| 0 <= p < |u.callers[d].order| && u.callers[d].order[p] == m;
  }

  /** What `c` has written is not in the way of `d`. */
  lemma SecondClear(u: Setup, s: State, c: nat, d: nat, j: nat, p: nat, k: nat)
    requires Shaped(u, s) && Exposed(u, c, d, j) && Poised(u, s, c, d, Indexing(j))
    requires k <= p < |u.indexes| && u.callers[d].order[p] == u.callers[c].order[j]
    ensures Clear(u, s, d, u.callers[d].order[k])
  {
    hide Agrees, Free;
    var n := u.callers[d].order[k];
    forall e | 0 <= e < |s.pcs| && Rivals(u, d, e, n) ensures !Wrote(u, s, e, n) {
      if e == c && Wrote(u, s, c, n) {
        assert false;
      }
    }
  }

  /** Both callers check, both write their record; `c` writes the indexes before the one it will be
      refused by, `d` writes up to that one, and `c` gives up. */
  lemma Collide(u: Setup, c: nat, d: nat, j: nat) returns (schedule: seq<nat>, s: State)
    requires Proper(u) && Exposed(u, c, d, j)
    ensures Leads(u, schedule, s) && Shaped(u, s) && c < |s.pcs| && s.pcs[c] == Undone(j)
  {
    hide Agrees, With, Inv, Leads, Free, Clear, Shaped, Proper;
    OrderBounds(u, c);
    OrderBounds(u, d);
    var p := Meeting(u, c, d, j);
    schedule, s := BothWrite(u, c, d);
    LeadsInv(u, schedule, s);
    forall i | 0 <= i < j ensures Clear(u, s, c, u.callers[c].order[i]) { FirstClear(u, s, c, d, u.callers[c].order[i]); }
    schedule, s := IndexUpTo(u, schedule, s, c, j);
    LeadsInv(u, schedule, s);
    forall k | 0 <= k < p + 1 ensures Clear(u, s, d, u.callers[d].order[k]) { SecondClear(u, s, c, d, j, p, k); }
    schedule, s := IndexUpTo(u, schedule, s, d, p + 1);
    LeadsInv(u, schedule, s);
    assert Wrote(u, s, d, u.callers[d].order[p]);
    schedule, s := GiveUp(u, schedule, s, c, d, j);
    LeadsInv(u, schedule, s);
  }

  lemma ExposedAstray(u: Setup, c: nat, d: nat, j: nat) returns (schedule: seq<nat>)
    requires Proper(u) && Exposed(u, c, d, j)
    ensures Astray(u, schedule)
  {
    hide Agrees, With, Inv, Free, Shaped, Proper, Run, Rivals;
    var s;
    schedule, s := Collide(u, c, d, j);
    schedule, s := Finish(u, schedule, s);
    LeadsInv(u, schedule, s);
    OrderBounds(u, c);
    var i :| 0 <= i < j && KeyOf(u, c, u.callers[c].order[i]).Some?;
    var n := u.callers[c].order[i];
    assert Wrote(u, s, c, n) && Leaked(u, s, c, n);
    RaceOutcome(u, s);
    assert Strays(u, s, n);
  }

  lemma OrderBounds(u: Setup, c: nat)
    requires Proper(u) && c < |u.callers|
    ensures |u.callers[c].order| == |u.indexes| == |u.exts|
    ensures forall i | 0 <= i < |u.indexes| :: u.callers[c].order[i] < |u.indexes|
  {
    hide Agrees;
  }

  /** Concurrent inserts can leave an index out of agreement with the records if and only if some call
      is exposed to another. */
  lemma RaceExactly(u: Setup)
    requires Proper(u)
    ensures (exists schedule :: Astray(u, schedule)) <==> exists c, d, j :: Exposed(u, c, d, j)
  {
    hide Astray, Exposed, Proper;
    if schedule :| Astray(u, schedule) {
      var c, d, j := AstrayExposed(u, schedule);
    }
    if c: nat, d: nat, j: nat :| Exposed(u, c, d, j) {
      var schedule := ExposedAstray(u, c, d, j);
    }
  }

  /** Calls that visit unique indexes first, and calls no two of which are rivals, are never exposed. */
  lemma NotExposed(u: Setup, c: nat, d: nat, j: nat)
    requires Proper(u)
    requires UniqueFirst(u) || forall n | 0 <= n < |u.indexes| && c < |u.callers| && d < |u.callers| :: !Rivals(u, c, d, n)
    ensures !Exposed(u, c, d, j)
  {
    hide Agrees, Free;
  }

  // ---------------------------------------------------------- both contenders can fail

  /** Each of two callers comes to an index that the other has passed, and neither is stopped before. */
  ghost predicate Crossing(u: Setup, c: nat, d: nat, j: nat, k: nat)
    requires Proper(u)
  {
    && c < |u.callers| && d < |u.callers| && j < |u.indexes| && k < |u.indexes|
    && Free(u, c) && Free(u, d)
    && Rivals(u, c, d, u.callers[c].order[j]) && Rivals(u, c, d, u.callers[d].order[k])
    && (exists i | 0 <= i < k :: u.callers[d].order[i] == u.callers[c].order[j])
    && (exists i | 0 <= i < j :: u.callers[c].order[i] == u.callers[d].order[k])
    && forall i, l | 0 <= i < j && 0 <= l < k && u.callers[c].order[i] == u.callers[d].order[l] :: !Rivals(u, c, d, u.callers[c].order[i])
  }

  lemma CrossingClear(u: Setup, s: State, c: nat, d: nat, j: nat, k: nat, l: nat)
    requires Shaped(u, s) && Crossing(u, c, d, j, k) && Poised(u, s, c, d, Indexing(j)) && l < k
    ensures Clear(u, s, d, u.callers[d].order[l])
  {
    hide Agrees, Free;
    var n := u.callers[d].order[l];
    forall e | 0 <= e < |s.pcs| && Rivals(u, d, e, n) ensures !Wrote(u, s, e, n) {
      if e == c && Wrote(u, s, c, n) {
        assert false;
      }
    }
  }

  /** The two get to where each is refused by what the other has written. */
  lemma Cross(u: Setup, c: nat, d: nat, j: nat, k: nat) returns (schedule: seq<nat>, s: State)
    requires Proper(u) && Crossing(u, c, d, j, k)
    ensures Leads(u, schedule, s) && Shaped(u, s) && |s.pcs| == |u.callers| && s.pcs[c] == Undone(j) && s.pcs[d] == Undone(k)
  {
    hide Agrees, With, Inv, Leads, Free, Clear, Shaped, Proper;
    OrderBounds(u, c);
    OrderBounds(u, d);
    schedule, s := BothWrite(u, c, d);
    LeadsInv(u, schedule, s);
    forall i | 0 <= i < j ensures Clear(u, s, c, u.callers[c].order[i]) { FirstClear(u, s, c, d, u.callers[c].order[i]); }
    schedule, s := IndexUpTo(u, schedule, s, c, j);
    LeadsInv(u, schedule, s);
    forall l | 0 <= l < k ensures Clear(u, s, d, u.callers[d].order[l]) { CrossingClear(u, s, c, d, j, k, l); }
    schedule, s := IndexUpTo(u, schedule, s, d, k);
    LeadsInv(u, schedule, s);
    assert Wrote(u, s, d, u.callers[c].order[j]);
    schedule, s := GiveUp(u, schedule, s, c, d, j);
    LeadsInv(u, schedule, s);
    assert Wrote(u, s, c, u.callers[d].order[k]);
    schedule, s := GiveUp(u, schedule, s, d, c, k);
    LeadsInv(u, schedule, s);
  }

  /** Both callers fail, and each leaves its key in the index where it stopped the other: the keys they
      contended for stay taken though neither record is stored. */
  lemma CrossingLosesBoth(u: Setup, c: nat, d: nat, j: nat, k: nat) returns (schedule: seq<nat>)
    requires Proper(u) && Crossing(u, c, d, j, k)
    ensures Schedule(u, schedule) && Finished(Run(u, schedule))
    ensures c !in Winners(Run(u, schedule)) && d !in Winners(Run(u, schedule))
    ensures Strays(u, Run(u, schedule), u.callers[c].order[j]) && Strays(u, Run(u, schedule), u.callers[d].order[k])
  {
    hide Agrees, With, Inv, Free, Shaped, Proper, Run;
    OrderBounds(u, c);
    OrderBounds(u, d);
    var s;
    schedule, s := Cross(u, c, d, j, k);
    schedule, s := Finish(u, schedule, s);
    LeadsInv(u, schedule, s);
    assert Leaked(u, s, d, u.callers[c].order[j]) && Leaked(u, s, c, u.callers[d].order[k]);
    RaceOutcome(u, s);
  }

  /** Two callers with the same record value, two unique indexes on it, visited in opposite orders. */
  function Crossed(): Setup {
    var e := IndexState(true, map[], 0);
    var whole := (v: Value) => Some(v);
    Setup([whole, whole], [Caller([1], [9], [0, 1]), Caller([2], [9], [1, 0])], map[], [e, e])
  }

  lemma CrossedProper()
    ensures Proper(Crossed())
  {
    hide Agrees;
    EmptyAgrees(true, Crossed().exts[0], map[]);
    var o, p := Crossed().callers[0].order, Crossed().callers[1].order;
    assert o[0] == 0 && o[1] == 1 && p[0] == 1 && p[1] == 0;
  }

  /** Of the two crossed callers neither need be stored, and both indexes can keep a key of no record. */
  lemma CrossedLosesBoth() returns (schedule: seq<nat>)
    ensures Proper(Crossed()) && Schedule(Crossed(), schedule) && Finished(Run(Crossed(), schedule))
    ensures Run(Crossed(), schedule).records == map[]
    ensures Strays(Crossed(), Run(Crossed(), schedule), 0) && Strays(Crossed(), Run(Crossed(), schedule), 1)
  {
    hide Run, Proper, Agrees, Strays, Shaped, Inv;
    CrossedProper();
    CrossedCrosses();
    schedule := CrossingLosesBoth(Crossed(), 0, 1, 1, 1);
    var s := Run(Crossed(), schedule);
    RunShaped(Crossed(), schedule);
    ShapedSizes(Crossed(), s);
    RaceOutcome(Crossed(), s);
    assert Winners(s) == {};
    WithNone(Crossed());
  }

  lemma CrossedCrosses()
    requires Proper(Crossed())
    ensures Crossing(Crossed(), 0, 1, 1, 1)
    ensures Crossed().callers[0].order[1] == 1 && Crossed().callers[1].order[1] == 0
  {
    hide Agrees, Permutes, Proper;
    var o, p := Crossed().callers[0].order, Crossed().callers[1].order;
    assert o[0] == 0 && o[1] == 1 && p[0] == 1 && p[1] == 0;
  }
}
