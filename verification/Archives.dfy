/** `RotateLog`, `Checkpoint` and reopening over the life of a log: which entries are kept where.

    A file is its list of entries.  A rotated file is renamed to the current sequence number, and
    renaming onto an existing file replaces it.  A log that is opened again takes its sequence number
    from the current file. */
module Archives {
  import opened Bytes
  import opened LogCodec

  datatype Archive = Archive(name: nat, entries: seq<LogEntry>)

  /** `archives` in order of creation; `appended` is every entry ever appended. */
  datatype Disk = Disk(archives: seq<Archive>, current: seq<LogEntry>, sequence: nat, appended: seq<LogEntry>)

  datatype Action = Append(op: Byte, key: Key, value: Value) | Rotate | Checkpoint | Reopen

  const EMPTY := Disk([], [], 0, [])

  /** The position of the archive called `name`, or the number of archives. */
  function Named(archives: seq<Archive>, name: nat): (i: nat)
    ensures i <= |archives|
    ensures i < |archives| ==> archives[i].name == name
    ensures forall j | 0 <= j < i :: archives[j].name != name
  {
    if archives == [] || archives[0].name == name then 0 else 1 + Named(archives[1..], name)
  }

  /** `os.Rename`. */
  function Rename(archives: seq<Archive>, name: nat, entries: seq<LogEntry>): seq<Archive> {
    var i := Named(archives, name);
    if i < |archives| then archives[i := Archive(name, entries)] else archives + [Archive(name, entries)]
  }

  function Step(d: Disk, a: Action): Disk {
    match a
    case Append(op, key, value) =>
      var e := LogEntry(d.sequence + 1, op, key, value);
      d.(current := d.current + [e], sequence := d.sequence + 1, appended := d.appended + [e])
    case Rotate => d.(archives := Rename(d.archives, d.sequence, d.current), current := [])
    case Checkpoint => d.(current := [])
    case Reopen => d.(sequence := LastSeq(d.current))
  }

  function Run(actions: seq<Action>): Disk {
    if actions == [] then EMPTY else Step(Run(actions[..|actions| - 1]), actions[|actions| - 1])
  }

  function Flatten(archives: seq<Archive>): seq<LogEntry> {
    if archives == [] then [] else Flatten(archives[..|archives| - 1]) + archives[|archives| - 1].entries
  }

  /** The archives in order, then the current file. */
  function Kept(d: Disk): seq<LogEntry> {
    Flatten(d.archives) + d.current
  }

  /** Sequence numbers strictly increase and lie above `lo` and at most at `hi`. */
  ghost predicate Rising(es: seq<LogEntry>, lo: nat, hi: nat) {
    && (forall i | 0 <= i < |es| :: lo < es[i].seqno <= hi)
    && (forall i, j | 0 <= i < j < |es| :: es[i].seqno < es[j].seqno)
  }

  ghost function LastName(archives: seq<Archive>): nat {
    if archives == [] then 0 else archives[|archives| - 1].name
  }

  /** Names increase, and each archive's numbers lie between its predecessor's name and its own. */
  ghost predicate Layered(archives: seq<Archive>) {
    archives != [] ==>
      var p, a := archives[..|archives| - 1], archives[|archives| - 1];
      && Layered(p)
      && LastName(p) <= a.name && (p != [] ==> LastName(p) < a.name)
      && Rising(a.entries, LastName(p), a.name)
  }

  ghost predicate Inv(d: Disk) {
    && Layered(d.archives) && LastName(d.archives) <= d.sequence
    && Rising(d.current, LastName(d.archives), d.sequence)
    && (d.current != [] ==> LastSeq(d.current) == d.sequence)
  }

  /** A reopening that finds no entry in the current file, behind an archive: the numbering begins again
      below that archive's name. */
  ghost predicate Resets(d: Disk, a: Action) {
    a.Reopen? && d.current == [] && LastName(d.archives) > 0
  }

  ghost predicate NoReset(actions: seq<Action>) {
    forall i | 0 <= i < |actions| :: !Resets(Run(actions[..i]), actions[i])
  }

  lemma RisingFirst(es: seq<LogEntry>, lo: nat, hi: nat)
    requires Rising(es, lo, hi) && es != []
    ensures lo < hi
  {
    assert lo < es[0].seqno <= hi;
  }

  lemma RisingConcat(a: seq<LogEntry>, lo: nat, mid: nat, b: seq<LogEntry>, hi: nat)
    requires Rising(a, lo, mid) && Rising(b, mid, hi) && lo <= mid <= hi
    ensures Rising(a + b, lo, hi)
  {
  }

  lemma {:induction false} LayeredNames(archives: seq<Archive>, i: nat)
    requires Layered(archives) && i < |archives| - 1
    ensures archives[i].name < LastName(archives)
  {
    hide Rising;
    var p := archives[..|archives| - 1];
    if i < |p| - 1 { LayeredNames(p, i); }
    assert archives[i] == p[i];
  }

  /** The archive a rotation would replace can only be the last one. */
  lemma NamedLast(archives: seq<Archive>, name: nat)
    requires Layered(archives) && LastName(archives) <= name
    ensures Named(archives, name) < |archives| ==> Named(archives, name) == |archives| - 1 && LastName(archives) == name
    ensures Named(archives, name) == |archives| && archives != [] ==> LastName(archives) < name
  {
    hide Rising;
    var i := Named(archives, name);
    if i < |archives| - 1 { LayeredNames(archives, i); }
  }

  lemma RotateInv(d: Disk)
    requires Inv(d)
    ensures Inv(Step(d, Rotate))
  {
    hide Named, LastSeq, Rising;
    NamedLast(d.archives, d.sequence);
    var n, i := |d.archives|, Named(d.archives, d.sequence);
    var r := Rename(d.archives, d.sequence, d.current);
    assert r[|r| - 1] == Archive(d.sequence, d.current);
    RisingNone();
    if i < n {
      NothingSince(d);
      assert r[..n - 1] == d.archives[..n - 1];
    } else {
      assert r[..n] == d.archives;
    }
  }

  lemma RisingNone()
    ensures forall lo, hi :: Rising([], lo, hi)
  {
  }

  /** No entry was appended since an archive with the current number was made. */
  lemma NothingSince(d: Disk)
    requires Inv(d) && LastName(d.archives) == d.sequence
    ensures d.current == []
  {
    hide Rising;
    if d.current != [] { RisingFirst(d.current, LastName(d.archives), d.sequence); }
  }

  /** Every step keeps names and numbers in order, except a reopening that resets, which does not. */
  lemma StepInv(d: Disk, a: Action)
    requires Inv(d)
    ensures Inv(Step(d, a)) <==> !Resets(d, a)
  {
    hide Layered, Rising, Rename, LastName, LastSeq;
    RisingNone();
    match a
    case Append(op, key, value) => AppendInv(d, LogEntry(d.sequence + 1, op, key, value));
    case Rotate => RotateInv(d);
    case Checkpoint =>
    case Reopen => ReopenInv(d);
  }

  lemma AppendInv(d: Disk, e: LogEntry)
    requires Inv(d) && e.seqno == d.sequence + 1
    ensures Rising(d.current + [e], LastName(d.archives), d.sequence + 1) && LastSeq(d.current + [e]) == d.sequence + 1
  {
    RisingConcat(d.current, LastName(d.archives), d.sequence, [e], d.sequence + 1);
  }

  lemma ReopenInv(d: Disk)
    requires Inv(d)
    ensures Inv(Step(d, Reopen)) <==> !Resets(d, Reopen)
  {
    hide Layered;
    if d.current != [] { RisingFirst(d.current, LastName(d.archives), d.sequence); }
  }

  lemma NoResetNext(actions: seq<Action>, n: nat)
    requires n < |actions|
    ensures NoReset(actions[..n + 1]) <==> NoReset(actions[..n]) && !Resets(Run(actions[..n]), actions[n])
  {
    hide Run, Resets;
    var p, q := actions[..n], actions[..n + 1];
    forall i | 0 <= i < n ensures q[..i] == p[..i] && q[i] == p[i] { }
    assert q[..n] == p && q[n] == actions[n];
  }

  lemma RunNext(actions: seq<Action>, n: nat)
    requires n < |actions|
    ensures Run(actions[..n + 1]) == Step(Run(actions[..n]), actions[n])
  {
    hide Step;
    assert actions[..n + 1][..n] == actions[..n];
  }

  /** Names and numbers are in order at every point of a run if and only if no reopening resets. */
  lemma {:induction false} RunInv(actions: seq<Action>, n: nat)
    requires n <= |actions|
    ensures NoReset(actions[..n]) <==> forall m | 0 <= m <= n :: Inv(Run(actions[..m]))
  {
    hide Inv, Resets, Step;
    if n == 0 {
      assert actions[..0] == [];
      EmptyInv();
    } else {
      RunInv(actions, n - 1);
      NoResetNext(actions, n - 1);
      RunNext(actions, n - 1);
      if forall m | 0 <= m <= n - 1 :: Inv(Run(actions[..m])) { StepInv(Run(actions[..n - 1]), actions[n - 1]); }
    }
  }

  lemma EmptyInv()
    ensures Inv(Run([]))
  {
  }

  lemma EndInv(actions: seq<Action>)
    requires NoReset(actions)
    ensures Inv(Run(actions))
  {
    hide Inv, Run, NoReset;
    assert actions[..|actions|] == actions;
    RunInv(actions, |actions|);
  }

  lemma {:induction false} FlattenRises(archives: seq<Archive>)
    requires Layered(archives)
    ensures Rising(Flatten(archives), 0, LastName(archives))
  {
    if archives != [] {
      var p, a := archives[..|archives| - 1], archives[|archives| - 1];
      FlattenRises(p);
      RisingConcat(Flatten(p), 0, LastName(p), a.entries, a.name);
    }
  }

  /** Over every run in which no reopening resets, sequence numbers strictly increase across archived and
      current files. */
  lemma NumbersIncrease(actions: seq<Action>)
    requires NoReset(actions)
    ensures Rising(Kept(Run(actions)), 0, Run(actions).sequence)
  {
    hide Rising, Layered, Run, NoReset;
    EndInv(actions);
    var d := Run(actions);
    FlattenRises(d.archives);
    RisingConcat(Flatten(d.archives), 0, LastName(d.archives), d.current, d.sequence);
  }

  // ------------------------------------------------------ what rotation keeps

  /** A rotation that renames onto an archive with entries in it. */
  predicate Clobbers(d: Disk, a: Action) {
    a.Rotate? && var i := Named(d.archives, d.sequence); i < |d.archives| && d.archives[i].entries != []
  }

  ghost predicate NoCheckpoint(actions: seq<Action>) {
    forall i | 0 <= i < |actions| :: !actions[i].Checkpoint?
  }

  /** Some rotation of the run clobbered an archive. */
  ghost predicate Clobbered(actions: seq<Action>) {
    exists i | 0 <= i < |actions| :: Clobbers(Run(actions[..i]), actions[i])
  }

  lemma FlattenRename(archives: seq<Archive>, name: nat, entries: seq<LogEntry>)
    requires Layered(archives) && LastName(archives) <= name
    ensures var r := Rename(archives, name, entries);
      if Named(archives, name) < |archives|
      then Flatten(r) == Flatten(archives[..|archives| - 1]) + entries
      else Flatten(r) == Flatten(archives) + entries
  {
    hide Named, Rising;
    NamedLast(archives, name);
    var r, n := Rename(archives, name, entries), |archives|;
    if Named(archives, name) < n {
      assert r[..n - 1] == archives[..n - 1];
    } else {
      assert r[..n] == archives;
    }
  }

  /** One step without a checkpoint that does not clobber keeps the entries in order. */
  lemma StepKeeps(d: Disk, a: Action)
    requires Inv(d) && !a.Checkpoint?
    ensures var e := Step(d, a); !Clobbers(d, a) && Kept(d) == d.appended ==> Kept(e) == e.appended
  {
    hide Named, Rising, Layered;
    match a
    case Append(op, key, value) =>
      var e := LogEntry(d.sequence + 1, op, key, value);
      assert Flatten(d.archives) + (d.current + [e]) == Flatten(d.archives) + d.current + [e];
    case Rotate =>
      FlattenRename(d.archives, d.sequence, d.current);
      NamedLast(d.archives, d.sequence);
      if Named(d.archives, d.sequence) < |d.archives| {
        NothingSince(d);
      }
    case Reopen =>
  }

  lemma FlattenLast(archives: seq<Archive>)
    requires archives != []
    ensures var n := |archives| - 1;
      multiset(Flatten(archives)) == multiset(Flatten(archives[..n])) + multiset(archives[n].entries)
  {
  }

  lemma Shifted(a: multiset<LogEntry>, b: multiset<LogEntry>, c: multiset<LogEntry>, d: multiset<LogEntry>, e: multiset<LogEntry>)
    requires a + b == c + d
    ensures (a + e) + b == (c + e) + d
  {
    assert (a + e) + b == (a + b) + e && (c + e) + d == (c + d) + e;
  }

  lemma {:induction false} FlattenPut(archives: seq<Archive>, i: nat, a: Archive)
    requires i < |archives|
    ensures multiset(Flatten(archives[i := a])) + multiset(archives[i].entries) == multiset(Flatten(archives)) + multiset(a.entries)
  {
    hide Flatten;
    var n, r := |archives| - 1, archives[i := a];
    var p := archives[..n];
    FlattenLast(archives);
    FlattenLast(r);
    if i == n {
      assert r[..n] == p;
    } else {
      FlattenPut(p, i, a);
      assert r[..n] == p[i := a];
      Shifted(multiset(Flatten(p[i := a])), multiset(p[i].entries), multiset(Flatten(p)), multiset(a.entries), multiset(archives[n].entries));
    }
  }

  /** One step without a checkpoint, in any state: a rotation that clobbers loses what the archive held,
      and nothing else loses anything. */
  lemma StepLoses(d: Disk, a: Action)
    requires !a.Checkpoint?
    ensures var e := Step(d, a);
      && (!Clobbers(d, a) && multiset(Kept(d)) == multiset(d.appended) ==> multiset(Kept(e)) == multiset(e.appended))
      && |Kept(e)| + |d.appended| + (if Clobbers(d, a) then 1 else 0) <= |Kept(d)| + |e.appended|
  {
    hide Named;
    match a
    case Append(op, key, value) =>
      var e := LogEntry(d.sequence + 1, op, key, value);
      assert Flatten(d.archives) + (d.current + [e]) == Flatten(d.archives) + d.current + [e];
    case Rotate =>
      var i, x := Named(d.archives, d.sequence), Archive(d.sequence, d.current);
      if i < |d.archives| {
        FlattenPut(d.archives, i, x);
        Lengths(Flatten(d.archives[i := x]), d.archives[i].entries, Flatten(d.archives), d.current);
      } else {
        assert (d.archives + [x])[..|d.archives|] == d.archives;
      }
    case Reopen =>
  }

  lemma Lengths(a: seq<LogEntry>, b: seq<LogEntry>, c: seq<LogEntry>, d: seq<LogEntry>)
    requires multiset(a) + multiset(b) == multiset(c) + multiset(d)
    ensures |a| + |b| == |c| + |d|
  {
    assert |multiset(a) + multiset(b)| == |multiset(a)| + |multiset(b)|;
    assert |multiset(c) + multiset(d)| == |multiset(c)| + |multiset(d)|;
  }

  /** Without checkpoints, reopened or not, archives and current file together hold exactly the appended
      entries if and only if no rotation renamed onto an archive that had entries. */
  lemma {:induction false} NothingLost(actions: seq<Action>)
    requires NoCheckpoint(actions)
    ensures multiset(Kept(Run(actions))) == multiset(Run(actions).appended) <==> !Clobbered(actions)
    ensures |Kept(Run(actions))| + (if Clobbered(actions) then 1 else 0) <= |Run(actions).appended|
  {
    hide Step, Kept, Clobbers;
    if actions == [] {
      KeptEmpty();
    } else {
      var n := |actions| - 1;
      var p, a := actions[..n], actions[n];
      NothingLost(p);
      StepLoses(Run(p), a);
      ClobberedLast(actions);
      if Clobbered(actions) {
        assert |Kept(Run(actions))| < |Run(actions).appended|;
        if multiset(Kept(Run(actions))) == multiset(Run(actions).appended) {
          Lengths(Kept(Run(actions)), [], Run(actions).appended, []);
        }
      }
    }
  }

  /** Where no reopening resets, the entries are also kept in order. */
  lemma {:induction false} RotationKeeps(actions: seq<Action>)
    requires NoCheckpoint(actions) && NoReset(actions)
    ensures Kept(Run(actions)) == Run(actions).appended <==> !Clobbered(actions)
  {
    hide Step, Kept, Clobbers, NoReset, Inv;
    NothingLost(actions);
    if actions == [] {
      KeptEmpty();
    } else {
      var n := |actions| - 1;
      var p, a := actions[..n], actions[n];
      assert actions[..n + 1] == actions;
      NoResetNext(actions, n);
      RotationKeeps(p);
      EndInv(p);
      StepKeeps(Run(p), a);
      ClobberedLast(actions);
    }
  }

  lemma KeptEmpty()
    ensures Kept(EMPTY) == []
  {
  }

  lemma ClobberedLast(actions: seq<Action>)
    requires actions != []
    ensures var n := |actions| - 1;
      Clobbered(actions) <==> Clobbered(actions[..n]) || Clobbers(Run(actions[..n]), actions[n])
  {
    hide Run, Clobbers;
    var n := |actions| - 1;
    var p := actions[..n];
    if i :| 0 <= i < |p| && Clobbers(Run(p[..i]), p[i]) {
      assert p[..i] == actions[..i] && p[i] == actions[i];
    }
    if i :| 0 <= i < |actions| && Clobbers(Run(actions[..i]), actions[i]) {
      if i < n { assert p[..i] == actions[..i] && p[i] == actions[i]; }
    }
  }

  /** The shortest run that loses an entry. */
  lemma RotatingTwiceLoses(op: Byte, key: Key, value: Value)
    ensures var run := [Append(op, key, value), Rotate, Rotate];
      Run(run).appended == [LogEntry(1, op, key, value)] && Kept(Run(run)) == []
  {
    var e := LogEntry(1, op, key, value);
    var run := [Append(op, key, value), Rotate, Rotate];
    assert run[..2] == [Append(op, key, value), Rotate] && run[..2][..1] == [Append(op, key, value)] && run[..2][..1][..0] == [];
    assert Run(run[..2][..1]) == Disk([], [e], 1, [e]);
    assert Run(run[..2]) == Disk([Archive(1, [e])], [], 1, [e]);
    assert Run(run) == Disk([Archive(1, [])], [], 1, [e]);
    assert Flatten([Archive(1, [])][..0]) == [];
  }

  /** A reopening between two rotations: both files get the same name, and the first entry is gone. */
  lemma ReopeningLoses(op: Byte, key: Key, value: Value, value': Value)
    ensures var run := [Append(op, key, value), Rotate, Reopen, Append(op, key, value'), Rotate];
      && Run(run).appended == [LogEntry(1, op, key, value), LogEntry(1, op, key, value')]
      && Kept(Run(run)) == [LogEntry(1, op, key, value')]
  {
    hide Run;
    var e, f := LogEntry(1, op, key, value), LogEntry(1, op, key, value');
    var run := [Append(op, key, value), Rotate, Reopen, Append(op, key, value'), Rotate];
    RunNext(run, 0);
    RunNext(run, 1);
    RunNext(run, 2);
    RunNext(run, 3);
    RunNext(run, 4);
    assert run[..0] == [] && run[..5] == run;
    RunNone();
    assert Run(run[..1]) == Disk([], [e], 1, [e]);
    assert Run(run[..2]) == Disk([Archive(1, [e])], [], 1, [e]);
    assert Run(run[..3]) == Disk([Archive(1, [e])], [], 0, [e]);
    assert Run(run[..4]) == Disk([Archive(1, [e])], [f], 1, [e, f]);
    assert Run(run) == Disk([Archive(1, [f])], [], 1, [e, f]);
    assert Flatten([Archive(1, [f])][..0]) == [];
  }

  lemma RunNone()
    ensures Run([]) == EMPTY
  {
  }

  // -------------------------------------------------------------- as bytes

  /** The bytes of a log file with the given entries. */
  function FileBytes(crc: Crc, es: seq<LogEntry>): seq<Byte> {
    Header() + EncodeAll(crc, es)
  }

  function Files(crc: Crc, archives: seq<Archive>): map<nat, seq<Byte>> {
    if archives == [] then map[]
    else Files(crc, archives[..|archives| - 1])[archives[|archives| - 1].name := FileBytes(crc, archives[|archives| - 1].entries)]
  }

  ghost predicate NamesDiffer(archives: seq<Archive>) {
    forall i, j | 0 <= i < j < |archives| :: archives[i].name != archives[j].name
  }

  lemma FilesLast(crc: Crc, archives: seq<Archive>, a: Archive)
    ensures Files(crc, archives + [a]) == Files(crc, archives)[a.name := FileBytes(crc, a.entries)]
  {
    hide FileBytes;
    assert (archives + [a])[..|archives|] == archives;
  }

  /** Renaming in the list is writing one name in the directory. */
  lemma {:induction false} FilesRename(crc: Crc, archives: seq<Archive>, name: nat, entries: seq<LogEntry>)
    requires NamesDiffer(archives)
    ensures Files(crc, Rename(archives, name, entries)) == Files(crc, archives)[name := FileBytes(crc, entries)]
    ensures NamesDiffer(Rename(archives, name, entries))
  {
    hide FileBytes, Named, Files;
    var n, i, a := |archives|, Named(archives, name), Archive(name, entries);
    if i == n {
      FilesLast(crc, archives, a);
    } else {
      var p, z := archives[..n - 1], archives[n - 1];
      assert archives == p + [z];
      FilesLast(crc, p, z);
      if i == n - 1 {
        FilesLast(crc, p, a);
        assert archives[i := a] == p + [a];
      } else {
        NamedPrefix(archives, name);
        FilesRename(crc, p, name, entries);
        FilesLast(crc, p[i := a], z);
        assert archives[i := a] == p[i := a] + [z];
      }
    }
  }

  lemma {:induction false} NamedPrefix(archives: seq<Archive>, name: nat)
    requires Named(archives, name) < |archives| - 1
    ensures Named(archives[..|archives| - 1], name) == Named(archives, name)
  {
    var p := archives[..|archives| - 1];
    if archives[0].name != name {
      assert p[1..] == archives[1..][..|archives| - 2];
      NamedPrefix(archives[1..], name);
    }
  }
}
