/** Whole runs of the engine: the invariant holds in every reachable state, and every reader
    sees the map that the committed updates build, as long as no compaction is installed whose
    dropped tombstones uncover a value; without snapshots there is no such compaction. */
module EngineViews {
  import opened Keys
  import opened Store
  import opened Reorganise
  import opened Engine
  import opened EngineInvariant
  import opened EngineCrash

  ghost predicate ReaderRight(s: State, r: Reader) {
    forall k :: View(s.history, Held(ReaderData(s, r), s.history), k, r.sequence) == View(s.history, ALL, k, r.sequence)
  }

  /** Whoever may read now, and whoever still reads, sees what the history says. */
  ghost predicate Right(s: State) {
    && ViewsRight(DataOf(s), s.history, SmallestSnapshot(s))
    && (forall r :: r in s.readers ==> ReaderRight(s, r))
  }

  /** Only installing a compaction can go wrong, and only when a dropped tombstone uncovers a value. */
  ghost predicate Safe(s: State, step: Step) {
    step.CompactInstall? && s.work.Compacting? ==>
      !exists t, p :: Uncovers(DataOf(s), s.work.level, s.work.in0, s.work.in1, s.work.smallest, t, p)
  }

  // ----- One step -----

  lemma StepKeepsInv(s: State, step: Step)
    requires Inv(s) && Enabled(s, step)
    ensures Inv(After(s, step))
  {
    hide DataInv, WorkOk, ReaderOk, Enabled, After;
    match step
    case Write(ops) => WriteKeepsInv(s, ops);
    case SwitchMemTable => SwitchKeepsInv(s);
    case FlushBegin(_, _) => BeginKeepsInv(s, step);
    case FlushBeginEmpty => BeginKeepsInv(s, step);
    case FlushInstall => FlushInstallKeepsInv(s);
    case CompactBegin(_, _, _, _, _, _) => BeginKeepsInv(s, step);
    case CompactInstall => CompactInstallKeepsInv(s);
    case TrivialMove(level, file) => MoveKeepsInv(s, level, file);
    case TakeSnapshot => SnapshotKeepsInv(s, step);
    case ReleaseSnapshot(_) => SnapshotKeepsInv(s, step);
    case OpenReader(_) => ReaderStepKeepsInv(s, step);
    case CloseReader(_) => ReaderStepKeepsInv(s, step);
    case DeleteObsolete => DeleteKeepsInv(s);
    case Crash(r) => CrashKeepsInv(s, r);
  }

  /** Views below the end of a history do not depend on how it goes on. */
  lemma {:induction false} ViewOfPrefix(
      hist: seq<Op>, hist': seq<Op>, held: iset<nat>, held': iset<nat>, k: UserKey, s: nat)
    requires hist <= hist' && s <= |hist|
    requires forall n: nat :: 1 <= n <= |hist| ==> (n in held <==> n in held')
    ensures Newest(hist, held, k, s) == Newest(hist', held', k, s)
    ensures View(hist, held, k, s) == View(hist', held', k, s)
  {
    if s != 0 {
      ViewOfPrefix(hist, hist', held, held', k, s - 1);
    }
    NewestIsNewest(hist, held, k, s);
  }

  /** After a write the new updates are visible, and older views are as before. */
  lemma {:induction false} ViewAfterWrite(
      hist: seq<Op>, ops: seq<Op>, held: iset<nat>, held': iset<nat>, floor: nat, k: UserKey, s: nat)
    requires forall n: nat :: n in held' <==> n in held || |hist| < n <= |hist| + |ops|
    requires floor <= |hist| && floor <= s
    requires forall i :: floor <= i ==> View(hist, held, k, i) == View(hist, ALL, k, i)
    ensures View(hist + ops, held', k, s) == View(hist + ops, ALL, k, s)
  {
    if s <= |hist| {
      ViewOfPrefix(hist, hist + ops, held, held', k, s);
      ViewOfPrefix(hist, hist + ops, ALL, ALL, k, s);
    } else {
      ViewAfterWrite(hist, ops, held, held', floor, k, s - 1);
    }
  }

  lemma WriteKeepsRight(s: State, ops: seq<Op>)
    requires Inv(s) && Right(s) && Enabled(s, Write(ops))
    ensures Right(After(s, Write(ops)))
  {
    var s' := After(s, Write(ops));
    WriteKeepsData(DataOf(s), s.history, ops);
    forall k, n | SmallestSnapshot(s') <= n
      ensures View(s'.history, Held(DataOf(s'), s'.history), k, n) == View(s'.history, ALL, k, n)
    {
      ViewAfterWrite(
        s.history, ops, Held(DataOf(s), s.history), Held(DataOf(s'), s'.history), SmallestSnapshot(s), k, n);
    }
    forall r | r in s'.readers ensures ReaderRight(s', r) {
      WriteKeepsReaderRight(s, ops, r);
    }
  }

  lemma WriteKeepsReaderRight(s: State, ops: seq<Op>, r: Reader)
    requires ReaderOk(s, r) && ReaderRight(s, r) && s.lastSequence == |s.history|
    requires s.logFile in s.logs && Enabled(s, Write(ops))
    ensures ReaderRight(After(s, Write(ops)), r)
  {
    var s' := After(s, Write(ops));
    var held, held' := Held(ReaderData(s, r), s.history), Held(ReaderData(s', r), s'.history);
    forall n: nat | 1 <= n <= |s.history| ensures n in held <==> n in held' {
      assert EntryOf(s.history, n) == EntryOf(s'.history, n);
    }
    forall k ensures View(s'.history, held', k, r.sequence) == View(s'.history, ALL, k, r.sequence) {
      ViewOfPrefix(s.history, s'.history, held, held', k, r.sequence);
      ViewOfPrefix(s.history, s'.history, ALL, ALL, k, r.sequence);
    }
  }

  /** Steps that hold on to the same updates, for the engine and for every open reader. */
  lemma SameHeldKeepsRight(s: State, s': State)
    requires Right(s) && s'.history == s.history && SmallestSnapshot(s) <= SmallestSnapshot(s')
    requires Held(DataOf(s'), s.history) == Held(DataOf(s), s.history)
    requires forall r :: r in s'.readers ==>
        r in s.readers && Held(ReaderData(s', r), s.history) == Held(ReaderData(s, r), s.history)
    ensures Right(s')
  {
    forall r | r in s'.readers ensures ReaderRight(s', r) {
      assert ReaderRight(s, r);
    }
  }

  lemma SameTablesSameReaders(s: State, s': State)
    requires s'.tables == s.tables && s'.readers == s.readers && s'.history == s.history
    ensures forall r :: r in s'.readers ==>
        r in s.readers && Held(ReaderData(s', r), s.history) == Held(ReaderData(s, r), s.history)
  {
    forall r | r in s'.readers ensures ReaderData(s', r) == ReaderData(s, r) {
    }
  }

  lemma BeginKeepsRight(s: State, step: Step)
    requires Inv(s) && Right(s) && Enabled(s, step) && (step.FlushBegin? || step.FlushBeginEmpty? || step.CompactBegin?)
    ensures Right(After(s, step))
  {
    var s' := After(s, step);
    forall n: nat | n in s.tables && n < s.nextFile ensures n in s'.tables && s'.tables[n] == s.tables[n] {
    }
    forall n: nat | InVersion(s.version, n) ensures n in s.tables && n < s.nextFile {
    }
    TablesMayDiffer(DataOf(s), s.history, s'.tables);
    forall r | r in s'.readers ensures Held(ReaderData(s', r), s.history) == Held(ReaderData(s, r), s.history) {
      forall n: nat | InVersion(r.version, n) ensures n in s.tables && n < s.nextFile {
        assert ReaderOk(s, r);
      }
      ReaderKept(s, s', r);
    }
    SameHeldKeepsRight(s, s');
  }

  lemma CompactInstallKeepsRight(s: State)
    requires Inv(s) && Right(s) && Enabled(s, CompactInstall) && Safe(s, CompactInstall)
    ensures Right(After(s, CompactInstall))
  {
    hide ReaderOk, Durable;
    var s', w := After(s, CompactInstall), s.work;
    CompactInstallData(s);
    CompactionKeepsViewsIff(DataOf(s), s.history, w.level, w.in0, w.in1, w.smallest, w.outs);
    SameTablesSameReaders(s, s');
    forall r | r in s'.readers ensures ReaderRight(s', r) {
      assert ReaderRight(s, r);
    }
  }

  lemma ReaderStepKeepsRight(s: State, step: Step)
    requires Inv(s) && Right(s) && Enabled(s, step) && (step.OpenReader? || step.CloseReader?)
    ensures Right(After(s, step))
  {
    var s' := After(s, step);
    assert DataOf(s') == DataOf(s);
    forall r | r in s'.readers ensures ReaderRight(s', r) {
      assert r in s.readers ==> ReaderRight(s, r);
      if r !in s.readers {
        assert ReaderData(s', r) == DataOf(s);
        assert SmallestSnapshot(s) <= r.sequence;
      }
    }
  }

  lemma StepKeepsRight(s: State, step: Step)
    requires Inv(s) && Right(s) && Enabled(s, step) && Safe(s, step)
    ensures Right(After(s, step))
  {
    hide DataInv, WorkOk, ReaderOk, ViewsRight, ReaderRight;
    match step
    case Write(ops) => WriteKeepsRight(s, ops);
    case FlushBegin(_, _) => BeginKeepsRight(s, step);
    case FlushBeginEmpty => BeginKeepsRight(s, step);
    case CompactBegin(_, _, _, _, _, _) => BeginKeepsRight(s, step);
    case CompactInstall => CompactInstallKeepsRight(s);
    case OpenReader(_) => ReaderStepKeepsRight(s, step);
    case CloseReader(_) => ReaderStepKeepsRight(s, step);
    case SwitchMemTable => StillStepKeepsRight(s, step);
    case FlushInstall => StillStepKeepsRight(s, step);
    case TrivialMove(_, _) => StillStepKeepsRight(s, step);
    case TakeSnapshot => StillStepKeepsRight(s, step);
    case ReleaseSnapshot(_) => StillStepKeepsRight(s, step);
    case DeleteObsolete => DeleteKeepsRight(s);
    case Crash(r) =>
      CrashKeepsInv(s, r);
      SameHeldKeepsRight(s, After(s, step));
  }

  lemma StillStepKeepsRight(s: State, step: Step)
    requires Inv(s) && Right(s) && Enabled(s, step)
    requires step.SwitchMemTable? || step.FlushInstall? || step.TrivialMove? || step.TakeSnapshot?
        || step.ReleaseSnapshot?
    ensures Right(After(s, step))
  {
    hide ViewsRight, ReaderRight, ReaderOk, Durable;
    match step {
      case SwitchMemTable => SwitchKeepsData(DataOf(s), s.history);
      case FlushInstall => FlushInstallKeepsInv(s);
      case TrivialMove(level, file) =>
        MoveKeepsInv(s, level, file);
        MoveHeld(DataOf(s), s.history, level, file);
      case TakeSnapshot => SnapshotKeepsCounters(s, step);
      case ReleaseSnapshot(_) => SnapshotKeepsCounters(s, step);
    }
    SameTablesSameReaders(s, After(s, step));
    SameHeldKeepsRight(s, After(s, step));
  }

  lemma DeleteKeepsRight(s: State)
    requires Inv(s) && Right(s)
    ensures Right(After(s, DeleteObsolete))
  {
    var s' := After(s, DeleteObsolete);
    DeleteKeepsInv(s);
    forall r | r in s'.readers ensures Held(ReaderData(s', r), s.history) == Held(ReaderData(s, r), s.history) {
      DeleteKeepsReader(s, r);
    }
    SameHeldKeepsRight(s, s');
  }

  // ----- Runs -----

  ghost predicate IsRun(states: seq<State>, steps: seq<Step>) {
    && |states| == |steps| + 1
    && states[0] == INITIAL
    && forall i :: 0 <= i < |steps| ==>
         && states[i].logFile in states[i].logs
         && Enabled(states[i], steps[i])
         && states[i + 1] == After(states[i], steps[i])
  }

  lemma InitialDurable()
    ensures Durable(INITIAL, [3]) && NextFileOf(INITIAL.manifest) == 4
  {
    var s := INITIAL;
    var e := Edit(Some(3), Some(4), Some(0), {}, {});
    SnapshotReplays(EMPTY_VERSION);
    ManifestAppend([SnapshotEdit(EMPTY_VERSION)], e);
    EditAddsNothing(EMPTY_VERSION, e);
    assert s.manifest == [SnapshotEdit(EMPTY_VERSION)] + [e];
    assert [3][..0] == [];
    assert Concat(s.logs, [3]) == [];
  }

  lemma InitialInv()
    ensures Inv(INITIAL) && Right(INITIAL)
  {
    var d := Data([], [], EMPTY_VERSION, map[]);
    assert DataOf(INITIAL) == d;
    assert forall loc, x :: !Holds(d, loc, x);
    assert DataInv(d, []);
    InitialDurable();
    forall k, n ensures View([], Held(d, []), k, n) == View([], ALL, k, n) {
      NewestIsNewest([], Held(d, []), k, n);
      NewestIsNewest([], ALL, k, n);
    }
  }

  /** Every reachable state satisfies the invariant. */
  lemma {:induction false} RunKeepsInv(states: seq<State>, steps: seq<Step>, i: nat)
    requires IsRun(states, steps) && i <= |steps|
    ensures Inv(states[i])
  {
    if i == 0 {
      InitialInv();
    } else {
      RunKeepsInv(states, steps, i - 1);
      StepKeepsInv(states[i - 1], steps[i - 1]);
    }
  }

  lemma {:induction false} RunKeepsRight(states: seq<State>, steps: seq<Step>, i: nat)
    requires IsRun(states, steps) && i <= |steps|
    requires forall j :: 0 <= j < i ==> Safe(states[j], steps[j])
    ensures Inv(states[i]) && Right(states[i])
  {
    RunKeepsInv(states, steps, i);
    if i == 0 {
      InitialInv();
    } else {
      RunKeepsInv(states, steps, i - 1);
      RunKeepsRight(states, steps, i - 1);
      StepKeepsRight(states[i - 1], steps[i - 1]);
    }
  }

  /** What the engine shows of the map after the first `n` updates. */
  ghost predicate ShowsMap(hist: seq<Op>, d: Data, n: nat)
    requires n <= |hist|
  {
    forall k :: View(hist, Held(d, hist), k, n) == (var m := MapAfter(hist, n); if k in m then Some(m[k]) else None)
  }

  lemma RightViewShowsMap(hist: seq<Op>, d: Data, n: nat)
    requires n <= |hist| && forall k :: View(hist, Held(d, hist), k, n) == View(hist, ALL, k, n)
    ensures ShowsMap(hist, d, n)
  {
    forall k
      ensures View(hist, Held(d, hist), k, n) == (var m := MapAfter(hist, n); if k in m then Some(m[k]) else None)
    {
      ViewOfAllIsMap(hist, k, n);
    }
  }

  lemma RightShowsMap(s: State)
    requires Counters(s) && Right(s) && forall r :: r in s.readers ==> ReaderOk(s, r)
    ensures s.lastSequence == |s.history| && ShowsMap(s.history, DataOf(s), s.lastSequence)
    ensures forall n :: n in s.snapshots ==> n <= |s.history| && ShowsMap(s.history, DataOf(s), n)
    ensures forall r :: r in s.readers ==>
        r.sequence <= |s.history| && ShowsMap(s.history, ReaderData(s, r), r.sequence)
  {
    RightViewShowsMap(s.history, DataOf(s), s.lastSequence);
    forall n | n in s.snapshots ensures n <= |s.history| && ShowsMap(s.history, DataOf(s), n) {
      assert SmallestSnapshot(s) <= n;
      RightViewShowsMap(s.history, DataOf(s), n);
    }
    forall r | r in s.readers ensures r.sequence <= |s.history| && ShowsMap(s.history, ReaderData(s, r), r.sequence) {
      assert ReaderOk(s, r) && ReaderRight(s, r);
      RightViewShowsMap(s.history, ReaderData(s, r), r.sequence);
    }
  }

  /** In a run of safe steps, through flushes, moves, compactions, deletions of obsolete files
      and crashes, the newest view and every live snapshot show exactly the map after the first
      so many committed updates, and so does every iterator, however long it stays open. */
  lemma RunShowsMap(states: seq<State>, steps: seq<Step>, i: nat)
    requires IsRun(states, steps) && i <= |steps|
    requires forall j :: 0 <= j < i ==> Safe(states[j], steps[j])
    ensures var s := states[i];
      && s.lastSequence == |s.history|
      && ShowsMap(s.history, DataOf(s), s.lastSequence)
      && (forall n :: n in s.snapshots ==> n <= |s.history| && ShowsMap(s.history, DataOf(s), n))
      && (forall r :: r in s.readers ==> r.sequence <= |s.history| && ShowsMap(s.history, ReaderData(s, r), r.sequence))
  {
    RunKeepsRight(states, steps, i);
    RightShowsMap(states[i]);
  }

  lemma LiveTableExists(s: State, n: nat)
    requires TablesOk(s.version, s.tables) && WorkOk(s) && forall r :: r in s.readers ==> ReaderOk(s, r)
    requires LiveTable(s, n)
    ensures n in s.tables
  {
    if exists j :: 0 <= j < |s.readers| && InVersion(s.readers[j].version, n) {
      var j :| 0 <= j < |s.readers| && InVersion(s.readers[j].version, n);
      assert ReaderOk(s, s.readers[j]);
    }
  }

  /** No table that a live version, an open reader or unfinished work names is ever missing. */
  lemma RunKeepsTables(states: seq<State>, steps: seq<Step>, i: nat)
    requires IsRun(states, steps) && i <= |steps|
    ensures forall n :: LiveTable(states[i], n) ==> n in states[i].tables
  {
    RunKeepsInv(states, steps, i);
    forall n | LiveTable(states[i], n) ensures n in states[i].tables {
      LiveTableExists(states[i], n);
    }
  }

  // ----- Runs without snapshots -----

  /** Below level 0, files share no user key. */
  ghost predicate KeysApart(v: Version) {
    forall l, f, g :: 1 <= l < NUM_LEVELS && f in v[l] && g in v[l] && f != g ==> !RangesTouch(f, g)
  }

  ghost predicate NoSnapshots(s: State) {
    && s.snapshots == []
    && KeysApart(s.version)
    && (s.work.Compacting? ==> forall e :: InFiles(s.tables, s.work.in0 + s.work.in1, e) ==>
      e.key.sequence <= s.work.smallest)
  }

  lemma NoSnapshotsIsSafe(s: State, step: Step)
    requires Inv(s) && NoSnapshots(s)
    ensures Safe(s, step)
  {
    if step.CompactInstall? && s.work.Compacting? {
      var w := s.work;
      assert NoSharedKey(s.version, w.level, w.in1);
      forall t, p ensures !Uncovers(DataOf(s), w.level, w.in0, w.in1, w.smallest, t, p) {
        NoSharedKeyUncoversNothing(DataOf(s), s.history, w.level, w.in0, w.in1, w.smallest, t, p);
      }
    }
  }

  /** When every input is old enough for every reader, one entry of each key survives. */
  lemma OutputsShareNoKey(
      hist: seq<Op>, v: Version, tables: map<nat, seq<Entry>>, level: nat, files: set<FileMeta>, smallest: nat,
      outs: set<FileMeta>, o: FileMeta, p: FileMeta)
    requires OutputsOk(v, tables, level, files, smallest, outs)
    requires forall e :: InFiles(tables, files, e) ==> IsUpdate(hist, e) && e.key.sequence <= smallest
    requires o in outs && p in outs && Less(o.largest, p.smallest)
    ensures o.largest.user < p.smallest.user
  {
    var s, t := tables[o.number], tables[p.number];
    var x, y := s[|s| - 1], t[0];
    assert InFiles(tables, outs, x) && InFiles(tables, outs, y);
    assert InFiles(tables, files, x) && !Hidden(tables, files, smallest, y);
    if x.key.user == y.key.user {
      FirstIsNewer(hist, x, y);
    }
  }

  lemma OutputsApart(
      hist: seq<Op>, v: Version, tables: map<nat, seq<Entry>>, level: nat, files: set<FileMeta>, smallest: nat,
      outs: set<FileMeta>)
    requires OutputsOk(v, tables, level, files, smallest, outs)
    requires forall e :: InFiles(tables, files, e) ==> IsUpdate(hist, e) && e.key.sequence <= smallest
    ensures forall o, p :: o in outs && p in outs && o != p ==> !RangesTouch(o, p)
  {
    forall o, p | o in outs && p in outs && o != p ensures !RangesTouch(o, p) {
      if Less(o.largest, p.smallest) {
        OutputsShareNoKey(hist, v, tables, level, files, smallest, outs, o, p);
      } else {
        OutputsShareNoKey(hist, v, tables, level, files, smallest, outs, p, o);
      }
    }
  }

  lemma CompactionKeepsKeysApart(
      d: Data, hist: seq<Op>, level: nat, in0: set<FileMeta>, in1: set<FileMeta>, smallest: nat, outs: set<FileMeta>)
    requires DataInv(d, hist) && KeysApart(d.version) && InputsOk(d.version, level, in0, in1)
    requires OutputsOk(d.version, d.tables, level, in0 + in1, smallest, outs)
    requires forall e :: InFiles(d.tables, in0 + in1, e) ==> e.key.sequence <= smallest
    ensures KeysApart(Replaced(d.version, level, in0, in1, outs))
  {
    hide DataInv;
    InputTables(d, hist, level, in0, in1);
    OutputsApart(hist, d.version, d.tables, level, in0 + in1, smallest, outs);
    forall h, o | h in d.version[level + 1] && h !in in1 && o in outs ensures !RangesTouch(h, o) && !RangesTouch(o, h) {
      BystanderApart(d, hist, level, in0, in1, outs, h, o);
    }
  }

  lemma BystanderApart(
      d: Data, hist: seq<Op>, level: nat, in0: set<FileMeta>, in1: set<FileMeta>, outs: set<FileMeta>, h: FileMeta,
      o: FileMeta)
    requires DataInv(d, hist) && KeysApart(d.version) && InputsOk(d.version, level, in0, in1)
    requires OutputsWithin(d.tables, in0 + in1, outs)
    requires h in d.version[level + 1] && h !in in1 && o in outs
    ensures !RangesTouch(h, o)
  {
    InputTables(d, hist, level, in0, in1);
    BystanderAside(d, hist, level, in0, in1, h);
    OutputWithinInputs(d, in0 + in1, outs, o);
    forall f | f in in0 + in1 ensures !RangesTouch(h, f) {
      assert f in in0 && RangesTouch(h, f) ==> TouchesHull(h, in0);
    }
    FileEndsHeld(h, d.tables[h.number]);
    forall f | f in in0 + in1 ensures f.smallest.user <= f.largest.user {
      FileEndsHeld(f, d.tables[f.number]);
    }
  }

  lemma FlushKeepsKeysApart(v: Version, level: nat, file: FileMeta)
    requires KeysApart(v) && FlushLevelOk(v, file, level)
    ensures KeysApart(WithFile(v, level, file))
  {
    assert forall g :: level > 0 && g in v[level] ==> !RangesTouch(file, g) && !RangesTouch(g, file);
  }

  lemma BegunInputsOld(s: State, level: nat, in0: set<FileMeta>, in1: set<FileMeta>, written: map<nat, seq<Entry>>)
    requires Inv(s) && InputsOk(s.version, level, in0, in1)
    requires forall n :: n in written ==> s.nextFile <= n
    ensures forall e :: InFiles(s.tables + written, in0 + in1, e) ==> e.key.sequence <= s.lastSequence
  {
    forall e | InFiles(s.tables + written, in0 + in1, e) ensures e.key.sequence <= s.lastSequence {
      var f :| f in in0 + in1 && f.number in s.tables + written && e in (s.tables + written)[f.number];
      assert f.number !in written;
      assert Holds(DataOf(s), InFile(if f in in0 then level else level + 1, f), e);
    }
  }

  lemma InstallKeepsNoSnapshots(s: State, step: Step)
    requires Inv(s) && NoSnapshots(s) && Enabled(s, step) && (step.FlushInstall? || step.CompactInstall?)
    ensures NoSnapshots(After(s, step))
  {
    var s' := After(s, step);
    if step.CompactInstall? {
      CompactInstallData(s);
      var w := s.work;
      CompactionKeepsKeysApart(DataOf(s), s.history, w.level, w.in0, w.in1, w.smallest, w.outs);
    } else if s.work.table.Some? {
      EditAddsFile(s.version, s.work.level, s.work.table.value, s'.manifest[|s.manifest|]);
      FlushKeepsKeysApart(s.version, s.work.level, s.work.table.value);
    } else {
      EditAddsNothing(s.version, s'.manifest[|s.manifest|]);
    }
  }

  lemma MoveKeepsKeysApart(v: Version, level: nat, file: FileMeta)
    requires KeysApart(v) && InputsOk(v, level, {file}, {})
    ensures KeysApart(Replaced(v, level, {file}, {}, {file}))
  {
    assert file in {file};
    forall h | h in v[level + 1] ensures !RangesTouch(h, file) && !RangesTouch(file, h) {
      assert RangesTouch(h, file) ==> TouchesHull(h, {file});
    }
  }

  lemma MoveKeepsNoSnapshots(s: State, level: nat, file: FileMeta)
    requires Inv(s) && NoSnapshots(s) && Enabled(s, TrivialMove(level, file))
    ensures NoSnapshots(After(s, TrivialMove(level, file)))
  {
    hide DataInv;
    MoveKeepsInv(s, level, file);
    MoveKeepsKeysApart(s.version, level, file);
  }

  lemma RestartKeepsKeysApart(s: State, r: Restart, order: seq<nat>)
    requires Durable(s, order) && RestartOk(s, r) && KeysApart(s.version)
    ensures KeysApart(Recovered(s, r).version)
  {
    hide Concat, EntriesOf, InsertAll, MaxSequence, RecordEntries, Replay, LogNumberOf, LastSequenceOf;
    RestartChunks(s, r, order);
    RestartVersion(s, r, order);
    assert forall l :: 1 <= l < NUM_LEVELS ==> Recovered(s, r).version[l] == s.version[l];
  }

  lemma CrashKeepsNoSnapshots(s: State, r: Restart)
    requires Inv(s) && NoSnapshots(s) && Enabled(s, Crash(r))
    ensures NoSnapshots(After(s, Crash(r)))
  {
    hide DataInv, Durable, WorkOk, ReaderOk, RestartOk, KeysApart;
    var order :| Durable(s, order);
    RestartKeepsKeysApart(s, r, order);
  }

  lemma DeleteKeepsNoSnapshots(s: State)
    requires NoSnapshots(s) && s.logFile in s.logs
    ensures NoSnapshots(After(s, DeleteObsolete))
  {
    if s.work.Compacting? {
      var tables, files := After(s, DeleteObsolete).tables, s.work.in0 + s.work.in1;
      forall e | InFiles(tables, files, e) ensures InFiles(s.tables, files, e) {
      }
    }
  }

  lemma StepKeepsNoSnapshots(s: State, step: Step)
    requires Inv(s) && NoSnapshots(s) && Enabled(s, step) && !step.TakeSnapshot?
    ensures NoSnapshots(After(s, step))
  {
    hide DataInv;
    match step
    case FlushInstall => InstallKeepsNoSnapshots(s, step);
    case CompactInstall => InstallKeepsNoSnapshots(s, step);
    case CompactBegin(level, in0, in1, outs, written, nextFile) => BegunInputsOld(s, level, in0, in1, written);
    case TrivialMove(level, file) => MoveKeepsNoSnapshots(s, level, file);
    case Crash(r) => CrashKeepsNoSnapshots(s, r);
    case DeleteObsolete => DeleteKeepsNoSnapshots(s);
    case _ =>
  }

  lemma {:induction false} RunHasNoSnapshots(states: seq<State>, steps: seq<Step>, i: nat)
    requires IsRun(states, steps) && i <= |steps|
    requires forall j :: 0 <= j < i ==> !steps[j].TakeSnapshot?
    ensures NoSnapshots(states[i])
  {
    if i != 0 {
      RunHasNoSnapshots(states, steps, i - 1);
      RunKeepsInv(states, steps, i - 1);
      StepKeepsNoSnapshots(states[i - 1], steps[i - 1]);
    }
  }

  /** A database on which no snapshot is taken always shows the map of its committed updates. */
  lemma RunWithoutSnapshots(states: seq<State>, steps: seq<Step>, i: nat)
    requires IsRun(states, steps) && i <= |steps|
    requires forall j :: 0 <= j < i ==> !steps[j].TakeSnapshot?
    ensures var s := states[i];
      s.lastSequence == |s.history| && ShowsMap(s.history, DataOf(s), s.lastSequence)
  {
    forall j | 0 <= j < i ensures Safe(states[j], steps[j]) {
      RunHasNoSnapshots(states, steps, j);
      RunKeepsInv(states, steps, j);
      NoSnapshotsIsSafe(states[j], steps[j]);
    }
    RunShowsMap(states, steps, i);
  }
}
