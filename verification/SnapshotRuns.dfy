/** Runs as those see them who write, take snapshots and open iterators: what was written, which
    snapshots were given out and not given back, and which iterators were opened and not closed,
    counted off the steps of a run alone.  No state of the machine says anything else. */
module SnapshotRuns {
  import opened Keys
  import opened Store
  import opened Reorganise
  import opened Engine
  import opened EngineInvariant
  import opened EngineViews

  // ----- Records that follow the steps -----

  /** Every update that was written, in order. */
  function Written(steps: seq<Step>, i: nat): seq<Op>
    requires i <= |steps|
  {
    if i == 0 then []
    else Written(steps, i - 1) + if steps[i - 1].Write? then steps[i - 1].ops else []
  }

  /** A snapshot that is taken is given out; one that is given back, or lost in a crash, is not. */
  ghost function GivenOutAfter(out: multiset<nat>, s: State, step: Step): multiset<nat> {
    match step
    case TakeSnapshot => out + multiset{s.lastSequence}
    case ReleaseSnapshot(k) => if k < |s.snapshots| then out - multiset{s.snapshots[k]} else out
    case Crash(_) => multiset{}
    case _ => out
  }

  ghost function GivenOut(states: seq<State>, steps: seq<Step>, i: nat): multiset<nat>
    requires i <= |steps| && |states| == |steps| + 1
  {
    if i == 0 then multiset{} else GivenOutAfter(GivenOut(states, steps, i - 1), states[i - 1], steps[i - 1])
  }

  /** An iterator that is opened holds on to what there is then, until it is closed. */
  ghost function OpenAfter(open: multiset<Reader>, s: State, step: Step): multiset<Reader> {
    match step
    case OpenReader(n) => open + multiset{Reader(n, s.mem, if s.imm.Some? then s.imm.value else [], s.version)}
    case CloseReader(k) => if k < |s.readers| then open - multiset{s.readers[k]} else open
    case Crash(_) => multiset{}
    case _ => open
  }

  ghost function Open(states: seq<State>, steps: seq<Step>, i: nat): multiset<Reader>
    requires i <= |steps| && |states| == |steps| + 1
  {
    if i == 0 then multiset{} else OpenAfter(Open(states, steps, i - 1), states[i - 1], steps[i - 1])
  }

  // ----- The machine agrees -----

  lemma StepHistory(s: State, step: Step)
    requires Enabled(s, step) && s.logFile in s.logs
    ensures After(s, step).history == s.history + if step.Write? then step.ops else []
    ensures !step.TakeSnapshot? && !step.ReleaseSnapshot? && !step.Crash? ==> After(s, step).snapshots == s.snapshots
    ensures !step.OpenReader? && !step.CloseReader? && !step.Crash? ==> After(s, step).readers == s.readers
  {
    hide ApplyEdit, InputsOk, OutputsOk, FlushLevelOk, FileMatches, RestartOk, Replay, MaxSequence, WriteTables;
    assert s.history + [] == s.history;
  }

  lemma StepSnapshots(s: State, step: Step)
    requires Enabled(s, step) && s.logFile in s.logs
    ensures multiset(After(s, step).snapshots) == GivenOutAfter(multiset(s.snapshots), s, step)
  {
    hide ApplyEdit, InputsOk, OutputsOk, FlushLevelOk, FileMatches, RestartOk, Replay, MaxSequence, WriteTables;
    if step.ReleaseSnapshot? {
      WithoutOne(s.snapshots, step.index);
    } else if !step.TakeSnapshot? && !step.Crash? {
      StepHistory(s, step);
    }
  }

  lemma StepReaders(s: State, step: Step)
    requires Enabled(s, step) && s.logFile in s.logs
    ensures multiset(After(s, step).readers) == OpenAfter(multiset(s.readers), s, step)
  {
    hide ApplyEdit, InputsOk, OutputsOk, FlushLevelOk, FileMatches, RestartOk, Replay, MaxSequence, WriteTables;
    if step.CloseReader? {
      WithoutOne(s.readers, step.index);
    } else if !step.OpenReader? && !step.Crash? {
      StepHistory(s, step);
    }
  }

  /** In every state of every run, the history is what was written, and the snapshots and iterators
      are those that were given out and not given back. */
  lemma {:induction false} RunIsSeen(states: seq<State>, steps: seq<Step>, i: nat)
    requires IsRun(states, steps) && i <= |steps|
    ensures states[i].history == Written(steps, i)
    ensures multiset(states[i].snapshots) == GivenOut(states, steps, i)
    ensures multiset(states[i].readers) == Open(states, steps, i)
  {
    hide After, Enabled, GivenOutAfter, OpenAfter;
    if i == 0 {
      assert INITIAL.snapshots == [] && INITIAL.readers == [] && INITIAL.history == [];
    } else {
      RunIsSeen(states, steps, i - 1);
      StepHistory(states[i - 1], steps[i - 1]);
      StepSnapshots(states[i - 1], steps[i - 1]);
      StepReaders(states[i - 1], steps[i - 1]);
    }
  }

  /** Nothing that was written is taken back, and nothing is put in between. */
  lemma {:induction false} WrittenGrows(steps: seq<Step>, j: nat, i: nat)
    requires j <= i <= |steps|
    ensures Written(steps, j) <= Written(steps, i)
  {
    if j < i {
      WrittenGrows(steps, j, i - 1);
    }
  }

  lemma {:induction false} MapOfPrefix(hist: seq<Op>, more: seq<Op>, n: nat)
    requires n <= |hist| && hist <= more
    ensures MapAfter(more, n) == MapAfter(hist, n)
  {
    if n > 0 {
      MapOfPrefix(hist, more, n - 1);
      assert more[n - 1] == hist[n - 1];
    }
  }

  // ----- What a snapshot and an iterator show -----

  ghost predicate Shows(hist: seq<Op>, d: Data, n: nat, m: map<UserKey, Bytes>) {
    forall k :: View(hist, Held(d, hist), k, n) == if k in m then Some(m[k]) else None
  }

  /** The map of all that had been written before the step. */
  function MapThen(steps: seq<Step>, j: nat): map<UserKey, Bytes>
    requires j <= |steps|
  {
    MapAfter(Written(steps, j), |Written(steps, j)|)
  }

  /** In runs whose compactions uncover nothing, a snapshot that is still out shows the map of the
      moment at which it was taken, whatever was written, flushed, compacted, released and deleted
      since, and so does every iterator opened at it or at the moment itself. */
  lemma SnapshotIsFrozen(states: seq<State>, steps: seq<Step>, j: nat, i: nat)
    requires IsRun(states, steps) && j < i <= |steps| && steps[j].TakeSnapshot?
    requires forall l :: 0 <= l < i ==> Safe(states[l], steps[l])
    requires states[j].lastSequence in GivenOut(states, steps, i)
    ensures Shows(states[i].history, DataOf(states[i]), states[j].lastSequence, MapThen(steps, j))
  {
    hide Safe, Enabled, After;
    var n, s := states[j].lastSequence, states[i];
    RunIsSeen(states, steps, j);
    RunIsSeen(states, steps, i);
    RunShowsMap(states, steps, j);
    RunShowsMap(states, steps, i);
    assert n in s.snapshots by {
      assert n in multiset(s.snapshots);
    }
    WrittenGrows(steps, j, i);
    MapOfPrefix(Written(steps, j), s.history, n);
  }

  lemma IteratorIsFrozen(states: seq<State>, steps: seq<Step>, j: nat, i: nat, r: Reader)
    requires IsRun(states, steps) && j < i <= |steps|
    requires forall l :: 0 <= l < i ==> Safe(states[l], steps[l])
    requires r in Open(states, steps, i) && r.sequence == states[j].lastSequence
    ensures Shows(states[i].history, ReaderData(states[i], r), r.sequence, MapThen(steps, j))
  {
    hide Safe, Enabled, After;
    var s := states[i];
    RunIsSeen(states, steps, j);
    RunIsSeen(states, steps, i);
    RunShowsMap(states, steps, j);
    RunShowsMap(states, steps, i);
    assert r in s.readers by {
      assert r in multiset(s.readers);
    }
    WrittenGrows(steps, j, i);
    MapOfPrefix(Written(steps, j), s.history, r.sequence);
  }

  /** No snapshot that is out falls below the number from which on compactions keep everything. */
  lemma GivenOutIsProtected(states: seq<State>, steps: seq<Step>, i: nat, n: nat)
    requires IsRun(states, steps) && i <= |steps| && n in GivenOut(states, steps, i)
    ensures SmallestSnapshot(states[i]) <= n <= states[i].lastSequence
  {
    hide Enabled, After;
    RunIsSeen(states, steps, i);
    RunKeepsInv(states, steps, i);
    assert n in multiset(states[i].snapshots);
    assert n in states[i].snapshots;
  }

  /** That number is the least that is out, or the last sequence number if none is. */
  lemma SmallestIs(states: seq<State>, steps: seq<Step>, i: nat)
    requires IsRun(states, steps) && i <= |steps|
    ensures
      var out, smallest := GivenOut(states, steps, i), SmallestSnapshot(states[i]);
      if out == multiset{} then smallest == states[i].lastSequence
      else smallest in out && forall n :: n in out ==> smallest <= n
  {
    assert |states| == |steps| + 1;
    hide Enabled, After, IsRun;
    RunIsSeen(states, steps, i);
    var s, out := states[i], GivenOut(states, steps, i);
    forall n | n in out ensures SmallestSnapshot(s) <= n {
      GivenOutIsProtected(states, steps, i, n);
    }
    if s.snapshots != [] {
      assert s.snapshots[0] in multiset(s.snapshots);
    }
  }

  // ----- What deletion leaves -----

  /** After obsolete files were deleted, every table that is left is referred to, every log that is
      left is needed by a restart, and of these nothing is gone or changed. */
  lemma DeletionIsExact(states: seq<State>, steps: seq<Step>, i: nat)
    requires IsRun(states, steps) && i < |steps| && steps[i].DeleteObsolete?
    ensures var s, s' := states[i], states[i + 1];
      && (forall n :: n in s'.tables <==> LiveTable(s', n))
      && (forall n :: n in s'.tables ==> n in s.tables && s'.tables[n] == s.tables[n])
      && (forall n :: n in s'.logs <==> n in s.logs && n >= LogNumberOf(s'.manifest))
      && (forall n :: n in s'.logs ==> s'.logs[n] == s.logs[n])
  {
    var s, s' := states[i], states[i + 1];
    RunKeepsInv(states, steps, i);
    RunKeepsTables(states, steps, i);
    var order :| Durable(s, order);
    assert forall n :: LiveTable(s', n) <==> LiveTable(s, n);
  }
}
