/** A run in which a deleted key comes back.  Compaction extends the files of its own level by
    those that continue a user key, but not the files it takes from the next level.  When a
    tombstone and the value under it lie in two neighbouring files of that level and only the
    first is an input, the tombstone is dropped and the value shows. */
module LostDelete {
  import opened Keys
  import opened Store
  import opened Reorganise
  import opened Engine
  import opened EngineInvariant
  import opened EngineViews
  import opened FileSearch
  import opened LostDeletePlan

  const HISTORY: seq<Op> := [Put(J, [2]), Put(J, [3]), Put(K, [1]), Delete(K), Put(J, [4])]

  /** The levels, files and cuts of a step are those that the algorithms decide on. */
  ghost predicate AsDecided(s: State, step: Step) {
    match step
    case FlushBegin(file, level) =>
      s.imm.Some? && file.size == TableSize(s.imm.value) && FlushGoes(s.version, file, level)
    case CompactBegin(_, _, _, _, _, _) => CompactionGoes(s, step)
    case TrivialMove(_, _) => false
    case _ => true
  }

  /** A run in which every step is. */
  ghost predicate DecidedRun(states: seq<State>, steps: seq<Step>) {
    IsRun(states, steps) && forall i :: 0 <= i < |steps| ==> AsDecided(states[i], steps[i])
  }

  lemma Extend(states: seq<State>, steps: seq<Step>, step: Step) returns (states': seq<State>, steps': seq<Step>)
    requires DecidedRun(states, steps)
    requires Enabled(states[|steps|], step) && AsDecided(states[|steps|], step)
    ensures states[|steps|].logFile in states[|steps|].logs
    ensures DecidedRun(states', steps') && |steps'| == |steps| + 1 && |states'| == |steps'| + 1
    ensures steps' == steps + [step] && states'[|steps'|] == After(states[|steps|], step)
    ensures states'[|steps|] == states[|steps|]
  {
    hide DataInv, WorkOk, ReaderOk, Durable, After, Enabled, AsDecided;
    RunKeepsInv(states, steps, |steps|);
    assert Counters(states[|steps|]);
    states' := states + [After(states[|steps|], step)];
    steps' := steps + [step];
  }

  /** The fields that the run is about. */
  ghost predicate At(s: State, mem: seq<Entry>, version: Version, snapshots: seq<nat>, nextFile: nat, history: seq<Op>)
  {
    && s.mem == mem && s.imm == None && s.version == version && s.snapshots == snapshots
    && s.nextFile == nextFile && s.work == Idle && s.history == history && s.lastSequence == |history|
  }

  // ----- Steps -----

  lemma InsertOne(t: seq<Entry>, e: Entry)
    ensures InsertAll(t, [e]) == InsertSorted(t, e)
  {
    assert [e][1..] == [];
  }

  /** One update goes into the memtable. */
  lemma WriteStep(states: seq<State>, steps: seq<Step>, op: Op) returns (states': seq<State>, steps': seq<Step>)
    requires DecidedRun(states, steps) && states[|steps|].lastSequence == |states[|steps|].history| < 10
    ensures DecidedRun(states', steps')
    ensures var s := states[|steps|];
      states'[|steps'|] == s.(mem := InsertSorted(s.mem, OpEntry(op, s.lastSequence + 1)),
                              lastSequence := s.lastSequence + 1, history := s.history + [op],
                              logs := states'[|steps'|].logs)
  {
    var s := states[|steps|];
    assert RecordEntries(LogRecord(s.lastSequence + 1, [op])) == [OpEntry(op, s.lastSequence + 1)];
    InsertOne(s.mem, OpEntry(op, s.lastSequence + 1));
    hide RecordEntries, InsertAll, InsertSorted, DecidedRun;
    states', steps' := Extend(states, steps, Write([op]));
  }

  lemma SnapshotStep(states: seq<State>, steps: seq<Step>) returns (states': seq<State>, steps': seq<Step>)
    requires DecidedRun(states, steps)
    ensures DecidedRun(states', steps')
    ensures var s := states[|steps|]; states'[|steps'|] == s.(snapshots := s.snapshots + [s.lastSequence])
  {
    hide DecidedRun;
    states', steps' := Extend(states, steps, TakeSnapshot);
  }

  lemma ReleaseStep(states: seq<State>, steps: seq<Step>) returns (states': seq<State>, steps': seq<Step>)
    requires DecidedRun(states, steps) && states[|steps|].snapshots == [3]
    ensures DecidedRun(states', steps')
    ensures var s := states[|steps|]; states'[|steps'|] == s.(snapshots := [])
  {
    hide DecidedRun;
    states', steps' := Extend(states, steps, ReleaseSnapshot(0));
  }

  lemma SwitchStep(states: seq<State>, steps: seq<Step>) returns (states': seq<State>, steps': seq<Step>)
    requires DecidedRun(states, steps) && states[|steps|].imm == None
    ensures DecidedRun(states', steps')
    ensures var s := states[|steps|];
      states'[|steps'|] == s.(imm := Some(s.mem), mem := [], logFile := s.nextFile, nextFile := s.nextFile + 1,
                              logs := states'[|steps'|].logs)
  {
    hide DecidedRun;
    states', steps' := Extend(states, steps, SwitchMemTable);
  }

  lemma FlushSteps(states: seq<State>, steps: seq<Step>, file: FileMeta, level: nat)
    returns (states': seq<State>, steps': seq<Step>)
    requires DecidedRun(states, steps)
    requires var s := states[|steps|];
      && s.imm.Some? && s.work == Idle && file.number == s.nextFile && FileMatches(file, s.imm.value)
      && file.size == TableSize(s.imm.value) && FlushGoes(s.version, file, level)
    ensures DecidedRun(states', steps') && level < NUM_LEVELS
    ensures var s := states[|steps|];
      states'[|steps'|] == s.(imm := None, version := WithFile(s.version, level, file), nextFile := s.nextFile + 1,
                              logNumber := s.logFile, tables := s.tables[file.number := s.imm.value],
                              manifest := states'[|steps'|].manifest)
  {
    FlushMay(states[|steps|].version, file, level);
    hide DecidedRun, FileMatches, FlushGoes, TableSize;
    states', steps' := Extend(states, steps, FlushBegin(file, level));
    var begun := states'[|steps'|];
    states', steps' := Extend(states', steps', FlushInstall);
    EditAddsFile(begun.version, level, file, states'[|steps'|].manifest[|begun.manifest|]);
  }

  /** The memtable becomes a table, at the level that a flush goes to. */
  lemma Flush(states: seq<State>, steps: seq<Step>, file: FileMeta, level: nat)
    returns (states': seq<State>, steps': seq<Step>)
    requires DecidedRun(states, steps)
    requires var s := states[|steps|];
      && s.imm == None && s.work == Idle && file.number == s.nextFile + 1 && FileMatches(file, s.mem)
      && s.lastSequence == |s.history| && file.size == TableSize(s.mem) && FlushGoes(s.version, file, level)
    ensures DecidedRun(states', steps') && level < NUM_LEVELS
    ensures var s := states[|steps|];
      && At(states'[|steps'|], [], WithFile(s.version, level, file), s.snapshots, s.nextFile + 2, s.history)
      && states'[|steps'|].tables == s.tables[file.number := s.mem]
  {
    hide DecidedRun, FileMatches, FlushGoes, TableSize;
    states', steps' := SwitchStep(states, steps);
    states', steps' := FlushSteps(states', steps', file, level);
  }

  lemma Install(states: seq<State>, steps: seq<Step>) returns (states': seq<State>, steps': seq<Step>)
    requires DecidedRun(states, steps) && states[|steps|].work.Compacting?
    ensures DecidedRun(states', steps') && |steps'| == |steps| + 1 && steps'[|steps|] == CompactInstall
    ensures states'[|steps|] == states[|steps|]
    ensures var s, w := states[|steps|], states[|steps|].work;
      && w.level + 1 < NUM_LEVELS
      && states'[|steps'|] == s.(version := Replaced(s.version, w.level, w.in0, w.in1, w.outs), work := Idle,
                                 manifest := states'[|steps'|].manifest)
  {
    hide AgeOrdered, LevelsDisjoint, TablesOk, FromHistory, ReaderOk, Durable, AsDecided;
    RunKeepsInv(states, steps, |steps|);
    assert WorkOk(states[|steps|]);
    CompactInstallData(states[|steps|]);
    assert AsDecided(states[|steps|], CompactInstall) by {
      InstallIsDecided(states[|steps|]);
    }
    states', steps' := Extend(states, steps, CompactInstall);
  }

  lemma InstallIsDecided(s: State)
    ensures AsDecided(s, CompactInstall)
  {
  }

  // ----- The run -----

  lemma Begin() returns (states: seq<State>, steps: seq<Step>)
    ensures DecidedRun(states, steps) && states[|steps|] == INITIAL
  {
    states, steps := [INITIAL], [];
  }

  lemma WithOne(v: Version, level: nat, f: FileMeta)
    requires level < NUM_LEVELS && v[level] == {}
    ensures WithFile(v, level, f) == v[level := {f}]
  {
    assert v[level] + {f} == {f};
  }

  lemma OneTable(e: Entry, f: FileMeta)
    requires f.smallest == e.key && f.largest == e.key
    ensures FileMatches(f, [e])
  {
  }

  /** Two tables of J alone fill the levels below: the first flush goes past everything, the second
      stops above the first. */
  lemma Fill() returns (states: seq<State>, steps: seq<Step>)
    ensures DecidedRun(states, steps)
    ensures At(states[|steps|], [], Levels({}, {FILL1}, {FILL2}), [], 8, HISTORY[..2])
    ensures var s := states[|steps|]; 7 in s.tables && s.tables[7] == [J2]
  {
    FillGoesTo2();
    FillGoesTo1();
    Sizes();
    OneTable(J1, FILL2);
    OneTable(J2, FILL1);
    assert InsertSorted([], J1) == [J1] && InsertSorted([], J2) == [J2];
    WithOne(Levels({}, {}, {}), 2, FILL2);
    WithOne(Levels({}, {}, {FILL2}), 1, FILL1);
    assert Levels({}, {}, {})[2 := {FILL2}] == Levels({}, {}, {FILL2});
    assert Levels({}, {}, {FILL2})[1 := {FILL1}] == Levels({}, {FILL1}, {FILL2});
    assert [] + [Put(J, [2])] == HISTORY[..1] && HISTORY[..1] + [Put(J, [3])] == HISTORY[..2];
    hide DecidedRun, FlushGoes, TableSize, InsertSorted, FileMatches, WithFile, Levels;
    states, steps := Begin();
    assert EMPTY_VERSION == Levels({}, {}, {}) by {
      NoFiles();
    }
    states, steps := WriteStep(states, steps, Put(J, [2]));
    states, steps := Flush(states, steps, FILL2, 2);
    states, steps := WriteStep(states, steps, Put(J, [3]));
    states, steps := Flush(states, steps, FILL1, 1);
  }

  lemma NoFiles()
    ensures EMPTY_VERSION == Levels({}, {}, {})
  {
  }

  /** K is written and deleted, with a snapshot in between; the table with both stays on level 0. */
  lemma First() returns (states: seq<State>, steps: seq<Step>)
    ensures DecidedRun(states, steps)
    ensures At(states[|steps|], [], Levels({FIRST}, {FILL1}, {FILL2}), [3], 10, HISTORY)
    ensures var s := states[|steps|];
      s.tables.Keys >= {7, 9} && s.tables[7] == [J2] && s.tables[9] == [J5, K4, K3]
  {
    InsertThree();
    FirstFlushed();
    assert HISTORY[..2] + [Put(K, [1])] == HISTORY[..3] && HISTORY[..3] + [Delete(K)] == HISTORY[..4];
    assert HISTORY[..4] + [Put(J, [4])] == HISTORY;
    hide DecidedRun, FlushGoes, TableSize, InsertSorted, FileMatches, WithFile, Levels;
    states, steps := Fill();
    states, steps := WriteStep(states, steps, Put(K, [1]));
    states, steps := SnapshotStep(states, steps);
    states, steps := WriteStep(states, steps, Delete(K));
    states, steps := WriteStep(states, steps, Put(J, [4]));
    states, steps := Flush(states, steps, FIRST, 0);
  }

  lemma FirstFlushed()
    ensures FlushGoes(Levels({}, {FILL1}, {FILL2}), FIRST, 0) && FileMatches(FIRST, [J5, K4, K3])
    ensures FIRST.size == TableSize([J5, K4, K3])
    ensures WithFile(Levels({}, {FILL1}, {FILL2}), 0, FIRST) == Levels({FIRST}, {FILL1}, {FILL2})
  {
    Sizes();
    Singles();
    StaysOn0([FILL1], [FILL2], FIRST, FILL1);
    WithOne(Levels({}, {FILL1}, {FILL2}), 0, FIRST);
    assert Levels({}, {FILL1}, {FILL2})[0 := {FIRST}] == Levels({FIRST}, {FILL1}, {FILL2});
  }

  lemma InsertThree()
    ensures InsertSorted([], K3) == [K3] && InsertSorted([K3], K4) == [K4, K3]
    ensures InsertSorted([K4, K3], J5) == [J5, K4, K3]
  {
  }

  lemma FirstOutputs(v: Version, tables: map<nat, seq<Entry>>)
    requires tables.Keys >= {7, 9, 10, 11} && tables[7] == [J2] && tables[9] == [J5, K4, K3]
    requires tables[10] == [J5, J2, K4] && tables[11] == [K3]
    ensures OutputsOk(v, tables, 0, {FIRST} + {FILL1}, 3, {UPPER, LOWER})
  {
    var files, outs := {FIRST} + {FILL1}, {UPPER, LOWER};
    assert UPPER in outs && LOWER in outs && FIRST in files && FILL1 in files;
    forall e ensures InFiles(tables, outs, e) <==> e in INPUT1 {
    }
    forall e ensures InFiles(tables, files, e) <==> e in INPUT1 {
    }
    forall e | e in INPUT1 ensures !Hidden(tables, files, 3, e) {
    }
  }

  /** The first compaction puts the tombstone at the end of one file and the value into the next. */
  lemma Split() returns (states: seq<State>, steps: seq<Step>)
    ensures DecidedRun(states, steps)
    ensures At(states[|steps|], [], Levels({}, {UPPER, LOWER}, {FILL2}), [3], 12, HISTORY)
    ensures var s := states[|steps|];
      s.tables.Keys >= {10, 11} && s.tables[10] == [J5, J2, K4] && s.tables[11] == [K3]
  {
    states, steps := First();
    FirstEnabled(states[|steps|]);
    hide DecidedRun, AsDecided, InputsOk, OutputsOk, Replaced, Levels, Enabled;
    states, steps := Extend(states, steps, STEP1);
    states, steps := Install(states, steps);
  }

  lemma FirstEnabled(s: State)
    requires s.version == Levels({FIRST}, {FILL1}, {FILL2}) && s.nextFile == 10 && s.snapshots == [3] && s.work.Idle?
    requires s.tables.Keys >= {7, 9} && s.tables[7] == [J2] && s.tables[9] == [J5, K4, K3]
    ensures Enabled(s, STEP1) && AsDecided(s, STEP1)
    ensures Replaced(s.version, 0, {FIRST}, {FILL1}, {UPPER, LOWER}) == Levels({}, {UPPER, LOWER}, {FILL2})
  {
    hide CompactionGoes, InputsOk, OutputsOk, Replaced, Levels;
    FirstGoes(s);
    FirstOutputs(s.version, s.tables + STEP1.written);
    FirstInputsOk(s.version);
  }

  lemma FirstInputsOk(v: Version)
    requires v == Levels({FIRST}, {FILL1}, {FILL2})
    ensures InputsOk(v, 0, {FIRST}, {FILL1})
    ensures Replaced(v, 0, {FIRST}, {FILL1}, {UPPER, LOWER}) == Levels({}, {UPPER, LOWER}, {FILL2})
  {
    assert FIRST in {FIRST};
    assert {FIRST} - {FIRST} == {} && {FILL1} - {FILL1} + {UPPER, LOWER} == {UPPER, LOWER};
  }

  lemma SecondOutputs(v: Version, tables: map<nat, seq<Entry>>)
    requires v == Levels({SECOND}, {UPPER, LOWER}, {FILL2})
    requires tables.Keys >= {10, 13, 14} && tables[10] == [J5, J2, K4] && tables[13] == [J6] && tables[14] == [J6]
    ensures OutputsOk(v, tables, 0, {SECOND} + {UPPER}, 6, {MERGED})
    ensures InputsOk(v, 0, {SECOND}, {UPPER})
  {
    var files, outs := {SECOND} + {UPPER}, {MERGED};
    assert SECOND in files && UPPER in files && MERGED in outs;
    forall e ensures InFiles(tables, outs, e) <==> e == J6 {
    }
    forall e ensures InFiles(tables, files, e) <==> e in INPUT2 {
    }
    assert Hidden(tables, files, 6, J5) && Hidden(tables, files, 6, J2) && !Hidden(tables, files, 6, J6);
    assert ObsoleteTombstone(v, 0, 6, K4);
  }

  /** The snapshot is gone, and one more table of J is on level 0. */
  lemma BeforeSecond() returns (states: seq<State>, steps: seq<Step>)
    ensures DecidedRun(states, steps)
    ensures At(states[|steps|], [], Levels({SECOND}, {UPPER, LOWER}, {FILL2}), [], 14, HISTORY + [Put(J, [5])])
    ensures var s := states[|steps|];
      s.tables.Keys >= {10, 11, 13} && s.tables[10] == [J5, J2, K4] && s.tables[11] == [K3] && s.tables[13] == [J6]
  {
    Sizes();
    Singles();
    StaysOn0([UPPER, LOWER], [FILL2], SECOND, UPPER);
    OneTable(J6, SECOND);
    assert InsertSorted([], J6) == [J6];
    WithOne(Levels({}, {UPPER, LOWER}, {FILL2}), 0, SECOND);
    assert Levels({}, {UPPER, LOWER}, {FILL2})[0 := {SECOND}] == Levels({SECOND}, {UPPER, LOWER}, {FILL2});
    hide DecidedRun, FlushGoes, TableSize, InsertSorted, FileMatches, WithFile, Levels;
    states, steps := Split();
    states, steps := ReleaseStep(states, steps);
    states, steps := WriteStep(states, steps, Put(J, [5]));
    states, steps := Flush(states, steps, SECOND, 0);
  }

  lemma BeforeLoss() returns (states: seq<State>, steps: seq<Step>)
    ensures DecidedRun(states, steps)
    ensures var s := states[|steps|];
      && s.work == Compacting(0, {SECOND}, {UPPER}, 6, {MERGED})
      && s.version == Levels({SECOND}, {UPPER, LOWER}, {FILL2})
      && s.history == HISTORY + [Put(J, [5])] && s.lastSequence == 6
      && s.mem == [] && s.imm == None
      && s.tables.Keys >= {10, 11, 13} && s.tables[10] == [J5, J2, K4] && s.tables[11] == [K3] && s.tables[13] == [J6]
  {
    states, steps := BeforeSecond();
    SecondEnabled(states[|steps|]);
    hide DecidedRun, AsDecided, InputsOk, OutputsOk, Levels, Enabled;
    states, steps := Extend(states, steps, STEP2);
  }

  lemma SecondEnabled(s: State)
    requires s.version == Levels({SECOND}, {UPPER, LOWER}, {FILL2}) && s.nextFile == 14 && s.snapshots == []
    requires s.lastSequence == 6
    requires s.tables.Keys >= {10, 13} && s.tables[10] == [J5, J2, K4] && s.tables[13] == [J6] && s.work.Idle?
    ensures Enabled(s, STEP2) && AsDecided(s, STEP2)
  {
    hide CompactionGoes, InputsOk, OutputsOk, Levels;
    SecondGoes(s);
    SecondOutputs(s.version, s.tables + STEP2.written);
  }

  /** K was deleted, and a reader of the newest state finds no value; one installed compaction
      later, the next reader finds the value that was deleted. */
  lemma DeletedKeyComesBack() returns (states: seq<State>, steps: seq<Step>)
    ensures DecidedRun(states, steps) && |steps| > 0 && steps[|steps| - 1] == CompactInstall
    ensures var s, s' := states[|steps| - 1], states[|steps|];
      && s.history == s'.history && s.lastSequence == s'.lastSequence
      && K !in MapAfter(s.history, |s.history|)
      && View(s.history, Held(DataOf(s), s.history), K, s.lastSequence) == None
      && View(s.history, Held(DataOf(s'), s.history), K, s.lastSequence) == Some([1])
  {
    states, steps := BeforeLoss();
    var s := states[|steps|];
    RunKeepsInv(states, steps, |steps|);
    LossUncovers(s);
    assert WorkOk(s);
    CoveredViewBefore(DataOf(s), s.history, 0, {SECOND}, {UPPER}, 6, K4, K3);
    UncoveredViewAfter(DataOf(s), s.history, 0, {SECOND}, {UPPER}, 6, {MERGED}, K4, K3);
    states, steps := Install(states, steps);
    LastOf(HISTORY, Put(J, [5]));
  }

  lemma LossUncovers(s: State)
    requires s.version == Levels({SECOND}, {UPPER, LOWER}, {FILL2}) && s.mem == [] && s.imm == None
    requires s.tables.Keys >= {10, 11, 13} && s.tables[10] == [J5, J2, K4] && s.tables[11] == [K3]
    requires s.tables[13] == [J6]
    requires TablesOk(s.version, s.tables)
    ensures Uncovers(DataOf(s), 0, {SECOND}, {UPPER}, 6, K4, K3)
  {
    var d := DataOf(s);
    assert UPPER in {SECOND} + {UPPER} && LOWER in s.version[1] - {UPPER};
    assert ObsoleteTombstone(s.version, 0, 6, K4);
    assert FILL2 in s.version[2] && FileMatches(FILL2, s.tables[FILL2.number]);
    var fill := s.tables[FILL2.number];
    forall x | x in fill ensures x.key.user == J {
      InFileRange(FILL2, fill, x);
    }
    forall loc, x | Holds(d, loc, x) && x.key.user == K ensures x == K4 || x == K3 {
    }
  }

  lemma LastOf(hist: seq<Op>, op: Op)
    requires hist == HISTORY && op == Put(J, [5])
    ensures K !in MapAfter(hist + [op], 6)
  {
    var h := hist + [op];
    assert h[5] == op && h[4] == Put(J, [4]) && h[3] == Delete(K);
    assert K !in MapAfter(h, 4);
    assert K !in MapAfter(h, 5);
  }
}
