/** A run in which a flush inside an unfinished compaction spoils a level.  A range is compacted by
    hand whose inputs leave a gap; a memtable of the gap is flushed meanwhile to the level of the
    outputs, and the one output then reaches across it.  A lookup by halving misses a key. */
module OverlapRun {
  import opened Keys
  import opened Store
  import opened Reorganise
  import opened Engine
  import opened EngineInvariant
  import opened EngineViews
  import opened FileSearch
  import opened PointLookup
  import opened CompactionInputs
  import opened Compactions
  import opened CompactionPicker
  import opened Database
  import opened LostDeletePlan
  import opened LostDelete

  const A: UserKey := 3.0
  const C: UserKey := 4.0
  const E: UserKey := 5.0

  const A1: Entry := Entry(InternalKey(A, 1, Value), [1])
  const E2: Entry := Entry(InternalKey(E, 2, Value), [2])
  const A3: Entry := Entry(InternalKey(A, 3, Value), [3])
  const E4: Entry := Entry(InternalKey(E, 4, Value), [4])
  const C5: Entry := Entry(InternalKey(C, 5, Value), [5])

  const LOW_A: FileMeta := FileMeta(5, 100, A1.key, A1.key)
  const LOW_E: FileMeta := FileMeta(7, 100, E2.key, E2.key)
  const HIGH_A: FileMeta := FileMeta(9, 100, A3.key, A3.key)
  const HIGH_E: FileMeta := FileMeta(11, 100, E4.key, E4.key)
  const OUTPUT: FileMeta := FileMeta(12, 200, A3.key, E4.key)
  const BETWEEN: FileMeta := FileMeta(14, 100, C5.key, C5.key)

  const UPDATES: seq<Op> := [Put(A, [1]), Put(E, [2]), Put(A, [3]), Put(E, [4]), Put(C, [5])]

  // ----- The tables -----

  lemma OneSize(e: Entry)
    requires e.key.user != K
    ensures TableSize([e]) == 100
  {
    var t := [e];
    assert t[..|t| - 1] == [];
  }

  lemma TwoSize(d: Entry, e: Entry)
    requires d.key.user != K && e.key.user != K
    ensures TableSize([d, e]) == 200
  {
    OneSize(d);
    var t := [d, e];
    assert t[..|t| - 1] == [d];
  }

  lemma Apart2(b: FileMeta, c: FileMeta)
    requires Ordered(b) && Ordered(c) && Less(b.largest, c.smallest)
    ensures SortedDisjoint([b, c]) && SortedDisjoint([b]) && SortedDisjoint([c]) && SortedDisjoint([])
    ensures Files([b, c]) == {b, c} && Files([b]) == {b} && Files([]) == {}
  {
  }

  /** A file that overlaps nothing on the levels 0 and 1 and something on level 2 goes to level 1. */
  lemma GoesTo1(b: seq<FileMeta>, c: seq<FileMeta>, file: FileMeta, g: FileMeta)
    requires SortedDisjoint(b) && SortedDisjoint(c) && g in c && RangesTouch(file, g)
    requires forall f :: f in b ==> !RangesTouch(file, f)
    requires SumSizes(Touching(c, Some(file.smallest.user), Some(file.largest.user))) <= 10 * MAX_FILE_SIZE
    ensures FlushGoes(Levels({}, Files(b), Files(c)), file, 1)
  {
    RowsAreListed([], b, c);
    assert Files([]) == {};
    assert Overlapped(c, file) && !Overlapped(b, file);
    assert GoesTo(Rows([], b, c), file, MAX_FILE_SIZE, 1);
  }

  /** A file that overlaps nothing goes to level 2. */
  lemma GoesTo2(b: seq<FileMeta>, c: seq<FileMeta>, file: FileMeta)
    requires SortedDisjoint(b) && SortedDisjoint(c)
    requires forall f :: f in b || f in c ==> !RangesTouch(file, f)
    requires SumSizes(Touching(c, Some(file.smallest.user), Some(file.largest.user))) <= 10 * MAX_FILE_SIZE
    ensures FlushGoes(Levels({}, Files(b), Files(c)), file, 2)
  {
    RowsAreListed([], b, c);
    assert Files([]) == {};
    var rows := Rows([], b, c);
    assert !GoesNoDeeper(rows, file, MAX_FILE_SIZE, 0);
    assert Touching([], Some(file.smallest.user), Some(file.largest.user)) == [];
    assert !GoesNoDeeper(rows, file, MAX_FILE_SIZE, 1);
    assert GoesTo(rows, file, MAX_FILE_SIZE, 2);
  }

  lemma {:induction false} SmallSums(files: seq<FileMeta>, lo: Option<UserKey>, hi: Option<UserKey>)
    requires forall f :: f in files ==> f.size <= 100
    ensures SumSizes(Touching(files, lo, hi)) <= 100 * |files|
  {
    if files != [] {
      var front, last := files[..|files| - 1], files[|files| - 1];
      SmallSums(front, lo, hi);
      var r := Touching(front, lo, hi);
      assert (r + [last])[..|r + [last]| - 1] == r;
    }
  }

  lemma FlushesGo()
    ensures FlushGoes(Levels({}, {}, {}), LOW_A, 2)
    ensures FlushGoes(Levels({}, {}, {LOW_A}), LOW_E, 2)
    ensures FlushGoes(Levels({}, {}, {LOW_A, LOW_E}), HIGH_A, 1)
    ensures FlushGoes(Levels({}, {HIGH_A}, {LOW_A, LOW_E}), HIGH_E, 1)
    ensures FlushGoes(Levels({}, {HIGH_A, HIGH_E}, {LOW_A, LOW_E}), BETWEEN, 2)
  {
    hide SortedDisjoint, FlushGoes, Levels, Touching, SumSizes;
    Apart2(LOW_A, LOW_E);
    Apart2(HIGH_A, HIGH_E);
    SmallSums([], Some(A), Some(A));
    SmallSums([LOW_A], Some(E), Some(E));
    SmallSums([LOW_A, LOW_E], Some(A), Some(A));
    SmallSums([LOW_A, LOW_E], Some(E), Some(E));
    SmallSums([LOW_A, LOW_E], Some(C), Some(C));
    GoesTo2([], [], LOW_A);
    GoesTo2([], [LOW_A], LOW_E);
    GoesTo1([], [LOW_A, LOW_E], HIGH_A, LOW_A);
    GoesTo1([HIGH_A], [LOW_A, LOW_E], HIGH_E, LOW_E);
    GoesTo2([HIGH_A, HIGH_E], [LOW_A, LOW_E], BETWEEN);
  }

  // ----- The compaction -----

  const MANUAL: Manual := Manual(1, Some(A), Some(E))
  const INPUT: seq<Entry> := [A3, A1, E4, E2]
  const STEP: Step := CompactBegin(1, {HIGH_A, HIGH_E}, {LOW_A, LOW_E}, {OUTPUT}, map[12 := [A3, E4]], 13)
  const LEVELS: Version := Levels({}, {HIGH_A, HIGH_E}, {LOW_A, LOW_E})

  lemma TouchingTwo(b: FileMeta, c: FileMeta, lo: Option<UserKey>, hi: Option<UserKey>)
    requires Touches(b, lo, hi) && Touches(c, lo, hi)
    ensures Touching([b, c], lo, hi) == [b, c]
  {
    var files := [b, c];
    TouchingOne(b, lo, hi);
    assert files[..|files| - 1] == [b];
  }

  lemma Hull2(b: FileMeta, c: FileMeta)
    requires Ordered(b) && Ordered(c) && Less(b.largest, c.smallest)
    ensures IsHull([b, c], b.smallest, c.largest)
  {
    assert b in [b, c] && c in [b, c];
  }

  /** Two files that begin and end with A and E, with the two below them. */
  lemma HullOf4()
    ensures IsHull([HIGH_A, HIGH_E] + [LOW_A, LOW_E], A3.key, E2.key)
  {
    var files := [HIGH_A, HIGH_E] + [LOW_A, LOW_E];
    assert HIGH_A in files && LOW_E in files;
  }

  lemma NoMoreFound(b: FileMeta, c: FileMeta)
    requires b.smallest == b.largest && c.smallest == c.largest && b.smallest.user != c.smallest.user
    ensures Extends([b, c], [b, c], [b, c])
  {
    var files := [b, c];
    forall k | IsLargest(files, k) ensures NoBoundary(files, k) {
      var f :| f in files && f.largest == k;
    }
  }

  lemma LevelTouched(b: FileMeta, c: FileMeta, level: nat, sel: seq<FileMeta>, lo: InternalKey, hi: InternalKey)
    requires level > 0 && IsHull(sel, lo, hi)
    requires Touches(b, Some(lo.user), Some(hi.user)) && Touches(c, Some(lo.user), Some(hi.user))
    ensures TouchedBy([b, c], level, sel, [b, c])
  {
    hide IsHull;
    TouchingTwo(b, c, Some(lo.user), Some(hi.user));
    assert SearchRange(level, [b, c], Some(lo.user), Some(hi.user), Some(lo.user), Some(hi.user));
    assert Overlapping(level, [b, c], lo, hi, [b, c]);
  }

  lemma NoneTouched(level: nat, sel: seq<FileMeta>, lo: InternalKey, hi: InternalKey)
    requires level > 0 && IsHull(sel, lo, hi)
    ensures TouchedBy([], level, sel, [])
  {
    hide IsHull;
    assert SearchRange(level, [], Some(lo.user), Some(hi.user), Some(lo.user), Some(hi.user));
    assert Overlapping(level, [], lo, hi, []);
  }

  lemma ManualInputs()
    ensures
      var lists := Rows([], [HIGH_A, HIGH_E], [LOW_A, LOW_E]);
      && Lists(lists, LEVELS)
      && StartsInRange(lists[1], 1, Some(A), Some(E), MAX_FILE_SIZE, [HIGH_A, HIGH_E])
      && SetUp(lists, 1, MAX_FILE_SIZE, [HIGH_A, HIGH_E], [HIGH_A, HIGH_E], [LOW_A, LOW_E])
      && GrandparentsOk(lists, 1, [HIGH_A, HIGH_E], [LOW_A, LOW_E], [])
  {
    hide Extends, SortedDisjoint, IsHull, StartsInRange, TouchedBy, Less, Expansion;
    var lists := Rows([], [HIGH_A, HIGH_E], [LOW_A, LOW_E]);
    ManualStarts();
    ManualHulls();
    NoMoreFound(HIGH_A, HIGH_E);
    RowsAreListed([], [HIGH_A, HIGH_E], [LOW_A, LOW_E]);
    LevelTouched(LOW_A, LOW_E, 2, [HIGH_A, HIGH_E], A3.key, E4.key);
    NoneTouched(3, [HIGH_A, HIGH_E] + [LOW_A, LOW_E], A3.key, E2.key);
    NothingToExpand(lists);
    assert SetUp(lists, 1, MAX_FILE_SIZE, [HIGH_A, HIGH_E], [HIGH_A, HIGH_E], [LOW_A, LOW_E]);
  }

  lemma ManualHulls()
    ensures IsHull([HIGH_A, HIGH_E], A3.key, E4.key) && IsHull([HIGH_A, HIGH_E] + [LOW_A, LOW_E], A3.key, E2.key)
    ensures SortedDisjoint([HIGH_A, HIGH_E]) && SortedDisjoint([LOW_A, LOW_E])
    ensures Files([HIGH_A, HIGH_E]) == {HIGH_A, HIGH_E} && Files([LOW_A, LOW_E]) == {LOW_A, LOW_E}
  {
    Hull2(HIGH_A, HIGH_E);
    HullOf4();
    Apart2(HIGH_A, HIGH_E);
    Apart2(LOW_A, LOW_E);
  }

  lemma NothingToExpand(lists: seq<seq<FileMeta>>)
    requires lists == Rows([], [HIGH_A, HIGH_E], [LOW_A, LOW_E])
    ensures
      var base, next := [HIGH_A, HIGH_E], [LOW_A, LOW_E];
      ExpandedIfPossible(lists, 1, MAX_FILE_SIZE, base, next, base, next)
  {
    var base, next := [HIGH_A, HIGH_E], [LOW_A, LOW_E];
    HullOf4();
    NoMoreFound(HIGH_A, HIGH_E);
    LevelTouched(HIGH_A, HIGH_E, 1, base + next, A3.key, E2.key);
    hide Extends, IsHull, TouchedBy, SumSizes;
    ExpansionIs(lists, 1, MAX_FILE_SIZE, base, next, base, base);
  }

  lemma ManualStarts()
    ensures StartsInRange([HIGH_A, HIGH_E], 1, Some(A), Some(E), MAX_FILE_SIZE, [HIGH_A, HIGH_E])
  {
    var files := [HIGH_A, HIGH_E];
    TouchingTwo(HIGH_A, HIGH_E, Some(A), Some(E));
    assert SearchRange(1, files, Some(A), Some(E), Some(A), Some(E));
    var one := files[..1];
    assert one == [HIGH_A] && one[..|one| - 1] == [];
    assert SumSizes(one) == 100;
  }

  lemma ManualSurvivors(v: Version)
    ensures Survivors(INPUT, v, 1, 4, 4) == [A3, E4]
  {
    assert !HiddenAt(INPUT, 4, 0) && HiddenAt(INPUT, 4, 1) && !HiddenAt(INPUT, 4, 2) && HiddenAt(INPUT, 4, 3) by {
      assert INPUT[0] == A3 && INPUT[2] == E4;
    }
    assert !ObsoleteTombstone(v, 1, 4, INPUT[0]) && !ObsoleteTombstone(v, 1, 4, INPUT[2]);
    hide HiddenAt, ObsoleteTombstone;
    SurvivorsStep(INPUT, v, 1, 4, 0);
    SurvivorsStep(INPUT, v, 1, 4, 1);
    SurvivorsStep(INPUT, v, 1, 4, 2);
    SurvivorsStep(INPUT, v, 1, 4, 3);
    assert Survivors(INPUT, v, 1, 4, 0) == [];
  }

  lemma ManualIsCut()
    ensures WellCut(Limits(INPUT, [], MAX_FILE_SIZE, SIZES), [[A3, E4]])
  {
    var x := Limits(INPUT, [], MAX_FILE_SIZE, SIZES);
    forall i: nat ensures !Compactions.StopsAt(x, i) {
      if i < |x.input| {
        NeverPassed(x, i);
      }
    }
    OneSize(A3);
    var chunk := [A3, E4];
    assert chunk[..1] == [A3];
    assert RunsOn(x, chunk);
  }

  lemma NeverPassed(x: Limits, i: nat)
    requires x.grandparents == [] && i < |x.input|
    ensures LastStop(x, i) == 0
  {
    if i > 0 {
      NeverPassed(x, i - 1);
      var none: seq<FileMeta> := [];
      assert none[0..0] == [];
    }
  }

  ghost predicate BeforeManual(s: State) {
    && s.version == LEVELS && s.nextFile == 12 && s.snapshots == [] && s.lastSequence == 4 && s.work.Idle?
    && s.tables.Keys >= {5, 7, 9, 11}
    && s.tables[5] == [A1] && s.tables[7] == [E2] && s.tables[9] == [A3] && s.tables[11] == [E4]
  }

  lemma ManualReads(s: State)
    requires BeforeManual(s)
    ensures IsInput(s, [HIGH_A, HIGH_E], [LOW_A, LOW_E], INPUT)
  {
    Apart2(HIGH_A, HIGH_E);
    Apart2(LOW_A, LOW_E);
    var files := {HIGH_A, HIGH_E} + {LOW_A, LOW_E};
    forall e ensures e in INPUT <==> InFiles(s.tables, files, e) {
      assert HIGH_A in files && HIGH_E in files && LOW_A in files && LOW_E in files;
    }
  }

  lemma ManualWrites()
    ensures WrittenAs(STEP, [[A3, E4]], 12, SIZES)
  {
    TwoSize(A3, E4);
  }

  lemma ManualCutRight(s: State)
    requires BeforeManual(s)
    ensures CutRight(s, 1, [HIGH_A, HIGH_E], [LOW_A, LOW_E], [], MAX_FILE_SIZE, SIZES, STEP)
  {
    Apart2(HIGH_A, HIGH_E);
    Apart2(LOW_A, LOW_E);
    ManualReads(s);
    ManualIsCut();
    ManualSurvivors(s.version);
    ManualWrites();
    hide IsInput, WellCut, Survivors, WrittenAs;
    var chunks := [[A3, E4]];
    assert chunks[..|chunks| - 1] == [];
    assert Flatten(chunks) == [A3, E4];
  }

  /** The compaction asked for is the one that the range and the algorithms give. */
  lemma ManualGoes(s: State)
    requires BeforeManual(s)
    ensures CompactionGoes(s, STEP)
  {
    ManualInputs();
    ManualCutRight(s);
    hide Lists, StartsInRange, SetUp, GrandparentsOk, CutRight;
    assert CompactsRange(s, Rows([], [HIGH_A, HIGH_E], [LOW_A, LOW_E]), MAX_FILE_SIZE, MANUAL, SIZES, STEP);
  }

  lemma ManualInputsOk()
    ensures InputsOk(LEVELS, 1, {HIGH_A, HIGH_E}, {LOW_A, LOW_E})
  {
    assert HIGH_A in {HIGH_A, HIGH_E} && HIGH_E in {HIGH_A, HIGH_E};
  }

  lemma ManualOutputs(tables: map<nat, seq<Entry>>)
    requires tables.Keys >= {5, 7, 9, 11, 12} && tables[12] == [A3, E4]
    requires tables[5] == [A1] && tables[7] == [E2] && tables[9] == [A3] && tables[11] == [E4]
    ensures OutputsOk(LEVELS, tables, 1, {HIGH_A, HIGH_E} + {LOW_A, LOW_E}, 4, {OUTPUT})
  {
    var files, outs := {HIGH_A, HIGH_E} + {LOW_A, LOW_E}, {OUTPUT};
    assert OUTPUT in outs && HIGH_A in files && HIGH_E in files && LOW_A in files && LOW_E in files;
    forall e ensures InFiles(tables, outs, e) <==> e == A3 || e == E4 {
    }
    forall e ensures InFiles(tables, files, e) <==> e in INPUT {
    }
    assert Hidden(tables, files, 4, A1) && Hidden(tables, files, 4, E2);
    assert !Hidden(tables, files, 4, A3) && !Hidden(tables, files, 4, E4);
  }

  lemma ManualEnabled(s: State)
    requires BeforeManual(s)
    ensures Enabled(s, STEP) && AsDecided(s, STEP)
  {
    hide CompactionGoes, InputsOk, OutputsOk;
    ManualGoes(s);
    ManualInputsOk();
    ManualOutputs(s.tables + STEP.written);
  }

  // ----- The run -----

  lemma OneMatches(e: Entry, f: FileMeta)
    requires f.smallest == e.key && f.largest == e.key
    ensures FileMatches(f, [e]) && InsertSorted([], e) == [e]
  {
  }

  lemma LevelsGrow()
    ensures EMPTY_VERSION == Levels({}, {}, {})
    ensures WithFile(Levels({}, {}, {}), 2, LOW_A) == Levels({}, {}, {LOW_A})
    ensures WithFile(Levels({}, {}, {LOW_A}), 2, LOW_E) == Levels({}, {}, {LOW_A, LOW_E})
    ensures WithFile(Levels({}, {}, {LOW_A, LOW_E}), 1, HIGH_A) == Levels({}, {HIGH_A}, {LOW_A, LOW_E})
    ensures WithFile(Levels({}, {HIGH_A}, {LOW_A, LOW_E}), 1, HIGH_E) == LEVELS
  {
    var v := Levels({}, {}, {LOW_A});
    assert {LOW_A} + {LOW_E} == {LOW_A, LOW_E} && {HIGH_A} + {HIGH_E} == {HIGH_A, HIGH_E};
    assert {} + {LOW_A} == {LOW_A} && {} + {HIGH_A} == {HIGH_A};
  }

  lemma Tables()
    ensures FileMatches(LOW_A, [A1]) && FileMatches(LOW_E, [E2])
    ensures FileMatches(HIGH_A, [A3]) && FileMatches(HIGH_E, [E4])
    ensures InsertSorted([], A1) == [A1] && InsertSorted([], E2) == [E2] && InsertSorted([], A3) == [A3]
    ensures InsertSorted([], E4) == [E4] && InsertSorted([], C5) == [C5] && FileMatches(BETWEEN, [C5])
    ensures TableSize([A1]) == 100 && TableSize([E2]) == 100 && TableSize([A3]) == 100 && TableSize([E4]) == 100
  {
    OneMatches(A1, LOW_A);
    OneMatches(E2, LOW_E);
    OneMatches(A3, HIGH_A);
    OneMatches(E4, HIGH_E);
    OneMatches(C5, BETWEEN);
    OneSize(A1);
    OneSize(E2);
    OneSize(A3);
    OneSize(E4);
  }

  lemma Prefixes()
    ensures [] + [Put(A, [1])] == UPDATES[..1] && UPDATES[..1] + [Put(E, [2])] == UPDATES[..2]
    ensures UPDATES[..2] + [Put(A, [3])] == UPDATES[..3] && UPDATES[..3] + [Put(E, [4])] == UPDATES[..4]
    ensures UPDATES[..4] + [Put(C, [5])] == UPDATES
  {
  }

  /** Two files of A and E on level 2, and two newer ones on level 1, each stopped by the one below. */
  lemma Filled() returns (states: seq<State>, steps: seq<Step>)
    ensures DecidedRun(states, steps)
    ensures At(states[|steps|], [], LEVELS, [], 12, UPDATES[..4]) && BeforeManual(states[|steps|])
  {
    FlushesGo();
    LevelsGrow();
    Tables();
    Prefixes();
    hide DecidedRun, FlushGoes, TableSize, InsertSorted, FileMatches, WithFile, Levels;
    states, steps := Begin();
    states, steps := LostDelete.WriteStep(states, steps, Put(A, [1]));
    states, steps := Flush(states, steps, LOW_A, 2);
    states, steps := LostDelete.WriteStep(states, steps, Put(E, [2]));
    states, steps := Flush(states, steps, LOW_E, 2);
    states, steps := LostDelete.WriteStep(states, steps, Put(A, [3]));
    states, steps := Flush(states, steps, HIGH_A, 1);
    states, steps := LostDelete.WriteStep(states, steps, Put(E, [4]));
    states, steps := Flush(states, steps, HIGH_E, 1);
  }

  /** While the output is written but not installed, C is written and its memtable becomes immutable. */
  lemma Meanwhile() returns (states: seq<State>, steps: seq<Step>)
    ensures DecidedRun(states, steps)
    ensures var s := states[|steps|];
      && s.version == LEVELS && s.imm == Some([C5]) && s.mem == [] && s.nextFile == 14
      && s.work == Compacting(1, {HIGH_A, HIGH_E}, {LOW_A, LOW_E}, 4, {OUTPUT})
      && s.history == UPDATES && s.lastSequence == 5
      && s.tables.Keys >= {12} && s.tables[12] == [A3, E4]
  {
    Tables();
    Prefixes();
    states, steps := Filled();
    ManualEnabled(states[|steps|]);
    hide DecidedRun, AsDecided, InputsOk, OutputsOk, Enabled, InsertSorted, TableSize;
    states, steps := Extend(states, steps, STEP);
    states, steps := LostDelete.WriteStep(states, steps, Put(C, [5]));
    states, steps := LostDelete.SwitchStep(states, steps);
  }

  /** A flush while a compaction is under way: the same as at any other time, but the compaction goes on. */
  function FlushedInside(s: State, file: FileMeta, level: nat): State
    requires s.imm.Some?
  {
    LogAndApply(s.(nextFile := s.nextFile + 1, tables := s.tables[file.number := s.imm.value]),
                s.logFile, {}, {(level, file)}).(imm := None)
  }

  /** Two files of level 2 overlap, and the search by halving finds no file for E, which is there and
      nowhere else. */
  ghost predicate Spoiled(s: State) {
    && !LevelsDisjoint(s.version)
    && s.version[2] == Files([OUTPUT, BETWEEN]) && Less(OUTPUT.smallest, BETWEEN.smallest)
    && Bisect([OUTPUT, BETWEEN], SeekKey(E, 5), 0, 2) == 2
    && Holds(DataOf(s), InFile(2, OUTPUT), E4)
    && (forall loc, x :: Holds(DataOf(s), loc, x) ==> loc.InFile? && loc.level == 2)
    && s.history == UPDATES
  }

  /** The memtable is flushed as the algorithms decide, and then the outputs are installed. */
  ghost predicate FlushedThenInstalled(s: State, file: FileMeta, level: nat, s': State) {
    && s.work.Compacting? && s.imm.Some? && file.number == s.nextFile && FileMatches(file, s.imm.value)
    && file.size == TableSize(s.imm.value) && FlushGoes(s.version, file, level)
    && var s1 := FlushedInside(s, file, level);
    && s1.logFile in s1.logs && Enabled(s1, CompactInstall) && s' == After(s1, CompactInstall)
  }

  /** After a run of the machine, one flush inside a compaction spoils a level, and with it lookups. */
  lemma FlushSpoilsLevel() returns (states: seq<State>, steps: seq<Step>, s': State)
    ensures DecidedRun(states, steps) && FlushedThenInstalled(states[|steps|], BETWEEN, 2, s')
    ensures Spoiled(s') && E in MapAfter(UPDATES, 5)
  {
    states, steps := Meanwhile();
    RunKeepsInv(states, steps, |steps|);
    var s := states[|steps|];
    assert s.logFile in s.logs;
    hide DecidedRun, Spoiled, FlushedThenInstalled, Inv;
    s' := Spoils(s);
    MapHasE();
  }

  lemma Spoils(s: State) returns (s': State)
    requires s.version == LEVELS && s.imm == Some([C5]) && s.mem == [] && s.nextFile == 14 && s.logFile in s.logs
    requires s.work == Compacting(1, {HIGH_A, HIGH_E}, {LOW_A, LOW_E}, 4, {OUTPUT}) && s.history == UPDATES
    requires s.tables.Keys >= {12} && s.tables[12] == [A3, E4]
    ensures FlushedThenInstalled(s, BETWEEN, 2, s') && Spoiled(s')
  {
    FlushesGo();
    Tables();
    OneSize(C5);
    var s1 := FlushedInside(s, BETWEEN, 2);
    AfterFlush(s, s1);
    hide TableSize, FlushGoes, FileMatches, FlushedInside;
    s' := After(s1, CompactInstall);
    AfterInstall(s1, s');
  }

  lemma AfterFlush(s: State, s1: State)
    requires s.imm.Some? && s1 == FlushedInside(s, BETWEEN, 2) && s.version == LEVELS
    ensures s1.version == Levels({}, {HIGH_A, HIGH_E}, {LOW_A, LOW_E, BETWEEN})
    ensures s1.work == s.work && s1.logs == s.logs && s1.logFile == s.logFile && s1.history == s.history
    ensures s1.mem == s.mem && s1.imm == None && s1.tables == s.tables[14 := s.imm.value]
  {
    EditAddsFile(s.version, 2, BETWEEN, s1.manifest[|s.manifest|]);
    assert {LOW_A, LOW_E} + {BETWEEN} == {LOW_A, LOW_E, BETWEEN};
  }

  lemma AfterInstall(s1: State, s2: State)
    requires s1.version == Levels({}, {HIGH_A, HIGH_E}, {LOW_A, LOW_E, BETWEEN}) && s1.mem == [] && s1.imm == None
    requires s1.work == Compacting(1, {HIGH_A, HIGH_E}, {LOW_A, LOW_E}, 4, {OUTPUT}) && s1.logFile in s1.logs
    requires 12 in s1.tables && s1.tables[12] == [A3, E4] && s2 == After(s1, CompactInstall)
    ensures !LevelsDisjoint(s2.version)
    ensures s2.version[2] == Files([OUTPUT, BETWEEN]) && Less(OUTPUT.smallest, BETWEEN.smallest)
    ensures Bisect([OUTPUT, BETWEEN], SeekKey(E, 5), 0, 2) == 2
    ensures Holds(DataOf(s2), InFile(2, OUTPUT), E4)
    ensures forall loc, x :: Holds(DataOf(s2), loc, x) ==> loc.InFile? && loc.level == 2
  {
    InstalledVersion(s1, s2);
    hide After, ApplyEdit, Less, Bisect;
    SearchMisses();
    assert Files([OUTPUT, BETWEEN]) == {OUTPUT, BETWEEN};
    assert OUTPUT in s2.version[2] && BETWEEN in s2.version[2];
    assert !Apart(OUTPUT, BETWEEN);
  }

  lemma SearchMisses()
    ensures Less(OUTPUT.smallest, BETWEEN.smallest) && !Apart(OUTPUT, BETWEEN)
    ensures Bisect([OUTPUT, BETWEEN], SeekKey(E, 5), 0, 2) == 2
  {
  }

  lemma InstalledVersion(s1: State, s2: State)
    requires s1.version == Levels({}, {HIGH_A, HIGH_E}, {LOW_A, LOW_E, BETWEEN})
    requires s1.work == Compacting(1, {HIGH_A, HIGH_E}, {LOW_A, LOW_E}, 4, {OUTPUT}) && s1.logFile in s1.logs
    requires s2 == After(s1, CompactInstall)
    ensures s2.version == Levels({}, {}, {OUTPUT, BETWEEN})
    ensures DataOf(s2) == DataOf(s1).(version := s2.version)
  {
    var w := s1.work;
    UniqueNumbers(s1.version);
    EditReplaces(s1.version, 1, w.in0, w.in1, w.outs, s2.manifest[|s1.manifest|]);
    var r := Replaced(s1.version, 1, w.in0, w.in1, w.outs);
    assert r[2] == {OUTPUT, BETWEEN} && r[1] == {};
    assert r == Levels({}, {}, {OUTPUT, BETWEEN});
  }

  lemma UniqueNumbers(v: Version)
    requires v == Levels({}, {HIGH_A, HIGH_E}, {LOW_A, LOW_E, BETWEEN})
    ensures NumbersUnique(v)
  {
  }

  lemma MapHasE()
    ensures E in MapAfter(UPDATES, 5)
  {
    assert UPDATES[4] == Put(C, [5]) && UPDATES[3] == Put(E, [4]);
    assert E in MapAfter(UPDATES, 4);
  }
}
