/** The database object: the algorithms put together.  Each method is proved to take exactly the
    steps of the state machine, so that what holds of every run of the machine holds of it. */
module Database {
  import opened Keys
  import opened Store
  import opened Reorganise
  import opened FileSearch
  import opened Engine
  import EngineInvariant
  import EngineViews
  import opened VersionBuilder
  import opened ManifestReplay
  import PointLookup
  import opened Compactions
  import opened Coding
  import opened Cursors
  import opened MergingIterator
  import opened LevelFiles
  import opened MergedSources
  import opened CompactionMerge
  import opened CompactionPicker
  import opened DbIterator
  import opened ReadView

  /** The version that lists of files stand for. */
  function Listed(files: seq<seq<FileMeta>>): Version
    requires |files| == NUM_LEVELS
  {
    seq(NUM_LEVELS, l requires 0 <= l < NUM_LEVELS && |files| == NUM_LEVELS => Files(files[l]))
  }

  lemma WriteStep(s: State, ops: seq<Op>)
    requires EngineInvariant.Inv(s) && s.lastSequence + |ops| < MAX_SEQUENCE
    ensures s.logFile in s.logs && Enabled(s, Engine.Step.Write(ops))
    ensures EngineInvariant.Inv(After(s, Engine.Step.Write(ops)))
    ensures
      var r := LogRecord(s.lastSequence + 1, ops);
      After(s, Engine.Step.Write(ops)) ==
      s.(mem := InsertAll(s.mem, RecordEntries(r)), logs := s.logs[s.logFile := s.logs[s.logFile] + [r]],
         lastSequence := s.lastSequence + |ops|, history := s.history + ops)
  {
    EngineViews.StepKeepsInv(s, Engine.Step.Write(ops));
  }

  lemma SwitchStep(s: State)
    requires EngineInvariant.Inv(s) && s.imm.None?
    ensures s.logFile in s.logs && Enabled(s, SwitchMemTable) && EngineInvariant.Inv(After(s, SwitchMemTable))
    ensures After(s, SwitchMemTable) ==
      s.(imm := Some(s.mem), mem := [],
         logFile := s.nextFile, logs := s.logs[s.nextFile := []], nextFile := s.nextFile + 1)
  {
    EngineViews.StepKeepsInv(s, SwitchMemTable);
  }

  function NewFiles(news: seq<(nat, FileMeta)>): set<(nat, FileMeta)> {
    set p | p in news
  }

  lemma OneFile(files: seq<FileMeta>)
    requires |files| == 1
    ensures Files(files) == {files[0]}
  {
    assert files == [files[0]];
  }

  /** What a flush needs to know of the state before it. */
  lemma FlushFacts(s: State)
    requires EngineInvariant.Inv(s)
    ensures s.logFile in s.logs && Sorted(ImmEntries(s))
    ensures forall l, f :: 0 <= l < NUM_LEVELS && f in s.version[l] ==> f.number < s.nextFile
    ensures forall l, f :: 0 <= l < NUM_LEVELS && f in s.version[l] ==> f.largest.sequence <= s.lastSequence
  {
    forall l, f | 0 <= l < NUM_LEVELS && f in s.version[l]
      ensures f.number < s.nextFile && f.largest.sequence <= s.lastSequence
    {
      var t := s.tables[f.number];
      assert f in DataOf(s).version[l] && FileMatches(f, t);
      assert Holds(DataOf(s), InFile(l, f), t[|t| - 1]);
    }
  }

  /** The machine takes one step. */
  ghost predicate Takes(s: State, step: Step, s': State) {
    s.logFile in s.logs && Enabled(s, step) && s' == After(s, step)
  }

  /** The machine takes the two steps of a flush. */
  ghost predicate Flushes(s: State, begin: Step, s': State) {
    && (begin.FlushBegin? || begin.FlushBeginEmpty?) && s.logFile in s.logs && Enabled(s, begin)
    && var s1 := After(s, begin);
    && s1.logFile in s1.logs && Enabled(s1, FlushInstall) && s' == After(s1, FlushInstall)
  }

  lemma FlushKeepsInv(s: State, begin: Step, s': State)
    requires EngineInvariant.Inv(s) && Flushes(s, begin, s')
    ensures EngineInvariant.Inv(s')
  {
    hide EngineInvariant.Inv, Enabled, After;
    EngineViews.StepKeepsInv(s, begin);
    EngineViews.StepKeepsInv(After(s, begin), FlushInstall);
  }

  lemma FlushSteps(s: State, file: FileMeta, level: nat)
    requires s.logFile in s.logs && s.work.Idle? && s.imm.Some? && file.number == s.nextFile
    requires FileMatches(file, s.imm.value) && FlushLevelOk(s.version, file, level)
    ensures Flushes(s, FlushBegin(file, level),
      Engine.LogAndApply(s.(nextFile := s.nextFile + 1, tables := s.tables[file.number := s.imm.value]),
                         s.logFile, {}, {(level, file)}).(imm := None))
  {
    hide FileMatches, FlushLevelOk, ApplyEdit;
  }

  lemma FlushEmptySteps(s: State)
    requires s.logFile in s.logs && s.work.Idle? && s.imm == Some([])
    ensures Flushes(s, FlushBeginEmpty,
      Engine.LogAndApply(s.(nextFile := s.nextFile + 1), s.logFile, {}, {}).(imm := None))
  {
    hide ApplyEdit;
  }

  /** The machine takes the two steps of a compaction. */
  ghost predicate Compacts(s: State, begin: Step, s': State) {
    && begin.CompactBegin? && s.logFile in s.logs && Enabled(s, begin)
    && var s1 := After(s, begin);
    && s1.logFile in s1.logs && Enabled(s1, CompactInstall) && s' == After(s1, CompactInstall)
  }

  lemma CompactKeepsInv(s: State, begin: Step, s': State)
    requires EngineInvariant.Inv(s) && Compacts(s, begin, s')
    ensures EngineInvariant.Inv(s')
  {
    hide EngineInvariant.Inv, Enabled, After;
    EngineViews.StepKeepsInv(s, begin);
    EngineViews.StepKeepsInv(After(s, begin), CompactInstall);
  }

  function Gone(level: nat, in0: set<FileMeta>, in1: set<FileMeta>): set<(nat, nat)> {
    (set f | f in in0 :: (level, f.number)) + (set f | f in in1 :: (level + 1, f.number))
  }

  lemma CompactSteps(
      s: State, level: nat, in0: set<FileMeta>, in1: set<FileMeta>, outs: set<FileMeta>,
      written: map<nat, seq<Entry>>, next: nat)
    requires s.logFile in s.logs && Enabled(s, CompactBegin(level, in0, in1, outs, written, next))
    ensures Compacts(s, CompactBegin(level, in0, in1, outs, written, next),
      Engine.LogAndApply(s.(nextFile := next, tables := s.tables + written), s.logNumber, Gone(level, in0, in1),
                         set o | o in outs :: (level + 1, o)))
  {
    hide InputsOk, OutputsOk, ApplyEdit;
  }

  lemma InputsBelow(s: State, level: nat, in0: set<FileMeta>, in1: set<FileMeta>)
    requires EngineInvariant.Inv(s) && InputsOk(s.version, level, in0, in1)
    ensures forall f :: f in in0 + in1 ==> f.number < s.nextFile
  {
    FlushFacts(s);
    hide EngineInvariant.Inv;
    assert in0 <= s.version[level] && in1 <= s.version[level + 1];
  }

  /** Each input has its table, under a number that fits into 64 bits. */
  lemma InputsOpen(s: State, level: nat, in0: seq<FileMeta>, in1: seq<FileMeta>)
    requires EngineInvariant.Inv(s) && InputsOk(s.version, level, Files(in0), Files(in1)) && s.nextFile <= TWO64
    ensures Inputs(DataOf(s), level, in0, in1)
  {
    InputsBelow(s, level, Files(in0), Files(in1));
    assert TablesOk(s.version, s.tables);
    hide EngineInvariant.Inv, FileMatches;
    forall f | f in in0 ensures f in s.version[level] && f.number < TWO64 {
      assert f in Files(in0) && f in Files(in0) + Files(in1);
    }
    forall f | f in in1 ensures f in s.version[level + 1] && f.number < TWO64 {
      assert f in Files(in1) && f in Files(in0) + Files(in1);
    }
  }

  // ----- What a compaction does -----

  /** The tables written are the outputs, one after another, and each output has its table's size. */
  ghost predicate WrittenAs(step: Step, chunks: seq<seq<Entry>>, first: nat, fileSize: seq<Entry> -> nat)
    requires step.CompactBegin?
  {
    && step.nextFile == first + |chunks|
    && (forall n :: n in step.written <==> first <= n < first + |chunks|)
    && (forall j :: 0 <= j < |chunks| ==> first + j in step.written && step.written[first + j] == chunks[j])
    && (forall o :: o in step.outs ==> o.number in step.written && o.size == fileSize(step.written[o.number]))
  }

  /** The merged entries that a compaction reads. */
  ghost predicate IsInput(s: State, in0: seq<FileMeta>, in1: seq<FileMeta>, input: seq<Entry>) {
    Sorted(input) && forall e :: e in input <==> InFiles(s.tables, Files(in0) + Files(in1), e)
  }

  /** A compaction of these inputs: the entries that survive, cut where the limits say. */
  ghost predicate CutRight(
      s: State, level: nat, in0: seq<FileMeta>, in1: seq<FileMeta>, grandparents: seq<FileMeta>, maxFileSize: nat,
      fileSize: seq<Entry> -> nat, step: Step)
  {
    && step.CompactBegin? && step.level == level && step.in0 == Files(in0) && step.in1 == Files(in1)
    && exists input, chunks ::
         && IsInput(s, in0, in1, input) && WellCut(Limits(input, grandparents, maxFileSize, fileSize), chunks)
         && Flatten(chunks) == Survivors(input, s.version, level, SmallestSnapshot(s), |input|)
         && WrittenAs(step, chunks, s.nextFile, fileSize)
  }

  /** One file with nothing to merge it with, and not too much below it. */
  predicate IsTrivialMove(in0: seq<FileMeta>, in1: seq<FileMeta>, grandparents: seq<FileMeta>, maxFileSize: nat) {
    |in0| == 1 && in1 == [] && SumSizes(grandparents) <= 10 * maxFileSize
  }

  /** A compaction of a range of user keys that is asked for by hand. */
  datatype Manual = Manual(level: nat, begin: Option<UserKey>, end: Option<UserKey>)

  ghost predicate NothingTouches(files: seq<FileMeta>, manual: Manual) {
    forall f :: f in files ==> !Touches(f, manual.begin, manual.end)
  }

  /** A manual compaction is of the level and range that were asked for. */
  ghost predicate CompactsRange(
      s: State, lists: seq<seq<FileMeta>>, maxFileSize: nat, manual: Manual, fileSize: seq<Entry> -> nat, step: Step)
  {
    && |lists| == NUM_LEVELS && manual.level + 1 < NUM_LEVELS
    && exists picked, in0, in1, grandparents ::
         && StartsInRange(lists[manual.level], manual.level, manual.begin, manual.end, maxFileSize, picked)
         && SetUp(lists, manual.level, maxFileSize, picked, in0, in1)
         && GrandparentsOk(lists, manual.level, in0, in1, grandparents)
         && CutRight(s, manual.level, in0, in1, grandparents, maxFileSize, fileSize, step)
  }

  /** A flush writes a table exactly if there are entries, with its size, to the level that it goes to. */
  ghost predicate FlushesAsPicked(
      lists: seq<seq<FileMeta>>, es: seq<Entry>, maxFileSize: nat, fileSize: seq<Entry> -> nat, begin: Step)
    requires |lists| == NUM_LEVELS
  {
    && (begin.FlushBeginEmpty? <==> es == [])
    && (begin.FlushBegin? ==>
          begin.file.size == fileSize(es) && PointLookup.GoesTo(lists, begin.file, maxFileSize, begin.level))
  }

  /** A background compaction is of what is due, with the inputs that the picker chooses. */
  ghost predicate DoesWhatIsDue(
      s: State, lists: seq<seq<FileMeta>>, maxFileSize: nat, pointers: seq<Option<InternalKey>>,
      sizeLevel: Option<nat>, seekFile: Option<(nat, FileMeta)>, fileSize: seq<Entry> -> nat, step: Step)
  {
    exists level, in0, in1, grandparents ::
      && PicksDue(lists, maxFileSize, pointers, sizeLevel, seekFile, level, in0, in1)
      && GrandparentsOk(lists, level, in0, in1, grandparents)
      && if IsTrivialMove(in0, in1, grandparents, maxFileSize) then step == TrivialMove(level, in0[0])
         else CutRight(s, level, in0, in1, grandparents, maxFileSize, fileSize, step)
  }

  /** A file is moved only by itself, over nothing, and where no more than ten files' worth of the level
      after next lies below it. */
  lemma MoveIsCheap(
      s: State, lists: seq<seq<FileMeta>>, maxFileSize: nat, pointers: seq<Option<InternalKey>>,
      sizeLevel: Option<nat>, seekFile: Option<(nat, FileMeta)>, fileSize: seq<Entry> -> nat, step: Step)
    requires DoesWhatIsDue(s, lists, maxFileSize, pointers, sizeLevel, seekFile, fileSize, step)
    requires step.TrivialMove?
    ensures exists grandparents ::
      && PicksDue(lists, maxFileSize, pointers, sizeLevel, seekFile, step.level, [step.file], [])
      && GrandparentsOk(lists, step.level, [step.file], [], grandparents)
      && SumSizes(grandparents) <= 10 * maxFileSize
  {
    hide SetUp, StartsWith, IsDue, TouchedBy, SumSizes;
    var level, in0, in1, grandparents :|
      && PicksDue(lists, maxFileSize, pointers, sizeLevel, seekFile, level, in0, in1)
      && GrandparentsOk(lists, level, in0, in1, grandparents)
      && if IsTrivialMove(in0, in1, grandparents, maxFileSize) then step == TrivialMove(level, in0[0])
         else CutRight(s, level, in0, in1, grandparents, maxFileSize, fileSize, step);
    assert in0 == [in0[0]];
  }

  /** What a compaction's loop wrote is what the machine may begin a compaction with. */
  lemma CompactEnabled(
      s: State, level: nat, in0: set<FileMeta>, in1: set<FileMeta>, input: seq<Entry>, outputs: seq<FileMeta>,
      written: map<nat, seq<Entry>>, chunks: seq<seq<Entry>>)
    requires s.work.Idle? && InputsOk(s.version, level, in0, in1) && Sorted(input)
    requires forall f :: f in in0 + in1 ==> f.number < s.nextFile
    requires forall e {:trigger InFiles(s.tables, in0 + in1, e)} :: e in input <==> InFiles(s.tables, in0 + in1, e)
    requires forall e :: e in input ==> IsUpdate(s.history, e)
    requires Writing(outputs, written, chunks, None, s.nextFile)
    requires Flatten(chunks) == Survivors(input, s.version, level, SmallestSnapshot(s), |input|)
    ensures Enabled(s, CompactBegin(level, in0, in1, Files(outputs), written, s.nextFile + |outputs|))
  {
    hide InputsOk, OutputsOk, Writing, Sorted, Survivors, Flatten, IsUpdate, InFiles, SmallestSnapshot;
    WorkMeetsSpecification(
      input, s.history, s.version, s.tables, level, in0 + in1, SmallestSnapshot(s), outputs, written, chunks,
      s.nextFile);
  }

  lemma CompactFacts(s: State, level: nat, in0: set<FileMeta>, in1: set<FileMeta>)
    requires EngineInvariant.Inv(s) && InputsOk(s.version, level, in0, in1)
    ensures s.logFile in s.logs && DataInv(DataOf(s), s.history) && SmallestSnapshot(s) <= s.lastSequence
    ensures level + 1 < NUM_LEVELS
    ensures forall f :: f in in0 + in1 ==> f.number < s.nextFile
    ensures forall p :: p in Gone(level, in0, in1) ==> p.0 < NUM_LEVELS
    ensures forall l, f :: 0 <= l < NUM_LEVELS && f in s.version[l] ==> f.number < s.nextFile
  {
    InputsBelow(s, level, in0, in1);
    FlushFacts(s);
  }

  function NewsOf(level: nat, outputs: seq<FileMeta>): seq<(nat, FileMeta)> {
    seq(|outputs|, i requires 0 <= i < |outputs| => (level, outputs[i]))
  }

  lemma NewsFresh(s: State, level: nat, outputs: seq<FileMeta>, written: map<nat, seq<Entry>>, chunks: seq<seq<Entry>>)
    requires Writing(outputs, written, chunks, None, s.nextFile)
    ensures
      var news := NewsOf(level + 1, outputs);
      && (forall i, j :: 0 <= i < j < |news| ==> news[i].1.number != news[j].1.number)
      && (forall p :: p in news ==> p.0 == level + 1 && p.1.number >= s.nextFile)
      && NewFiles(news) == set o | o in Files(outputs) :: (level + 1, o)
  {
    var news := NewsOf(level + 1, outputs);
    forall i | 0 <= i < |outputs| ensures outputs[i].number == s.nextFile + i {
      assert ChunkWritten(outputs, written, chunks[i], s.nextFile, i);
    }
    forall p ensures p in NewFiles(news) <==> p in set o | o in Files(outputs) :: (level + 1, o) {
      if p in NewFiles(news) {
        var i :| 0 <= i < |outputs| && news[i] == p;
        assert outputs[i] in Files(outputs) && p == (level + 1, outputs[i]);
      }
      if p in set o | o in Files(outputs) :: (level + 1, o) {
        var i :| 0 <= i < |outputs| && outputs[i] == p.1;
        assert news[i] == p;
      }
    }
  }

  lemma CutIsRight(
      s: State, level: nat, in0: seq<FileMeta>, in1: seq<FileMeta>, grandparents: seq<FileMeta>, maxFileSize: nat,
      fileSize: seq<Entry> -> nat, input: seq<Entry>, chunks: seq<seq<Entry>>, outputs: seq<FileMeta>, step: Step)
    requires step.CompactBegin? && step.level == level && step.in0 == Files(in0) && step.in1 == Files(in1)
    requires Sorted(input)
    requires forall e {:trigger InFiles(s.tables, Files(in0) + Files(in1), e)} ::
               e in input <==> InFiles(s.tables, Files(in0) + Files(in1), e)
    requires WellCut(Limits(input, grandparents, maxFileSize, fileSize), chunks) && Sized(outputs, chunks, fileSize)
    requires Flatten(chunks) == Survivors(input, s.version, level, SmallestSnapshot(s), |input|)
    requires Writing(outputs, step.written, chunks, None, s.nextFile) && step.outs == Files(outputs)
    requires step.nextFile == s.nextFile + |outputs|
    ensures CutRight(s, level, in0, in1, grandparents, maxFileSize, fileSize, step)
  {
    hide Sorted, InFiles, WellCut, Flatten, Survivors, SmallestSnapshot;
    forall j | 0 <= j < |chunks| ensures s.nextFile + j in step.written && step.written[s.nextFile + j] == chunks[j] {
      assert ChunkWritten(outputs, step.written, chunks[j], s.nextFile, j);
    }
    forall n | s.nextFile <= n < s.nextFile + |chunks| ensures n in step.written {
      assert ChunkWritten(outputs, step.written, chunks[n - s.nextFile], s.nextFile, n - s.nextFile);
    }
    forall o | o in step.outs ensures o.number in step.written && o.size == fileSize(step.written[o.number]) {
      var j :| 0 <= j < |outputs| && outputs[j] == o;
      assert ChunkWritten(outputs, step.written, chunks[j], s.nextFile, j);
    }
    assert IsInput(s, in0, in1, input) && WrittenAs(step, chunks, s.nextFile, fileSize);
  }

  lemma MoveStep(s: State, level: nat, f: FileMeta)
    requires EngineInvariant.Inv(s) && s.work.Idle? && InputsOk(s.version, level, {f}, {})
    ensures s.logFile in s.logs && Enabled(s, TrivialMove(level, f))
    ensures EngineInvariant.Inv(After(s, TrivialMove(level, f)))
    ensures After(s, TrivialMove(level, f)) == Engine.LogAndApply(s, s.logNumber, {(level, f.number)}, {(level + 1, f)})
    ensures level + 1 < NUM_LEVELS && forall g :: g in s.version[level + 1] ==> g.number != f.number
  {
    EngineViews.StepKeepsInv(s, TrivialMove(level, f));
    assert f in s.version[level];
  }

  class DB {
    const maxFileSize: nat
    // memory
    var mem: seq<Entry>
    var imm: Option<seq<Entry>>
    /** The files of the current version, level by level, in order. */
    var files: seq<seq<FileMeta>>
    var lastSequence: nat
    var snapshots: seq<nat>
    var logNumber: nat
    var logFile: nat
    var nextFile: nat
    // disk
    var logs: map<nat, seq<LogRecord>>
    var tables: map<nat, seq<Entry>>
    var manifest: seq<Edit>
    /** The iterators that are open. */
    var readers: seq<Reader>
    /** Every update ever committed. */
    ghost var history: seq<Op>
    /** Where the last compaction of each level ended. */
    var compactPointer: seq<Option<InternalKey>>

    ghost function State(): Engine.State
      requires |files| == NUM_LEVELS
      reads this
    {
      Engine.State(mem, imm, Listed(files), lastSequence, snapshots, readers, logNumber, logFile, nextFile, Idle,
                   logs, tables, manifest, history)
    }

    ghost predicate Ok()
      reads this
    {
      && |files| == NUM_LEVELS && (forall l :: 0 <= l < NUM_LEVELS ==> InOrder(files[l]))
      && |compactPointer| == NUM_LEVELS && lastSequence < MAX_SEQUENCE && EngineInvariant.Inv(State())
    }

    lemma ListedMembers()
      requires |files| == NUM_LEVELS
      ensures forall l, f :: 0 <= l < NUM_LEVELS ==> (f in files[l] <==> f in Listed(files)[l])
    {
      forall l, f | 0 <= l < NUM_LEVELS ensures f in files[l] <==> f in Listed(files)[l] {
        assert f in files[l] <==> f in Files(files[l]);
      }
    }

    /** Between two steps, the lists of files are what the searches ask for. */
    lemma InOrderListed()
      requires Ok()
      ensures Lists(files, Listed(files))
      ensures forall l, f :: 0 <= l < NUM_LEVELS ==> (f in files[l] <==> f in Listed(files)[l])
    {
      OrderedLists(files, Listed(files), tables);
      ListedMembers();
    }

    constructor (maxFileSize: nat)
      ensures Ok() && State() == INITIAL
    {
      this.maxFileSize := maxFileSize;
      mem, imm, files := [], None, [[], [], [], [], [], [], []];
      lastSequence, snapshots, logNumber, logFile, nextFile := 0, [], 3, 3, 4;
      logs, tables := map[3 := []], map[];
      manifest := [SnapshotEdit(EMPTY_VERSION), Edit(Some(3), Some(4), Some(0), {}, {})];
      history, readers := [], [];
      compactPointer := seq(NUM_LEVELS, _ => None);
      new;
      NoFilesListed();
      EngineViews.InitialInv();
      hide EngineInvariant.Inv, Listed;
      assert State() == INITIAL;
    }

    /** A database whose memory was rebuilt from what is on disk. */
    constructor Loaded(
        maxFileSize: nat, mem: seq<Entry>, files: seq<seq<FileMeta>>, lastSequence: nat, logNumber: nat,
        logFile: nat, nextFile: nat, logs: map<nat, seq<LogRecord>>, tables: map<nat, seq<Entry>>,
        manifest: seq<Edit>, ghost history: seq<Op>)
      requires |files| == NUM_LEVELS
      ensures this.files == files && |compactPointer| == NUM_LEVELS
      ensures State() == Engine.State(
        mem, None, Listed(files), lastSequence, [], [], logNumber, logFile, nextFile, Idle, logs, tables, manifest,
        history)
    {
      this.maxFileSize, this.mem, imm, this.files := maxFileSize, mem, None, files;
      this.lastSequence, snapshots, readers := lastSequence, [], [];
      this.logNumber, this.logFile, this.nextFile := logNumber, logFile, nextFile;
      this.logs, this.tables, this.manifest, this.history := logs, tables, manifest, history;
      compactPointer := seq(NUM_LEVELS, _ => None);
    }

    /** Completes an edit, records it, and makes the version that it leads to the current one. */
    method LogAndApply(log: nat, deleted: set<(nat, nat)>, news: seq<(nat, FileMeta)>)
      requires |files| == NUM_LEVELS && (forall l :: 0 <= l < NUM_LEVELS ==> InOrder(files[l]))
      requires forall p :: p in deleted ==> p.0 < NUM_LEVELS
      requires |news| <= 1 || forall i, j :: 0 <= i < j < |news| && news[i].0 == news[j].0 ==>
          news[i].1.number != news[j].1.number
      requires forall p :: p in news ==> p.0 < NUM_LEVELS && forall f :: f in files[p.0] ==> f.number != p.1.number
      modifies `files, `logNumber, `manifest
      ensures |files| == NUM_LEVELS && (forall l :: 0 <= l < NUM_LEVELS ==> InOrder(files[l]))
      ensures State() == Engine.LogAndApply(old(State()), log, deleted, NewFiles(news))
    {
      var e := Edit(Some(log), Some(nextFile), Some(lastSequence), deleted, NewFiles(news));
      var builder := new Builder(files);
      builder.Apply(e, news);
      var level := builder.SaveTo();
      ghost var v := Listed(files);
      files := level;
      manifest := manifest + [e];
      logNumber := log;
      forall l | 0 <= l < NUM_LEVELS ensures Listed(files)[l] == ApplyEdit(v, e)[l] {
        assert Listed(files)[l] == Files(files[l]) == LevelAfter(v[l], l, e);
      }
    }

    // ----- Writing -----

    /** A group of updates: one log record, then the memtable. */
    method Write(ops: seq<Op>)
      requires Ok() && lastSequence + |ops| < MAX_SEQUENCE
      modifies this
      ensures Ok() && Takes(old(State()), Engine.Step.Write(ops), State())
    {
      hide EngineInvariant.Inv, After, Enabled, Listed, InOrder;
      WriteStep(State(), ops);
      var r := LogRecord(lastSequence + 1, ops);
      logs := logs[logFile := logs[logFile] + [r]];
      mem := InsertInto(mem, r);
      lastSequence := lastSequence + |ops|;
      history := history + ops;
    }

    /** A full memtable becomes immutable, and a new log begins. */
    method SwitchMemTable()
      requires Ok() && imm.None?
      modifies this
      ensures Ok() && Takes(old(State()), Engine.Step.SwitchMemTable, State())
    {
      hide EngineInvariant.Inv, After, Enabled, Listed, InOrder;
      SwitchStep(State());
      var newLog := nextFile;
      nextFile := nextFile + 1;
      logs := logs[newLog := []];
      logFile := newLog;
      imm := Some(mem);
      mem := [];
    }

    // ----- Background work -----

    /** Writes the immutable memtable to a table file, at as deep a level as it may go. */
    method CompactMemTable(fileSize: seq<Entry> -> nat) returns (ghost begin: Step)
      requires Ok() && imm.Some?
      modifies this
      ensures Ok() && Flushes(old(State()), begin, State())
      ensures FlushesAsPicked(old(files), old(imm).value, maxFileSize, fileSize, begin)
    {
      hide EngineInvariant.Inv, Flushes, InOrder, Engine.LogAndApply, Listed, FlushLevelOk, PointLookup.GoesTo;
      ghost var s := State();
      FlushFacts(s);
      InOrderListed();
      var number := nextFile;
      nextFile := nextFile + 1;
      var es := imm.value;
      if es == [] {
        begin := FlushBeginEmpty;
        FlushEmptySteps(s);
        LogAndApply(logFile, {}, []);
        assert NewFiles([]) == {};
      } else {
        var file, level := BuildTable(number, es, fileSize);
        begin := FlushBegin(file, level);
        FlushSteps(s, file, level);
        tables := tables[number := es];
        LogAndApply(logFile, {}, [(level, file)]);
        assert NewFiles([(level, file)]) == {(level, file)};
      }
      imm := None;
      FlushKeepsInv(s, begin, State());
    }

    /** What describes a new table, and the level that it goes to. */
    method BuildTable(number: nat, es: seq<Entry>, fileSize: seq<Entry> -> nat) returns (file: FileMeta, level: nat)
      requires |files| == NUM_LEVELS && Lists(files, Listed(files)) && es != [] && Sorted(es)
      requires forall l, f :: 0 <= l < NUM_LEVELS && f in files[l] ==> f.largest.sequence <= MAX_SEQUENCE
      ensures file.number == number && file.size == fileSize(es) && FileMatches(file, es)
      ensures PointLookup.GoesTo(files, file, maxFileSize, level) && FlushLevelOk(Listed(files), file, level)
      ensures level < NUM_LEVELS
    {
      hide Lists, Sorted, Listed, RangesTouch;
      file := FileMeta(number, fileSize(es), es[0].key, es[|es| - 1].key);
      level := PointLookup.PickLevelForMemTableOutput(files, Listed(files), file, maxFileSize);
      PointLookup.GoesWhereAllowed(files, Listed(files), file, maxFileSize, level);
    }

    /** The background thread's turn: an immutable memtable goes first, then a compaction asked for
        by hand, then one that is due. */
    method BackgroundCompaction(
        manual: Option<Manual>, sizeLevel: Option<nat>, seekFile: Option<(nat, FileMeta)>,
        fileSize: seq<Entry> -> nat)
      returns (ghost step: Option<Step>)
      requires Ok() && nextFile <= TWO64
      requires manual.Some? ==> manual.value.level + 1 < NUM_LEVELS
      requires sizeLevel.Some? ==> sizeLevel.value + 1 < NUM_LEVELS && files[sizeLevel.value] != []
      requires seekFile.Some? ==> seekFile.value.0 + 1 < NUM_LEVELS && seekFile.value.1 in files[seekFile.value.0]
      modifies this
      ensures Ok()
      ensures step == None <==>
                && old(imm) == None
                && if manual.Some? then NothingTouches(old(files)[manual.value.level], manual.value)
                   else sizeLevel == None && seekFile == None
      ensures step == None ==> State() == old(State())
      ensures old(imm).Some? ==>
                && FlushesAsPicked(old(files), old(imm).value, maxFileSize, fileSize, step.value)
                && Flushes(old(State()), step.value, State())
      ensures old(imm) == None && manual.Some? && step.Some? ==>
                && CompactsRange(old(State()), old(files), maxFileSize, manual.value, fileSize, step.value)
                && Compacts(old(State()), step.value, State())
      ensures old(imm) == None && manual == None && step.Some? ==>
                && DoesWhatIsDue(old(State()), old(files), maxFileSize, old(compactPointer), sizeLevel, seekFile,
                                 fileSize, step.value)
                && if step.value.TrivialMove? then Takes(old(State()), step.value, State())
                   else Compacts(old(State()), step.value, State())
    {
      hide EngineInvariant.Inv, Enabled, After, Flushes, FlushesAsPicked, Compacts, InOrder, Listed, CompactsRange,
           DoesWhatIsDue;
      if imm.Some? {
        ghost var begin := CompactMemTable(fileSize);
        step := Some(begin);
      } else if manual.Some? {
        step := ManualCompaction(manual.value, fileSize);
      } else {
        step := AutomaticCompaction(sizeLevel, seekFile, fileSize);
      }
    }

    /** One compaction that was picked: a file that needs no merging is moved, and else the inputs
        are merged and written anew. */
    method AutomaticCompaction(sizeLevel: Option<nat>, seekFile: Option<(nat, FileMeta)>, fileSize: seq<Entry> -> nat)
      returns (ghost step: Option<Step>)
      requires Ok() && nextFile <= TWO64
      requires sizeLevel.Some? ==> sizeLevel.value + 1 < NUM_LEVELS && files[sizeLevel.value] != []
      requires seekFile.Some? ==> seekFile.value.0 + 1 < NUM_LEVELS && seekFile.value.1 in files[seekFile.value.0]
      modifies this
      ensures Ok() && (step == None <==> sizeLevel == None && seekFile == None)
      ensures step == None ==> State() == old(State())
      ensures step.Some? ==>
                && DoesWhatIsDue(old(State()), old(files), maxFileSize, old(compactPointer), sizeLevel, seekFile,
                                 fileSize, step.value)
                && if step.value.TrivialMove? then Takes(old(State()), step.value, State())
                   else Compacts(old(State()), step.value, State())
    {
      hide EngineInvariant.Inv, Enabled, After, Compacts, InOrder, Lists, InputsOk, Engine.LogAndApply, Listed,
           PicksDue, GrandparentsOk, CutRight, InputLists;
      InOrderListed();
      var versions := new VersionSet(maxFileSize, files, State().version);
      versions.compactPointer := compactPointer;
      var c := versions.PickCompaction(sizeLevel, seekFile);
      compactPointer := versions.compactPointer;
      if c == null {
        return None;
      }
      assert Ok() && State() == old(State());
      if |c.inputs0| == 1 {
        OneFile(c.inputs0);
      }
      assert c.inputs1 == [] ==> Files(c.inputs1) == {};
      if |c.inputs0| == 1 && c.inputs1 == [] && SumSizes(c.grandparents) <= 10 * maxFileSize {
        step := MoveFile(c.level, c.inputs0[0]);
      } else {
        step := WriteCompaction(c, fileSize);
      }
    }

    /** A compaction of part of a level, asked for by hand; its inputs are written anew even if one
        file could have been moved. */
    method ManualCompaction(manual: Manual, fileSize: seq<Entry> -> nat) returns (ghost step: Option<Step>)
      requires Ok() && nextFile <= TWO64 && manual.level + 1 < NUM_LEVELS
      modifies this
      ensures Ok() && (step == None <==> NothingTouches(old(files)[manual.level], manual))
      ensures step == None ==> State() == old(State())
      ensures step.Some? ==> Compacts(old(State()), step.value, State())
      ensures step.Some? ==>
                CompactsRange(old(State()), old(files), maxFileSize, manual, fileSize, step.value)
    {
      hide EngineInvariant.Inv, Enabled, After, Compacts, InOrder, Lists, InputsOk, Engine.LogAndApply, Listed,
           StartsInRange, SetUp, GrandparentsOk, CutRight, InputLists;
      InOrderListed();
      var versions := new VersionSet(maxFileSize, files, State().version);
      versions.compactPointer := compactPointer;
      var c := versions.CompactRange(manual.level, manual.begin, manual.end);
      compactPointer := versions.compactPointer;
      if c == null {
        return None;
      }
      assert Ok() && State() == old(State());
      step := WriteCompaction(c, fileSize);
    }

    method WriteCompaction(c: Compaction, fileSize: seq<Entry> -> nat) returns (ghost step: Option<Step>)
      requires Ok() && nextFile <= TWO64
      requires c.Valid() && c.Unused() && c.inputFiles == files && c.maxFileSize == maxFileSize
      requires InputsOk(State().version, c.level, Files(c.inputs0), Files(c.inputs1))
      requires InputLists(c.level, c.inputs0, c.inputs1)
      modifies this, c, c.levelPtrs
      ensures Ok() && step.Some? && step.value.CompactBegin? && Compacts(old(State()), step.value, State())
      ensures CutRight(
        old(State()), c.level, old(c.inputs0), old(c.inputs1), old(c.grandparents), maxFileSize, fileSize,
        step.value)
    {
      hide EngineInvariant.Inv, Enabled, Compacts, InOrder, InputsOk, Engine.LogAndApply, Listed, Lists, DataInv,
           InLevel, Sorted, InFiles, IsUpdate, Writing, Flatten, Survivors, Gone, NewFiles, WellCut, Sized, CutRight,
           SortedDisjoint, Distinct;
      ghost var s := State();
      var level, in0, in1 := c.level, Files(c.inputs0), Files(c.inputs1);
      InOrderListed();
      CompactFacts(s, level, in0, in1);
      InputsOpen(s, level, c.inputs0, c.inputs1);
      var snapshot := if snapshots == [] then lastSequence else snapshots[0];
      var input := MergeInputs(level, c.inputs0, c.inputs1, tables, DataOf(s), history);
      var outputs, written, next;
      ghost var chunks;
      outputs, written, next, chunks := DoCompactionWork(c, s.version, input, snapshot, nextFile, fileSize);
      CompactEnabled(s, level, in0, in1, input, outputs, written, chunks);
      CompactSteps(s, level, in0, in1, Files(outputs), written, next);
      step := Some(CompactBegin(level, in0, in1, Files(outputs), written, next));
      CutIsRight(
        s, level, c.inputs0, c.inputs1, c.grandparents, maxFileSize, fileSize, input, chunks, outputs, step.value);
      nextFile := next;
      tables := tables + written;
      var news := NewsOf(level + 1, outputs);
      NewsFresh(s, level, outputs, written, chunks);
      LogAndApply(logNumber, Gone(level, in0, in1), news);
      CompactKeepsInv(s, step.value, State());
    }

    method MoveFile(level: nat, f: FileMeta) returns (ghost step: Option<Step>)
      requires Ok() && InputsOk(State().version, level, {f}, {})
      modifies this
      ensures Ok() && step == Some(TrivialMove(level, f))
      ensures Takes(old(State()), step.value, State())
    {
      hide EngineInvariant.Inv, Enabled, After, InOrder, InputsOk, Engine.LogAndApply, Listed;
      MoveStep(State(), level, f);
      ListedMembers();
      var news := [(level + 1, f)];
      LogAndApply(logNumber, {(level, f.number)}, news);
      assert NewFiles(news) == {(level + 1, f)};
      step := Some(TrivialMove(level, f));
    }

    // ----- Reading -----

    /** A lookup at any sequence number finds what the view of the stored updates says. */
    method Get(k: UserKey, sequence: nat) returns (value: Option<Bytes>)
      requires Ok()
      ensures value == View(history, Held(DataOf(State()), history), k, sequence)
    {
      hide View, Held, Lists, DataInv, EngineInvariant.Durable, EngineInvariant.Counters, EngineInvariant.WorkOk,
           EngineInvariant.ReaderOk;
      InOrderListed();
      value := PointLookup.Get(
        mem, if imm.Some? then imm.value else [], files, tables, DataOf(State()), history, k, sequence);
    }

    method GetSnapshot() returns (sequence: nat)
      requires Ok()
      modifies this
      ensures Ok() && sequence == lastSequence && Takes(old(State()), TakeSnapshot, State())
      ensures multiset(snapshots) == multiset(old(snapshots)) + multiset{sequence}
    {
      hide EngineInvariant.Inv, InOrder, Listed;
      SimpleStep(State(), TakeSnapshot);
      snapshots := snapshots + [lastSequence];
      sequence := lastSequence;
    }

    method ReleaseSnapshot(index: nat)
      requires Ok() && index < |snapshots|
      modifies this
      ensures Ok() && Takes(old(State()), Step.ReleaseSnapshot(index), State())
      ensures multiset(snapshots) == multiset(old(snapshots)) - multiset{old(snapshots)[index]}
    {
      hide EngineInvariant.Inv, InOrder, Listed;
      WithoutOne(snapshots, index);
      SimpleStep(State(), Step.ReleaseSnapshot(index));
      snapshots := snapshots[..index] + snapshots[index + 1..];
    }

    /** An iterator holds on to the memtables and files that there are when it is opened; it goes
        over all their entries, and shows the view of them at its sequence number. */
    method NewIterator(sequence: nat) returns (it: DBIter)
      requires Ok() && (sequence == lastSequence || sequence in snapshots) && nextFile <= TWO64
      modifies this
      ensures Ok() && Takes(old(State()), OpenReader(sequence), State())
      ensures fresh(it) && it.Ok() && !it.valid && it.sequence == sequence
      ensures OverNewestReader(State(), it.iter.all)
      ensures ShowsView(it.iter.all, sequence, ViewOf(DataOf(old(State())), old(history), sequence))
    {
      hide EngineInvariant.Inv, InOrder, Listed, IsAll, ShowsView, DBIter.Ok, ViewOf;
      ghost var s := State();
      SimpleStep(s, OpenReader(sequence));
      it := OpenIterator(sequence);
      readers := readers + [Reader(sequence, mem, if imm.Some? then imm.value else [], Listed(files))];
      assert ReaderData(State(), readers[|readers| - 1]) == DataOf(s);
    }

    method OpenIterator(sequence: nat) returns (it: DBIter)
      requires Ok() && nextFile <= TWO64
      ensures fresh(it) && fresh(it.iter) && fresh(it.iter.family) && fresh(it.iter.family.repr)
      ensures it.Ok() && !it.valid && it.sequence == sequence
      ensures IsAll(DataOf(State()), history, it.iter.all)
      ensures ShowsView(it.iter.all, sequence, ViewOf(DataOf(State()), history, sequence))
    {
      hide EngineInvariant.Inv, InOrder, Listed, Lists, DataInv, Holds, IsUpdate, ShowsView, Sorted, ViewOf, Merger.Ok;
      ghost var s := State();
      InOrderListed();
      ReaderFacts(s, files);
      var merger := NewInternalIterator(mem, imm, files, tables, DataOf(s), history);
      MergerSorted(merger);
      ShowsItsView(DataOf(s), history, merger.all, sequence);
      it := new DBIter(merger, sequence);
    }

    method CloseIterator(index: nat)
      requires Ok() && index < |readers|
      modifies this
      ensures Ok() && Takes(old(State()), CloseReader(index), State())
      ensures multiset(readers) == multiset(old(readers)) - multiset{old(readers)[index]}
    {
      hide EngineInvariant.Inv, InOrder, Listed;
      WithoutOne(readers, index);
      SimpleStep(State(), CloseReader(index));
      readers := readers[..index] + readers[index + 1..];
    }

    /** Deletes every log and every table that nothing refers to. */
    method DeleteObsoleteFiles()
      requires Ok()
      modifies this
      ensures Ok() && Takes(old(State()), DeleteObsolete, State())
      ensures forall n :: n in tables ==> LiveTable(State(), n)
      ensures forall n :: n in logs ==> n >= logNumber
    {
      hide EngineInvariant.Inv, InOrder, Listed, InVersion, OnlyLive, OnlyFrom, LiveTable;
      ghost var s := State();
      SimpleStep(s, DeleteObsolete);
      var live := NumbersIn(Listed(files));
      var i: nat := 0;
      while i < |readers|
        invariant i <= |readers|
        invariant forall n :: n in live <==>
          InVersion(Listed(files), n) || exists j :: 0 <= j < i && InVersion(readers[j].version, n)
      {
        live := live + NumbersIn(readers[i].version);
        i := i + 1;
      }
      LiveIs(s, live);
      DeleteIs(s, live);
      tables := OnlyLive(tables, live);
      logs := OnlyFrom(logs, logNumber);
    }
  }

  lemma ReaderFacts(s: State, files: seq<seq<FileMeta>>)
    requires EngineInvariant.Inv(s) && |files| == NUM_LEVELS && s.version == Listed(files) && s.nextFile <= TWO64
    ensures DataInv(DataOf(s), s.history)
    ensures forall l, f :: 0 <= l < NUM_LEVELS && f in files[l] ==> f.number < TWO64
  {
    FlushFacts(s);
    forall l, f | 0 <= l < NUM_LEVELS && f in files[l] ensures f.number < TWO64 {
      assert f in Listed(files)[l];
    }
  }

  lemma MergerSorted(merger: Merger)
    requires merger.Ok()
    ensures Sorted(merger.all)
  {
    merger.ValidIff();
  }

  lemma NoFilesListed()
    ensures Listed([[], [], [], [], [], [], []]) == EMPTY_VERSION
  {
    var files: seq<seq<FileMeta>> := [[], [], [], [], [], [], []];
    forall l | 0 <= l < NUM_LEVELS ensures Listed(files)[l] == EMPTY_VERSION[l] {
      assert Files(files[l]) == {};
    }
  }

  /** The steps that change only memory, or only delete. */
  lemma SimpleStep(s: State, step: Step)
    requires EngineInvariant.Inv(s) && Enabled(s, step)
    ensures s.logFile in s.logs && EngineInvariant.Inv(After(s, step))
  {
    EngineViews.StepKeepsInv(s, step);
  }

  function NumbersIn(v: Version): (r: set<nat>)
    ensures forall n :: n in r <==> InVersion(v, n)
  {
    set l: nat, f | 0 <= l < NUM_LEVELS && f in v[l] :: f.number
  }

  function OnlyLive(tables: map<nat, seq<Entry>>, live: set<nat>): map<nat, seq<Entry>> {
    map n | n in tables && n in live :: tables[n]
  }

  function OnlyFrom(logs: map<nat, seq<LogRecord>>, low: nat): map<nat, seq<LogRecord>> {
    map n | n in logs && n >= low :: logs[n]
  }

  lemma DeleteIs(s: State, live: set<nat>)
    requires s.logFile in s.logs && forall n :: n in live <==> LiveTable(s, n)
    ensures After(s, DeleteObsolete) == s.(tables := OnlyLive(s.tables, live), logs := OnlyFrom(s.logs, s.logNumber))
    ensures forall n :: n in OnlyLive(s.tables, live) ==> LiveTable(After(s, DeleteObsolete), n)
  {
    LiveStays(s);
    hide LiveTable;
    var s' := After(s, DeleteObsolete);
    assert s'.tables == OnlyLive(s.tables, live);
    assert s'.logs == OnlyFrom(s.logs, s.logNumber);
  }

  /** Deleting changes nothing of what is referred to. */
  lemma LiveStays(s: State)
    requires s.logFile in s.logs
    ensures forall n :: LiveTable(After(s, DeleteObsolete), n) <==> LiveTable(s, n)
  {
  }

  lemma LiveIs(s: State, live: set<nat>)
    requires s.work.Idle?
    requires forall n :: n in live <==>
        InVersion(s.version, n) || exists j :: 0 <= j < |s.readers| && InVersion(s.readers[j].version, n)
    ensures forall n :: n in live <==> LiveTable(s, n)
  {
  }
}
