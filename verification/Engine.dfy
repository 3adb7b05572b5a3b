/** The storage engine as a state machine: what is in memory, what is on disk, and the steps
    that writers, readers, the background thread and a restart take. */
module Engine {
  import opened Keys
  import opened Store
  import opened Reorganise

  /** One record of a write-ahead log: a write batch with the sequence number of its first update. */
  datatype LogRecord = LogRecord(sequence: nat, ops: seq<Op>)

  /** One record of the manifest. */
  datatype Edit = Edit(logNumber: Option<nat>, nextFile: Option<nat>, lastSequence: Option<nat>,
                       deleted: set<(nat, nat)>, added: set<(nat, FileMeta)>)

  /** An open iterator: the sequence number it reads at and the memtables and version it holds on to. */
  datatype Reader = Reader(sequence: nat, mem: seq<Entry>, imm: seq<Entry>, version: Version)

  /** What the background thread has begun and not yet installed. */
  datatype Work =
    | Idle
    | Flushing(table: Option<FileMeta>, level: nat)
    | Compacting(level: nat, in0: set<FileMeta>, in1: set<FileMeta>, smallest: nat, outs: set<FileMeta>)

  datatype State = State(
    // memory
    mem: seq<Entry>, imm: Option<seq<Entry>>, version: Version,
    lastSequence: nat, snapshots: seq<nat>, readers: seq<Reader>,
    logNumber: nat, logFile: nat, nextFile: nat, work: Work,
    // disk
    logs: map<nat, seq<LogRecord>>, tables: map<nat, seq<Entry>>, manifest: seq<Edit>,
    // auxiliary: every update ever committed, read by no step
    history: seq<Op>)

  /** A restart's choices: whether the newest log is taken over, the live logs in order, how
      their entries are cut into tables, and whether and how the manifest is rewritten. */
  datatype Restart = Restart(reuse: bool, order: seq<nat>, chunks: seq<seq<Entry>>, files: seq<FileMeta>,
                             newLog: nat, nextFile: nat, save: bool, freshManifest: bool)

  datatype Step =
    | Write(ops: seq<Op>)
    | SwitchMemTable
    | FlushBegin(file: FileMeta, level: nat)
    | FlushBeginEmpty
    | FlushInstall
    | CompactBegin(level: nat, in0: set<FileMeta>, in1: set<FileMeta>, outs: set<FileMeta>,
                   written: map<nat, seq<Entry>>, nextFile: nat)
    | CompactInstall
    | TrivialMove(level: nat, file: FileMeta)
    | TakeSnapshot
    | ReleaseSnapshot(index: nat)
    | OpenReader(sequence: nat)
    | CloseReader(index: nat)
    | DeleteObsolete
    | Crash(restart: Restart)

  // ----- Memtables and logs -----

  function InsertAll(t: seq<Entry>, es: seq<Entry>): seq<Entry>
    decreases |es|
  {
    if es == [] then t else InsertAll(InsertSorted(t, es[0]), es[1..])
  }

  function RecordEntries(r: LogRecord): seq<Entry> {
    seq(|r.ops|, i requires 0 <= i < |r.ops| => OpEntry(r.ops[i], r.sequence + i))
  }

  /** The updates of a record go into the memtable one by one, under consecutive sequence numbers. */
  method InsertInto(mem: seq<Entry>, r: LogRecord) returns (result: seq<Entry>)
    ensures result == InsertAll(mem, RecordEntries(r))
  {
    hide InsertSorted;
    result := mem;
    var i: nat := 0;
    ghost var es := RecordEntries(r);
    assert es[0..] == es;
    while i < |r.ops|
      invariant i <= |r.ops| && InsertAll(mem, es) == InsertAll(result, es[i..])
    {
      assert es[i..][1..] == es[i + 1..];
      result := InsertSorted(result, OpEntry(r.ops[i], r.sequence + i));
      i := i + 1;
    }
  }

  function EntriesOf(rs: seq<LogRecord>): seq<Entry> {
    if rs == [] then [] else EntriesOf(rs[..|rs| - 1]) + RecordEntries(rs[|rs| - 1])
  }

  /** The memtable that replaying entries rebuilds. */
  function MemOf(es: seq<Entry>): seq<Entry> {
    InsertAll([], es)
  }

  function Concat(logs: map<nat, seq<LogRecord>>, order: seq<nat>): seq<LogRecord>
    requires forall n :: n in order ==> n in logs
  {
    if order == [] then [] else Concat(logs, order[..|order| - 1]) + logs[order[|order| - 1]]
  }

  ghost predicate Ascending(order: seq<nat>) {
    forall i, j :: 0 <= i < j < |order| ==> order[i] < order[j]
  }

  /** The logs that a restart replays, oldest first. */
  ghost predicate LiveLogs(logs: map<nat, seq<LogRecord>>, logNumber: nat, order: seq<nat>) {
    Ascending(order) && forall n :: n in order <==> n in logs && n >= logNumber
  }

  /** The sequence number after the last update of the records, at least `low`. */
  function MaxSequence(rs: seq<LogRecord>, low: nat): nat {
    if rs == [] then low
    else
      var m := MaxSequence(rs[..|rs| - 1], low);
      var r := rs[|rs| - 1];
      if m < r.sequence + |r.ops| - 1 then r.sequence + |r.ops| - 1 else m
  }

  // ----- Manifest -----

  const EMPTY_VERSION: Version := [{}, {}, {}, {}, {}, {}, {}]

  /** One level after one edit: deletions first, then additions. */
  function LevelAfter(files: set<FileMeta>, level: nat, e: Edit): set<FileMeta> {
    (set f | f in files && (level, f.number) !in e.deleted)
    + (set p | p in e.added && p.0 == level :: p.1)
  }

  function ApplyEdit(v: Version, e: Edit): Version {
    seq(NUM_LEVELS, l requires 0 <= l < NUM_LEVELS => LevelAfter(v[l], l, e))
  }

  function Replay(manifest: seq<Edit>): Version {
    if manifest == [] then EMPTY_VERSION
    else ApplyEdit(Replay(manifest[..|manifest| - 1]), manifest[|manifest| - 1])
  }

  function LogNumberOf(manifest: seq<Edit>): nat {
    if manifest == [] then 0
    else if manifest[|manifest| - 1].logNumber.Some? then manifest[|manifest| - 1].logNumber.value
    else LogNumberOf(manifest[..|manifest| - 1])
  }

  function NextFileOf(manifest: seq<Edit>): nat {
    if manifest == [] then 0
    else if manifest[|manifest| - 1].nextFile.Some? then manifest[|manifest| - 1].nextFile.value
    else NextFileOf(manifest[..|manifest| - 1])
  }

  function LastSequenceOf(manifest: seq<Edit>): nat {
    if manifest == [] then 0
    else if manifest[|manifest| - 1].lastSequence.Some? then manifest[|manifest| - 1].lastSequence.value
    else LastSequenceOf(manifest[..|manifest| - 1])
  }

  function AllFiles(v: Version): set<(nat, FileMeta)> {
    set l: nat, f | 0 <= l < NUM_LEVELS && f in v[l] :: (l, f)
  }

  /** The record that a new manifest starts with. */
  function SnapshotEdit(v: Version): Edit {
    Edit(None, None, None, {}, AllFiles(v))
  }

  /** An edit is completed with the current counters, applied, and appended to the manifest. */
  function LogAndApply(s: State, logNumber: nat, deleted: set<(nat, nat)>, added: set<(nat, FileMeta)>): State {
    var e := Edit(Some(logNumber), Some(s.nextFile), Some(s.lastSequence), deleted, added);
    s.(version := ApplyEdit(s.version, e), logNumber := logNumber, manifest := s.manifest + [e])
  }

  // ----- Steps -----

  function ImmEntries(s: State): seq<Entry> {
    if s.imm.Some? then s.imm.value else []
  }

  function DataOf(s: State): Data {
    Data(s.mem, ImmEntries(s), s.version, s.tables)
  }

  function ReaderData(s: State, r: Reader): Data {
    Data(r.mem, r.imm, r.version, s.tables)
  }

  /** The oldest sequence number that a new reader can ask for. */
  function SmallestSnapshot(s: State): nat {
    if s.snapshots == [] then s.lastSequence else s.snapshots[0]
  }

  ghost predicate InVersion(v: Version, n: nat) {
    exists l, f :: 0 <= l < NUM_LEVELS && f in v[l] && f.number == n
  }

  ghost predicate Pending(w: Work, n: nat) {
    match w
    case Idle => false
    case Flushing(t, _) => t.Some? && t.value.number == n
    case Compacting(_, _, _, _, outs) => exists o :: o in outs && o.number == n
  }

  /** A table that obsolete-file deletion keeps. */
  ghost predicate LiveTable(s: State, n: nat) {
    || InVersion(s.version, n)
    || (exists i :: 0 <= i < |s.readers| && InVersion(s.readers[i].version, n))
    || Pending(s.work, n)
  }

  /** What a restart does with the disk that a crash left. */
  ghost predicate RestartOk(s: State, r: Restart) {
    && LiveLogs(s.logs, LogNumberOf(s.manifest), r.order)
    && (r.reuse ==> r.order != [])
    && (!r.save ==> r.reuse && r.files == [])
    && Flatten(r.chunks) == EntriesOf(Concat(s.logs, if r.reuse then r.order[..|r.order| - 1] else r.order))
    && |r.files| == |r.chunks|
    && (forall i :: 0 <= i < |r.files| ==>
          && r.chunks[i] != []
          && FileMatches(r.files[i], MemOf(r.chunks[i]))
          && NextFileOf(s.manifest) < r.files[i].number < r.nextFile)
    && (forall i, j :: 0 <= i < j < |r.files| ==> r.files[i].number < r.files[j].number)
    && NextFileOf(s.manifest) < r.nextFile
    && (forall n :: n in r.order ==> n < r.nextFile)
    && (!r.reuse ==> r.newLog < r.nextFile && LogNumberOf(s.manifest) <= r.newLog && r.newLog !in s.logs
                     && forall n :: n in r.order ==> n < r.newLog)
  }

  function FileSet(files: seq<FileMeta>): set<FileMeta> {
    set f | f in files
  }

  function WriteTables(
      tables: map<nat, seq<Entry>>, files: seq<FileMeta>, chunks: seq<seq<Entry>>): map<nat, seq<Entry>>
    requires |files| == |chunks|
  {
    if files == [] then tables
    else
      var n := |files| - 1;
      WriteTables(tables, files[..n], chunks[..n])[files[n].number := MemOf(chunks[n])]
  }

  function Recovered(s: State, r: Restart): State
    requires r.reuse ==> r.order != []
    requires forall n :: n in r.order ==> n in s.logs
    requires |r.files| == |r.chunks|
  {
    var v0 := Replay(s.manifest);
    var logFile := if r.reuse then r.order[|r.order| - 1] else r.newLog;
    var last := MaxSequence(Concat(s.logs, r.order), LastSequenceOf(s.manifest));
    var s0 := State(
      if r.reuse then MemOf(EntriesOf(s.logs[logFile])) else [], None, v0,
      last, [], [],
      LogNumberOf(s.manifest), logFile, r.nextFile, Idle,
      if r.reuse then s.logs else s.logs[r.newLog := []],
      WriteTables(s.tables, r.files, r.chunks),
      if r.freshManifest && r.save then [SnapshotEdit(v0)] else s.manifest,
      s.history);
    if r.save then LogAndApply(s0, logFile, {}, set f | f in r.files :: (0, f)) else s0
  }

  ghost predicate Enabled(s: State, step: Step) {
    match step
    case Write(ops) => s.lastSequence + |ops| < MAX_SEQUENCE
    case SwitchMemTable => s.imm.None?
    case FlushBegin(file, level) =>
      && s.work.Idle? && s.imm.Some?
      && file.number == s.nextFile
      && FileMatches(file, s.imm.value)
      && FlushLevelOk(s.version, file, level)
    case FlushBeginEmpty => s.work.Idle? && s.imm == Some([])
    case FlushInstall => s.work.Flushing?
    case CompactBegin(level, in0, in1, outs, written, nextFile) =>
      && s.work.Idle?
      && InputsOk(s.version, level, in0, in1)
      && (forall o :: o in outs ==> s.nextFile <= o.number < nextFile && o.number in written)
      && (forall n :: n in written ==> s.nextFile <= n < nextFile)
      && (forall o, p :: o in outs && p in outs && o.number == p.number ==> o == p)
      && s.nextFile <= nextFile
      && OutputsOk(s.version, s.tables + written, level, in0 + in1, SmallestSnapshot(s), outs)
    case CompactInstall => s.work.Compacting?
    case TrivialMove(level, file) => s.work.Idle? && InputsOk(s.version, level, {file}, {})
    case TakeSnapshot => true
    case ReleaseSnapshot(i) => i < |s.snapshots|
    case OpenReader(n) => n == s.lastSequence || n in s.snapshots
    case CloseReader(i) => i < |s.readers|
    case DeleteObsolete => true
    case Crash(r) => RestartOk(s, r)
  }

  ghost function After(s: State, step: Step): State
    requires Enabled(s, step)
    requires s.logFile in s.logs
  {
    match step
    case Write(ops) =>
      var r := LogRecord(s.lastSequence + 1, ops);
      s.(mem := InsertAll(s.mem, RecordEntries(r)),
         logs := s.logs[s.logFile := s.logs[s.logFile] + [r]],
         lastSequence := s.lastSequence + |ops|,
         history := s.history + ops)
    case SwitchMemTable =>
      s.(imm := Some(s.mem), mem := [],
         logFile := s.nextFile, logs := s.logs[s.nextFile := []], nextFile := s.nextFile + 1)
    case FlushBegin(file, level) =>
      s.(nextFile := s.nextFile + 1, tables := s.tables[file.number := s.imm.value],
         work := Flushing(Some(file), level))
    case FlushBeginEmpty =>
      s.(nextFile := s.nextFile + 1, work := Flushing(None, 0))
    case FlushInstall =>
      LogAndApply(s, s.logFile, {}, if s.work.table.Some? then {(s.work.level, s.work.table.value)} else {})
        .(imm := None, work := Idle)
    case CompactBegin(level, in0, in1, outs, written, nextFile) =>
      s.(nextFile := nextFile, tables := s.tables + written,
         work := Compacting(level, in0, in1, SmallestSnapshot(s), outs))
    case CompactInstall =>
      var w := s.work;
      LogAndApply(s, s.logNumber,
                  (set f | f in w.in0 :: (w.level, f.number)) + (set f | f in w.in1 :: (w.level + 1, f.number)),
                  set o | o in w.outs :: (w.level + 1, o))
        .(work := Idle)
    case TrivialMove(level, file) =>
      LogAndApply(s, s.logNumber, {(level, file.number)}, {(level + 1, file)})
    case TakeSnapshot => s.(snapshots := s.snapshots + [s.lastSequence])
    case ReleaseSnapshot(i) => s.(snapshots := s.snapshots[..i] + s.snapshots[i + 1..])
    case OpenReader(n) => s.(readers := s.readers + [Reader(n, s.mem, ImmEntries(s), s.version)])
    case CloseReader(i) => s.(readers := s.readers[..i] + s.readers[i + 1..])
    case DeleteObsolete =>
      s.(tables := map n | n in s.tables && LiveTable(s, n) :: s.tables[n],
         logs := map n | n in s.logs && n >= s.logNumber :: s.logs[n])
    case Crash(r) => Recovered(s, r)
  }

  /** A freshly created and opened database. */
  ghost const INITIAL: State := State([], None, EMPTY_VERSION, 0, [], [], 3, 3, 4, Idle,
                                map[3 := []], map[],
                                [SnapshotEdit(EMPTY_VERSION), Edit(Some(3), Some(4), Some(0), {}, {})], [])
}
