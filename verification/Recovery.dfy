/** Opening a database after a crash, from what is on disk. */
module Recovery {
  import opened Keys
  import opened Store
  import opened Reorganise
  import opened FileSearch
  import opened Engine
  import opened EngineInvariant
  import EngineCrash
  import opened VersionBuilder
  import opened ManifestReplay
  import opened LogReplay
  import opened Database
  import EngineViews
  import DiskFiles

  /** What the invariant says about the disk alone. */
  lemma DiskFacts(s: State, order: seq<nat>)
    requires Inv(s) && LiveLogs(s.logs, LogNumberOf(s.manifest), order)
    ensures order != [] && Increasing(EntriesOf(Concat(s.logs, order)))
    ensures MaxSequence(Concat(s.logs, order), LastSequenceOf(s.manifest)) == s.lastSequence
    ensures Replay(s.manifest) == s.version
  {
    var o :| Durable(s, o);
    EngineCrash.OrderIsUnique(o, order);
  }

  lemma NextLog(logs: map<nat, seq<LogRecord>>, order: seq<nat>, i: nat)
    requires i < |order| && forall n :: n in order ==> n in logs
    ensures Concat(logs, order[..i + 1]) == Concat(logs, order[..i]) + logs[order[i]]
  {
    assert order[..i + 1][..i] == order[..i];
  }

  lemma {:induction false} LogsPrefix(logs: map<nat, seq<LogRecord>>, order: seq<nat>, i: nat)
    requires i <= |order| && forall n :: n in order ==> n in logs
    ensures Concat(logs, order[..i]) <= Concat(logs, order)
    decreases |order| - i
  {
    if i == |order| {
      assert order[..i] == order;
    } else {
      LogsPrefix(logs, order, i + 1);
      NextLog(logs, order, i);
    }
  }

  /** Reads all live logs; tells whether the last of them goes on as the current log. */
  method ReplayLogs(
      replayer: Replayer, logs: map<nat, seq<LogRecord>>, order: seq<nat>, reuse: bool, full: seq<Entry> -> bool,
      fileSize: seq<Entry> -> nat)
    returns (kept: bool)
    requires replayer.Ok() && replayer.done == [] && replayer.mem == None && replayer.cut == Cut([], [], [])
    requires order != [] && (forall n :: n in order ==> n in logs) && replayer.all == Concat(logs, order)
    modifies replayer
    ensures replayer.Ok() && replayer.done == Concat(logs, order) && (old(replayer.save) ==> replayer.save)
    ensures forall n :: n in order ==> n < replayer.nextFile
    ensures kept ==> reuse && Flatten(replayer.cut.chunks) == EntriesOf(Concat(logs, order[..|order| - 1]))
                     && replayer.cut.pending == EntriesOf(logs[order[|order| - 1]])
    ensures !kept ==> replayer.mem == None && Flatten(replayer.cut.chunks) == EntriesOf(Concat(logs, order))
                      && (reuse ==> replayer.save)
  {
    hide CutOk, EntriesOf, Flatten, MaxSequence, WriteTables, Concat;
    var i: nat := 0;
    kept := false;
    NoLogs(logs);
    assert order[..0] == [];
    while i < |order|
      invariant i <= |order| && replayer.Ok() && replayer.done == Concat(logs, order[..i])
      invariant old(replayer.save) ==> replayer.save
      invariant forall j :: 0 <= j < i ==> order[j] < replayer.nextFile
      invariant kept ==>
                  && reuse && i == |order|
                  && Flatten(replayer.cut.chunks) == EntriesOf(Concat(logs, order[..|order| - 1]))
                  && replayer.cut.pending == EntriesOf(logs[order[|order| - 1]])
      invariant !kept ==> replayer.mem == None && replayer.cut.pending == []
      invariant !kept && i == |order| ==> reuse ==> replayer.save
    {
      NextLog(logs, order, i);
      LogsPrefix(logs, order, i + 1);
      AllCut(replayer);
      kept := replayer.ReplayLog(logs[order[i]], i == |order| - 1, reuse, full, fileSize);
      replayer.MarkFileNumberUsed(order[i]);
      i := i + 1;
    }
    assert order[..i] == order;
    if !kept {
      AllCut(replayer);
    }
  }

  lemma NoLogs(logs: map<nat, seq<LogRecord>>)
    ensures Concat(logs, []) == []
  {
  }

  /** With nothing pending, all entries that were read are in the chunks. */
  lemma AllCut(replayer: Replayer)
    requires replayer.Ok()
    ensures replayer.cut.pending == [] ==> Flatten(replayer.cut.chunks) == EntriesOf(replayer.done)
  {
    hide EntriesOf, Flatten, MaxSequence, WriteTables, Increasing;
    assert Flatten(replayer.cut.chunks) + [] == Flatten(replayer.cut.chunks);
  }

  /** The choices that a restart made, once it has read the logs. */
  function Choices(
      kept: bool, order: seq<nat>, cut: Cut, newLog: nat, nextFile: nat, save: bool, freshManifest: bool): Restart
  {
    Restart(kept, order, cut.chunks, cut.files, newLog, nextFile, save, freshManifest)
  }

  lemma ChoicesOk(
      s: State, order: seq<nat>, all: seq<LogRecord>, cut: Cut, kept: bool, next: nat, save: bool,
      freshManifest: bool)
    requires LiveLogs(s.logs, LogNumberOf(s.manifest), order) && order != []
    requires CutOk(all, all, cut, NextFileOf(s.manifest) + 1, next)
    requires Flatten(cut.chunks) == EntriesOf(Concat(s.logs, if kept then order[..|order| - 1] else order))
    requires forall n :: n in order ==> n < next
    requires !save ==> kept && cut.files == []
    ensures RestartOk(s, Choices(kept, order, cut, next, if kept then next else next + 1, save, freshManifest))
  {
    hide CutOk, EntriesOf, Flatten, FileMatches, MemOf, Concat, LogNumberOf, NextFileOf, Ascending;
    CutWritten(all, cut, NextFileOf(s.manifest) + 1, next);
    NewLogFree(s.logs, LogNumberOf(s.manifest), order, next);
  }

  lemma NewLogFree(logs: map<nat, seq<LogRecord>>, low: nat, order: seq<nat>, next: nat)
    requires LiveLogs(logs, low, order) && order != [] && forall n :: n in order ==> n < next
    ensures next !in logs && low <= next
  {
    assert order[0] in order;
  }

  lemma CutWritten(all: seq<LogRecord>, cut: Cut, first: nat, next: nat)
    requires CutOk(all, all, cut, first, next)
    ensures Written(cut.files, cut.chunks, first, next)
  {
  }

  /** The new level-0 files, as the edit that ends the recovery lists them. */
  lemma NewTables(s: State, cut: Cut, all: seq<LogRecord>, next: nat)
    requires Inv(s) && CutOk(all, all, cut, NextFileOf(s.manifest) + 1, next)
    ensures
      var news := NewsOf(0, cut.files);
      && (forall i, j :: 0 <= i < j < |news| ==> news[i].1.number != news[j].1.number)
      && (forall p :: p in news ==> p.0 == 0 && forall l, f :: 0 <= l < NUM_LEVELS && f in s.version[l] ==>
        f.number != p.1.number)
      && NewFiles(news) == set f | f in cut.files :: (0, f)
  {
    var news := NewsOf(0, cut.files);
    assert NumbersBelow(s.version, NextFileOf(s.manifest));
    CutWritten(all, cut, NextFileOf(s.manifest) + 1, next);
    hide Inv, CutOk, FileMatches, NextFileOf;
    forall p ensures p in NewFiles(news) <==> p in set f | f in cut.files :: (0, f) {
      if p in NewFiles(news) {
        var i :| 0 <= i < |news| && news[i] == p;
        assert cut.files[i] in cut.files;
      }
      if p in set f | f in cut.files :: (0, f) {
        var i :| 0 <= i < |cut.files| && cut.files[i] == p.1;
        assert news[i] == p;
      }
    }
  }

  lemma ListedReplay(files: seq<seq<FileMeta>>, m: seq<Edit>)
    requires |files| == NUM_LEVELS && forall l :: 0 <= l < NUM_LEVELS ==> Files(files[l]) == Replay(m)[l]
    ensures Listed(files) == Replay(m)
    ensures forall l, f :: 0 <= l < NUM_LEVELS && f in files[l] ==> f in Replay(m)[l]
  {
    hide Replay;
    forall l, f | 0 <= l < NUM_LEVELS && f in files[l] ensures f in Replay(m)[l] {
      assert f in Files(files[l]);
    }
  }

  /** The state that recovery has built up before it records the new tables. */
  function Rebuilt(
      s: State, order: seq<nat>, replayed: map<nat, seq<Entry>>, kept: bool, next: nat, freshManifest: bool): State
    requires order != [] && forall n :: n in order ==> n in s.logs
  {
    var v := Replay(s.manifest);
    var logFile := if kept then order[|order| - 1] else next;
    State(if kept then MemOf(EntriesOf(s.logs[logFile])) else [], None, v,
          MaxSequence(Concat(s.logs, order), LastSequenceOf(s.manifest)), [], [],
          LogNumberOf(s.manifest), logFile, if kept then next else next + 1, Idle,
          if kept then s.logs else s.logs[next := []], replayed,
          if freshManifest then [SnapshotEdit(v)] else s.manifest, s.history)
  }

  lemma RecoveredIs(s: State, order: seq<nat>, cut: Cut, kept: bool, next: nat, save: bool, freshManifest: bool)
    requires order != [] && (forall n :: n in order ==> n in s.logs) && |cut.files| == |cut.chunks|
    requires (freshManifest ==> save)
    ensures
      var r := Choices(kept, order, cut, next, if kept then next else next + 1, save, freshManifest);
      var s0 := Rebuilt(s, order, WriteTables(s.tables, cut.files, cut.chunks), kept, next, freshManifest);
      Recovered(s, r) == if save then Engine.LogAndApply(s0, s0.logFile, {}, set f | f in cut.files :: (0, f)) else s0
  {
    hide Replay, EntriesOf, MaxSequence, LogNumberOf, NextFileOf, LastSequenceOf, WriteTables, Concat, MemOf,
         Engine.LogAndApply, SnapshotEdit;
  }

  lemma CrashStep(s: State, r: Restart)
    requires Inv(s) && RestartOk(s, r)
    ensures Inv(Recovered(s, r)) && Recovered(s, r).lastSequence == s.lastSequence
  {
    EngineCrash.CrashKeepsInv(s, r);
  }

  /** Opening what a crash left on disk.  It makes the choices of one restart of the machine, and
      ends in the state that the machine is in after it. */
  method Open(
      maxFileSize: nat, logs: map<nat, seq<LogRecord>>, tables: map<nat, seq<Entry>>, manifest: seq<Edit>,
      news: seq<seq<(nat, FileMeta)>>, reuse: bool, freshManifest: bool, full: seq<Entry> -> bool,
      fileSize: seq<Entry> -> nat, ghost s: State)
    returns (db: DB, ghost r: Restart)
    requires Inv(s) && ManifestInv(s) && s.lastSequence < MAX_SEQUENCE
    requires logs == s.logs && tables == s.tables && manifest == s.manifest && ListsNews(news, manifest)
    requires !reuse ==> freshManifest
    ensures fresh(db) && db.Ok() && RestartOk(s, r) && db.State() == Recovered(s, r)
  {
    hide Inv, ManifestInv, Replay, EntriesOf, Flatten, MaxSequence, LogNumberOf, NextFileOf, LastSequenceOf,
         WriteTables, Concat, CutOk, InOrder, Files, Listed, ListsNews, RestartOk, Engine.LogAndApply, MemOf,
         NewFiles, NewsOf, Recovered, LiveLogs, Ascending, SnapshotEdit;
    var files := LoadFiles(manifest, news, s);
    var low := LogNumberOf(manifest);
    var order := LiveNumbers(logs, low);
    DiskFacts(s, order);
    ghost var all := Concat(logs, order);
    var replayer := new Replayer(tables, NextFileOf(manifest) + 1, freshManifest, all);
    var kept := ReplayLogs(replayer, logs, order, reuse, full, fileSize);
    MaxSequenceFrom(all, LastSequenceOf(manifest));
    var last := LastSequenceOf(manifest);
    if last < replayer.maxSequence {
      last := replayer.maxSequence;
    }
    var next, save := replayer.nextFile, replayer.save;
    ghost var cut := replayer.cut;
    r := Choices(kept, order, cut, next, if kept then next else next + 1, save, freshManifest);
    ChoicesOk(s, order, all, cut, kept, next, save, freshManifest);
    CutSizes(all, all, cut, NextFileOf(manifest) + 1, next);
    RecoveredIs(s, order, cut, kept, next, save, freshManifest);
    CrashStep(s, r);
    NewTables(s, cut, all, next);
    EmptyMem([]);
    var manifest' := if freshManifest then [SnapshotEdit(Listed(files))] else manifest;
    if kept {
      var mem := if replayer.mem.Some? then replayer.mem.value else [];
      db := new DB.Loaded(
        maxFileSize, mem, files, last, low, order[|order| - 1], next, logs, replayer.tables, manifest', s.history);
    } else {
      db := new DB.Loaded(
        maxFileSize, [], files, last, low, next, next + 1, logs[next := []], replayer.tables, manifest', s.history);
    }
    assert db.State() == Rebuilt(s, order, replayer.tables, kept, next, freshManifest);
    if save {
      db.LogAndApply(db.logFile, {}, NewsOf(0, replayer.files));
    }
  }

  method LoadFiles(manifest: seq<Edit>, news: seq<seq<(nat, FileMeta)>>, ghost s: State)
    returns (files: seq<seq<FileMeta>>)
    requires ManifestInv(s) && manifest == s.manifest && ListsNews(news, manifest)
    ensures |files| == NUM_LEVELS && (forall l :: 0 <= l < NUM_LEVELS ==> InOrder(files[l]))
    ensures Listed(files) == Replay(manifest)
    ensures forall l, f :: 0 <= l < NUM_LEVELS && f in files[l] ==> f in Replay(manifest)[l]
  {
    hide ListsNews, Replay, InOrder, Listed;
    files := ReplayManifest(manifest, news);
    ListedReplay(files, manifest);
  }

  method LiveNumbers(logs: map<nat, seq<LogRecord>>, low: nat) returns (order: seq<nat>)
    ensures LiveLogs(logs, low, order) && forall n :: n in order ==> n in logs
  {
    order := SortNumbers(set n | n in logs && n >= low);
  }

  // ----- From the bytes on disk -----

  /** The manifest says which logs are live, which file numbers are free, and what the last sequence number was. */
  predicate HasCounters(manifest: seq<Edit>) {
    && (exists e :: e in manifest && e.nextFile.Some?)
    && (exists e :: e in manifest && e.logNumber.Some?)
    && (exists e :: e in manifest && e.lastSequence.Some?)
  }

  lemma CompleteEdit(manifest: seq<Edit>, e: Edit)
    requires e in manifest && e.nextFile.Some? && e.logNumber.Some? && e.lastSequence.Some?
    ensures HasCounters(manifest)
  {
  }

  lemma StepKeepsCounters(s: State, step: Step)
    requires s.logFile in s.logs && Enabled(s, step) && HasCounters(s.manifest)
    ensures HasCounters(After(s, step).manifest)
  {
    hide HasCounters, ApplyEdit, OutputsOk, InputsOk, FlushLevelOk, FileMatches;
    var m := After(s, step).manifest;
    if m != s.manifest {
      assert m != [];
      CompleteEdit(m, m[|m| - 1]);
    }
  }

  lemma {:induction false} RunKeepsCounters(states: seq<State>, steps: seq<Step>, i: nat)
    requires EngineViews.IsRun(states, steps) && i <= |steps|
    ensures HasCounters(states[i].manifest)
  {
    hide HasCounters, Enabled, After;
    if i == 0 {
      CompleteEdit(INITIAL.manifest, INITIAL.manifest[1]);
    } else {
      RunKeepsCounters(states, steps, i - 1);
      EngineViews.RunKeepsInv(states, steps, i - 1);
      StepKeepsCounters(states[i - 1], steps[i - 1]);
    }
  }

  method ReadLogs(rd: DiskFiles.Reading, files: map<nat, Bytes>) returns (logs: map<nat, seq<LogRecord>>)
    ensures logs.Keys == files.Keys
    ensures forall n, rs :: n in files && DiskFiles.LogFile(rd, files[n], rs) ==> logs[n] == rs
  {
    hide DiskFiles.LogFile;
    logs := map[];
    var left := files.Keys;
    while left != {}
      invariant left <= files.Keys && logs.Keys == files.Keys - left
      invariant forall n, rs :: n in logs && DiskFiles.LogFile(rd, files[n], rs) ==> logs[n] == rs
      decreases left
    {
      var n :| n in left;
      var records := DiskFiles.ReadRecords(rd, files[n]);
      logs, left := logs[n := records], left - {n};
    }
  }

  /** Opening the bytes that a crash left, each file perhaps with a front part of one more record.
      Nothing is made of such a part: what is read is what the machine's disk holds, and opening ends
      in the state that the machine is in after a restart. */
  method OpenDisk(
      maxFileSize: nat, rd: DiskFiles.Reading, logFiles: map<nat, Bytes>, tables: map<nat, seq<Entry>>,
      manifestFile: Bytes, reuse: bool, freshManifest: bool, full: seq<Entry> -> bool, fileSize: seq<Entry> -> nat,
      ghost s: State)
    returns (db: DB?, ghost r: Restart)
    requires Inv(s) && ManifestInv(s) && HasCounters(s.manifest) && s.lastSequence < MAX_SEQUENCE
    requires DiskFiles.OnDisk(rd, s, logFiles, manifestFile) && tables == s.tables
    requires !reuse ==> freshManifest
    ensures db != null && fresh(db) && db.Ok() && RestartOk(s, r) && db.State() == Recovered(s, r)
    ensures forall ws :: DiskFiles.ManifestOf(rd, manifestFile, s.manifest, ws) ==>
              db.compactPointer == DiskFiles.PointersAfter(rd.rank, DiskFiles.EditsIn(ws))
  {
    hide Inv, ManifestInv, ListsNews, RestartOk, Recovered, HasCounters, DiskFiles.ManifestOf, DiskFiles.LogFile,
         DiskFiles.PointersAfter, DiskFiles.EditsIn, InOrder, Listed;
    var manifest, news, pointers := DiskFiles.ReadManifest(rd, manifestFile);
    if manifest.None? || !HasCounters(manifest.value) {
      assert false; // reported as corruption; no disk of the machine is
    }
    var logs := ReadLogs(rd, logFiles);
    assert logs == s.logs;
    db, r := Open(maxFileSize, logs, tables, manifest.value, news, reuse, freshManifest, full, fileSize, s);
    db.compactPointer := pointers;
  }
}
