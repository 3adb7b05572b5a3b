/** A crash loses everything in memory; a restart rebuilds it from the manifest and the live
    logs.  Nothing that was ever committed is lost, and every view comes back. */
module EngineCrash {
  import opened Keys
  import opened Store
  import opened Reorganise
  import opened Engine
  import opened EngineInvariant

  lemma AscendingInit(a: seq<nat>, init: seq<nat>)
    requires Ascending(a) && a != [] && init == a[..|a| - 1]
    ensures Ascending(init)
    ensures forall n :: n in init <==> n in a && n != a[|a| - 1]
  {
    assert a == init + [a[|a| - 1]];
  }

  /** The live logs have one order only. */
  lemma {:induction false} OrderIsUnique(a: seq<nat>, b: seq<nat>)
    requires Ascending(a) && Ascending(b)
    requires forall n :: n in a <==> n in b
    ensures a == b
  {
    assert b == [] || b[0] in b;
    if a != [] {
      assert a[|a| - 1] in a && b != [];
      assert b[|b| - 1] in b;
      var i :| 0 <= i < |b| && b[i] == a[|a| - 1];
      var j :| 0 <= j < |a| && a[j] == b[|b| - 1];
      assert a[|a| - 1] == b[|b| - 1];
      var a', b' := a[..|a| - 1], b[..|b| - 1];
      AscendingInit(a, a');
      AscendingInit(b, b');
      OrderIsUnique(a', b');
    }
  }

  // ----- Cutting logged entries into tables -----

  /** Each chunk is increasing, and earlier chunks are older throughout. */
  lemma {:induction false} FlattenIncreasing(chunks: seq<seq<Entry>>)
    requires Increasing(Flatten(chunks))
    ensures forall i :: 0 <= i < |chunks| ==> Increasing(chunks[i])
    ensures forall i, j, x, y :: 0 <= i < j < |chunks| && x in chunks[i] && y in chunks[j] ==>
        x.key.sequence < y.key.sequence
  {
    if chunks != [] {
      var init := chunks[..|chunks| - 1];
      IncreasingSuffix(Flatten(init), chunks[|chunks| - 1]);
      FlattenIncreasing(init);
      forall i, x | 0 <= i < |init| && x in init[i] ensures x in Flatten(init) {
        FlattenMembers(init, x);
      }
    }
  }

  lemma {:induction false} WriteTablesResult(
      tables: map<nat, seq<Entry>>, files: seq<FileMeta>, chunks: seq<seq<Entry>>)
    requires |files| == |chunks|
    requires forall i, j :: 0 <= i < j < |files| ==> files[i].number < files[j].number
    ensures forall i :: 0 <= i < |files| ==>
              (files[i].number in WriteTables(tables, files, chunks)
               && WriteTables(tables, files, chunks)[files[i].number] == MemOf(chunks[i]))
    ensures forall n :: n in tables && (forall i :: 0 <= i < |files| ==> files[i].number != n) ==>
              (n in WriteTables(tables, files, chunks) && WriteTables(tables, files, chunks)[n] == tables[n])
  {
    if files != [] {
      WriteTablesResult(tables, files[..|files| - 1], chunks[..|files| - 1]);
    }
  }

  /** The tables that a restart writes: chunk `i` is the content of file `i`, later files are
      newer throughout, and the chunks hold entries of the crashed memtables. */
  ghost predicate Reload(d: Data, files: seq<FileMeta>, chunks: seq<seq<Entry>>, tables: map<nat, seq<Entry>>) {
    && |files| == |chunks|
    && (forall i :: 0 <= i < |files| ==>
          && NewestNumber(d.version, files[i].number)
          && files[i].number in tables
          && FileMatches(files[i], tables[files[i].number])
          && (forall x :: x in tables[files[i].number] <==> x in chunks[i]))
    && (forall i, j :: 0 <= i < j < |files| ==> files[i].number < files[j].number)
    && (forall i, j, x, y :: 0 <= i < j < |files| && x in chunks[i] && y in chunks[j] ==>
      x.key.sequence < y.key.sequence)
    && (forall n :: InVersion(d.version, n) ==> n in d.tables && n in tables && tables[n] == d.tables[n])
  }

  ghost predicate Reloaded(files: seq<FileMeta>, loc: Loc) {
    loc.InFile? && loc.level == 0 && loc.file in files
  }

  /** What a restart finds where: unless in a reloaded table, it was there before the crash. */
  lemma ReloadHolds(d: Data, d': Data, files: seq<FileMeta>, chunks: seq<seq<Entry>>, loc: Loc, x: Entry)
    requires TablesOk(d.version, d.tables)
    requires Reload(d, files, chunks, d'.tables) && d'.imm == []
    requires d'.version == d.version[0 := d.version[0] + FileSet(files)]
    requires d'.mem == [] || d'.mem == d.mem
    ensures Holds(d', loc, x) ==>
              || Holds(d, loc, x)
              || (Reloaded(files, loc)
                  && exists i :: 0 <= i < |files| && loc.file == files[i] && x in chunks[i])
    ensures loc.InFile? && Holds(d, loc, x) ==> Holds(d', loc, x)
    ensures Reloaded(files, loc) ==> !Holds(d, loc, x)
  {
    if loc.InFile? && loc.level < NUM_LEVELS {
      assert loc.file in d.version[loc.level] ==> InVersion(d.version, loc.file.number);
    }
  }

  /** Where an entry that a restart finds was before the crash. */
  lemma SourceOf(d: Data, d': Data, files: seq<FileMeta>, chunks: seq<seq<Entry>>, a: Loc, x: Entry) returns (a': Loc)
    requires TablesOk(d.version, d.tables)
    requires Reload(d, files, chunks, d'.tables) && d'.imm == []
    requires d'.version == d.version[0 := d.version[0] + FileSet(files)]
    requires d'.mem == [] || d'.mem == d.mem
    requires forall i, x :: 0 <= i < |chunks| && x in chunks[i] ==> x in d.imm || (x in d.mem && d'.mem == [])
    requires Holds(d', a, x)
    ensures Holds(d, a', x)
    ensures if Reloaded(files, a) then a' == InImm || (a' == InMem && d'.mem == []) else a' == a
  {
    ReloadHolds(d, d', files, chunks, a, x);
    a' := if !Reloaded(files, a) then a else if x in d.imm then InImm else InMem;
  }

  lemma ReloadIndex(d: Data, d': Data, files: seq<FileMeta>, chunks: seq<seq<Entry>>, a: Loc, x: Entry) returns (i: nat)
    requires Reload(d, files, chunks, d'.tables)
    requires Reloaded(files, a) && Holds(d', a, x)
    ensures i < |files| && a.file == files[i] && x in chunks[i]
  {
    i :| i < |files| && a.file == files[i];
  }

  lemma ReloadKeepsAge(d: Data, d': Data, hist: seq<Op>, files: seq<FileMeta>, chunks: seq<seq<Entry>>)
    requires DataInv(d, hist)
    requires Reload(d, files, chunks, d'.tables) && d'.imm == []
    requires d'.version == d.version[0 := d.version[0] + FileSet(files)]
    requires d'.mem == [] || d'.mem == d.mem
    requires forall i, x :: 0 <= i < |chunks| && x in chunks[i] ==> x in d.imm || (x in d.mem && d'.mem == [])
    ensures AgeOrdered(d') && FromHistory(d', hist)
  {
    forall a, x | Holds(d', a, x) ensures IsUpdate(hist, x) {
      var a' := SourceOf(d, d', files, chunks, a, x);
    }
    forall a, b, x, y | Above(a, b) && Holds(d', a, x) && Holds(d', b, y) && x.key.user == y.key.user
      ensures x.key.sequence > y.key.sequence
    {
      if Reloaded(files, a) && Reloaded(files, b) {
        var i := ReloadIndex(d, d', files, chunks, a, x);
        var j := ReloadIndex(d, d', files, chunks, b, y);
        assert files[i].number > files[j].number;
        assert j < i;
      } else {
        var a' := SourceOf(d, d', files, chunks, a, x);
        var b' := SourceOf(d, d', files, chunks, b, y);
        ReloadedAbove(d, files, a, a', b, b', x, y);
      }
    }
  }

  lemma ReloadedAbove(d: Data, files: seq<FileMeta>, a: Loc, a': Loc, b: Loc, b': Loc, x: Entry, y: Entry)
    requires Above(a, b) && Holds(d, a', x) && Holds(d, b', y)
    requires !Reloaded(files, a) || !Reloaded(files, b)
    requires forall i :: 0 <= i < |files| ==> NewestNumber(d.version, files[i].number)
    requires if Reloaded(files, a) then !a'.InFile? else a' == a
    requires if Reloaded(files, b) then b' == InImm || (b' == InMem && a != InMem) else b' == b
    requires a != InImm && AgeOrdered(d) && x.key.user == y.key.user
    ensures x.key.sequence > y.key.sequence
  {
    assert Above(a', b');
  }

  lemma ReloadKeepsInvariant(d: Data, d': Data, hist: seq<Op>, files: seq<FileMeta>, chunks: seq<seq<Entry>>)
    requires DataInv(d, hist)
    requires Reload(d, files, chunks, d'.tables) && d'.imm == []
    requires d'.version == d.version[0 := d.version[0] + FileSet(files)]
    requires d'.mem == [] || d'.mem == d.mem
    requires forall i, x :: 0 <= i < |chunks| && x in chunks[i] ==> x in d.imm || (x in d.mem && d'.mem == [])
    ensures DataInv(d', hist)
  {
    ReloadKeepsAge(d, d', hist, files, chunks);
    forall l, f | 0 <= l < NUM_LEVELS && f in d.version[l]
      ensures f.number in d'.tables && d'.tables[f.number] == d.tables[f.number]
    {
      assert InVersion(d.version, f.number);
    }
  }

  lemma ReloadFinds(d: Data, d': Data, files: seq<FileMeta>, chunks: seq<seq<Entry>>, loc: Loc, x: Entry)
    returns (loc': Loc)
    requires TablesOk(d.version, d.tables)
    requires Reload(d, files, chunks, d'.tables) && d'.imm == []
    requires d'.version == d.version[0 := d.version[0] + FileSet(files)]
    requires d'.mem == [] || d'.mem == d.mem
    requires x in d.imm || (x in d.mem && d'.mem == []) ==> exists i :: 0 <= i < |chunks| && x in chunks[i]
    requires Holds(d, loc, x)
    ensures Holds(d', loc', x)
  {
    ReloadHolds(d, d', files, chunks, loc, x);
    loc' := loc;
    if loc == InImm || (loc == InMem && d'.mem == []) {
      var i :| 0 <= i < |chunks| && x in chunks[i];
      loc' := InFile(0, files[i]);
    }
  }

  lemma ReloadKeepsHeld(d: Data, d': Data, hist: seq<Op>, files: seq<FileMeta>, chunks: seq<seq<Entry>>)
    requires TablesOk(d.version, d.tables)
    requires Reload(d, files, chunks, d'.tables) && d'.imm == []
    requires d'.version == d.version[0 := d.version[0] + FileSet(files)]
    requires d'.mem == [] || d'.mem == d.mem
    requires forall x :: (exists i :: 0 <= i < |chunks| && x in chunks[i]) <==>
        x in d.imm || (x in d.mem && d'.mem == [])
    ensures Held(d', hist) == Held(d, hist)
  {
    forall n ensures IsHeld(d, hist, n) <==> IsHeld(d', hist, n) {
      if IsHeld(d, hist, n) {
        var loc :| Holds(d, loc, EntryOf(hist, n));
        var loc' := ReloadFinds(d, d', files, chunks, loc, EntryOf(hist, n));
      }
      if IsHeld(d', hist, n) {
        var loc :| Holds(d', loc, EntryOf(hist, n));
        var loc' := SourceOf(d, d', files, chunks, loc, EntryOf(hist, n));
      }
    }
    SameHeldSameView(d, d', hist);
  }

  // ----- The restarted engine -----

  /** The chunks that a restart cuts hold exactly the entries it must write out. */
  lemma RestartChunks(s: State, r: Restart, order: seq<nat>)
    requires Durable(s, order) && RestartOk(s, r) && LogNumberOf(s.manifest) == s.logNumber
    ensures r.order == order
    ensures Increasing(Flatten(r.chunks))
    ensures forall x :: (exists i :: 0 <= i < |r.chunks| && x in r.chunks[i]) <==>
        x in ImmEntries(s) || (x in s.mem && !r.reuse)
  {
    OrderIsUnique(r.order, order);
    var older := order[..|order| - 1];
    var a, b := EntriesOf(Concat(s.logs, older)), EntriesOf(s.logs[s.logFile]);
    EntriesAppend(Concat(s.logs, older), s.logs[s.logFile]);
    IncreasingSuffix(a, b);
    InsertAllMembers([], a);
    InsertAllMembers([], b);
    forall x
      ensures (exists i :: 0 <= i < |r.chunks| && x in r.chunks[i]) <==> x in ImmEntries(s) || (x in s.mem && !r.reuse)
    {
      FlattenMembers(r.chunks, x);
    }
  }

  lemma RestartReloads(s: State, r: Restart)
    requires TablesOk(s.version, s.tables) && NumbersBelow(s.version, NextFileOf(s.manifest))
    requires RestartOk(s, r) && Increasing(Flatten(r.chunks))
    ensures Reload(DataOf(s), r.files, r.chunks, WriteTables(s.tables, r.files, r.chunks))
  {
    FlattenIncreasing(r.chunks);
    WriteTablesResult(s.tables, r.files, r.chunks);
    forall i, x | 0 <= i < |r.chunks| ensures x in MemOf(r.chunks[i]) <==> x in r.chunks[i] {
      InsertAllMembers([], r.chunks[i]);
    }
    forall n | InVersion(s.version, n)
      ensures n in s.tables && forall i :: 0 <= i < |r.files| ==> r.files[i].number != n
    {
    }
  }

  lemma SnapshotReplays(v: Version)
    ensures Replay([SnapshotEdit(v)]) == v
    ensures NextFileOf([SnapshotEdit(v)]) == 0 && LogNumberOf([SnapshotEdit(v)]) == 0
    ensures LastSequenceOf([SnapshotEdit(v)]) == 0
  {
    var e := SnapshotEdit(v);
    ManifestAppend([], e);
    assert [] + [e] == [e];
    var w := ApplyEdit(EMPTY_VERSION, e);
    forall l | 0 <= l < NUM_LEVELS ensures w[l] == v[l] {
      forall f ensures f in w[l] <==> f in v[l] {
        if f in v[l] {
          assert (l, f) in e.added;
        }
      }
    }
  }

  lemma EditAddsFiles(v: Version, files: seq<FileMeta>, e: Edit)
    requires e.deleted == {} && e.added == set f | f in files :: (0, f)
    ensures ApplyEdit(v, e) == v[0 := v[0] + FileSet(files)]
  {
    var w := v[0 := v[0] + FileSet(files)];
    forall l | 0 <= l < NUM_LEVELS ensures ApplyEdit(v, e)[l] == w[l] {
      forall f ensures (exists p :: p in e.added && p.0 == l && p.1 == f) <==> l == 0 && f in files {
        if l == 0 && f in files {
          assert (0, f) in e.added;
        }
      }
    }
  }

  lemma RestartVersion(s: State, r: Restart, order: seq<nat>)
    requires Durable(s, order) && RestartOk(s, r) && r.order == order
    ensures var s' := Recovered(s, r);
      && s'.version == s.version[0 := s.version[0] + FileSet(r.files)]
      && Replay(s'.manifest) == s'.version
      && s'.lastSequence == s.lastSequence
      && LogNumberOf(s'.manifest) == s'.logNumber
      && (r.save ==>
            && NextFileOf(s'.manifest) == r.nextFile && LastSequenceOf(s'.manifest) == s.lastSequence
            && s'.logNumber == s'.logFile)
      && (!r.save ==> s'.manifest == s.manifest)
  {
    var s' := Recovered(s, r);
    var v0 := s.version;
    if r.save {
      var base := if r.freshManifest then [SnapshotEdit(v0)] else s.manifest;
      var e := Edit(Some(s'.logFile), Some(r.nextFile), Some(s.lastSequence), {}, set f | f in r.files :: (0, f));
      SnapshotReplays(v0);
      ManifestAppend(base, e);
      assert s'.manifest == base + [e];
      EditAddsFiles(v0, r.files, e);
    } else {
      assert v0[0] + FileSet(r.files) == v0[0];
      assert v0[0 := v0[0]] == v0;
    }
  }

  lemma RestartDurableNewLog(s: State, r: Restart, order: seq<nat>)
    requires Durable(s, order) && Counters(s) && RestartOk(s, r) && r.order == order && r.save && !r.reuse
    ensures Durable(Recovered(s, r), [r.newLog])
  {
    hide EntriesOf, InsertAll, RecordEntries, Replay, LogNumberOf, LastSequenceOf, MaxSequence, Concat;
    EmptyReplays();
    var s' := Recovered(s, r);
    RestartVersion(s, r, order);
    SingleLog(s'.logs, r.newLog);
    assert [r.newLog][..0] == [];
  }

  lemma RestartDurableReuse(s: State, r: Restart, order: seq<nat>)
    requires Durable(s, order) && Counters(s) && RestartOk(s, r) && r.order == order && r.save && r.reuse
    ensures Durable(Recovered(s, r), [s.logFile])
  {
    hide EntriesOf, InsertAll, RecordEntries, Replay, LogNumberOf, LastSequenceOf, MaxSequence, Concat;
    RestartVersion(s, r, order);
    NewestLogAlone(s, order);
    SingleLog(s.logs, s.logFile);
    EmptyReplays();
    assert [s.logFile][..0] == [];
  }

  lemma RestartDurable(s: State, r: Restart, order: seq<nat>)
    requires Durable(s, order) && Counters(s) && RestartOk(s, r) && r.order == order
    ensures exists order' :: Durable(Recovered(s, r), order')
  {
    if !r.save {
      RestartVersion(s, r, order);
      assert r.chunks == [] && Flatten(r.chunks) == [];
      var s' := Recovered(s, r);
      assert s'.mem == s.mem && s'.logs == s.logs && s'.logFile == s.logFile;
      assert EntriesOf(Concat(s.logs, order[..|order| - 1])) == [];
      assert Durable(s', order);
    } else if r.reuse {
      RestartDurableReuse(s, r, order);
    } else {
      RestartDurableNewLog(s, r, order);
    }
  }

  /** A restart after a crash at any point keeps the invariant and every held update. */
  lemma CrashKeepsInv(s: State, r: Restart)
    requires Inv(s) && Enabled(s, Crash(r))
    ensures Inv(After(s, Crash(r)))
    ensures Held(DataOf(After(s, Crash(r))), s.history) == Held(DataOf(s), s.history)
    ensures After(s, Crash(r)).lastSequence == s.lastSequence
  {
    var s' := Recovered(s, r);
    var order :| Durable(s, order);
    RestartChunks(s, r, order);
    RestartReloads(s, r);
    RestartVersion(s, r, order);
    RestartDurable(s, r, order);
    RestartMem(s, r, order);
    ReloadKeepsHeld(DataOf(s), DataOf(s'), s.history, r.files, r.chunks);
    ReloadKeepsInvariant(DataOf(s), DataOf(s'), s.history, r.files, r.chunks);
    RestartCounters(s, r, order);
  }

  lemma RestartMem(s: State, r: Restart, order: seq<nat>)
    requires Durable(s, order) && RestartOk(s, r) && r.order == order
    ensures Recovered(s, r).mem == if r.reuse then s.mem else []
    ensures DataOf(Recovered(s, r)).imm == []
  {
  }

  lemma RestartCounters(s: State, r: Restart, order: seq<nat>)
    requires Durable(s, order) && Counters(s) && RestartOk(s, r) && r.order == order
    ensures Counters(Recovered(s, r))
  {
    RestartVersion(s, r, order);
    var s' := Recovered(s, r);
    assert order[|order| - 1] in order;
    forall n | n in s'.logs ensures n < s'.nextFile {
      if n in s.logs && n < s.logNumber {
      }
    }
  }
}
