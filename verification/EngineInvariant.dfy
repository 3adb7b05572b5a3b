/** What every step of the engine keeps: the stored data are well formed and ordered by age,
    the disk alone determines the files and both memtables, and no table that a live version,
    an open reader or unfinished work refers to is missing. */
module EngineInvariant {
  import opened Keys
  import opened Store
  import opened Reorganise
  import opened Engine

  ghost predicate Increasing(es: seq<Entry>) {
    forall i, j :: 0 <= i < j < |es| ==> es[i].key.sequence < es[j].key.sequence
  }

  /** Replaying the manifest gives the current files and log number; replaying the live logs
      gives the immutable memtable and then, from the newest log, the memtable. */
  ghost predicate Durable(s: State, order: seq<nat>) {
    && LiveLogs(s.logs, s.logNumber, order)
    && order != []
    && order[|order| - 1] == s.logFile
    && s.mem == MemOf(EntriesOf(s.logs[s.logFile]))
    && ImmEntries(s) == MemOf(EntriesOf(Concat(s.logs, order[..|order| - 1])))
    && Increasing(EntriesOf(Concat(s.logs, order)))
    && MaxSequence(Concat(s.logs, order), LastSequenceOf(s.manifest)) == s.lastSequence
    && Replay(s.manifest) == s.version
    && LogNumberOf(s.manifest) == s.logNumber
  }

  ghost predicate NumbersBelow(v: Version, n: nat) {
    forall l, f :: 0 <= l < NUM_LEVELS && f in v[l] ==> f.number < n
  }

  ghost predicate Counters(s: State) {
    && NextFileOf(s.manifest) <= s.nextFile
    && NumbersBelow(s.version, NextFileOf(s.manifest))
    && (forall n :: n in s.logs ==> n < s.nextFile)
    && s.logFile in s.logs
    && s.lastSequence == |s.history|
    && (forall i :: 0 <= i < |s.snapshots| ==> s.snapshots[i] <= s.lastSequence)
    && (forall i, j :: 0 <= i < j < |s.snapshots| ==> s.snapshots[i] <= s.snapshots[j])
  }

  ghost predicate ReaderOk(s: State, r: Reader) {
    && r.sequence <= s.lastSequence
    && TablesOk(r.version, s.tables)
    && NumbersBelow(r.version, s.nextFile)
    && FromHistory(ReaderData(s, r), s.history)
  }

  ghost predicate WorkOk(s: State) {
    match s.work
    case Idle => true
    case Flushing(None, _) => s.imm == Some([])
    case Flushing(Some(f), level) =>
      && s.imm.Some?
      && f.number in s.tables && s.tables[f.number] == s.imm.value
      && FileMatches(f, s.imm.value)
      && FlushLevelOk(s.version, f, level)
      && NewestNumber(s.version, f.number)
      && f.number < s.nextFile
    case Compacting(level, in0, in1, smallest, outs) =>
      && InputsOk(s.version, level, in0, in1)
      && OutputsOk(s.version, s.tables, level, in0 + in1, smallest, outs)
      && smallest <= SmallestSnapshot(s)
      && (forall o :: o in outs ==> NewestNumber(s.version, o.number) && o.number < s.nextFile)
      && (forall o, p :: o in outs && p in outs && o.number == p.number ==> o == p)
  }

  ghost predicate Inv(s: State) {
    && DataInv(DataOf(s), s.history)
    && Counters(s)
    && (exists order :: Durable(s, order))
    && (forall r :: r in s.readers ==> ReaderOk(s, r))
    && WorkOk(s)
  }

  // ----- Memtables -----

  lemma {:induction false} InsertAllMembers(t: seq<Entry>, es: seq<Entry>)
    ensures forall x :: x in InsertAll(t, es) <==> x in t || x in es
    decreases |es|
  {
    if es != [] {
      InsertSortedMembers(t, es[0]);
      InsertAllMembers(InsertSorted(t, es[0]), es[1..]);
      assert es == [es[0]] + es[1..];
    }
  }

  lemma {:induction false} InsertAllSorted(t: seq<Entry>, es: seq<Entry>)
    requires Sorted(t) && Increasing(es)
    requires forall x, y :: x in t && y in es ==> x.key.sequence < y.key.sequence
    ensures Sorted(InsertAll(t, es))
    decreases |es|
  {
    if es != [] {
      var e := es[0];
      assert e in es;
      InsertSortedSorted(t, e);
      InsertSortedMembers(t, e);
      forall x, y | x in InsertSorted(t, e) && y in es[1..] ensures x.key.sequence < y.key.sequence {
        var j :| 0 <= j < |es| - 1 && es[1..][j] == y;
        assert es[j + 1] == y;
      }
      InsertAllSorted(InsertSorted(t, e), es[1..]);
    }
  }

  lemma {:induction false} InsertAllAppend(t: seq<Entry>, a: seq<Entry>, b: seq<Entry>)
    ensures InsertAll(t, a + b) == InsertAll(InsertAll(t, a), b)
    decreases |a|
  {
    if a == [] {
      assert a + b == b;
    } else {
      assert (a + b)[1..] == a[1..] + b;
      InsertAllAppend(InsertSorted(t, a[0]), a[1..], b);
    }
  }

  // ----- Stored data under each step -----

  /** Only the tables that the version names matter. */
  lemma TablesMayDiffer(d: Data, hist: seq<Op>, tables: map<nat, seq<Entry>>)
    requires DataInv(d, hist)
    requires forall n :: InVersion(d.version, n) ==> n in tables && tables[n] == d.tables[n]
    ensures DataInv(d.(tables := tables), hist)
    ensures Held(d.(tables := tables), hist) == Held(d, hist)
  {
    var d' := d.(tables := tables);
    forall l, f | 0 <= l < NUM_LEVELS && f in d.version[l]
      ensures f.number in tables && tables[f.number] == d.tables[f.number]
    {
      assert InVersion(d.version, f.number);
    }
    assert forall loc, x :: Holds(d, loc, x) <==> Holds(d', loc, x);
    SameHeldSameView(d, d', hist);
  }

  /** A memtable that grows by newer updates of a longer history. */
  lemma MemGrows(d: Data, hist: seq<Op>, hist': seq<Op>, mem': seq<Entry>)
    requires DataInv(d, hist) && hist <= hist' && Sorted(mem')
    requires forall x :: x in mem' ==> x in d.mem || (IsUpdate(hist', x) && x.key.sequence > |hist|)
    ensures DataInv(d.(mem := mem'), hist')
  {
    var d' := d.(mem := mem');
    forall loc, x | Holds(d', loc, x) ensures Holds(d, loc, x) || (loc == InMem && x.key.sequence > |hist|) {
    }
    forall loc, x | Holds(d, loc, x) ensures IsUpdate(hist', x) && x.key.sequence <= |hist| {
    }
    forall a, b, x, y | Above(a, b) && Holds(d', a, x) && Holds(d', b, y) && x.key.user == y.key.user
      ensures x.key.sequence > y.key.sequence
    {
      assert b != InMem && Holds(d, b, y);
    }
  }

  lemma WriteKeepsData(d: Data, hist: seq<Op>, ops: seq<Op>)
    requires DataInv(d, hist)
    ensures var es := RecordEntries(LogRecord(|hist| + 1, ops));
      var d' := d.(mem := InsertAll(d.mem, es));
      && DataInv(d', hist + ops)
      && (forall n: nat :: IsHeld(d', hist + ops, n) <==> IsHeld(d, hist, n) || |hist| < n <= |hist| + |ops|)
  {
    var es := RecordEntries(LogRecord(|hist| + 1, ops));
    var d' := d.(mem := InsertAll(d.mem, es));
    var hist' := hist + ops;
    InsertAllMembers(d.mem, es);
    forall x | x in d.mem ensures x.key.sequence <= |hist| {
      assert Holds(d, InMem, x);
    }
    forall x | x in es ensures IsUpdate(hist', x) && x.key.sequence > |hist| {
      var i :| 0 <= i < |es| && es[i] == x;
      assert x == EntryOf(hist', |hist| + 1 + i);
    }
    InsertAllSorted(d.mem, es);
    MemGrows(d, hist, hist', d'.mem);
    WriteHeld(d, hist, ops);
  }

  lemma WriteHeld(d: Data, hist: seq<Op>, ops: seq<Op>)
    requires FromHistory(d, hist)
    ensures var d' := d.(mem := InsertAll(d.mem, RecordEntries(LogRecord(|hist| + 1, ops))));
      forall n: nat :: IsHeld(d', hist + ops, n) <==> IsHeld(d, hist, n) || |hist| < n <= |hist| + |ops|
  {
    var es := RecordEntries(LogRecord(|hist| + 1, ops));
    var d' := d.(mem := InsertAll(d.mem, es));
    var hist' := hist + ops;
    InsertAllMembers(d.mem, es);
    forall n: nat ensures IsHeld(d', hist', n) <==> IsHeld(d, hist, n) || |hist| < n <= |hist| + |ops| {
      if |hist| < n <= |hist| + |ops| {
        assert es[n - |hist| - 1] == EntryOf(hist', n);
        assert Holds(d', InMem, EntryOf(hist', n));
      } else if 1 <= n <= |hist| {
        var e := EntryOf(hist, n);
        assert EntryOf(hist', n) == e && e !in es;
        assert forall loc :: Holds(d', loc, e) <==> Holds(d, loc, e);
      }
    }
  }

  lemma SwitchKeepsData(d: Data, hist: seq<Op>)
    requires DataInv(d, hist) && d.imm == []
    ensures var d' := d.(mem := [], imm := d.mem);
      DataInv(d', hist) && Held(d', hist) == Held(d, hist)
  {
    var d' := d.(mem := [], imm := d.mem);
    assert forall loc, x :: Holds(d', loc, x) ==> Holds(d, if loc == InImm then InMem else loc, x);
    forall a, b, x, y | Holds(d', a, x) && Holds(d', b, y) && Above(a, b) && x.key.user == y.key.user
      ensures x.key.sequence > y.key.sequence
    {
      var a', b' := if a == InImm then InMem else a, if b == InImm then InMem else b;
      assert Holds(d, a', x) && Holds(d, b', y) && Above(a', b');
    }
    forall n ensures IsHeld(d, hist, n) <==> IsHeld(d', hist, n) {
      if IsHeld(d, hist, n) {
        var loc :| Holds(d, loc, EntryOf(hist, n));
        assert Holds(d', if loc == InMem then InImm else loc, EntryOf(hist, n));
      }
    }
    SameHeldSameView(d, d', hist);
  }

  // ----- Disk under each step -----

  lemma ConcatAgrees(logs: map<nat, seq<LogRecord>>, logs': map<nat, seq<LogRecord>>, order: seq<nat>)
    requires forall n :: n in order ==> n in logs && n in logs' && logs[n] == logs'[n]
    ensures Concat(logs, order) == Concat(logs', order)
  {
  }

  lemma EntriesAppendOne(rs: seq<LogRecord>, r: LogRecord)
    ensures EntriesOf(rs + [r]) == EntriesOf(rs) + RecordEntries(r)
  {
    assert (rs + [r])[..|rs + [r]| - 1] == rs;
  }

  lemma {:induction false} EntriesAppend(a: seq<LogRecord>, b: seq<LogRecord>)
    ensures EntriesOf(a + b) == EntriesOf(a) + EntriesOf(b)
  {
    if b == [] {
      assert a + b == a;
    } else {
      var init, last := b[..|b| - 1], b[|b| - 1];
      var front, middle, back := EntriesOf(a), EntriesOf(init), RecordEntries(last);
      calc {
        EntriesOf(a + b);
        { assert a + b == (a + init) + [last]; }
        EntriesOf((a + init) + [last]);
        { EntriesAppendOne(a + init, last); }
        EntriesOf(a + init) + back;
        { EntriesAppend(a, init); }
        front + middle + back;
        { assert (front + middle) + back == front + (middle + back); }
        front + (middle + back);
      }
    }
  }

  lemma ManifestAppend(m: seq<Edit>, e: Edit)
    ensures Replay(m + [e]) == ApplyEdit(Replay(m), e)
    ensures LogNumberOf(m + [e]) == if e.logNumber.Some? then e.logNumber.value else LogNumberOf(m)
    ensures NextFileOf(m + [e]) == if e.nextFile.Some? then e.nextFile.value else NextFileOf(m)
    ensures LastSequenceOf(m + [e]) == if e.lastSequence.Some? then e.lastSequence.value else LastSequenceOf(m)
  {
    assert (m + [e])[..|m + [e]| - 1] == m;
  }

  lemma {:induction false} MaxSequenceLow(rs: seq<LogRecord>, low: nat, low': nat)
    requires low <= low' == MaxSequence(rs, low)
    ensures MaxSequence(rs, low') == low'
  {
    if rs != [] {
      MaxSequenceMono(rs[..|rs| - 1], low);
      MaxSequenceRaise(rs[..|rs| - 1], low, low');
    }
  }

  lemma {:induction false} MaxSequenceMono(rs: seq<LogRecord>, low: nat)
    ensures low <= MaxSequence(rs, low)
  {
    if rs != [] {
      MaxSequenceMono(rs[..|rs| - 1], low);
    }
  }

  lemma {:induction false} MaxSequenceRaise(rs: seq<LogRecord>, low: nat, low': nat)
    requires low <= low' && MaxSequence(rs, low) <= low'
    ensures MaxSequence(rs, low') == low'
  {
    if rs != [] {
      MaxSequenceRaise(rs[..|rs| - 1], low, low');
    }
  }

  /** Dropping replayed records cannot raise the highest sequence number above what the
      manifest already records. */
  lemma {:induction false} MaxSequenceSuffix(a: seq<LogRecord>, b: seq<LogRecord>, low: nat)
    requires MaxSequence(a + b, low) <= low
    ensures MaxSequence(b, low) == low
  {
    if b == [] {
    } else {
      assert (a + b)[..|a + b| - 1] == a + b[..|b| - 1];
      MaxSequenceMono((a + b)[..|a + b| - 1], low);
      MaxSequenceSuffix(a, b[..|b| - 1], low);
    }
  }

  lemma IncreasingAppend(es: seq<Entry>, last: nat, ops: seq<Op>)
    requires Increasing(es) && forall x :: x in es ==> x.key.sequence <= last
    ensures Increasing(es + RecordEntries(LogRecord(last + 1, ops)))
  {
    assert forall i :: 0 <= i < |es| ==> es[i] in es;
  }

  /** The records of the live logs after appending one to the newest log. */
  lemma AppendedConcat(logs: map<nat, seq<LogRecord>>, order: seq<nat>, r: LogRecord)
    requires Ascending(order) && order != [] && forall n :: n in order ==> n in logs
    ensures var last := order[|order| - 1];
      Concat(logs[last := logs[last] + [r]], order) == Concat(logs, order) + [r]
    ensures var last := order[|order| - 1];
      Concat(logs[last := logs[last] + [r]], order[..|order| - 1]) == Concat(logs, order[..|order| - 1])
  {
    var last := order[|order| - 1];
    ConcatAgrees(logs, logs[last := logs[last] + [r]], order[..|order| - 1]);
  }

  lemma MaxSequenceAppend(rs: seq<LogRecord>, r: LogRecord, low: nat)
    requires r.sequence == MaxSequence(rs, low) + 1
    ensures MaxSequence(rs + [r], low) == MaxSequence(rs, low) + |r.ops|
  {
    assert (rs + [r])[..|rs + [r]| - 1] == rs;
  }

  lemma WriteKeepsDurable(s: State, ops: seq<Op>, order: seq<nat>)
    requires Durable(s, order)
    requires forall x :: x in EntriesOf(Concat(s.logs, order)) ==> x.key.sequence <= s.lastSequence
    requires Enabled(s, Write(ops))
    ensures Durable(After(s, Write(ops)), order)
  {
    hide Concat, EntriesOf, InsertAll, MaxSequence, RecordEntries, Replay, LogNumberOf, LastSequenceOf;
    var r := LogRecord(s.lastSequence + 1, ops);
    var rs := Concat(s.logs, order);
    AppendedConcat(s.logs, order, r);
    EntriesAppendOne(s.logs[s.logFile], r);
    InsertAllAppend([], EntriesOf(s.logs[s.logFile]), RecordEntries(r));
    EntriesAppendOne(rs, r);
    IncreasingAppend(EntriesOf(rs), s.lastSequence, ops);
    MaxSequenceAppend(rs, r, LastSequenceOf(s.manifest));
  }

  lemma WriteKeepsReader(s: State, s': State, q: Reader)
    requires ReaderOk(s, q) && s'.tables == s.tables && s'.nextFile == s.nextFile
    requires s.history <= s'.history && s.lastSequence <= s'.lastSequence
    ensures ReaderOk(s', q)
  {
    assert ReaderData(s, q) == ReaderData(s', q);
    forall a, x | Holds(ReaderData(s, q), a, x) ensures IsUpdate(s'.history, x) {
      assert IsUpdate(s.history, x);
    }
  }

  lemma WriteKeepsInv(s: State, ops: seq<Op>)
    requires Inv(s) && Enabled(s, Write(ops))
    ensures Inv(After(s, Write(ops)))
  {
    var s' := After(s, Write(ops));
    WriteKeepsData(DataOf(s), s.history, ops);
    var order :| Durable(s, order);
    LoggedAreUpdates(s, order);
    WriteKeepsDurable(s, ops, order);
    forall q | q in s'.readers ensures ReaderOk(s', q) {
      WriteKeepsReader(s, s', q);
    }
    assert DataOf(s').tables == DataOf(s).tables && DataOf(s').version == DataOf(s).version;
    assert WorkOk(s');
  }


  /** The logged entries are those of the two memtables. */
  lemma LoggedAreUpdates(s: State, order: seq<nat>)
    requires DataInv(DataOf(s), s.history) && Durable(s, order)
    ensures forall x :: x in EntriesOf(Concat(s.logs, order)) <==> x in s.mem || x in ImmEntries(s)
    ensures forall x :: x in EntriesOf(Concat(s.logs, order)) ==> IsUpdate(s.history, x)
  {
    var older := order[..|order| - 1];
    EntriesAppend(Concat(s.logs, older), s.logs[s.logFile]);
    InsertAllMembers([], EntriesOf(Concat(s.logs, older)));
    InsertAllMembers([], EntriesOf(s.logs[s.logFile]));
    forall x | x in s.mem ensures IsUpdate(s.history, x) {
      assert Holds(DataOf(s), InMem, x);
    }
    forall x | x in ImmEntries(s) ensures IsUpdate(s.history, x) {
      assert Holds(DataOf(s), InImm, x);
    }
  }

  /** A reader's tables survive as long as the tables of its version do. */
  lemma ReaderKept(s: State, s': State, q: Reader)
    requires ReaderOk(s, q)
    requires s'.history == s.history && s'.lastSequence == s.lastSequence && s.nextFile <= s'.nextFile
    requires forall n :: InVersion(q.version, n) ==> n in s'.tables && n in s.tables && s'.tables[n] == s.tables[n]
    ensures ReaderOk(s', q)
    ensures Held(ReaderData(s', q), s'.history) == Held(ReaderData(s, q), s.history)
  {
    var d, d' := ReaderData(s, q), ReaderData(s', q);
    forall l, f | 0 <= l < NUM_LEVELS && f in q.version[l]
      ensures f.number in s'.tables && s'.tables[f.number] == s.tables[f.number]
    {
      assert InVersion(q.version, f.number);
    }
    assert forall loc, x :: Holds(d, loc, x) <==> Holds(d', loc, x);
    SameHeldSameView(d, d', s.history);
  }

  lemma SwitchKeepsInv(s: State)
    requires Inv(s) && Enabled(s, SwitchMemTable)
    ensures Inv(After(s, SwitchMemTable))
  {
    hide AgeOrdered, LevelsDisjoint, NumbersUnique, Durable, ReaderOk;
    var s' := After(s, SwitchMemTable);
    SwitchKeepsData(DataOf(s), s.history);
    var order :| Durable(s, order);
    SwitchKeepsDurable(s, order);
    forall q | q in s'.readers ensures ReaderOk(s', q) {
      ReaderInstalled(s, s', q);
    }
    assert s.work.Flushing? ==> false;
  }

  lemma SwitchKeepsDurable(s: State, order: seq<nat>)
    requires Durable(s, order) && s.imm == None && forall n :: n in s.logs ==> n < s.nextFile
    requires s.logFile < s.nextFile
    ensures Durable(After(s, SwitchMemTable), order + [s.nextFile])
  {
    var s' := After(s, SwitchMemTable);
    var order' := order + [s.nextFile];
    var older := order[..|order| - 1];
    assert order'[..|order'| - 1] == order;
    ConcatAgrees(s.logs, s'.logs, order);
    assert Concat(s'.logs, order') == Concat(s.logs, order);
    EntriesAppend(Concat(s.logs, older), s.logs[s.logFile]);
    var logged := EntriesOf(Concat(s.logs, older));
    assert logged == [] || logged[0] in logged;
    InsertAllMembers([], logged);
    assert EntriesOf(Concat(s.logs, order)) == EntriesOf(s.logs[s.logFile]);
  }

  /** Writing tables under unused numbers disturbs nothing. */
  lemma NewTablesKeepInv(s: State, s': State, added: map<nat, seq<Entry>>)
    requires Inv(s)
    requires s' == s.(tables := s.tables + added, nextFile := s'.nextFile, work := s'.work)
    requires s.nextFile <= s'.nextFile && forall n :: n in added ==> s.nextFile <= n
    requires WorkOk(s')
    ensures Inv(s')
  {
    forall n | InVersion(s.version, n) ensures n in s.tables && n !in added {
    }
    TablesMayDiffer(DataOf(s), s.history, s'.tables);
    var order :| Durable(s, order);
    assert Durable(s', order);
    forall q | q in s'.readers ensures ReaderOk(s', q) {
      forall n | InVersion(q.version, n) ensures n in s.tables && n !in added {
      }
      ReaderKept(s, s', q);
    }
  }

  lemma BeginKeepsInv(s: State, step: Step)
    requires Inv(s) && Enabled(s, step) && (step.FlushBegin? || step.FlushBeginEmpty? || step.CompactBegin?)
    ensures Inv(After(s, step))
  {
    hide AgeOrdered, LevelsDisjoint, Durable, ReaderOk;
    var s' := After(s, step);
    match step
    case FlushBegin(file, level) =>
      NewTablesKeepInv(s, s', map[file.number := s.imm.value]);
    case FlushBeginEmpty =>
      NewTablesKeepInv(s, s', map[]);
    case CompactBegin(level, in0, in1, outs, written, nextFile) =>
      NewTablesKeepInv(s, s', written);
  }

  // ----- Installing -----

  lemma EditAddsFile(v: Version, level: nat, file: FileMeta, e: Edit)
    requires level < NUM_LEVELS && e.deleted == {} && e.added == {(level, file)}
    ensures ApplyEdit(v, e) == WithFile(v, level, file)
  {
    assert forall l :: 0 <= l < NUM_LEVELS ==> ApplyEdit(v, e)[l] == WithFile(v, level, file)[l];
  }

  lemma EditAddsNothing(v: Version, e: Edit)
    requires e.deleted == {} && e.added == {}
    ensures ApplyEdit(v, e) == v
  {
    assert forall l :: 0 <= l < NUM_LEVELS ==> ApplyEdit(v, e)[l] == v[l];
  }

  lemma EditReplaces(v: Version, level: nat, in0: set<FileMeta>, in1: set<FileMeta>, outs: set<FileMeta>, e: Edit)
    requires NumbersUnique(v) && level + 1 < NUM_LEVELS && in0 <= v[level] && in1 <= v[level + 1]
    requires e.deleted == (set f | f in in0 :: (level, f.number)) + (set f | f in in1 :: (level + 1, f.number))
    requires e.added == set o | o in outs :: (level + 1, o)
    ensures ApplyEdit(v, e) == Replaced(v, level, in0, in1, outs)
  {
    var r := Replaced(v, level, in0, in1, outs);
    forall l | 0 <= l < NUM_LEVELS ensures ApplyEdit(v, e)[l] == r[l] {
      forall f | f in v[l]
        ensures (l, f.number) in e.deleted <==> (l == level && f in in0) || (l == level + 1 && f in in1)
      {
      }
      forall f ensures (exists p :: p in e.added && p.0 == l && p.1 == f) <==> l == level + 1 && f in outs {
        if l == level + 1 && f in outs {
          assert (level + 1, f) in e.added;
        }
      }
    }
  }

  lemma SingleLog(logs: map<nat, seq<LogRecord>>, n: nat)
    requires n in logs
    ensures Concat(logs, []) == [] && Concat(logs, [n]) == logs[n]
  {
    assert [n][..0] == [];
  }

  lemma EmptyReplays()
    ensures EntriesOf([]) == [] && MemOf([]) == []
    ensures forall low :: MaxSequence([], low) == low
  {
  }

  /** Replaying the newest log alone, when older ones add nothing to a sequence number on record. */
  lemma NewestLogAlone(s: State, order: seq<nat>)
    requires Durable(s, order)
    ensures LiveLogs(s.logs, s.logFile, [s.logFile])
    ensures Increasing(EntriesOf(s.logs[s.logFile]))
    ensures MaxSequence(s.logs[s.logFile], s.lastSequence) == s.lastSequence
  {
    var older, rs := Concat(s.logs, order[..|order| - 1]), Concat(s.logs, order);
    assert rs == older + s.logs[s.logFile];
    assert Increasing(EntriesOf(s.logs[s.logFile])) by {
      EntriesAppend(older, s.logs[s.logFile]);
      IncreasingSuffix(EntriesOf(older), EntriesOf(s.logs[s.logFile]));
    }
    assert MaxSequence(s.logs[s.logFile], s.lastSequence) == s.lastSequence by {
      MaxSequenceMono(rs, LastSequenceOf(s.manifest));
      MaxSequenceLow(rs, LastSequenceOf(s.manifest), s.lastSequence);
      MaxSequenceSuffix(older, s.logs[s.logFile], s.lastSequence);
    }
    AscendingLast(order);
  }

  lemma AscendingLast(order: seq<nat>)
    requires Ascending(order) && order != []
    ensures forall n :: n in order ==> n <= order[|order| - 1]
  {
  }

  lemma InstallKeepsDurable(
      s: State, s': State, order: seq<nat>, logNumber: nat, deleted: set<(nat, nat)>, added: set<(nat, FileMeta)>)
    returns (order': seq<nat>)
    requires Durable(s, order)
    requires s' == LogAndApply(s, logNumber, deleted, added).(imm := s'.imm, work := Idle)
    requires (logNumber == s.logNumber && s'.imm == s.imm) || (logNumber == s.logFile && s'.imm == None)
    ensures Durable(s', order')
  {
    hide EntriesOf, InsertAll, RecordEntries, Replay, LogNumberOf, LastSequenceOf, MaxSequence, Concat;
    ManifestAppend(s.manifest, Edit(Some(logNumber), Some(s.nextFile), Some(s.lastSequence), deleted, added));
    if logNumber == s.logNumber && s'.imm == s.imm {
      order' := order;
      MaxSequenceMono(Concat(s.logs, order), LastSequenceOf(s.manifest));
      MaxSequenceLow(Concat(s.logs, order), LastSequenceOf(s.manifest), s.lastSequence);
    } else {
      order' := [s.logFile];
      NewestLogAlone(s, order);
      SingleLog(s.logs, s.logFile);
      EmptyReplays();
      assert order'[..0] == [];
    }
  }

  lemma IncreasingSuffix(a: seq<Entry>, b: seq<Entry>)
    requires Increasing(a + b)
    ensures Increasing(a) && Increasing(b)
    ensures forall x, y :: x in a && y in b ==> x.key.sequence < y.key.sequence
  {
    assert forall i :: 0 <= i < |a| ==> (a + b)[i] == a[i];
    assert forall i :: 0 <= i < |b| ==> (a + b)[|a| + i] == b[i];
  }

  /** Installing an edit whose version keeps the stored data in order. */
  lemma InstallKeepsInv(s: State, s': State, logNumber: nat, deleted: set<(nat, nat)>, added: set<(nat, FileMeta)>)
    requires Inv(s)
    requires s' == LogAndApply(s, logNumber, deleted, added).(imm := s'.imm, work := Idle)
    requires (logNumber == s.logNumber && s'.imm == s.imm) || (logNumber == s.logFile && s'.imm == None)
    requires DataInv(DataOf(s'), s.history)
    requires NumbersBelow(s'.version, s.nextFile)
    ensures Inv(s')
  {
    ManifestAppend(s.manifest, Edit(Some(logNumber), Some(s.nextFile), Some(s.lastSequence), deleted, added));
    var order :| Durable(s, order);
    var order' := InstallKeepsDurable(s, s', order, logNumber, deleted, added);
    forall q | q in s'.readers ensures ReaderOk(s', q) {
      ReaderInstalled(s, s', q);
    }
  }

  lemma ReaderInstalled(s: State, s': State, q: Reader)
    requires ReaderOk(s, q)
    requires s'.history == s.history && s'.lastSequence == s.lastSequence && s.nextFile <= s'.nextFile
    requires s'.tables == s.tables
    ensures ReaderOk(s', q)
  {
    assert ReaderData(s, q) == ReaderData(s', q);
  }

  lemma FlushInstallKeepsInv(s: State)
    requires Inv(s) && Enabled(s, FlushInstall)
    ensures Inv(After(s, FlushInstall))
    ensures Held(DataOf(After(s, FlushInstall)), s.history) == Held(DataOf(s), s.history)
  {
    var s' := After(s, FlushInstall);
    var e := s'.manifest[|s.manifest|];
    if s.work.table.Some? {
      FlushKeepsInvariant(DataOf(s), s.history, s.work.table.value, s.work.level);
      EditAddsFile(s.version, s.work.level, s.work.table.value, e);
      InstallKeepsInv(s, s', s.logFile, {}, {(s.work.level, s.work.table.value)});
    } else {
      EditAddsNothing(s.version, e);
      assert DataOf(s') == DataOf(s);
      InstallKeepsInv(s, s', s.logFile, {}, {});
    }
  }

  lemma OutputsUnique(v: Version, level: nat, in0: set<FileMeta>, in1: set<FileMeta>, outs: set<FileMeta>)
    requires NumbersUnique(v) && level + 1 < NUM_LEVELS
    requires forall o :: o in outs ==> NewestNumber(v, o.number)
    requires forall o, p :: o in outs && p in outs && o.number == p.number ==> o == p
    ensures NumbersUnique(Replaced(v, level, in0, in1, outs))
  {
    var r := Replaced(v, level, in0, in1, outs);
    assert forall l, f :: 0 <= l < NUM_LEVELS && f in r[l] ==> f in v[l] || (l == level + 1 && f in outs);
  }

  /** The edit of an installed compaction replaces its inputs by its outputs. */
  lemma CompactInstallData(s: State)
    requires WorkOk(s) && s.work.Compacting? && s.logFile in s.logs && NumbersUnique(s.version)
    ensures var w := s.work;
      && DataOf(After(s, CompactInstall)) == DataOf(s).(version := Replaced(s.version, w.level, w.in0, w.in1, w.outs))
      && NumbersUnique(Replaced(s.version, w.level, w.in0, w.in1, w.outs))
  {
    var w := s.work;
    EditReplaces(s.version, w.level, w.in0, w.in1, w.outs, After(s, CompactInstall).manifest[|s.manifest|]);
    OutputsUnique(s.version, w.level, w.in0, w.in1, w.outs);
  }

  lemma CompactInstallKeepsInv(s: State)
    requires Inv(s) && Enabled(s, CompactInstall)
    ensures Inv(After(s, CompactInstall))
  {
    hide AgeOrdered, LevelsDisjoint, Durable, ReaderOk;
    var s' := After(s, CompactInstall);
    var w := s.work;
    var e := s'.manifest[|s.manifest|];
    CompactInstallData(s);
    CompactionKeepsInvariant(DataOf(s), s.history, w.level, w.in0, w.in1, w.outs);
    InstallKeepsInv(s, s', s.logNumber, e.deleted, e.added);
  }

  lemma MoveHeld(d: Data, hist: seq<Op>, level: nat, file: FileMeta)
    requires TablesOk(d.version, d.tables) && InputsOk(d.version, level, {file}, {})
    ensures Held(d.(version := Replaced(d.version, level, {file}, {}, {file})), hist) == Held(d, hist)
  {
    var d' := d.(version := Replaced(d.version, level, {file}, {}, {file}));
    forall n ensures IsHeld(d, hist, n) <==> IsHeld(d', hist, n) {
      if IsHeld(d, hist, n) {
        var loc :| Holds(d, loc, EntryOf(hist, n));
        assert Holds(d', if loc == InFile(level, file) then InFile(level + 1, file) else loc, EntryOf(hist, n));
      }
      if IsHeld(d', hist, n) {
        var loc :| Holds(d', loc, EntryOf(hist, n));
        assert Holds(d, if loc == InFile(level + 1, file) then InFile(level, file) else loc, EntryOf(hist, n));
      }
    }
    SameHeldSameView(d, d', hist);
  }

  lemma MoveUnique(v: Version, level: nat, file: FileMeta)
    requires NumbersUnique(v) && InputsOk(v, level, {file}, {})
    ensures NumbersUnique(Replaced(v, level, {file}, {}, {file}))
  {
    var r := Replaced(v, level, {file}, {}, {file});
    assert forall l, f :: 0 <= l < NUM_LEVELS && f in r[l] ==> f in v[l] || (l == level + 1 && f == file);
  }

  lemma MoveKeepsInv(s: State, level: nat, file: FileMeta)
    requires Inv(s) && Enabled(s, TrivialMove(level, file))
    ensures Inv(After(s, TrivialMove(level, file)))
    ensures DataOf(After(s, TrivialMove(level, file))) ==
        DataOf(s).(version := Replaced(s.version, level, {file}, {}, {file}))
  {
    var s' := After(s, TrivialMove(level, file));
    var e := s'.manifest[|s.manifest|];
    var moved := {file};
    assert e.added == set o | o in moved :: (level + 1, o);
    EditReplaces(s.version, level, moved, {}, moved, e);
    MoveUnique(s.version, level, file);
    assert {file} + {} == {file};
    CompactionKeepsInvariant(DataOf(s), s.history, level, {file}, {}, {file});
    MovedNumbers(s.version, level, file, s.nextFile);
    InstallKeepsInv(s, s', s.logNumber, e.deleted, e.added);
  }

  lemma MovedNumbers(v: Version, level: nat, file: FileMeta, n: nat)
    requires InputsOk(v, level, {file}, {}) && NumbersBelow(v, n)
    ensures NumbersBelow(Replaced(v, level, {file}, {}, {file}), n)
  {
    assert file in v[level];
  }

  // ----- Snapshots, readers, obsolete files -----

  /** A step that changes only who may read what. */
  lemma ReadSideKeepsInv(s: State, s': State)
    requires Inv(s) && s' == s.(snapshots := s'.snapshots, readers := s'.readers)
    requires Counters(s') && SmallestSnapshot(s) <= SmallestSnapshot(s')
    requires forall q :: q in s'.readers ==> q in s.readers || ReaderOk(s', q)
    ensures Inv(s')
  {
    assert DataOf(s') == DataOf(s);
    var order :| Durable(s, order);
    assert Durable(s', order);
    forall q | q in s'.readers ensures ReaderOk(s', q) {
      if q in s.readers {
        ReaderInstalled(s, s', q);
      }
    }
    assert WorkOk(s');
  }

  lemma SnapshotKeepsCounters(s: State, step: Step)
    requires Counters(s) && s.logFile in s.logs
    requires Enabled(s, step) && (step.TakeSnapshot? || step.ReleaseSnapshot?)
    ensures Counters(After(s, step)) && SmallestSnapshot(s) <= SmallestSnapshot(After(s, step))
  {
  }

  lemma SnapshotKeepsInv(s: State, step: Step)
    requires Inv(s) && Enabled(s, step) && (step.TakeSnapshot? || step.ReleaseSnapshot?)
    ensures Inv(After(s, step)) && DataOf(After(s, step)) == DataOf(s)
    ensures SmallestSnapshot(s) <= SmallestSnapshot(After(s, step))
  {
    SnapshotKeepsCounters(s, step);
    ReadSideKeepsInv(s, After(s, step));
  }

  lemma ReaderStepKeepsInv(s: State, step: Step)
    requires Inv(s) && Enabled(s, step) && (step.OpenReader? || step.CloseReader?)
    ensures Inv(After(s, step)) && DataOf(After(s, step)) == DataOf(s)
  {
    hide Durable, AgeOrdered, LevelsDisjoint, NumbersUnique;
    var s' := After(s, step);
    forall q | q in s'.readers ensures q in s.readers || ReaderOk(s', q) {
      if q !in s.readers {
        assert ReaderData(s', q) == DataOf(s);
      }
    }
    ReadSideKeepsInv(s, s');
  }

  lemma DeleteKeepsDurable(s: State, order: seq<nat>)
    requires Durable(s, order)
    ensures Durable(After(s, DeleteObsolete), order)
  {
    var s' := After(s, DeleteObsolete);
    ConcatAgrees(s.logs, s'.logs, order);
    ConcatAgrees(s.logs, s'.logs, order[..|order| - 1]);
  }

  lemma DeleteKeepsInv(s: State)
    requires Inv(s)
    ensures Inv(After(s, DeleteObsolete))
    ensures Held(DataOf(After(s, DeleteObsolete)), s.history) == Held(DataOf(s), s.history)
  {
    var s' := After(s, DeleteObsolete);
    var order :| Durable(s, order);
    forall n | InVersion(s.version, n) ensures n in s'.tables && s'.tables[n] == s.tables[n] {
      assert LiveTable(s, n);
    }
    TablesMayDiffer(DataOf(s), s.history, s'.tables);
    DeleteKeepsDurable(s, order);
    forall q | q in s'.readers ensures ReaderOk(s', q) {
      DeleteKeepsReader(s, q);
    }
    DeleteKeepsWork(s);
  }

  lemma DeleteKeepsReader(s: State, q: Reader)
    requires s.logFile in s.logs && q in s.readers && ReaderOk(s, q)
    ensures ReaderOk(After(s, DeleteObsolete), q)
    ensures Held(ReaderData(After(s, DeleteObsolete), q), s.history) == Held(ReaderData(s, q), s.history)
  {
    var s' := After(s, DeleteObsolete);
    forall n | InVersion(q.version, n) ensures n in s.tables && n in s'.tables && s'.tables[n] == s.tables[n] {
      var i :| 0 <= i < |s.readers| && s.readers[i] == q;
      assert LiveTable(s, n);
    }
    ReaderKept(s, s', q);
  }

  lemma DeleteKeepsWork(s: State)
    requires s.logFile in s.logs && WorkOk(s) && TablesOk(s.version, s.tables)
    ensures WorkOk(After(s, DeleteObsolete))
  {
    var s' := After(s, DeleteObsolete);
    if s.work.Flushing? && s.work.table.Some? {
      assert LiveTable(s, s.work.table.value.number);
    }
    if s.work.Compacting? {
      var w := s.work;
      forall f | f in w.in0 + w.in1 ensures f.number in s'.tables && s'.tables[f.number] == s.tables[f.number] {
        assert InVersion(s.version, f.number);
      }
      forall o | o in w.outs ensures o.number in s'.tables && s'.tables[o.number] == s.tables[o.number] {
        assert LiveTable(s, o.number);
      }
      OutputsFrame(s.version, s.tables, s'.tables, w.level, w.in0 + w.in1, w.smallest, w.outs);
    }
  }

  lemma OutputsFrame(
      v: Version, tables: map<nat, seq<Entry>>, tables': map<nat, seq<Entry>>, level: nat, files: set<FileMeta>,
      smallest: nat, outs: set<FileMeta>)
    requires OutputsOk(v, tables, level, files, smallest, outs)
    requires forall f :: f in files + outs ==>
        f.number in tables && f.number in tables' && tables'[f.number] == tables[f.number]
    ensures OutputsOk(v, tables', level, files, smallest, outs)
  {
    forall e ensures InFiles(tables', files, e) <==> InFiles(tables, files, e) {
    }
    forall e ensures InFiles(tables', outs, e) <==> InFiles(tables, outs, e) {
    }
    forall e ensures Hidden(tables', files, smallest, e) <==> Hidden(tables, files, smallest, e) {
    }
  }
}
