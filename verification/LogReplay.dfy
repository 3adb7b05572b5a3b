/** Reading the logs back after a crash: record after record into a memtable, which is written to
    a level-0 table whenever it is full, and at the end of each log. */
module LogReplay {
  import opened Keys
  import opened Store
  import opened Reorganise
  import opened Engine
  import opened EngineInvariant

  lemma IncreasingPart(a: seq<Entry>, b: seq<Entry>, c: seq<Entry>)
    requires Increasing(a + b + c)
    ensures Increasing(b)
  {
    var all := a + b + c;
    forall i, j | 0 <= i < j < |b| ensures b[i].key.sequence < b[j].key.sequence {
      assert all[|a| + i] == b[i] && all[|a| + j] == b[j];
    }
  }

  lemma MemIsTable(es: seq<Entry>)
    requires Increasing(es) && es != []
    ensures MemOf(es) != [] && Sorted(MemOf(es))
  {
    InsertAllSorted([], es);
    InsertAllMembers([], es);
    assert es[0] in es;
  }

  lemma WriteOneTable(
      tables: map<nat, seq<Entry>>, files: seq<FileMeta>, chunks: seq<seq<Entry>>, f: FileMeta, chunk: seq<Entry>)
    requires |files| == |chunks|
    ensures WriteTables(tables, files + [f], chunks + [chunk]) ==
            WriteTables(tables, files, chunks)[f.number := MemOf(chunk)]
  {
    hide InsertAll;
    assert (files + [f])[..|files|] == files && (chunks + [chunk])[..|chunks|] == chunks;
  }

  /** The tables that were written, one for each chunk of entries, under rising numbers. */
  ghost predicate Written(files: seq<FileMeta>, chunks: seq<seq<Entry>>, first: nat, next: nat) {
    && |files| == |chunks| && first <= next
    && (forall i :: 0 <= i < |files| ==>
          chunks[i] != [] && FileMatches(files[i], MemOf(chunks[i])) && first <= files[i].number < next)
    && (forall i, j :: 0 <= i < j < |files| ==> files[i].number < files[j].number)
  }

  /** The records read so far, as tables and a memtable: how their entries were cut into chunks, the
      files that these were written to, and the entries that are pending in the memtable. */
  datatype Cut = Cut(chunks: seq<seq<Entry>>, files: seq<FileMeta>, pending: seq<Entry>)

  ghost predicate CutOk(all: seq<LogRecord>, done: seq<LogRecord>, cut: Cut, first: nat, next: nat) {
    && done <= all && Increasing(EntriesOf(all))
    && EntriesOf(done) == Flatten(cut.chunks) + cut.pending
    && Written(cut.files, cut.chunks, first, next)
  }

  lemma PendingIncreasing(all: seq<LogRecord>, done: seq<LogRecord>, cut: Cut, first: nat, next: nat)
    requires CutOk(all, done, cut, first, next)
    ensures Increasing(cut.pending)
  {
    hide Written, Increasing;
    var rest := all[|done|..];
    assert all == done + rest;
    EntriesAppend(done, rest);
    IncreasingPart(Flatten(cut.chunks), cut.pending, EntriesOf(rest));
  }

  lemma CutRecord(all: seq<LogRecord>, done: seq<LogRecord>, cut: Cut, first: nat, next: nat, r: LogRecord)
    requires CutOk(all, done, cut, first, next) && done + [r] <= all
    ensures CutOk(all, done + [r], cut.(pending := cut.pending + RecordEntries(r)), first, next)
    ensures MemOf(cut.pending + RecordEntries(r)) == InsertAll(MemOf(cut.pending), RecordEntries(r))
  {
    hide Written, Increasing, Flatten, RecordEntries, InsertAll;
    EntriesAppendOne(done, r);
    InsertAllAppend([], cut.pending, RecordEntries(r));
    var a, b, c := Flatten(cut.chunks), cut.pending, RecordEntries(r);
    assert (a + b) + c == a + (b + c);
  }

  /** Writing the memtable to a table starts a new chunk. */
  lemma CutTable(all: seq<LogRecord>, done: seq<LogRecord>, cut: Cut, first: nat, next: nat, size: nat)
    requires CutOk(all, done, cut, first, next) && cut.pending != []
    ensures
      var es := MemOf(cut.pending);
      && es != []
      && var file := FileMeta(next, size, es[0].key, es[|es| - 1].key);
      CutOk(all, done, Cut(cut.chunks + [cut.pending], cut.files + [file], []), first, next + 1)
  {
    hide EntriesOf, InsertAll, Increasing, Sorted;
    PendingIncreasing(all, done, cut, first, next);
    MemIsTable(cut.pending);
    FlattenAppend(cut.chunks, cut.pending);
    assert Flatten(cut.chunks + [cut.pending]) + [] == Flatten(cut.chunks) + cut.pending;
  }

  lemma EmptyMem(es: seq<Entry>)
    ensures MemOf(es) == [] <==> es == []
  {
    InsertAllMembers([], es);
    assert es != [] ==> es[0] in MemOf(es);
  }

  lemma MaxSequenceNext(done: seq<LogRecord>, r: LogRecord)
    ensures MaxSequence(done + [r], 0) ==
      if MaxSequence(done, 0) < r.sequence + |r.ops| - 1 then r.sequence + |r.ops| - 1 else MaxSequence(done, 0)
  {
    assert (done + [r])[..|done|] == done;
  }

  class Replayer {
    /** The records of all live logs, the first file number, and the tables before. */
    ghost const all: seq<LogRecord>
    ghost const first: nat
    ghost const tables0: map<nat, seq<Entry>>
    var tables: map<nat, seq<Entry>>
    var files: seq<FileMeta>
    var nextFile: nat
    var mem: Option<seq<Entry>>
    var maxSequence: nat
    var save: bool
    ghost var done: seq<LogRecord>
    ghost var cut: Cut

    constructor (tables: map<nat, seq<Entry>>, nextFile: nat, save: bool, ghost all: seq<LogRecord>)
      requires Increasing(EntriesOf(all))
      ensures Ok() && this.all == all && this.first == nextFile && tables0 == tables && this.save == save
      ensures done == [] && mem == None && this.nextFile == nextFile && cut == Cut([], [], [])
    {
      this.all, first, tables0 := all, nextFile, tables;
      this.tables, files, this.nextFile, mem, maxSequence, this.save := tables, [], nextFile, None, 0, save;
      done, cut := [], Cut([], [], []);
    }

    ghost predicate Ok()
      reads this
    {
      && CutOk(all, done, cut, first, nextFile) && files == cut.files
      && (if mem.None? then cut.pending == [] else mem.value == MemOf(cut.pending))
      && tables == WriteTables(tables0, files, cut.chunks)
      && maxSequence == MaxSequence(done, 0)
      && (files != [] ==> save)
    }

    /** A level-0 table with everything that is in the memtable; none if it is empty. */
    method WriteLevel0Table(fileSize: seq<Entry> -> nat)
      requires Ok() && mem.Some?
      modifies this
      ensures Ok() && mem == None && done == old(done) && save && nextFile > old(nextFile)
      ensures cut.pending == [] && (old(cut.pending) == [] ==> files == old(files))
    {
      hide MaxSequence, EntriesOf, InsertAll, Increasing, WriteTables, CutOk;
      save := true;
      var number := nextFile;
      nextFile := nextFile + 1;
      var es := mem.value;
      EmptyMem(cut.pending);
      mem := None;
      if es != [] {
        var file := FileMeta(number, fileSize(es), es[0].key, es[|es| - 1].key);
        CutTable(all, done, cut, first, number, fileSize(es));
        assert |files| == |cut.chunks| by {
          CutSizes(all, done, cut, first, number);
        }
        WriteOneTable(tables0, files, cut.chunks, file, cut.pending);
        tables := tables[number := es];
        files := files + [file];
        cut := Cut(cut.chunks + [cut.pending], files, []);
      } else {
        CutSkip(all, done, cut, first, number, number + 1);
      }
    }

    /** One record, and a table if that makes the memtable too big. */
    method AddRecord(r: LogRecord, full: seq<Entry> -> bool, fileSize: seq<Entry> -> nat) returns (wrote: bool)
      requires Ok() && done + [r] <= all
      modifies this
      ensures Ok() && done == old(done) + [r] && (old(save) || wrote ==> save) && wrote == mem.None?
      ensures nextFile >= old(nextFile)
      ensures !wrote ==> cut == old(cut).(pending := old(cut).pending + RecordEntries(r)) && save == old(save)
    {
      hide MaxSequence, InsertAll, WriteTables, RecordEntries, Increasing, CutOk;
      CutRecord(all, done, cut, first, nextFile, r);
      MaxSequenceNext(done, r);
      EmptyMem([]);
      var es := if mem.None? then [] else mem.value;
      var inserted := InsertInto(es, r);
      mem := Some(inserted);
      if r.sequence + |r.ops| - 1 > maxSequence {
        maxSequence := r.sequence + |r.ops| - 1;
      }
      cut := cut.(pending := cut.pending + RecordEntries(r));
      done := done + [r];
      wrote := full(inserted);
      if wrote {
        WriteLevel0Table(fileSize);
      }
    }

    /** A log's records.  If it is the last one, logs may be reused, and no table was needed for it,
        what it holds stays in the memtable. */
    method ReplayLog(
        records: seq<LogRecord>, last: bool, reuse: bool, full: seq<Entry> -> bool, fileSize: seq<Entry> -> nat)
      returns (kept: bool)
      requires Ok() && mem == None && cut.pending == [] && done + records <= all
      modifies this
      ensures Ok() && done == old(done) + records && (kept ==> last && reuse) && (old(save) ==> save)
      ensures last && reuse && !kept ==> save
      ensures nextFile >= old(nextFile)
      ensures if kept then cut == old(cut).(pending := EntriesOf(records)) else mem == None && cut.pending == []
    {
      hide CutOk, MaxSequence, EntriesOf, RecordEntries, InsertAll, WriteTables;
      var compactions := 0;
      var i: nat := 0;
      NoRecords(done, records);
      while i < |records|
        invariant i <= |records| && Ok() && done == old(done) + records[..i] && (old(save) ==> save)
        invariant (compactions > 0 ==> save) && nextFile >= old(nextFile)
        invariant compactions == 0 ==> cut == old(cut).(pending := EntriesOf(records[..i]))
      {
        NextRecord(old(done), records, i);
        var wrote := AddRecord(records[i], full, fileSize);
        if wrote {
          compactions := compactions + 1;
        }
        i := i + 1;
      }
      assert records[..i] == records;
      if reuse && last && compactions == 0 {
        return true;
      }
      if mem.Some? {
        WriteLevel0Table(fileSize);
      }
      kept := false;
    }

    /** No file number up to this one is used again. */
    method MarkFileNumberUsed(number: nat)
      requires Ok()
      modifies `nextFile
      ensures Ok() && nextFile > number && nextFile >= old(nextFile)
    {
      if nextFile <= number {
        CutSkip(all, done, cut, first, nextFile, number + 1);
        nextFile := number + 1;
      }
    }
  }

  lemma CutSizes(all: seq<LogRecord>, done: seq<LogRecord>, cut: Cut, first: nat, next: nat)
    requires CutOk(all, done, cut, first, next)
    ensures |cut.files| == |cut.chunks|
  {
  }

  lemma CutSkip(all: seq<LogRecord>, done: seq<LogRecord>, cut: Cut, first: nat, next: nat, next': nat)
    requires CutOk(all, done, cut, first, next) && next <= next'
    ensures CutOk(all, done, cut, first, next')
  {
    hide EntriesOf, Flatten, Increasing;
  }

  lemma NoRecords(done: seq<LogRecord>, records: seq<LogRecord>)
    ensures done + records[..0] == done && EntriesOf(records[..0]) == []
  {
  }

  lemma NextRecord(done: seq<LogRecord>, records: seq<LogRecord>, i: nat)
    requires i < |records|
    ensures done + records[..i + 1] == done + records[..i] + [records[i]]
    ensures done + records[..i + 1] <= done + records
    ensures EntriesOf(records[..i + 1]) == EntriesOf(records[..i]) + RecordEntries(records[i])
  {
    hide RecordEntries;
    assert records[..i + 1] == records[..i] + [records[i]];
    EntriesAppendOne(records[..i], records[i]);
  }

  /** The highest sequence number of records, and a number that is known beside it. */
  lemma {:induction false} MaxSequenceFrom(rs: seq<LogRecord>, low: nat)
    ensures MaxSequence(rs, low) == if MaxSequence(rs, 0) < low then low else MaxSequence(rs, 0)
  {
    if rs != [] {
      MaxSequenceFrom(rs[..|rs| - 1], low);
    }
  }

  // ----- The logs that are alive -----

  /** The numbers of a set in ascending order. */
  method SortNumbers(numbers: set<nat>) returns (order: seq<nat>)
    ensures Ascending(order) && forall n :: n in order <==> n in numbers
  {
    order := [];
    var left := numbers;
    while left != {}
      invariant left <= numbers && Ascending(order) && forall n :: n in order <==> n in numbers - left
      invariant forall m, n :: m in order && n in left ==> m < n
      decreases left
    {
      var n := Smallest(left);
      assert forall i :: 0 <= i < |order| ==> order[i] in order;
      order := order + [n];
      left := left - {n};
    }
  }

  method Smallest(numbers: set<nat>) returns (n: nat)
    requires numbers != {}
    ensures n in numbers && forall m :: m in numbers ==> n <= m
  {
    n :| n in numbers;
    var left := numbers - {n};
    while left != {}
      invariant left <= numbers && n in numbers
      invariant forall m :: m in numbers ==> m in left || n <= m
      decreases left
    {
      var m :| m in left;
      if m < n {
        n := m;
      }
      left := left - {m};
    }
  }
}
