/** Flushes inside an unfinished compaction: the loop that writes the outputs stops now and then to
    flush an immutable memtable.  The flush picks its level by the version of that time, which knows
    nothing of the outputs; when they are installed, they may overlap the flushed table. */
module FlushInCompaction {
  import opened Keys
  import opened Store
  import opened Reorganise
  import opened Engine
  import opened EngineInvariant

  /** A compaction that has begun: its inputs, and the outputs that it will install. */
  datatype Begun = Begun(level: nat, in0: set<FileMeta>, in1: set<FileMeta>, smallest: nat, outs: set<FileMeta>)

  datatype Stored = Stored(d: Data, hist: seq<Op>)

  /** What may happen before the outputs are installed. */
  datatype Move =
    | Insert(ops: seq<Op>)
    | Switch
    | Flush(file: FileMeta, level: nat)

  /** The data with the outputs installed. */
  function Installed(d: Data, c: Begun): Data
    requires c.level + 1 < NUM_LEVELS
  {
    d.(version := Replaced(d.version, c.level, c.in0, c.in1, c.outs))
  }

  ghost predicate IsNew(d: Data, c: Begun, n: nat) {
    NewestNumber(d.version, n) && n !in d.tables && forall o :: o in c.outs ==> o.number != n
  }

  ghost predicate MayMove(x: Stored, c: Begun, m: Move) {
    match m
    case Insert(_) => true
    case Switch => x.d.imm == []
    case Flush(file, level) =>
      FileMatches(file, x.d.imm) && FlushLevelOk(x.d.version, file, level) && IsNew(x.d, c, file.number)
  }

  function Moved(x: Stored, m: Move): Stored
    requires m.Flush? ==> m.level < NUM_LEVELS
  {
    match m
    case Insert(ops) =>
      Stored(x.d.(mem := InsertAll(x.d.mem, RecordEntries(LogRecord(|x.hist| + 1, ops)))), x.hist + ops)
    case Switch => Stored(x.d.(mem := [], imm := x.d.mem), x.hist)
    case Flush(file, level) =>
      var tables := x.d.tables[file.number := x.d.imm];
      Stored(x.d.(imm := [], version := WithFile(x.d.version, level, file), tables := tables), x.hist)
  }

  /** The compaction has sound inputs, and its outputs are written. */
  ghost predicate Begins(x: Stored, c: Begun) {
    && DataInv(x.d, x.hist) && InputsOk(x.d.version, c.level, c.in0, c.in1)
    && OutputsOk(x.d.version, x.d.tables, c.level, c.in0 + c.in1, c.smallest, c.outs)
    && c.smallest <= |x.hist|
    && NumbersUnique(Replaced(x.d.version, c.level, c.in0, c.in1, c.outs))
  }

  ghost predicate IsRun(xs: seq<Stored>, ms: seq<Move>, c: Begun) {
    && |xs| == |ms| + 1 && Begins(xs[0], c)
    && forall i :: 0 <= i < |ms| ==>
         MayMove(xs[i], c, ms[i]) && (ms[i].Flush? ==> ms[i].level < NUM_LEVELS) && xs[i + 1] == Moved(xs[i], ms[i])
  }

  /** The move does not put a table among the outputs. */
  ghost predicate StaysApart(c: Begun, m: Move) {
    m.Flush? && m.level == c.level + 1 ==> forall o :: o in c.outs ==> Apart(m.file, o)
  }

  // ----- What every move keeps, if flushes stay apart -----

  /** The tables of the beginning are still there, and of the updates of that time the same ones are stored. */
  ghost predicate Since(x0: Stored, x: Stored, c: Begun)
    requires c.level + 1 < NUM_LEVELS
  {
    && c.in0 <= x.d.version[c.level] && c.in1 <= x.d.version[c.level + 1]
    && x0.hist <= x.hist
    && (forall n :: n in x0.d.tables ==> n in x.d.tables && x.d.tables[n] == x0.d.tables[n])
    && (forall n: nat :: IsHeld(x.d, x.hist, n) <==> IsHeld(x0.d, x0.hist, n) || |x0.hist| < n <= |x.hist|)
    && (forall n: nat ::
          IsHeld(Installed(x.d, c), x.hist, n) <==>
            IsHeld(Installed(x0.d, c), x0.hist, n) || |x0.hist| < n <= |x.hist|)
  }

  ghost predicate Good(x0: Stored, x: Stored, c: Begun) {
    && c.level + 1 < NUM_LEVELS && Begins(x0, c)
    && DataInv(x.d, x.hist) && DataInv(Installed(x.d, c), x.hist) && Since(x0, x, c)
  }

  lemma BeginIsGood(x: Stored, c: Begun)
    requires Begins(x, c)
    ensures Good(x, x, c)
  {
    hide DataInv, OutputsOk, NumbersUnique;
    assert OutputsWithin(x.d.tables, c.in0 + c.in1, c.outs) by {
      OutputsAreWithin(x, c);
    }
    CompactionKeepsInvariant(x.d, x.hist, c.level, c.in0, c.in1, c.outs);
    HeldAreOld(x.d, x.hist);
  }

  lemma OutputsAreWithin(x: Stored, c: Begun)
    requires Begins(x, c)
    ensures OutputsWithin(x.d.tables, c.in0 + c.in1, c.outs)
  {
  }

  lemma HeldAreOld(d: Data, hist: seq<Op>)
    ensures forall n: nat :: IsHeld(d, hist, n) ==> n <= |hist|
  {
  }

  lemma WriteKeepsGood(x0: Stored, x: Stored, c: Begun, ops: seq<Op>)
    requires Good(x0, x, c)
    ensures Good(x0, Moved(x, Insert(ops)), c)
  {
    hide DataInv, Begins, InsertAll, RecordEntries, IsHeld;
    WriteKeepsData(x.d, x.hist, ops);
    WriteKeepsData(Installed(x.d, c), x.hist, ops);
    assert Installed(Moved(x, Insert(ops)).d, c)
      == Installed(x.d, c).(mem := InsertAll(x.d.mem, RecordEntries(LogRecord(|x.hist| + 1, ops))));
  }

  lemma SwitchKeepsGood(x0: Stored, x: Stored, c: Begun)
    requires Good(x0, x, c) && MayMove(x, c, Switch)
    ensures Good(x0, Moved(x, Switch), c)
  {
    hide DataInv, Begins, IsHeld;
    SwitchKeepsData(x.d, x.hist);
    SwitchKeepsData(Installed(x.d, c), x.hist);
    SameHeld(x.d, Moved(x, Switch).d, x.hist);
    SameHeld(Installed(x.d, c), Installed(Moved(x, Switch).d, c), x.hist);
  }

  lemma SameHeld(d: Data, d': Data, hist: seq<Op>)
    requires Held(d, hist) == Held(d', hist)
    ensures forall n: nat :: IsHeld(d, hist, n) <==> IsHeld(d', hist, n)
  {
    forall n: nat ensures IsHeld(d, hist, n) <==> IsHeld(d', hist, n) {
      assert n in Held(d, hist) <==> n in Held(d', hist);
    }
  }

  // ----- Flushes -----

  /** No file has the number, and on level 0 all numbers are below it. */
  ghost predicate NumberFits(v: Version, n: nat) {
    forall l, g :: 0 <= l < NUM_LEVELS && g in v[l] ==> g.number != n && (l == 0 ==> g.number < n)
  }

  /** No entry at the levels down to `level` is of a key of the table. */
  ghost predicate SharesNothing(d: Data, t: seq<Entry>, level: nat) {
    forall a, x, y :: Holds(d, a, x) && a.InFile? && a.level <= level && y in t ==> x.key.user != y.key.user
  }

  /** A flush keeps every invariant if it shares no key with what is above its level, or on it, and
      overlaps nothing on it. */
  lemma FlushKeepsData(d: Data, hist: seq<Op>, file: FileMeta, level: nat)
    requires DataInv(d, hist) && level < NUM_LEVELS && NumberFits(d.version, file.number)
    requires level > 0 ==> SharesNothing(d, d.imm, level) && forall g :: g in d.version[level] ==> Apart(file, g)
    requires file.number in d.tables && d.tables[file.number] == d.imm && FileMatches(file, d.imm)
    ensures
      var d' := d.(imm := [], version := WithFile(d.version, level, file));
      DataInv(d', hist) && Held(d', hist) == Held(d, hist)
  {
    var d' := d.(imm := [], version := WithFile(d.version, level, file));
    var target := InFile(level, file);
    assert forall loc, x :: Holds(d', loc, x) ==> Holds(d, if loc == target then InImm else loc, x);
    FlushKeepsAges(d, hist, file, level);
    assert forall l, g :: 0 <= l < NUM_LEVELS && g in d'.version[l] ==> g in d.version[l] || (l == level && g == file);
    FlushKeepsHeld(d, hist, file, level);
  }

  lemma FlushKeepsHeld(d: Data, hist: seq<Op>, file: FileMeta, level: nat)
    requires level < NUM_LEVELS && NumberFits(d.version, file.number)
    requires file.number in d.tables && d.tables[file.number] == d.imm
    ensures Held(d.(imm := [], version := WithFile(d.version, level, file)), hist) == Held(d, hist)
  {
    var d' := d.(imm := [], version := WithFile(d.version, level, file));
    var target := InFile(level, file);
    forall n ensures IsHeld(d, hist, n) <==> IsHeld(d', hist, n) {
      if IsHeld(d, hist, n) {
        var loc :| Holds(d, loc, EntryOf(hist, n));
        assert Holds(d', if loc == InImm then target else loc, EntryOf(hist, n));
      }
      if IsHeld(d', hist, n) {
        var loc :| Holds(d', loc, EntryOf(hist, n));
        assert Holds(d, if loc == target then InImm else loc, EntryOf(hist, n));
      }
    }
    SameHeldSameView(d, d', hist);
  }

  lemma FlushKeepsAges(d: Data, hist: seq<Op>, file: FileMeta, level: nat)
    requires DataInv(d, hist) && level < NUM_LEVELS && NumberFits(d.version, file.number)
    requires level > 0 ==> SharesNothing(d, d.imm, level)
    requires file.number in d.tables && d.tables[file.number] == d.imm
    ensures AgeOrdered(d.(imm := [], version := WithFile(d.version, level, file)))
  {
    var d' := d.(imm := [], version := WithFile(d.version, level, file));
    var target := InFile(level, file);
    forall a, b, x, y | Holds(d', a, x) && Holds(d', b, y) && Above(a, b) && x.key.user == y.key.user
      ensures x.key.sequence > y.key.sequence
    {
      if b == target && a.InFile? {
        assert Holds(d, a, x);
        assert false;
      } else {
        var a', b' := if a == target then InImm else a, if b == target then InImm else b;
        assert Holds(d, a', x) && Holds(d, b', y) && Above(a', b');
      }
    }
  }

  /** What a flush at an allowed level does not touch, it shares no key with. */
  lemma AllowedSharesNothing(d: Data, file: FileMeta, level: nat)
    requires TablesOk(d.version, d.tables) && FileMatches(file, d.imm)
    requires FlushLevelOk(d.version, file, level) && level > 0
    ensures SharesNothing(d, d.imm, level)
    ensures forall g :: g in d.version[level] ==> Apart(file, g)
  {
    forall a, x, y | Holds(d, a, x) && a.InFile? && a.level <= level && y in d.imm ensures x.key.user != y.key.user {
      InFileRange(a.file, d.tables[a.file.number], x);
      InFileRange(file, d.imm, y);
      assert !RangesTouch(file, a.file);
    }
    forall g | g in d.version[level] ensures Apart(file, g) {
      assert !RangesTouch(file, g);
    }
  }

  /** The outputs hold only entries of the inputs; so what shares no key with the inputs shares none
      with them. */
  lemma OutputsShareNothing(x0: Stored, x: Stored, c: Begun, file: FileMeta, level: nat)
    requires Good(x0, x, c) && MayMove(x, c, Flush(file, level)) && level > 0
    ensures SharesNothing(Installed(x.d, c), x.d.imm, level)
  {
    hide DataInv, OutputsOk, NumbersUnique;
    assert TablesOk(x.d.version, x.d.tables) && NumbersUnique(x.d.version) by {
      TablesAre(x.d, x.hist);
    }
    AllowedSharesNothing(x.d, file, level);
    var d' := Installed(x.d, c);
    forall a, e, y | Holds(d', a, e) && a.InFile? && a.level <= level && y in x.d.imm ensures e.key.user != y.key.user {
      if a.level == c.level + 1 && a.file in c.outs {
        var from := OutputFrom(x0, x, c, a.file, e);
        assert Holds(x.d, from, e) && from.level <= level;
      } else {
        assert Holds(x.d, a, e);
      }
    }
  }

  lemma TablesAre(d: Data, hist: seq<Op>)
    requires DataInv(d, hist)
    ensures TablesOk(d.version, d.tables) && NumbersUnique(d.version)
  {
  }

  /** The input that an output's entry comes from. */
  lemma OutputFrom(x0: Stored, x: Stored, c: Begun, o: FileMeta, e: Entry) returns (from: Loc)
    requires Good(x0, x, c) && o in c.outs && o.number in x.d.tables && e in x.d.tables[o.number]
    ensures Holds(x.d, from, e) && from.InFile? && from.file in c.in0 + c.in1
    ensures from.level == if from.file in c.in0 then c.level else c.level + 1
  {
    OutputsAreWithin(x0, c);
    hide DataInv, OutputsOk, NumbersUnique;
    assert o.number in x0.d.tables;
    assert InFiles(x0.d.tables, c.outs, e);
    var f :| f in c.in0 + c.in1 && f.number in x0.d.tables && e in x0.d.tables[f.number];
    from := InFile(if f in c.in0 then c.level else c.level + 1, f);
  }

  lemma FlushKeepsGood(x0: Stored, x: Stored, c: Begun, file: FileMeta, level: nat)
    requires Good(x0, x, c) && level < NUM_LEVELS
    requires MayMove(x, c, Flush(file, level)) && StaysApart(c, Flush(file, level))
    ensures Good(x0, Moved(x, Flush(file, level)), c)
  {
    var x' := Moved(x, Flush(file, level));
    FlushKeepsBoth(x0, x, c, file, level);
    hide DataInv, Begins, FileMatches, IsHeld, FlushLevelOk, StaysApart;
    SameHeld(x.d, x'.d, x.hist);
    SameHeld(Installed(x.d, c), Installed(x'.d, c), x.hist);
  }

  lemma FlushKeepsBoth(x0: Stored, x: Stored, c: Begun, file: FileMeta, level: nat)
    requires Good(x0, x, c) && level < NUM_LEVELS
    requires MayMove(x, c, Flush(file, level)) && StaysApart(c, Flush(file, level))
    ensures
      var x' := Moved(x, Flush(file, level));
      && DataInv(x'.d, x.hist) && Held(x'.d, x.hist) == Held(x.d, x.hist)
      && DataInv(Installed(x'.d, c), x.hist) && Held(Installed(x'.d, c), x.hist) == Held(Installed(x.d, c), x.hist)
  {
    var x' := Moved(x, Flush(file, level));
    var tables := x'.d.tables;
    var d, e := x.d.(tables := tables), Installed(x.d, c).(tables := tables);
    if level > 0 {
      FlushOnDisk(x0, x, c, file, level, tables);
    }
    assert FileMatches(file, x.d.imm);
    hide DataInv, Begins, Since, Apart, NumberFits, FileMatches, Held, SharesNothing, FlushLevelOk, StaysApart,
         Replaced, WithFile;
    NewTable(x.d, x.hist, c, file, tables);
    NewTableInstalled(x0, x, c, file, tables);
    FlushKeepsData(d, x.hist, file, level);
    FlushKeepsData(e, x.hist, file, level);
    InstalledWithFile(x.d.version, c, file, level);
    assert x'.d == d.(imm := [], version := WithFile(d.version, level, file));
    assert Installed(x'.d, c) == e.(imm := [], version := WithFile(e.version, level, file));
  }

  lemma FlushOnDisk(x0: Stored, x: Stored, c: Begun, file: FileMeta, level: nat, tables: map<nat, seq<Entry>>)
    requires Good(x0, x, c) && MayMove(x, c, Flush(file, level)) && StaysApart(c, Flush(file, level))
    requires 0 < level < NUM_LEVELS && tables == x.d.tables[file.number := x.d.imm]
    ensures SharesNothing(x.d.(tables := tables), x.d.imm, level)
    ensures SharesNothing(Installed(x.d, c).(tables := tables), x.d.imm, level)
    ensures forall g :: g in x.d.version[level] ==> Apart(file, g)
    ensures forall g :: g in Installed(x.d, c).version[level] ==> Apart(file, g)
  {
    TablesAre(x.d, x.hist);
    AllowedSharesNothing(x.d, file, level);
    OutputsShareNothing(x0, x, c, file, level);
    hide DataInv, Begins, FileMatches, IsHeld, FlushLevelOk;
    SameTables(x.d, tables, x.d.imm, level, file.number);
    NewTableInstalled(x0, x, c, file, tables);
    SameTables(Installed(x.d, c), tables, x.d.imm, level, file.number);
    forall g | g in Installed(x.d, c).version[level] ensures Apart(file, g) {
      assert g in x.d.version[level] || (level == c.level + 1 && g in c.outs);
    }
  }

  lemma SameTables(d: Data, tables: map<nat, seq<Entry>>, t: seq<Entry>, level: nat, n: nat)
    requires SharesNothing(d, t, level) && NumberFits(d.version, n)
    requires forall m :: m in tables && m != n ==> m in d.tables && tables[m] == d.tables[m]
    ensures SharesNothing(d.(tables := tables), t, level)
  {
    var d' := d.(tables := tables);
    forall a, x, y | Holds(d', a, x) && a.InFile? && a.level <= level && y in t ensures x.key.user != y.key.user {
      assert Holds(d, a, x);
    }
  }

  /** Installing the outputs and adding another table come to the same in either order. */
  lemma InstalledWithFile(v: Version, c: Begun, file: FileMeta, level: nat)
    requires c.level + 1 < NUM_LEVELS && level < NUM_LEVELS && file !in c.in0 + c.in1
    ensures Replaced(WithFile(v, level, file), c.level, c.in0, c.in1, c.outs)
         == WithFile(Replaced(v, c.level, c.in0, c.in1, c.outs), level, file)
  {
    var a := Replaced(WithFile(v, level, file), c.level, c.in0, c.in1, c.outs);
    var b := WithFile(Replaced(v, c.level, c.in0, c.in1, c.outs), level, file);
    forall l | 0 <= l < NUM_LEVELS ensures a[l] == b[l] {
      assert forall f :: f in a[l] <==> f in b[l];
    }
  }

  lemma NewTable(d: Data, hist: seq<Op>, c: Begun, file: FileMeta, tables: map<nat, seq<Entry>>)
    requires DataInv(d, hist) && IsNew(d, c, file.number) && tables == d.tables[file.number := d.imm]
    ensures DataInv(d.(tables := tables), hist) && Held(d.(tables := tables), hist) == Held(d, hist)
  {
    hide AgeOrdered, LevelsDisjoint, FromHistory, Sorted;
    TablesMayDiffer(d, hist, tables);
  }

  lemma NewTableInstalled(x0: Stored, x: Stored, c: Begun, file: FileMeta, tables: map<nat, seq<Entry>>)
    requires Good(x0, x, c) && IsNew(x.d, c, file.number) && tables == x.d.tables[file.number := x.d.imm]
    ensures DataInv(Installed(x.d, c).(tables := tables), x.hist)
    ensures Held(Installed(x.d, c).(tables := tables), x.hist) == Held(Installed(x.d, c), x.hist)
    ensures NumberFits(x.d.version, file.number) && NumberFits(Installed(x.d, c).version, file.number)
    ensures file !in c.in0 + c.in1
  {
    hide AgeOrdered, LevelsDisjoint, FromHistory, Sorted, Begins;
    var e := Installed(x.d, c);
    forall n | InVersion(e.version, n) ensures n in tables && tables[n] == e.tables[n] {
      var l, f :| 0 <= l < NUM_LEVELS && f in e.version[l] && f.number == n;
      assert f in x.d.version[l] || f in c.outs;
    }
    TablesMayDiffer(e, x.hist, tables);
  }

  // ----- Whole runs -----

  /** While all flushes stay apart, everything is kept, and would be with the outputs installed. */
  lemma {:induction false} RunIsGood(xs: seq<Stored>, ms: seq<Move>, c: Begun, i: nat)
    requires IsRun(xs, ms, c) && i <= |ms| && forall j :: 0 <= j < i ==> StaysApart(c, ms[j])
    ensures Good(xs[0], xs[i], c)
  {
    hide Good, Begins, MayMove, Moved, StaysApart;
    if i == 0 {
      BeginIsGood(xs[0], c);
    } else {
      RunIsGood(xs, ms, c, i - 1);
      match ms[i - 1] {
        case Insert(ops) => WriteKeepsGood(xs[0], xs[i - 1], c, ops);
        case Switch => SwitchKeepsGood(xs[0], xs[i - 1], c);
        case Flush(file, level) => FlushKeepsGood(xs[0], xs[i - 1], c, file, level);
      }
    }
  }

  /** Files only come. */
  lemma {:induction false} FilesStay(xs: seq<Stored>, ms: seq<Move>, c: Begun, i: nat, j: nat)
    requires IsRun(xs, ms, c) && i <= j <= |ms|
    ensures forall l :: 0 <= l < NUM_LEVELS ==> xs[i].d.version[l] <= xs[j].d.version[l]
    decreases j
  {
    hide Begins, MayMove;
    if i < j {
      FilesStay(xs, ms, c, i, j - 1);
    }
  }

  /** A flushed table that overlaps an output spoils the level for good. */
  lemma OverlapSpoils(xs: seq<Stored>, ms: seq<Move>, c: Begun, i: nat)
    requires IsRun(xs, ms, c) && i < |ms| && !StaysApart(c, ms[i])
    ensures c.level + 1 < NUM_LEVELS && !LevelsDisjoint(Installed(xs[|ms|].d, c).version)
  {
    hide DataInv, OutputsOk, NumbersUnique;
    var file := ms[i].file;
    var o :| o in c.outs && !Apart(file, o);
    FilesStay(xs, ms, c, 0, i);
    FilesStay(xs, ms, c, i + 1, |ms|);
    assert file in xs[i + 1].d.version[c.level + 1];
    assert file !in c.in1 by {
      assert c.in1 <= xs[0].d.version[c.level + 1];
      assert NewestNumber(xs[i].d.version, file.number);
    }
    assert file != o;
    var r := Installed(xs[|ms|].d, c).version[c.level + 1];
    assert file in r && o in r;
  }

  /** Whatever is written and flushed while a compaction is under way, installing its outputs keeps
      every invariant of stored data if and only if each table flushed to the level of the outputs
      stays apart from all of them. */
  lemma InstallKeepsDataIff(xs: seq<Stored>, ms: seq<Move>, c: Begun)
    requires IsRun(xs, ms, c)
    ensures c.level + 1 < NUM_LEVELS
    ensures var x := xs[|ms|];
      DataInv(Installed(x.d, c), x.hist) <==> forall i :: 0 <= i < |ms| ==> StaysApart(c, ms[i])
  {
    hide MayMove, Moved, StaysApart;
    if forall i :: 0 <= i < |ms| ==> StaysApart(c, ms[i]) {
      RunIsGood(xs, ms, c, |ms|);
    } else {
      var i :| 0 <= i < |ms| && !StaysApart(c, ms[i]);
      OverlapSpoils(xs, ms, c, i);
    }
  }

  // ----- Views -----

  /** Two sets of stored updates that agree up to a sequence number show the same from there on, if
      they agree on what they show at it. */
  lemma {:induction false} NewerShowSame(hist: seq<Op>, hist': seq<Op>, a: iset<nat>, b: iset<nat>, k: UserKey, s: nat)
    requires hist <= hist'
    requires forall n: nat :: n > |hist| ==> (n in a <==> n in b)
    requires View(hist, a, k, |hist|) == View(hist, b, k, |hist|) && s >= |hist|
    ensures View(hist', a, k, s) == View(hist', b, k, s)
    decreases s
  {
    if s == |hist| {
      SameBelow(hist, hist', a, k, s);
      SameBelow(hist, hist', b, k, s);
    } else if !(s <= |hist'| && s in a && hist'[s - 1].user == k) {
      NewerShowSame(hist, hist', a, b, k, s - 1);
    }
  }

  /** A longer history shows the same at the sequence numbers of a shorter one. */
  lemma {:induction false} SameBelow(hist: seq<Op>, hist': seq<Op>, a: iset<nat>, k: UserKey, s: nat)
    requires hist <= hist' && s <= |hist|
    ensures Newest(hist, a, k, s) == Newest(hist', a, k, s)
    ensures View(hist, a, k, s) == View(hist', a, k, s)
  {
    if s > 0 && !(s in a && hist[s - 1].user == k) {
      SameBelow(hist, hist', a, k, s - 1);
    }
  }

  lemma {:induction false} SameSet(hist: seq<Op>, a: iset<nat>, b: iset<nat>, k: UserKey, s: nat)
    requires forall n: nat :: n <= s && n <= |hist| ==> (n in a <==> n in b)
    ensures View(hist, a, k, s) == View(hist, b, k, s)
  {
    if s > 0 && !(s <= |hist| && s in a && hist[s - 1].user == k) {
      SameSet(hist, a, b, k, s - 1);
    }
  }

  lemma {:induction false} Beyond(hist: seq<Op>, a: iset<nat>, k: UserKey, s: nat)
    requires s >= |hist|
    ensures View(hist, a, k, s) == View(hist, a, k, |hist|)
  {
    if s > |hist| {
      Beyond(hist, a, k, s - 1);
    }
  }

  ghost predicate SameViews(hist: seq<Op>, a: iset<nat>, b: iset<nat>, from: nat) {
    forall k, s :: from <= s ==> View(hist, a, k, s) == View(hist, b, k, s)
  }

  /** Updates that came later, stored on both sides, do not change whether the views agree. */
  lemma LaterUpdates(hist: seq<Op>, hist': seq<Op>, a: iset<nat>, b: iset<nat>, a': iset<nat>, b': iset<nat>, from: nat)
    requires hist <= hist' && from <= |hist|
    requires forall n: nat :: n in a' <==> n in a || |hist| < n <= |hist'|
    requires forall n: nat :: n in b' <==> n in b || |hist| < n <= |hist'|
    requires forall n: nat :: n in a || n in b ==> n <= |hist|
    ensures SameViews(hist', a', b', from) <==> SameViews(hist, a, b, from)
  {
    forall k, s: nat | s <= |hist|
      ensures View(hist', a', k, s) == View(hist, a, k, s) && View(hist', b', k, s) == View(hist, b, k, s)
    {
      SameBelow(hist, hist', a', k, s);
      SameBelow(hist, hist', b', k, s);
      SameSet(hist, a, a', k, s);
      SameSet(hist, b, b', k, s);
    }
    if SameViews(hist, a, b, from) {
      forall k, s | from <= s ensures View(hist', a', k, s) == View(hist', b', k, s) {
        if s > |hist| {
          SameSet(hist, a, a', k, |hist|);
          SameSet(hist, b, b', k, |hist|);
          NewerShowSame(hist, hist', a', b', k, s);
        }
      }
    }
    if SameViews(hist', a', b', from) {
      forall k, s | from <= s ensures View(hist, a, k, s) == View(hist, b, k, s) {
        if s > |hist| {
          Beyond(hist, a, k, s);
          Beyond(hist, b, k, s);
        }
      }
    }
  }

  /** If all flushes stay apart, installing the outputs changes no permitted view, if and only if no
      dropped tombstone uncovered a value when the compaction began. */
  lemma InstallKeepsViewsIff(xs: seq<Stored>, ms: seq<Move>, c: Begun)
    requires IsRun(xs, ms, c) && forall i :: 0 <= i < |ms| ==> StaysApart(c, ms[i])
    ensures c.level + 1 < NUM_LEVELS
    ensures var x := xs[|ms|];
      SameViews(x.hist, Held(Installed(x.d, c), x.hist), Held(x.d, x.hist), c.smallest) <==>
        !exists t, p :: Uncovers(xs[0].d, c.level, c.in0, c.in1, c.smallest, t, p)
  {
    RunIsGood(xs, ms, c, |ms|);
    var x0, x := xs[0], xs[|ms|];
    hide IsRun, StaysApart, Uncovers, View, DataInv, InputsOk, OutputsOk, NumbersUnique;
    HeldAreOld(x0.d, x0.hist);
    HeldAreOld(Installed(x0.d, c), x0.hist);
    LaterUpdates(x0.hist, x.hist, Held(Installed(x0.d, c), x0.hist), Held(x0.d, x0.hist),
                 Held(Installed(x.d, c), x.hist), Held(x.d, x.hist), c.smallest);
    CompactionKeepsViewsIff(x0.d, x0.hist, c.level, c.in0, c.in1, c.smallest, c.outs);
  }

  // ----- Inputs without a gap -----

  /** Every user key from the first to the last of the files lies within one of them. */
  ghost predicate NoGap(files: set<FileMeta>) {
    forall k {:trigger Covers(files, k)} ::
      (exists a :: a in files && a.smallest.user <= k) && (exists b :: b in files && k <= b.largest.user) ==>
        Covers(files, k)
  }

  ghost predicate Covers(files: set<FileMeta>, k: UserKey) {
    exists f :: f in files && f.smallest.user <= k <= f.largest.user
  }

  /** If the inputs leave no gap, no flush can come between them. */
  lemma NoGapStaysApart(x0: Stored, x: Stored, c: Begun, m: Move)
    requires Good(x0, x, c) && MayMove(x, c, m) && NoGap(c.in0 + c.in1)
    ensures StaysApart(c, m)
  {
    if m.Flush? && m.level == c.level + 1 {
      FileEndsHeld(m.file, x.d.imm);
      hide Good, NoGap, FileMatches, FlushLevelOk;
      forall o | o in c.outs ensures Apart(m.file, o) {
        NoGapApart(x0, x, c, m.file, o);
      }
    }
  }

  lemma NoGapApart(x0: Stored, x: Stored, c: Begun, file: FileMeta, o: FileMeta)
    requires Good(x0, x, c) && NoGap(c.in0 + c.in1) && o in c.outs
    requires FlushLevelOk(x.d.version, file, c.level + 1) && file.smallest.user <= file.largest.user
    ensures Apart(file, o)
  {
    hide DataInv, Begins, NoGap, FlushLevelOk, OutputsWithin, FileMatches;
    var f, g := OutputSpan(x0, c, o);
    ApartFromHull(x, c, file, f, g);
  }

  /** Inputs that an output begins and ends within. */
  lemma OutputSpan(x: Stored, c: Begun, o: FileMeta) returns (f: FileMeta, g: FileMeta)
    requires Begins(x, c) && o in c.outs
    ensures f in c.in0 + c.in1 && g in c.in0 + c.in1 && f.smallest.user <= f.largest.user
    ensures f.smallest.user <= o.smallest.user && o.largest.user <= g.largest.user
  {
    InputTables(x.d, x.hist, c.level, c.in0, c.in1);
    OutputsAreWithin(x, c);
    TablesAre(x.d, x.hist);
    hide DataInv, InputsOk, OutputsOk, NumbersUnique, OutputsWithin;
    OutputWithinInputs(x.d, c.in0 + c.in1, c.outs, o);
    f, g :| f in c.in0 + c.in1 && g in c.in0 + c.in1 && AtMost(f.smallest, o.smallest) && AtMost(o.largest, g.largest);
    FileEndsHeld(f, x.d.tables[f.number]);
  }

  /** A table that touches no input lies before all of them or after all of them. */
  lemma ApartFromHull(x: Stored, c: Begun, file: FileMeta, f: FileMeta, g: FileMeta)
    requires NoGap(c.in0 + c.in1) && f in c.in0 + c.in1 && g in c.in0 + c.in1 && c.level + 1 < NUM_LEVELS
    requires c.in0 <= x.d.version[c.level] && c.in1 <= x.d.version[c.level + 1]
    requires FlushLevelOk(x.d.version, file, c.level + 1) && file.smallest.user <= file.largest.user
    requires f.smallest.user <= f.largest.user
    ensures file.largest.user < f.smallest.user || g.largest.user < file.smallest.user
  {
    var files := c.in0 + c.in1;
    forall h | h in files ensures !RangesTouch(file, h) {
      assert h in x.d.version[c.level] || h in x.d.version[c.level + 1];
    }
    assert !Covers(files, file.smallest.user);
    assert !RangesTouch(file, f);
  }

  /** So a compaction whose inputs leave no gap can be installed after any writes and flushes. */
  lemma {:induction false} NoGapIsSafe(xs: seq<Stored>, ms: seq<Move>, c: Begun, i: nat)
    requires IsRun(xs, ms, c) && NoGap(c.in0 + c.in1) && i <= |ms|
    ensures forall j :: 0 <= j < i ==> StaysApart(c, ms[j])
    ensures c.level + 1 < NUM_LEVELS && DataInv(Installed(xs[i].d, c), xs[i].hist)
  {
    hide Begins, MayMove, Moved, StaysApart, NoGap, DataInv;
    if i > 0 {
      NoGapIsSafe(xs, ms, c, i - 1);
      RunIsGood(xs, ms, c, i - 1);
      NoGapStaysApart(xs[0], xs[i - 1], c, ms[i - 1]);
    }
    RunIsGood(xs, ms, c, i);
  }
}
