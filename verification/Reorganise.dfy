/** The steps that move entries between places: flushing a memtable, moving a file, and
    compacting files of two neighbouring levels.  Each keeps the invariant of stored data;
    flushing and moving keep every view, and compaction keeps the views that a caller can
    still ask for exactly when no dropped tombstone uncovers an older value. */
module Reorganise {
  import opened Keys
  import opened Store

  ghost predicate RangesTouch(f: FileMeta, g: FileMeta) {
    f.smallest.user <= g.largest.user && g.smallest.user <= f.largest.user
  }

  /** An entry lives in one place only. */
  lemma OnePlace(d: Data, hist: seq<Op>, a: Loc, b: Loc, x: Entry)
    requires DataInv(d, hist) && Holds(d, a, x) && Holds(d, b, x)
    ensures a == b
  {
    assert !Above(a, b) && !Above(b, a);
    if a.InFile? && b.InFile? {
      InFileRange(a.file, d.tables[a.file.number], x);
      InFileRange(b.file, d.tables[b.file.number], x);
      assert a.level == 0 ==> a.file.number == b.file.number;
      assert a.level != 0 ==> a.file == b.file || Apart(a.file, b.file);
    }
  }

  // ----- Flushing -----

  /** The level for a new table: below level 0 only when no file at that level or above it
      touches the new range. */
  ghost predicate FlushLevelOk(v: Version, file: FileMeta, level: nat) {
    && level <= MAX_MEM_COMPACT_LEVEL
    && (level > 0 ==> forall l, g :: 0 <= l <= level && g in v[l] ==> !RangesTouch(file, g))
  }

  ghost predicate NewestNumber(v: Version, n: nat) {
    forall l, g :: 0 <= l < NUM_LEVELS && g in v[l] ==> g.number < n
  }

  function WithFile(v: Version, level: nat, file: FileMeta): Version
    requires level < NUM_LEVELS
  {
    v[level := v[level] + {file}]
  }

  lemma FlushKeepsInvariant(d: Data, hist: seq<Op>, file: FileMeta, level: nat)
    requires DataInv(d, hist)
    requires FlushLevelOk(d.version, file, level) && NewestNumber(d.version, file.number)
    requires file.number in d.tables && d.tables[file.number] == d.imm && FileMatches(file, d.imm)
    ensures var d' := d.(imm := [], version := WithFile(d.version, level, file));
      DataInv(d', hist) && Held(d', hist) == Held(d, hist)
  {
    var d' := d.(imm := [], version := WithFile(d.version, level, file));
    var target := InFile(level, file);
    assert forall loc, x :: Holds(d', loc, x) ==> Holds(d, if loc == target then InImm else loc, x);
    forall a, b, x, y | Holds(d', a, x) && Holds(d', b, y) && Above(a, b) && x.key.user == y.key.user
      ensures x.key.sequence > y.key.sequence
    {
      if b == target && a.InFile? {
        assert Holds(d, a, x) && a.level <= level && a.file in d.version[a.level];
        InFileRange(a.file, d.tables[a.file.number], x);
        InFileRange(file, d.imm, y);
        assert RangesTouch(file, a.file);
      } else {
        var a', b' := if a == target then InImm else a, if b == target then InImm else b;
        assert Holds(d, a', x) && Holds(d, b', y) && Above(a', b');
      }
    }
    forall g | g in d.version[level] && level > 0 ensures Apart(file, g) {
      assert !RangesTouch(file, g);
    }
    forall n ensures IsHeld(d, hist, n) <==> IsHeld(d', hist, n) {
      if IsHeld(d, hist, n) {
        var loc :| Holds(d, loc, EntryOf(hist, n));
        assert Holds(d', if loc == InImm then target else loc, EntryOf(hist, n));
      }
      if IsHeld(d', hist, n) {
        var loc :| Holds(d', loc, EntryOf(hist, n));
        assert Holds(d, if loc == target then InImm else loc, EntryOf(hist, n));
      }
    }
    SameHeldSameView(d, d', hist);
  }

  // ----- Compacting -----

  /** `h` lies within the span of user keys from the first to the last of `files`. */
  ghost predicate TouchesHull(h: FileMeta, files: set<FileMeta>) {
    && (exists a :: a in files && a.smallest.user <= h.largest.user)
    && (exists b :: b in files && h.smallest.user <= b.largest.user)
  }

  /** The inputs that the compaction picker chooses: no file left behind at `level` can hold
      older entries of an input's key, and exactly the files of the next level that touch the
      span of the first set are taken along. */
  ghost predicate InputsOk(v: Version, level: nat, in0: set<FileMeta>, in1: set<FileMeta>) {
    && level + 1 < NUM_LEVELS
    && in0 != {}
    && in0 <= v[level]
    && in1 <= v[level + 1]
    && (forall f, g :: f in v[level] && f !in in0 && g in in0 ==>
          if level == 0 then !RangesTouch(f, g)
          else Less(g.largest, f.smallest) ==> g.largest.user < f.smallest.user)
    && (forall h :: h in v[level + 1] ==> (h in in1 <==> TouchesHull(h, in0)))
  }

  ghost predicate InFiles(tables: map<nat, seq<Entry>>, files: set<FileMeta>, e: Entry) {
    exists f :: f in files && f.number in tables && e in tables[f.number]
  }

  /** No file two or more levels down covers the key. */
  ghost predicate IsBaseLevel(v: Version, level: nat, k: UserKey) {
    forall l, f :: level + 2 <= l < NUM_LEVELS && f in v[l] ==> !(f.smallest.user <= k <= f.largest.user)
  }

  /** A newer input entry of the same key is visible to every reader. */
  ghost predicate Hidden(tables: map<nat, seq<Entry>>, files: set<FileMeta>, smallest: nat, e: Entry) {
    exists x :: InFiles(tables, files, x) && x.key.user == e.key.user && e.key.sequence < x.key.sequence <= smallest
  }

  ghost predicate ObsoleteTombstone(v: Version, level: nat, smallest: nat, e: Entry) {
    e.key.kind == Deletion && e.key.sequence <= smallest && IsBaseLevel(v, level, e.key.user)
  }

  /** What compaction leaves out. */
  ghost predicate Dropped(
      v: Version, tables: map<nat, seq<Entry>>, level: nat, files: set<FileMeta>, smallest: nat, e: Entry)
  {
    Hidden(tables, files, smallest, e) || ObsoleteTombstone(v, level, smallest, e)
  }

  /** New files that are in order and hold input entries only. */
  ghost predicate OutputsWithin(tables: map<nat, seq<Entry>>, files: set<FileMeta>, outs: set<FileMeta>) {
    && (forall o :: o in outs ==> o.number in tables && FileMatches(o, tables[o.number]))
    && (forall o, p :: o in outs && p in outs && o != p ==> Apart(o, p))
    && (forall e {:trigger InFiles(tables, outs, e)} :: InFiles(tables, outs, e) ==> InFiles(tables, files, e))
  }

  /** The new files hold what was not dropped, and nothing else. */
  ghost predicate OutputsOk(
      v: Version, tables: map<nat, seq<Entry>>, level: nat, files: set<FileMeta>, smallest: nat, outs: set<FileMeta>)
  {
    && OutputsWithin(tables, files, outs)
    && (forall e {:trigger InFiles(tables, outs, e)} ::
          InFiles(tables, outs, e) <==> InFiles(tables, files, e) && !Dropped(v, tables, level, files, smallest, e))
  }

  /** Of a key's input entries that are no newer than the smallest snapshot, the newest. */
  ghost predicate NewestOld(tables: map<nat, seq<Entry>>, files: set<FileMeta>, smallest: nat, e: Entry) {
    && InFiles(tables, files, e) && e.key.sequence <= smallest
    && forall x :: InFiles(tables, files, x) && x.key.user == e.key.user && x.key.sequence <= smallest ==>
         x.key.sequence <= e.key.sequence
  }

  ghost predicate CoveredBelow(v: Version, level: nat, k: UserKey)
    requires |v| == NUM_LEVELS
  {
    exists l, f :: level + 2 <= l < NUM_LEVELS && f in v[l] && f.smallest.user <= k <= f.largest.user
  }

  /** What is left of each key: everything newer than the smallest snapshot, and of the rest the newest
      only, and not even that if it is a deletion that no deeper level has a use for. */
  lemma OutputsAreThin(
      v: Version, tables: map<nat, seq<Entry>>, level: nat, files: set<FileMeta>, smallest: nat, outs: set<FileMeta>)
    requires |v| == NUM_LEVELS && OutputsOk(v, tables, level, files, smallest, outs)
    ensures forall e :: InFiles(tables, files, e) && e.key.sequence > smallest ==> InFiles(tables, outs, e)
    ensures forall e :: InFiles(tables, outs, e) && e.key.sequence <= smallest ==> NewestOld(tables, files, smallest, e)
    ensures forall e :: NewestOld(tables, files, smallest, e) ==>
      (InFiles(tables, outs, e) <==> e.key.kind == Value || CoveredBelow(v, level, e.key.user))
  {
    hide OutputsWithin, InFiles;
  }

  function Replaced(v: Version, level: nat, in0: set<FileMeta>, in1: set<FileMeta>, outs: set<FileMeta>): Version
    requires level + 1 < NUM_LEVELS
  {
    v[level := v[level] - in0][level + 1 := (v[level + 1] - in1) + outs]
  }

  /** A file of the next level that is not an input lies on one side of all inputs. */
  lemma BystanderAside(d: Data, hist: seq<Op>, level: nat, in0: set<FileMeta>, in1: set<FileMeta>, h: FileMeta)
    requires DataInv(d, hist) && InputsOk(d.version, level, in0, in1)
    requires h in d.version[level + 1] && h !in in1
    ensures (forall f :: f in in0 + in1 ==> Less(h.largest, f.smallest))
         || (forall f :: f in in0 + in1 ==> Less(f.largest, h.smallest))
  {
    assert !TouchesHull(h, in0);
    FileEndsHeld(h, d.tables[h.number]);
    if forall a :: a in in0 ==> a.smallest.user > h.largest.user {
      forall f | f in in1 ensures Less(h.largest, f.smallest) {
        assert TouchesHull(f, in0);
        FileEndsHeld(f, d.tables[f.number]);
        assert Apart(f, h);
        var a :| a in in0 && a.smallest.user <= f.largest.user;
      }
    } else {
      assert forall b :: b in in0 ==> h.smallest.user > b.largest.user;
      forall f | f in in1 ensures Less(f.largest, h.smallest) {
        assert TouchesHull(f, in0);
        FileEndsHeld(f, d.tables[f.number]);
        assert Apart(f, h);
        var b :| b in in0 && f.smallest.user <= b.largest.user;
      }
    }
  }

  /** Where a place other than the inputs shares a key with an input entry and lies at the
      inputs' upper level or above, it holds the newer entry; two or more levels down, the older. */
  lemma InputAge(d: Data, hist: seq<Op>, level: nat, in0: set<FileMeta>, in1: set<FileMeta>, a: Loc, x: Entry, y: Entry)
    requires DataInv(d, hist) && InputsOk(d.version, level, in0, in1)
    requires Holds(d, a, x) && InFiles(d.tables, in0 + in1, y) && x.key.user == y.key.user
    requires a.InFile? ==> a.file !in in0 + in1
    ensures a.InFile? && a.level >= level + 2 ==> x.key.sequence < y.key.sequence
    ensures !a.InFile? || a.level <= level ==> x.key.sequence > y.key.sequence
  {
    var f :| f in in0 + in1 && f.number in d.tables && y in d.tables[f.number];
    var b := InFile(if f in in0 then level else level + 1, f);
    assert Holds(d, b, y);
    assert Above(a, b) || Above(b, a) || (a.InFile? && a.level == b.level);
    if a.InFile? && a.level == level && f in in0 {
      InFileRange(a.file, d.tables[a.file.number], x);
      InFileRange(f, d.tables[f.number], y);
      if level == 0 {
        assert RangesTouch(a.file, f);
      } else {
        assert Apart(a.file, f);
        FirstIsNewer(hist, x, y);
      }
    }
  }

  lemma OutputWithinInputs(d: Data, files: set<FileMeta>, outs: set<FileMeta>, o: FileMeta)
    requires TablesOk(d.version, d.tables) && OutputsWithin(d.tables, files, outs) && o in outs
    requires forall f :: f in files ==> f.number in d.tables && FileMatches(f, d.tables[f.number])
    ensures exists f, g :: f in files && g in files && AtMost(f.smallest, o.smallest) && AtMost(o.largest, g.largest)
  {
    var t := d.tables[o.number];
    assert InFiles(d.tables, outs, t[0]) && InFiles(d.tables, outs, t[|t| - 1]);
    var f :| f in files && f.number in d.tables && t[0] in d.tables[f.number];
    var g :| g in files && g.number in d.tables && t[|t| - 1] in d.tables[g.number];
    InFileRange(f, d.tables[f.number], t[0]);
    InFileRange(g, d.tables[g.number], t[|t| - 1]);
  }

  lemma InputTables(d: Data, hist: seq<Op>, level: nat, in0: set<FileMeta>, in1: set<FileMeta>)
    requires DataInv(d, hist) && InputsOk(d.version, level, in0, in1)
    ensures forall f :: f in in0 + in1 ==> f.number in d.tables && FileMatches(f, d.tables[f.number])
    ensures forall e :: InFiles(d.tables, in0 + in1, e) ==> IsUpdate(hist, e)
  {
    forall e | InFiles(d.tables, in0 + in1, e) ensures IsUpdate(hist, e) {
      var f :| f in in0 + in1 && f.number in d.tables && e in d.tables[f.number];
      assert Holds(d, InFile(if f in in0 then level else level + 1, f), e);
    }
  }

  lemma CompactionDisjoint(
      d: Data, hist: seq<Op>, level: nat, in0: set<FileMeta>, in1: set<FileMeta>, outs: set<FileMeta>)
    requires DataInv(d, hist) && InputsOk(d.version, level, in0, in1)
    requires OutputsWithin(d.tables, in0 + in1, outs)
    ensures LevelsDisjoint(Replaced(d.version, level, in0, in1, outs))
  {
    InputTables(d, hist, level, in0, in1);
    forall h, o | h in d.version[level + 1] && h !in in1 && o in outs ensures Apart(h, o) {
      BystanderAside(d, hist, level, in0, in1, h);
      OutputWithinInputs(d, in0 + in1, outs, o);
    }
  }

  lemma CompactionAge(d: Data, hist: seq<Op>, level: nat, in0: set<FileMeta>, in1: set<FileMeta>, outs: set<FileMeta>)
    requires DataInv(d, hist) && InputsOk(d.version, level, in0, in1)
    requires OutputsWithin(d.tables, in0 + in1, outs)
    requires NumbersUnique(Replaced(d.version, level, in0, in1, outs))
    ensures AgeOrdered(d.(version := Replaced(d.version, level, in0, in1, outs)))
    ensures FromHistory(d.(version := Replaced(d.version, level, in0, in1, outs)), hist)
  {
    InputTables(d, hist, level, in0, in1);
    var d' := d.(version := Replaced(d.version, level, in0, in1, outs));
    forall a, x | Holds(d', a, x) ensures IsUpdate(hist, x) {
      if a.InFile? && a.level == level + 1 && a.file in outs {
        assert InFiles(d.tables, outs, x);
      } else {
        assert Holds(d, a, x);
      }
    }
    forall a, b, x, y | Holds(d', a, x) && Holds(d', b, y) && Above(a, b) && x.key.user == y.key.user
      ensures x.key.sequence > y.key.sequence
    {
      var aOut := a.InFile? && a.level == level + 1 && a.file in outs;
      var bOut := b.InFile? && b.level == level + 1 && b.file in outs;
      if aOut {
        assert InFiles(d.tables, outs, x);
        Stays(d, level, in0, in1, outs, b, y);
        InputAge(d, hist, level, in0, in1, b, y, x);
      } else if bOut {
        assert InFiles(d.tables, outs, y);
        Stays(d, level, in0, in1, outs, a, x);
        InputAge(d, hist, level, in0, in1, a, x, y);
      } else {
        assert Holds(d, a, x) && Holds(d, b, y);
      }
    }
  }

  /** A place of the new version that is no output was there before and was no input. */
  lemma Stays(d: Data, level: nat, in0: set<FileMeta>, in1: set<FileMeta>, outs: set<FileMeta>, a: Loc, x: Entry)
    requires InputsOk(d.version, level, in0, in1) && NumbersUnique(d.version)
    requires Holds(d.(version := Replaced(d.version, level, in0, in1, outs)), a, x)
    requires !(a.InFile? && a.level == level + 1 && a.file in outs)
    ensures Holds(d, a, x)
    ensures a.InFile? ==> a.file !in in0 + in1
  {
    if a.InFile? {
      assert a.file in d.version[a.level];
    }
  }

  /** Compaction keeps every invariant of stored data, whatever it drops. */
  lemma CompactionKeepsInvariant(
      d: Data, hist: seq<Op>, level: nat, in0: set<FileMeta>, in1: set<FileMeta>, outs: set<FileMeta>)
    requires DataInv(d, hist) && InputsOk(d.version, level, in0, in1)
    requires OutputsWithin(d.tables, in0 + in1, outs)
    requires NumbersUnique(Replaced(d.version, level, in0, in1, outs))
    ensures DataInv(d.(version := Replaced(d.version, level, in0, in1, outs)), hist)
  {
    CompactionDisjoint(d, hist, level, in0, in1, outs);
    CompactionAge(d, hist, level, in0, in1, outs);
  }

  /** Exactly the dropped input entries disappear. */
  lemma CompactionHeld(
      d: Data, hist: seq<Op>, level: nat, in0: set<FileMeta>, in1: set<FileMeta>, smallest: nat, outs: set<FileMeta>,
      n: nat)
    requires DataInv(d, hist) && InputsOk(d.version, level, in0, in1)
    requires OutputsOk(d.version, d.tables, level, in0 + in1, smallest, outs)
    requires 1 <= n <= |hist|
    ensures
      var e := EntryOf(hist, n);
      IsHeld(d.(version := Replaced(d.version, level, in0, in1, outs)), hist, n) <==>
        && IsHeld(d, hist, n)
        && !(InFiles(d.tables, in0 + in1, e) && Dropped(d.version, d.tables, level, in0 + in1, smallest, e))
  {
    var e := EntryOf(hist, n);
    var d' := d.(version := Replaced(d.version, level, in0, in1, outs));
    var files := in0 + in1;
    if IsHeld(d', hist, n) {
      var loc :| Holds(d', loc, e);
      if loc.InFile? && loc.level == level + 1 && loc.file in outs {
        assert InFiles(d.tables, outs, e);
        var f :| f in files && f.number in d.tables && e in d.tables[f.number];
        assert Holds(d, InFile(if f in in0 then level else level + 1, f), e);
      } else {
        Stays(d, level, in0, in1, outs, loc, e);
        if InFiles(d.tables, files, e) {
          var f :| f in files && f.number in d.tables && e in d.tables[f.number];
          OnePlace(d, hist, loc, InFile(if f in in0 then level else level + 1, f), e);
        }
      }
    }
    if IsHeld(d, hist, n) && !(InFiles(d.tables, files, e) && Dropped(d.version, d.tables, level, files, smallest, e)) {
      if InFiles(d.tables, files, e) {
        assert InFiles(d.tables, outs, e);
        var o :| o in outs && o.number in d.tables && e in d.tables[o.number];
        assert Holds(d', InFile(level + 1, o), e);
      } else {
        var loc :| Holds(d, loc, e);
        assert Holds(d', loc, e);
      }
    }
  }

  /** A value in a file of the next level that stays behind, uncovered by the tombstone `t`
      that compaction drops: nothing else would hide `p` from a reader at `smallest`. */
  ghost predicate Uncovers(
      d: Data, level: nat, in0: set<FileMeta>, in1: set<FileMeta>, smallest: nat, t: Entry, p: Entry)
  {
    && level + 1 < NUM_LEVELS
    && InFiles(d.tables, in0 + in1, t)
    && ObsoleteTombstone(d.version, level, smallest, t)
    && p.key.kind == Value
    && p.key.user == t.key.user
    && p.key.sequence < t.key.sequence
    && InFiles(d.tables, d.version[level + 1] - in1, p)
    && forall loc, x :: Holds(d, loc, x) && x.key.user == t.key.user && p.key.sequence < x.key.sequence <= smallest ==>
         x.key.sequence <= t.key.sequence && InFiles(d.tables, in0 + in1, x)
  }

  lemma CompactionHeldShrinks(
      d: Data, hist: seq<Op>, level: nat, in0: set<FileMeta>, in1: set<FileMeta>, smallest: nat, outs: set<FileMeta>)
    requires DataInv(d, hist) && InputsOk(d.version, level, in0, in1)
    requires OutputsOk(d.version, d.tables, level, in0 + in1, smallest, outs)
    ensures Held(d.(version := Replaced(d.version, level, in0, in1, outs)), hist) <= Held(d, hist)
  {
    var d' := d.(version := Replaced(d.version, level, in0, in1, outs));
    forall n | IsHeld(d', hist, n) ensures IsHeld(d, hist, n) {
      CompactionHeld(d, hist, level, in0, in1, smallest, outs, n);
    }
  }

  /** The newest update a reader at or above `smallest` sees is dropped only if it is an
      obsolete tombstone. */
  lemma DroppedNewest(
      d: Data, hist: seq<Op>, level: nat, in0: set<FileMeta>, in1: set<FileMeta>, smallest: nat, outs: set<FileMeta>,
      k: UserKey, s: nat)
    requires DataInv(d, hist) && InputsOk(d.version, level, in0, in1)
    requires OutputsOk(d.version, d.tables, level, in0 + in1, smallest, outs)
    requires smallest <= s
    ensures var n := Newest(hist, Held(d, hist), k, s);
      var n' := Newest(hist, Held(d.(version := Replaced(d.version, level, in0, in1, outs)), hist), k, s);
      && n' <= n
      && (n' < n ==>
            && n <= |hist| && hist[n - 1].user == k && InFiles(d.tables, in0 + in1, EntryOf(hist, n))
            && ObsoleteTombstone(d.version, level, smallest, EntryOf(hist, n)))
  {
    var d' := d.(version := Replaced(d.version, level, in0, in1, outs));
    var n, n' := Newest(hist, Held(d, hist), k, s), Newest(hist, Held(d', hist), k, s);
    NewestIsNewest(hist, Held(d, hist), k, s);
    NewestIsNewest(hist, Held(d', hist), k, s);
    CompactionHeldShrinks(d, hist, level, in0, in1, smallest, outs);
    if n' < n {
      assert n in Held(d, hist) && n !in Held(d', hist);
      CompactionHeld(d, hist, level, in0, in1, smallest, outs, n);
      forall x | InFiles(d.tables, in0 + in1, x) && x.key.user == k ensures !(n < x.key.sequence <= smallest) {
        InputHeld(d, hist, level, in0, in1, x);
        assert x.key.sequence in Held(d, hist);
      }
    }
  }

  lemma CompactionViewOrUncovered(
      d: Data, hist: seq<Op>, level: nat, in0: set<FileMeta>, in1: set<FileMeta>, smallest: nat, outs: set<FileMeta>,
      k: UserKey, s: nat)
    requires DataInv(d, hist) && InputsOk(d.version, level, in0, in1)
    requires OutputsOk(d.version, d.tables, level, in0 + in1, smallest, outs)
    requires smallest <= s
    ensures var d' := d.(version := Replaced(d.version, level, in0, in1, outs));
      || View(hist, Held(d', hist), k, s) == View(hist, Held(d, hist), k, s)
      || exists t, p :: Uncovers(d, level, in0, in1, smallest, t, p)
  {
    var d' := d.(version := Replaced(d.version, level, in0, in1, outs));
    var n, n' := Newest(hist, Held(d, hist), k, s), Newest(hist, Held(d', hist), k, s);
    DroppedNewest(d, hist, level, in0, in1, smallest, outs, k, s);
    NewestIsNewest(hist, Held(d, hist), k, s);
    NewestIsNewest(hist, Held(d', hist), k, s);
    if n' < n && Resolve(hist, n') != None {
      var t, p := EntryOf(hist, n), EntryOf(hist, n');
      UncoveredPlace(d, hist, level, in0, in1, smallest, outs, t, p);
      forall loc, x | Holds(d, loc, x) && x.key.user == k && n' < x.key.sequence <= smallest
        ensures x.key.sequence <= n && InFiles(d.tables, in0 + in1, x)
      {
        assert IsHeld(d, hist, x.key.sequence) && x.key.sequence in Held(d, hist);
        CompactionHeld(d, hist, level, in0, in1, smallest, outs, x.key.sequence);
        assert x.key.sequence in Held(d', hist) <==> IsHeld(d', hist, x.key.sequence);
      }
      assert Uncovers(d, level, in0, in1, smallest, t, p);
    }
  }

  lemma InputHeld(d: Data, hist: seq<Op>, level: nat, in0: set<FileMeta>, in1: set<FileMeta>, x: Entry)
    requires DataInv(d, hist) && InputsOk(d.version, level, in0, in1) && InFiles(d.tables, in0 + in1, x)
    ensures IsUpdate(hist, x) && IsHeld(d, hist, x.key.sequence)
  {
    var f :| f in in0 + in1 && f.number in d.tables && x in d.tables[f.number];
    assert Holds(d, InFile(if f in in0 then level else level + 1, f), x);
  }

  /** An older update of a dropped tombstone's key that survives compaction can only be in a
      file of the next level that is not an input. */
  lemma UncoveredPlace(
      d: Data, hist: seq<Op>, level: nat, in0: set<FileMeta>, in1: set<FileMeta>, smallest: nat, outs: set<FileMeta>,
      t: Entry, p: Entry)
    requires DataInv(d, hist) && InputsOk(d.version, level, in0, in1)
    requires OutputsOk(d.version, d.tables, level, in0 + in1, smallest, outs)
    requires InFiles(d.tables, in0 + in1, t) && ObsoleteTombstone(d.version, level, smallest, t)
    requires IsUpdate(hist, p) && p.key.user == t.key.user && p.key.sequence < t.key.sequence
    requires IsHeld(d.(version := Replaced(d.version, level, in0, in1, outs)), hist, p.key.sequence)
    ensures InFiles(d.tables, d.version[level + 1] - in1, p)
  {
    CompactionHeld(d, hist, level, in0, in1, smallest, outs, p.key.sequence);
    assert Hidden(d.tables, in0 + in1, smallest, p);
    var loc :| Holds(d, loc, p);
    assert loc.InFile? && loc.file in in0 + in1 ==> InFiles(d.tables, in0 + in1, p);
    InputAge(d, hist, level, in0, in1, loc, p, t);
    assert loc.InFile?;
    InFileRange(loc.file, d.tables[loc.file.number], p);
  }

  /** Compaction leaves the views at and above `smallest` as they were if and only if no
      dropped tombstone uncovers a value. */
  lemma CompactionKeepsViewsIff(
      d: Data, hist: seq<Op>, level: nat, in0: set<FileMeta>, in1: set<FileMeta>, smallest: nat, outs: set<FileMeta>)
    requires DataInv(d, hist) && InputsOk(d.version, level, in0, in1)
    requires OutputsOk(d.version, d.tables, level, in0 + in1, smallest, outs)
    ensures var d' := d.(version := Replaced(d.version, level, in0, in1, outs));
      (forall k, s :: smallest <= s ==> View(hist, Held(d', hist), k, s) == View(hist, Held(d, hist), k, s))
      <==> !exists t, p :: Uncovers(d, level, in0, in1, smallest, t, p)
  {
    var d' := d.(version := Replaced(d.version, level, in0, in1, outs));
    if !exists t, p :: Uncovers(d, level, in0, in1, smallest, t, p) {
      forall k, s | smallest <= s ensures View(hist, Held(d', hist), k, s) == View(hist, Held(d, hist), k, s) {
        CompactionViewOrUncovered(d, hist, level, in0, in1, smallest, outs, k, s);
      }
    } else {
      var t, p :| Uncovers(d, level, in0, in1, smallest, t, p);
      CoveredViewBefore(d, hist, level, in0, in1, smallest, t, p);
      UncoveredViewAfter(d, hist, level, in0, in1, smallest, outs, t, p);
    }
  }

  lemma CoveredViewBefore(
      d: Data, hist: seq<Op>, level: nat, in0: set<FileMeta>, in1: set<FileMeta>, smallest: nat, t: Entry, p: Entry)
    requires DataInv(d, hist) && InputsOk(d.version, level, in0, in1)
    requires Uncovers(d, level, in0, in1, smallest, t, p)
    ensures View(hist, Held(d, hist), t.key.user, smallest) == None
  {
    InputHeld(d, hist, level, in0, in1, t);
    forall i | t.key.sequence < i <= smallest && i <= |hist| && i in Held(d, hist)
      ensures hist[i - 1].user != t.key.user
    {
      var loc :| Holds(d, loc, EntryOf(hist, i));
    }
    NewestIsUnique(hist, Held(d, hist), t.key.user, smallest, t.key.sequence);
  }

  lemma UncoveredViewAfter(
      d: Data, hist: seq<Op>, level: nat, in0: set<FileMeta>, in1: set<FileMeta>, smallest: nat, outs: set<FileMeta>,
      t: Entry, p: Entry)
    requires DataInv(d, hist) && InputsOk(d.version, level, in0, in1)
    requires OutputsOk(d.version, d.tables, level, in0 + in1, smallest, outs)
    requires Uncovers(d, level, in0, in1, smallest, t, p)
    ensures var d' := d.(version := Replaced(d.version, level, in0, in1, outs));
      View(hist, Held(d', hist), t.key.user, smallest) == Some(p.value)
  {
    var d' := d.(version := Replaced(d.version, level, in0, in1, outs));
    var held', k := Held(d', hist), t.key.user;
    var g :| g in d.version[level + 1] - in1 && g.number in d.tables && p in d.tables[g.number];
    assert Holds(d, InFile(level + 1, g), p) && Holds(d', InFile(level + 1, g), p);
    assert p.key.sequence in held';
    forall i | p.key.sequence < i <= smallest && i <= |hist| && i in held' ensures hist[i - 1].user != k {
      CompactionHeld(d, hist, level, in0, in1, smallest, outs, i);
      var x := EntryOf(hist, i);
      var loc :| Holds(d, loc, x);
      assert x.key.user == k ==> InFiles(d.tables, in0 + in1, x) && i <= t.key.sequence;
      assert i == t.key.sequence && x.key.user == k ==> x == t by {
        InputTables(d, hist, level, in0, in1);
      }
    }
    NewestIsUnique(hist, held', k, smallest, p.key.sequence);
  }

  /** A simple check that suffices: no user key is shared between an input file and a file of
      the next level that stays. */
  ghost predicate NoSharedKey(v: Version, level: nat, in1: set<FileMeta>)
    requires level + 1 < NUM_LEVELS
  {
    forall f, g :: f in in1 && g in v[level + 1] && g !in in1 ==> !RangesTouch(f, g)
  }

  lemma NoSharedKeyUncoversNothing(
      d: Data, hist: seq<Op>, level: nat, in0: set<FileMeta>, in1: set<FileMeta>, smallest: nat, t: Entry, p: Entry)
    requires DataInv(d, hist) && InputsOk(d.version, level, in0, in1)
    requires NoSharedKey(d.version, level, in1)
    ensures !Uncovers(d, level, in0, in1, smallest, t, p)
  {
    if Uncovers(d, level, in0, in1, smallest, t, p) {
      var g :| g in d.version[level + 1] - in1 && g.number in d.tables && p in d.tables[g.number];
      var f :| f in in0 + in1 && f.number in d.tables && t in d.tables[f.number];
      InFileRange(g, d.tables[g.number], p);
      InputTables(d, hist, level, in0, in1);
      InFileRange(f, d.tables[f.number], t);
      if f in in1 {
        assert RangesTouch(f, g);
      } else {
        assert TouchesHull(g, in0);
      }
    }
  }
}
