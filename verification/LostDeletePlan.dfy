/** The files of a run in which a deleted key comes back, and what the algorithms decide about them:
    which level each flush goes to, which files each compaction takes, and where its outputs end.
    K is a long key, of a megabyte, which is the smallest size at which a file can count as full. */
module LostDeletePlan {
  import opened Keys
  import opened Store
  import opened Reorganise
  import opened Engine
  import opened FileSearch
  import opened PointLookup
  import opened CompactionInputs
  import opened Compactions
  import opened CompactionPicker
  import opened Database

  const J: UserKey := 1.0
  const K: UserKey := 2.0

  const MAX_FILE_SIZE: nat := 0x10_0000

  const J1: Entry := Entry(InternalKey(J, 1, Value), [2])
  const J2: Entry := Entry(InternalKey(J, 2, Value), [3])
  const K3: Entry := Entry(InternalKey(K, 3, Value), [1])
  const K4: Entry := Entry(InternalKey(K, 4, Deletion), [])
  const J5: Entry := Entry(InternalKey(J, 5, Value), [4])
  const J6: Entry := Entry(InternalKey(J, 6, Value), [5])

  function TableSize(t: seq<Entry>): nat {
    if t == [] then 0 else TableSize(t[..|t| - 1]) + if t[|t| - 1].key.user == K then MAX_FILE_SIZE else 100
  }

  const SIZES: seq<Entry> -> nat := t => TableSize(t)

  const FILL2: FileMeta := FileMeta(5, 100, J1.key, J1.key)
  const FILL1: FileMeta := FileMeta(7, 100, J2.key, J2.key)
  const FIRST: FileMeta := FileMeta(9, 2 * MAX_FILE_SIZE + 100, J5.key, K3.key)
  const UPPER: FileMeta := FileMeta(10, MAX_FILE_SIZE + 200, J5.key, K4.key)
  const LOWER: FileMeta := FileMeta(11, MAX_FILE_SIZE, K3.key, K3.key)
  const SECOND: FileMeta := FileMeta(13, 100, J6.key, J6.key)
  const MERGED: FileMeta := FileMeta(14, 100, J6.key, J6.key)

  /** The files of the levels 0, 1 and 2. */
  function Rows(a: seq<FileMeta>, b: seq<FileMeta>, c: seq<FileMeta>): seq<seq<FileMeta>> {
    [a, b, c, [], [], [], []]
  }

  function Levels(a: set<FileMeta>, b: set<FileMeta>, c: set<FileMeta>): Version {
    [a, b, c, {}, {}, {}, {}]
  }

  lemma RowsAreListed(a: seq<FileMeta>, b: seq<FileMeta>, c: seq<FileMeta>)
    requires |a| <= 1 && (forall f :: f in a ==> Ordered(f)) && SortedDisjoint(b) && SortedDisjoint(c)
    ensures Lists(Rows(a, b, c), Levels(Files(a), Files(b), Files(c)))
  {
    hide SortedDisjoint, Ordered;
    var rows := Rows(a, b, c);
    NothingDisjoint();
    assert Files([]) == {};
  }

  lemma NothingDisjoint()
    ensures SortedDisjoint([])
  {
  }

  // ----- Flushes -----

  /** A flush of this file goes to this level. */
  ghost predicate FlushGoes(v: Version, file: FileMeta, level: nat) {
    exists lists :: Lists(lists, v) && GoesTo(lists, file, MAX_FILE_SIZE, level)
  }

  lemma FlushMay(v: Version, file: FileMeta, level: nat)
    requires FlushGoes(v, file, level)
    ensures FlushLevelOk(v, file, level)
  {
    var lists :| Lists(lists, v) && GoesTo(lists, file, MAX_FILE_SIZE, level);
    GoesWhereAllowed(lists, v, file, MAX_FILE_SIZE, level);
  }

  /** Into an empty version, past everything. */
  lemma FillGoesTo2()
    ensures FlushGoes(Levels({}, {}, {}), FILL2, 2)
  {
    RowsAreListed([], [], []);
    assert GoesTo(Rows([], [], []), FILL2, MAX_FILE_SIZE, 2);
  }

  lemma FillGoesTo1()
    ensures FlushGoes(Levels({}, {}, {FILL2}), FILL1, 1)
  {
    RowsAreListed([], [], [FILL2]);
    OneFile([FILL2]);
    assert RangesTouch(FILL1, FILL2) && FILL2 in Rows([], [], [FILL2])[2];
    assert Touching([FILL2], Some(J), Some(J)) == [FILL2] by {
      assert [FILL2][..0] == [];
    }
    assert SumSizes([FILL2]) == 100 by {
      assert [FILL2][..0] == [];
    }
    assert GoesTo(Rows([], [], [FILL2]), FILL1, MAX_FILE_SIZE, 1);
  }

  /** A file that overlaps one of level 1, and none of level 0, stays on level 0. */
  lemma StaysOn0(b: seq<FileMeta>, c: seq<FileMeta>, file: FileMeta, g: FileMeta)
    requires SortedDisjoint(b) && SortedDisjoint(c) && g in b && RangesTouch(file, g)
    ensures FlushGoes(Levels({}, Files(b), Files(c)), file, 0)
  {
    RowsAreListed([], b, c);
    assert Files([]) == {};
    assert GoesTo(Rows([], b, c), file, MAX_FILE_SIZE, 0);
  }

  // ----- Compactions -----

  const NO_POINTERS: seq<Option<InternalKey>> := [None, None, None, None, None, None, None]

  /** A compaction of a file of level 0 that was searched in vain too often, or of a range that was
      asked for by hand. */
  ghost predicate CompactionGoes(s: State, step: Step) {
    || (exists lists, f ::
          && Lists(lists, s.version) && f in lists[0]
          && DoesWhatIsDue(s, lists, MAX_FILE_SIZE, NO_POINTERS, None, Some((0, f)), SIZES, step))
    || (exists lists, manual ::
          Lists(lists, s.version) && CompactsRange(s, lists, MAX_FILE_SIZE, manual, SIZES, step))
  }

  lemma HullOfOne(f: FileMeta)
    requires Ordered(f)
    ensures IsHull([f], f.smallest, f.largest)
  {
    assert f in [f];
  }

  /** Alone on level 0, a file is compacted with what it touches on level 1. */
  lemma AloneOnLevel0(b: seq<FileMeta>, c: seq<FileMeta>, f: FileMeta, next: seq<FileMeta>)
    requires Ordered(f) && next == Touching(b, Some(f.smallest.user), Some(f.largest.user))
    requires f.smallest.user <= f.largest.user
    ensures PicksDue(Rows([f], b, c), MAX_FILE_SIZE, NO_POINTERS, None, Some((0, f)), 0, [f], next)
  {
    hide IsHull, SearchRange, Touching, Extends, Less, SumSizes, Ordered;
    var rows := Rows([f], b, c);
    HullOfOne(f);
    AloneIsFound(f);
    AloneStays(f);
    BelowIsTouched(b, f, next);
    forall e0, e1 ensures !Expansion(rows, 0, MAX_FILE_SIZE, [f], next, e0, e1) {
      NoMoreOnLevel0(f, e0);
    }
    hide Expansion, TouchedBy, Overlapping;
    assert ExpandedIfPossible(rows, 0, MAX_FILE_SIZE, [f], next, [f], next);
    assert SetUp(rows, 0, MAX_FILE_SIZE, [f], [f], next);
    assert IsDue(rows, NO_POINTERS, None, Some((0, f)), 0, f) && StartsWith(rows[0], 0, f, [f]);
  }

  lemma BelowIsTouched(b: seq<FileMeta>, f: FileMeta, next: seq<FileMeta>)
    requires Ordered(f) && next == Touching(b, Some(f.smallest.user), Some(f.largest.user))
    ensures TouchedBy(b, 1, [f], next)
  {
    HullOfOne(f);
    hide IsHull, Touching;
    assert SearchRange(1, b, Some(f.smallest.user), Some(f.largest.user), Some(f.smallest.user), Some(f.largest.user));
    assert Overlapping(1, b, f.smallest, f.largest, next);
  }

  lemma AloneIsFound(f: FileMeta)
    requires f.smallest.user <= f.largest.user
    ensures Overlapping(0, [f], f.smallest, f.largest, [f])
  {
    var lo, hi := Some(f.smallest.user), Some(f.largest.user);
    assert [f][..0] == [];
    assert Touching([f], lo, hi) == [f];
    assert SearchRange(0, [f], lo, hi, lo, hi);
  }

  lemma AloneStays(f: FileMeta)
    requires Ordered(f)
    ensures Extends([f], [f], [f])
  {
    hide Less;
    forall k | IsLargest([f], k) ensures NoBoundary([f], k) {
      var g :| g in [f] && g.largest == k;
      NotAfterItself(f);
    }
  }

  lemma NotAfterItself(f: FileMeta)
    requires Ordered(f)
    ensures !Continues(f, f.largest)
  {
  }

  /** With one file on the level, no selection has more than one. */
  lemma NoMoreOnLevel0(f: FileMeta, r: seq<FileMeta>)
    requires Ordered(f)
    ensures (exists sel, touched :: TouchedBy([f], 0, sel, touched) && Extends([f], touched, r)) ==> |r| <= 1
  {
    if sel, touched :| TouchedBy([f], 0, sel, touched) && Extends([f], touched, r) {
      var a, b :| IsHull(sel, a, b) && Overlapping(0, [f], a, b, touched);
      var lo, hi :| SearchRange(0, [f], Some(a.user), Some(b.user), lo, hi) && touched == Touching([f], lo, hi);
      TouchingOne(f, lo, hi);
      if touched == [f] {
        AloneStays(f);
        ExtensionIsUnique([f], [f], r, [f]);
      }
    }
  }

  lemma TouchingOne(f: FileMeta, lo: Option<UserKey>, hi: Option<UserKey>)
    ensures Touching([f], lo, hi) == if Touches(f, lo, hi) then [f] else []
  {
    var fs := [f];
    assert fs[..|fs| - 1] == [];
  }

  const INPUT1: seq<Entry> := [J5, J2, K4, K3]
  const LIMITS1: Limits := Limits(INPUT1, [FILL2], MAX_FILE_SIZE, SIZES)

  /** So few bytes lie below that no output ends because of them. */
  lemma NoStops(x: Limits, i: nat)
    requires x.grandparents == [FILL2] && x.maxFileSize == MAX_FILE_SIZE && i < |x.input|
    ensures LastStop(x, i) == 0
  {
    if i > 0 {
      NoStops(x, i - 1);
      FewBytes(Passed([FILL2], x.input[0].key), Passed([FILL2], x.input[i].key));
    }
  }

  lemma FewBytes(a: nat, b: nat)
    ensures BytesBetween([FILL2], a, b) <= 100
  {
    var files := [FILL2];
    assert files[..|files| - 1] == [] && SumSizes(files) == SumSizes([]) + 100;
    if a == b <= 1 {
      assert files[a..b] == [];
    } else if a < b <= 1 {
      assert files[a..b] == files;
    }
  }

  lemma NeverStops(x: Limits)
    requires x.grandparents == [FILL2] && x.maxFileSize == MAX_FILE_SIZE
    ensures forall a, b :: !StopsBetween(x, a, b)
  {
    forall i: nat ensures !StopsAt(x, i) {
      if i < |x.input| {
        NoStops(x, i);
      }
    }
  }

  lemma Sizes()
    ensures TableSize([J5]) == 100 && TableSize([J5, J2]) == 200 && TableSize([J5, J2, K4]) == MAX_FILE_SIZE + 200
    ensures TableSize([K3]) == MAX_FILE_SIZE && TableSize([J6]) == 100
    ensures TableSize([J1]) == 100 && TableSize([J2]) == 100 && TableSize([J5, K4, K3]) == 2 * MAX_FILE_SIZE + 100
  {
    assert [J5][..0] == [] && [J5, J2][..1] == [J5] && [J5, J2, K4][..2] == [J5, J2];
    assert [K3][..0] == [] && [J6][..0] == [] && [J1][..0] == [] && [J2][..0] == [];
    assert [J5, K4, K3][..2] == [J5, K4] && [J5, K4][..1] == [J5];
  }

  /** The tombstone of K is the last entry of the first output, which is full with it. */
  lemma FirstIsCut()
    ensures WellCut(LIMITS1, [[J5, J2, K4], [K3]])
  {
    NeverStops(LIMITS1);
    Sizes();
    var a := [J5, J2, K4];
    assert a[..1] == [J5] && a[..2] == [J5, J2];
    assert RunsOn(LIMITS1, a) && RunsOn(LIMITS1, [K3]) && EndsBetween(LIMITS1, a, [K3]);
  }

  lemma SecondIsCut()
    ensures WellCut(Limits([J6, J5, J2, K4], [FILL2], MAX_FILE_SIZE, SIZES), [[J6]])
  {
    var x := Limits([J6, J5, J2, K4], [FILL2], MAX_FILE_SIZE, SIZES);
    NeverStops(x);
    assert RunsOn(x, [J6]);
  }

  // ----- The two compactions -----

  /** Each entry survives the first compaction: a snapshot at 3 keeps both entries of K alive. */
  lemma FirstSurvivors(v: Version)
    ensures Survivors(INPUT1, v, 0, 3, 4) == INPUT1
  {
    hide ObsoleteTombstone;
    forall i: nat | i < 4 ensures Survives(INPUT1, v, 0, 3, i) {
      assert !ObsoleteTombstone(v, 0, 3, INPUT1[i]) by {
        NotObsolete(v, INPUT1[i]);
      }
    }
    SurvivorsStep(INPUT1, v, 0, 3, 0);
    SurvivorsStep(INPUT1, v, 0, 3, 1);
    SurvivorsStep(INPUT1, v, 0, 3, 2);
    SurvivorsStep(INPUT1, v, 0, 3, 3);
    assert Survivors(INPUT1, v, 0, 3, 0) == [];
  }

  lemma NotObsolete(v: Version, e: Entry)
    requires e.key.kind == Value || e.key.sequence > 3
    ensures !ObsoleteTombstone(v, 0, 3, e)
  {
  }

  const INPUT2: seq<Entry> := [J6, J5, J2, K4]

  /** Without a snapshot, only the newest entry of J survives the second. */
  lemma SecondSurvivors(v: Version)
    requires v == Levels({SECOND}, {UPPER, LOWER}, {FILL2})
    ensures Survivors(INPUT2, v, 0, 6, 4) == [J6]
  {
    assert !HiddenAt(INPUT2, 6, 0) && HiddenAt(INPUT2, 6, 1) && HiddenAt(INPUT2, 6, 2) by {
      assert INPUT2[0] == J6;
    }
    assert ObsoleteTombstone(v, 0, 6, INPUT2[3]);
    hide HiddenAt, ObsoleteTombstone;
    assert !ObsoleteTombstone(v, 0, 6, INPUT2[0]) by {
      ValueIsNotObsolete(v, INPUT2[0]);
    }
    SurvivorsStep(INPUT2, v, 0, 6, 0);
    SurvivorsStep(INPUT2, v, 0, 6, 1);
    SurvivorsStep(INPUT2, v, 0, 6, 2);
    SurvivorsStep(INPUT2, v, 0, 6, 3);
    assert Survivors(INPUT2, v, 0, 6, 0) == [];
  }

  lemma ValueIsNotObsolete(v: Version, e: Entry)
    requires e.key.kind == Value
    ensures !ObsoleteTombstone(v, 0, 6, e)
  {
  }

  const STEP1: Step := CompactBegin(0, {FIRST}, {FILL1}, {UPPER, LOWER}, map[10 := [J5, J2, K4], 11 := [K3]], 12)
  const STEP2: Step := CompactBegin(0, {SECOND}, {UPPER}, {MERGED}, map[14 := [J6]], 15)

  lemma Singles()
    ensures Files([FIRST]) == {FIRST} && Files([FILL1]) == {FILL1} && Files([FILL2]) == {FILL2}
    ensures Files([SECOND]) == {SECOND}
    ensures Files([UPPER]) == {UPPER} && Files([UPPER, LOWER]) == {UPPER, LOWER}
  {
  }

  lemma Below(sel: seq<FileMeta>, a: InternalKey, b: InternalKey)
    requires IsHull(sel, a, b) && a.user <= J <= b.user
    ensures GrandparentsOk(Rows([], [], [FILL2]), 0, sel, [], [FILL2])
  {
    TouchingOne(FILL2, Some(a.user), Some(b.user));
    assert sel + [] == sel;
    assert SearchRange(2, [FILL2], Some(a.user), Some(b.user), Some(a.user), Some(b.user));
    assert Overlapping(2, [FILL2], a, b, [FILL2]);
  }

  /** The level-0 table, with the file of level 1 that it touches. */
  lemma FirstGoes(s: State)
    requires s.version == Levels({FIRST}, {FILL1}, {FILL2}) && s.nextFile == 10 && s.snapshots == [3]
    requires s.tables.Keys >= {7, 9} && s.tables[7] == [J2] && s.tables[9] == [J5, K4, K3]
    ensures CompactionGoes(s, STEP1)
  {
    var lists := Rows([FIRST], [FILL1], [FILL2]);
    FirstInputs();
    FirstCutIsRight(s);
    hide PicksDue, GrandparentsOk, CutRight, Lists;
    assert DoesWhatIsDue(s, lists, MAX_FILE_SIZE, NO_POINTERS, None, Some((0, FIRST)), SIZES, STEP1);
  }

  lemma FirstInputs()
    ensures
      var lists := Rows([FIRST], [FILL1], [FILL2]);
      && Lists(lists, Levels({FIRST}, {FILL1}, {FILL2}))
      && PicksDue(lists, MAX_FILE_SIZE, NO_POINTERS, None, Some((0, FIRST)), 0, [FIRST], [FILL1])
      && GrandparentsOk(lists, 0, [FIRST], [FILL1], [FILL2])
  {
    hide PicksDue, Lists, GrandparentsOk, SortedDisjoint, Ordered;
    Singles();
    LowLevels();
    RowsAreListed([FIRST], [FILL1], [FILL2]);
    TouchesFill1();
    AloneOnLevel0([FILL1], [FILL2], FIRST, [FILL1]);
    FirstBelow();
  }

  lemma FirstBelow()
    ensures GrandparentsOk(Rows([FIRST], [FILL1], [FILL2]), 0, [FIRST], [FILL1], [FILL2])
  {
    hide TouchedBy, IsHull;
    FirstHull();
    Below([FIRST, FILL1], J5.key, K3.key);
    assert [FIRST] + [FILL1] == [FIRST, FILL1] && [FIRST, FILL1] + [] == [FIRST, FILL1];
  }

  lemma LowLevels()
    ensures SortedDisjoint([FILL1]) && SortedDisjoint([FILL2]) && SortedDisjoint([UPPER, LOWER])
    ensures Ordered(FIRST) && Ordered(SECOND)
  {
  }

  lemma FirstHull()
    ensures IsHull([FIRST, FILL1], J5.key, K3.key)
  {
    assert FIRST in [FIRST, FILL1];
  }

  lemma TouchesFill1()
    ensures Touching([FILL1], Some(J), Some(K)) == [FILL1]
  {
    TouchingOne(FILL1, Some(J), Some(K));
  }

  lemma FirstCutIsRight(s: State)
    requires s.version == Levels({FIRST}, {FILL1}, {FILL2}) && s.nextFile == 10 && s.snapshots == [3]
    requires s.tables.Keys >= {7, 9} && s.tables[7] == [J2] && s.tables[9] == [J5, K4, K3]
    ensures CutRight(s, 0, [FIRST], [FILL1], [FILL2], MAX_FILE_SIZE, SIZES, STEP1)
  {
    hide IsInput, WellCut, Survivors, WrittenAs, TableSize;
    Singles();
    FirstIsCut();
    FirstSurvivors(s.version);
    var chunks := [[J5, J2, K4], [K3]];
    assert Flatten(chunks) == INPUT1 by {
      FlattenAppend([], [J5, J2, K4]);
      FlattenAppend([[J5, J2, K4]], [K3]);
      assert [] + [[J5, J2, K4]] == [[J5, J2, K4]] && [[J5, J2, K4]] + [[K3]] == chunks;
    }
    FirstInput(s);
    FirstWritten(chunks);
  }

  lemma FirstInput(s: State)
    requires s.tables.Keys >= {7, 9} && s.tables[7] == [J2] && s.tables[9] == [J5, K4, K3]
    ensures IsInput(s, [FIRST], [FILL1], INPUT1)
  {
    Singles();
    forall e ensures e in INPUT1 <==> InFiles(s.tables, {FIRST} + {FILL1}, e) {
      assert FIRST in {FIRST} + {FILL1} && FILL1 in {FIRST} + {FILL1};
    }
  }

  lemma FirstWritten(chunks: seq<seq<Entry>>)
    requires chunks == [[J5, J2, K4], [K3]]
    ensures WrittenAs(STEP1, chunks, 10, SIZES)
  {
    Sizes();
  }

  lemma SecondInput(s: State)
    requires s.tables.Keys >= {10, 13} && s.tables[10] == [J5, J2, K4] && s.tables[13] == [J6]
    ensures IsInput(s, [SECOND], [UPPER], INPUT2)
  {
    Singles();
    forall e ensures e in INPUT2 <==> InFiles(s.tables, {SECOND} + {UPPER}, e) {
      assert SECOND in {SECOND} + {UPPER} && UPPER in {SECOND} + {UPPER};
    }
  }

  lemma SecondWritten(chunks: seq<seq<Entry>>)
    requires chunks == [[J6]]
    ensures WrittenAs(STEP2, chunks, 14, SIZES)
  {
    Sizes();
  }

  /** The next level-0 table, with the first of the two outputs and without the second. */
  lemma SecondGoes(s: State)
    requires s.version == Levels({SECOND}, {UPPER, LOWER}, {FILL2}) && s.nextFile == 14 && s.snapshots == []
    requires s.lastSequence == 6
    requires s.tables.Keys >= {10, 13} && s.tables[10] == [J5, J2, K4] && s.tables[13] == [J6]
    ensures CompactionGoes(s, STEP2)
  {
    var lists := Rows([SECOND], [UPPER, LOWER], [FILL2]);
    SecondInputs();
    SecondCutIsRight(s);
    hide PicksDue, GrandparentsOk, CutRight, Lists;
    assert DoesWhatIsDue(s, lists, MAX_FILE_SIZE, NO_POINTERS, None, Some((0, SECOND)), SIZES, STEP2);
  }

  lemma SecondInputs()
    ensures
      var lists := Rows([SECOND], [UPPER, LOWER], [FILL2]);
      && Lists(lists, Levels({SECOND}, {UPPER, LOWER}, {FILL2}))
      && PicksDue(lists, MAX_FILE_SIZE, NO_POINTERS, None, Some((0, SECOND)), 0, [SECOND], [UPPER])
      && GrandparentsOk(lists, 0, [SECOND], [UPPER], [FILL2])
  {
    hide PicksDue, Lists, TouchedBy, SortedDisjoint, IsHull;
    Singles();
    LowLevels();
    RowsAreListed([SECOND], [UPPER, LOWER], [FILL2]);
    TouchesUpper();
    AloneOnLevel0([UPPER, LOWER], [FILL2], SECOND, [UPPER]);
    SecondHull();
    Below([SECOND, UPPER], J6.key, K4.key);
    assert [SECOND] + [UPPER] == [SECOND, UPPER] && [SECOND, UPPER] + [] == [SECOND, UPPER];
  }

  lemma SecondHull()
    ensures IsHull([SECOND, UPPER], J6.key, K4.key)
  {
    assert SECOND in [SECOND, UPPER] && UPPER in [SECOND, UPPER];
  }

  lemma TouchesUpper()
    ensures Touching([UPPER, LOWER], Some(J), Some(J)) == [UPPER]
  {
    var files := [UPPER, LOWER];
    TouchingOne(UPPER, Some(J), Some(J));
    assert files[..|files| - 1] == [UPPER];
  }

  lemma SecondCutIsRight(s: State)
    requires s.version == Levels({SECOND}, {UPPER, LOWER}, {FILL2}) && s.nextFile == 14 && s.snapshots == []
    requires s.lastSequence == 6
    requires s.tables.Keys >= {10, 13} && s.tables[10] == [J5, J2, K4] && s.tables[13] == [J6]
    ensures CutRight(s, 0, [SECOND], [UPPER], [FILL2], MAX_FILE_SIZE, SIZES, STEP2)
  {
    hide IsInput, WellCut, Survivors, WrittenAs, TableSize;
    Singles();
    SecondIsCut();
    SecondSurvivors(s.version);
    var chunks := [[J6]];
    assert Flatten(chunks) == [J6] by {
      assert chunks[..|chunks| - 1] == [];
    }
    SecondInput(s);
    SecondWritten(chunks);
  }
}
