/** Picking a compaction: which files to start from, and which others must come along. */
module CompactionPicker {
  import opened Keys
  import opened Store
  import opened Reorganise
  import opened FileSearch
  import opened CompactionInputs
  import opened Compactions

  /** What lies between two touching files touches the range as well. */
  lemma TouchBetween(files: seq<FileMeta>, lo: Option<UserKey>, hi: Option<UserKey>, i: nat, j: nat, k: nat)
    requires SortedDisjoint(files) && i < j < k < |files|
    requires Touches(files[i], lo, hi) && Touches(files[k], lo, hi)
    ensures Touches(files[j], lo, hi)
  {
    assert Ordered(files[j]) && Less(files[i].largest, files[j].smallest) && Less(files[j].largest, files[k].smallest);
  }

  /** In a level without overlaps, the files touching a range stand side by side. */
  lemma {:induction false} TouchingSpan(files: seq<FileMeta>, lo: Option<UserKey>, hi: Option<UserKey>, n: nat)
    returns (a: nat, b: nat)
    requires SortedDisjoint(files) && n <= |files|
    ensures a <= b <= n && forall i :: 0 <= i < n ==> (Touches(files[i], lo, hi) <==> a <= i < b)
  {
    hide SortedDisjoint, Touches;
    a, b := 0, 0;
    if n > 0 {
      a, b := TouchingSpan(files, lo, hi, n - 1);
      if Touches(files[n - 1], lo, hi) {
        if a == b {
          a, b := n - 1, n;
        } else {
          if b < n - 1 {
            TouchBetween(files, lo, hi, b - 1, b, n - 1);
          }
          b := n;
        }
      }
    }
  }

  lemma {:induction false} SpanIsTouching(
      files: seq<FileMeta>, lo: Option<UserKey>, hi: Option<UserKey>, a: nat, b: nat)
    requires a <= b <= |files| && forall i :: 0 <= i < |files| ==> (Touches(files[i], lo, hi) <==> a <= i < b)
    ensures Touching(files, lo, hi) == files[a..b]
  {
    hide Touches;
    if files != [] {
      var n: nat := |files| - 1;
      var init := files[..n];
      assert forall i :: 0 <= i < n ==> init[i] == files[i];
      if b <= n {
        assert !Touches(files[n], lo, hi);
        SpanIsTouching(init, lo, hi, a, b);
        assert init[a..b] == files[a..b];
      } else if a <= n {
        assert Touches(files[n], lo, hi);
        SpanIsTouching(init, lo, hi, a, n);
        assert files[a..b] == init[a..n] + [files[n]];
      } else {
        assert !Touches(files[n], lo, hi);
        SpanIsTouching(init, lo, hi, n, n);
        assert files[a..b] == init[n..n];
      }
    }
  }

  lemma TouchingIsStretch(files: seq<FileMeta>, lo: Option<UserKey>, hi: Option<UserKey>) returns (a: nat, b: nat)
    requires SortedDisjoint(files)
    ensures Touching(files, lo, hi) == [] || IsStretch(files, Touching(files, lo, hi), a, b)
    ensures forall i :: 0 <= i < |files| ==>
        (Touches(files[i], lo, hi) <==> Touching(files, lo, hi) != [] && a <= i < b)
  {
    hide SortedDisjoint, Touches;
    a, b := TouchingSpan(files, lo, hi, |files|);
    SpanIsTouching(files, lo, hi, a, b);
  }

  lemma ClosedRangeIsPicked(
      files: seq<FileMeta>, begin: Option<UserKey>, end: Option<UserKey>, lo: Option<UserKey>, hi: Option<UserKey>)
    requires ClosedRange(files, begin, end, lo, hi) && Touching(files, lo, hi) != [] && Distinct(files)
    ensures TouchClosed(files, Touching(files, lo, hi)) && Distinct(Touching(files, lo, hi))
  {
    TouchingDistinct(files, lo, hi);
    TouchingMembers(files, lo, hi);
  }

  lemma ChosenHull(next: seq<FileMeta>, in0: seq<FileMeta>, smallest: InternalKey, largest: InternalKey, h: FileMeta)
    requires IsSmallest(in0, smallest) && IsLargest(in0, largest) && h in next
    ensures h in Touching(next, Some(smallest.user), Some(largest.user)) <==> TouchesHull(h, Files(in0))
  {
    TouchingMembers(next, Some(smallest.user), Some(largest.user));
    var a :| a in in0 && a.smallest == smallest;
    var b :| b in in0 && b.largest == largest;
    assert a in Files(in0) && b in Files(in0);
  }

  /** Inputs chosen as SetupOtherInputs does satisfy what the state machine asks for. */
  lemma ChosenInputsOk(
      lists: seq<seq<FileMeta>>, v: Version, level: nat, in0: seq<FileMeta>, smallest: InternalKey,
      largest: InternalKey)
    requires Lists(lists, v) && level + 1 < NUM_LEVELS
    requires in0 != [] && Picked(level, lists[level], in0)
    requires IsSmallest(in0, smallest) && IsLargest(in0, largest)
    requires NoBoundary(lists[level], largest)
    ensures InputsOk(v, level, Files(in0), Files(Touching(lists[level + 1], Some(smallest.user), Some(largest.user))))
  {
    var files, next := lists[level], lists[level + 1];
    assert v[level] == Files(files) && v[level + 1] == Files(next) && in0[0] in Files(in0);
    TouchingMembers(next, Some(smallest.user), Some(largest.user));
    PickedFiles(level, files, in0);
    forall h | h in v[level + 1]
      ensures h in Files(Touching(next, Some(smallest.user), Some(largest.user))) <==> TouchesHull(h, Files(in0))
    {
      ChosenHull(next, in0, smallest, largest, h);
    }
    hide IsSmallest, IsLargest, Continues, TouchesHull, RangesTouch, Touches;
    forall f, g | f in v[level] && f !in Files(in0) && g in Files(in0)
      ensures if level == 0 then !RangesTouch(f, g) else Less(g.largest, f.smallest) ==>
          g.largest.user < f.smallest.user
    {
      assert f in files && g in in0;
      if level > 0 {
        BeyondStretch(files, in0, largest, f, g);
      }
    }
  }

  lemma PickedFiles(level: nat, files: seq<FileMeta>, sel: seq<FileMeta>)
    requires Picked(level, files, sel)
    ensures forall f :: f in sel ==> f in files
  {
    if level > 0 {
      var a, b :| IsStretch(files, sel, a, b);
    }
  }

  /** A file outside a run lies before it or after it. */
  lemma OutsideStretch(files: seq<FileMeta>, sel: seq<FileMeta>, a: nat, b: nat, f: FileMeta, g: FileMeta)
    requires SortedDisjoint(files) && IsStretch(files, sel, a, b)
    requires f in files && f !in sel && g in sel
    ensures Less(f.largest, g.smallest) || Less(files[b - 1].largest, f.smallest)
    ensures g.largest == files[b - 1].largest || Less(g.largest, files[b - 1].smallest)
  {
    var i: int :| 0 <= i < |files| && files[i] == f;
    var j: int :| 0 <= j < |sel| && sel[j] == g;
    assert files[a + j] == g;
    assert forall m :: a <= m < b ==> files[m] == sel[m - a] && files[m] in sel;
  }

  /** A file after a run that does not continue its last key starts at a later user key. */
  lemma BeyondStretch(files: seq<FileMeta>, sel: seq<FileMeta>, largest: InternalKey, f: FileMeta, g: FileMeta)
    requires SortedDisjoint(files) && exists a, b :: IsStretch(files, sel, a, b)
    requires IsLargest(sel, largest) && !Continues(f, largest)
    requires f in files && f !in sel && g in sel
    ensures Less(g.largest, f.smallest) ==> g.largest.user < f.smallest.user
  {
    var a: nat, b: nat :| IsStretch(files, sel, a, b);
    StretchLargest(files, sel, a, b, largest);
    OutsideStretch(files, sel, a, b, f, g);
    assert Ordered(f) && Ordered(files[b - 1]) && Ordered(g);
  }

  // ----- What the picker picks -----

  ghost predicate Overlapping(level: nat, files: seq<FileMeta>, begin: InternalKey, end: InternalKey, r: seq<FileMeta>)
  {
    exists lo, hi :: SearchRange(level, files, Some(begin.user), Some(end.user), lo, hi) && r == Touching(files, lo, hi)
  }

  ghost predicate IsHull(files: seq<FileMeta>, smallest: InternalKey, largest: InternalKey) {
    IsSmallest(files, smallest) && IsLargest(files, largest)
  }

  /** The files of a level that some files of the level above touch. */
  ghost predicate TouchedBy(files: seq<FileMeta>, level: nat, sel: seq<FileMeta>, r: seq<FileMeta>) {
    exists a, b :: IsHull(sel, a, b) && Overlapping(level, files, a, b, r)
  }

  /** More files of the level, within the span of the compaction, that need no more of the next. */
  ghost predicate Expansion(
      lists: seq<seq<FileMeta>>, level: nat, maxFileSize: nat, base: seq<FileMeta>, next: seq<FileMeta>,
      in0: seq<FileMeta>, in1: seq<FileMeta>)
    requires |lists| == NUM_LEVELS && level + 1 < NUM_LEVELS
  {
    && (exists touched :: TouchedBy(lists[level], level, base + next, touched) && Extends(lists[level], touched, in0))
    && |in0| > |base| && SumSizes(next) + SumSizes(in0) < 25 * maxFileSize
    && TouchedBy(lists[level + 1], level + 1, in0, in1) && |in1| == |next|
  }

  /** The inputs of a compaction that starts from the files in `picked`. */
  ghost predicate SetUp(
      lists: seq<seq<FileMeta>>, level: nat, maxFileSize: nat, picked: seq<FileMeta>, in0: seq<FileMeta>,
      in1: seq<FileMeta>)
    requires |lists| == NUM_LEVELS && level + 1 < NUM_LEVELS
  {
    exists base, next ::
      && Extends(lists[level], picked, base) && TouchedBy(lists[level + 1], level + 1, base, next)
      && ExpandedIfPossible(lists, level, maxFileSize, base, next, in0, in1)
  }

  ghost predicate ExpandedIfPossible(
      lists: seq<seq<FileMeta>>, level: nat, maxFileSize: nat, base: seq<FileMeta>, next: seq<FileMeta>,
      in0: seq<FileMeta>, in1: seq<FileMeta>)
    requires |lists| == NUM_LEVELS && level + 1 < NUM_LEVELS
  {
    if next != [] && exists e0, e1 :: Expansion(lists, level, maxFileSize, base, next, e0, e1)
    then Expansion(lists, level, maxFileSize, base, next, in0, in1)
    else in0 == base && in1 == next
  }

  /** Whatever is added to what a compaction started from: no more files of the next level, and less than
      25 files' worth altogether. */
  lemma ExpansionIsBounded(
      lists: seq<seq<FileMeta>>, level: nat, maxFileSize: nat, picked: seq<FileMeta>, in0: seq<FileMeta>,
      in1: seq<FileMeta>)
    requires |lists| == NUM_LEVELS && level + 1 < NUM_LEVELS
    requires SetUp(lists, level, maxFileSize, picked, in0, in1)
    ensures exists base, next ::
      && Extends(lists[level], picked, base) && TouchedBy(lists[level + 1], level + 1, base, next)
      && |in1| == |next| && (in0 == base || SumSizes(in0) + SumSizes(next) < 25 * maxFileSize)
  {
    hide Extends, TouchedBy;
    var base, next :| Extends(lists[level], picked, base) && TouchedBy(lists[level + 1], level + 1, base, next)
                      && ExpandedIfPossible(lists, level, maxFileSize, base, next, in0, in1);
    assert Extends(lists[level], picked, base) && TouchedBy(lists[level + 1], level + 1, base, next);
  }

  /** The files that a compaction for the sake of one file starts from. */
  ghost predicate StartsWith(files: seq<FileMeta>, level: nat, f: FileMeta, picked: seq<FileMeta>) {
    if level == 0 then Overlapping(0, files, f.smallest, f.largest, picked) else picked == [f]
  }

  /** The first file after the place where the last compaction of the level ended, or the first one again. */
  ghost predicate IsNextFile(files: seq<FileMeta>, pointer: Option<InternalKey>, f: FileMeta) {
    exists i: nat :: i < |files| && f == files[i]
      && (forall j :: 0 <= j < i ==> !AfterPointer(files[j], pointer))
      && (AfterPointer(f, pointer) || (i == 0 && forall j :: 0 <= j < |files| ==> !AfterPointer(files[j], pointer)))
  }

  predicate AfterPointer(f: FileMeta, pointer: Option<InternalKey>) {
    pointer.None? || Less(pointer.value, f.largest)
  }

  /** After a file was compacted, the turn of the next one comes, and after the last, of the first again. */
  lemma TurnsGoRound(files: seq<FileMeta>, i: nat, f: FileMeta)
    requires SortedDisjoint(files) && i < |files|
    ensures IsNextFile(files, Some(files[i].largest), f) <==> f == files[if i + 1 < |files| then i + 1 else 0]
  {
    var pointer := Some(files[i].largest);
    forall j | 0 <= j < |files| ensures AfterPointer(files[j], pointer) <==> i < j {
      if i < j {
        assert Less(files[i].largest, files[j].smallest) && Ordered(files[j]);
      } else if j < i {
        assert Less(files[j].largest, files[i].smallest) && Ordered(files[i]);
      }
    }
    var next := if i + 1 < |files| then i + 1 else 0;
    if f == files[next] {
      assert next < |files| && f == files[next];
    }
  }

  /** The level and the file that there is a reason to compact: of the level that is too big, the
      next one; otherwise the one that was searched in vain too often. */
  ghost predicate IsDue(
      lists: seq<seq<FileMeta>>, pointers: seq<Option<InternalKey>>, sizeLevel: Option<nat>,
      seekFile: Option<(nat, FileMeta)>, level: nat, f: FileMeta)
  {
    if sizeLevel.Some? then
      level == sizeLevel.value && level < |lists| && level < |pointers| && IsNextFile(lists[level], pointers[level], f)
    else seekFile == Some((level, f))
  }

  /** A compaction that was due is of that level, and its inputs are set up from that file. */
  ghost predicate PicksDue(
      lists: seq<seq<FileMeta>>, maxFileSize: nat, pointers: seq<Option<InternalKey>>, sizeLevel: Option<nat>,
      seekFile: Option<(nat, FileMeta)>, level: nat, in0: seq<FileMeta>, in1: seq<FileMeta>)
  {
    && |lists| == NUM_LEVELS && level + 1 < NUM_LEVELS
    && exists f, picked ::
         && IsDue(lists, pointers, sizeLevel, seekFile, level, f) && StartsWith(lists[level], level, f, picked)
         && SetUp(lists, level, maxFileSize, picked, in0, in1)
  }

  /** The files that a manual compaction of a range starts from: below level 0 about one file's worth of it. */
  ghost predicate StartsInRange(
      files: seq<FileMeta>, level: nat, begin: Option<UserKey>, end: Option<UserKey>, limit: nat,
      picked: seq<FileMeta>)
  {
    exists lo, hi ::
      && SearchRange(level, files, begin, end, lo, hi)
      && var all := Touching(files, lo, hi);
      && picked != [] && picked <= all
      && (level == 0 ==> picked == all)
      && (level > 0 ==>
            && (forall i :: 0 < i < |picked| ==> SumSizes(all[..i]) < limit)
            && (picked == all || SumSizes(picked) >= limit))
  }

  lemma HullIsUnique(sel: seq<FileMeta>, a: InternalKey, b: InternalKey, a': InternalKey, b': InternalKey)
    requires IsHull(sel, a, b) && IsHull(sel, a', b')
    ensures a == a' && b == b'
  {
  }

  lemma TouchedIsUnique(files: seq<FileMeta>, level: nat, sel: seq<FileMeta>, r: seq<FileMeta>, r': seq<FileMeta>)
    requires TouchedBy(files, level, sel, r) && TouchedBy(files, level, sel, r')
    ensures r == r'
  {
    hide IsHull, SearchRange;
    var a, b :| IsHull(sel, a, b) && Overlapping(level, files, a, b, r);
    var a', b' :| IsHull(sel, a', b') && Overlapping(level, files, a', b', r');
    HullIsUnique(sel, a, b, a', b');
    var lo, hi :| SearchRange(level, files, Some(a.user), Some(b.user), lo, hi) && r == Touching(files, lo, hi);
    var lo', hi' :| SearchRange(level, files, Some(a.user), Some(b.user), lo', hi') && r' == Touching(files, lo', hi');
    SearchRangeIsUnique(level, files, Some(a.user), Some(b.user), lo, hi, lo', hi');
  }

  lemma OneTouched(files: seq<FileMeta>, level: nat, sel: seq<FileMeta>, r: seq<FileMeta>)
    requires TouchedBy(files, level, sel, r)
    ensures forall q :: TouchedBy(files, level, sel, q) ==> q == r
  {
    hide TouchedBy;
    forall q | TouchedBy(files, level, sel, q) ensures q == r {
      TouchedIsUnique(files, level, sel, q, r);
    }
  }

  /** Only the files found for an expansion can be one. */
  lemma ExpansionIs(
      lists: seq<seq<FileMeta>>, level: nat, maxFileSize: nat, base: seq<FileMeta>, next: seq<FileMeta>,
      touched: seq<FileMeta>, expanded0: seq<FileMeta>)
    requires |lists| == NUM_LEVELS && level + 1 < NUM_LEVELS
    requires TouchedBy(lists[level], level, base + next, touched) && Extends(lists[level], touched, expanded0)
    ensures forall e0, e1 :: Expansion(lists, level, maxFileSize, base, next, e0, e1) ==> e0 == expanded0
  {
    hide TouchedBy, Extends, SumSizes;
    forall e0, e1 | Expansion(lists, level, maxFileSize, base, next, e0, e1) ensures e0 == expanded0 {
      var other :| TouchedBy(lists[level], level, base + next, other) && Extends(lists[level], other, e0);
      TouchedIsUnique(lists[level], level, base + next, touched, other);
      ExtensionIsUnique(lists[level], touched, expanded0, e0);
    }
  }

  lemma TouchedIs(
      files: seq<FileMeta>, level: nat, sel: seq<FileMeta>, a: InternalKey, b: InternalKey, lo: Option<UserKey>,
      hi: Option<UserKey>)
    requires IsHull(sel, a, b) && SearchRange(level, files, Some(a.user), Some(b.user), lo, hi)
    ensures TouchedBy(files, level, sel, Touching(files, lo, hi))
    ensures forall r :: TouchedBy(files, level, sel, r) ==> r == Touching(files, lo, hi)
  {
    hide IsHull, SearchRange;
    assert Overlapping(level, files, a, b, Touching(files, lo, hi));
    forall r | TouchedBy(files, level, sel, r) ensures r == Touching(files, lo, hi) {
      TouchedIsUnique(files, level, sel, r, Touching(files, lo, hi));
    }
  }

  /** Whatever comes along, the files that a compaction starts from are among its inputs. */
  lemma PickedStays(
      lists: seq<seq<FileMeta>>, v: Version, level: nat, maxFileSize: nat, picked: seq<FileMeta>, in0: seq<FileMeta>,
      in1: seq<FileMeta>)
    requires Lists(lists, v) && level + 1 < NUM_LEVELS && SetUp(lists, level, maxFileSize, picked, in0, in1)
    requires forall f :: f in picked ==> f in lists[level]
    ensures forall f :: f in picked ==> f in in0
  {
    hide Less, SearchRange, IsSmallest, IsLargest;
    hide SumSizes;
    var base, next :|
      && Extends(lists[level], picked, base) && TouchedBy(lists[level + 1], level + 1, base, next)
      && ExpandedIfPossible(lists, level, maxFileSize, base, next, in0, in1);
    forall f | f in picked ensures f in in0 {
      assert f in base;
      if in0 != base {
        var touched :| TouchedBy(lists[level], level, base + next, touched) && Extends(lists[level], touched, in0);
        WithinSpan(lists[level], level, base + next, touched, f);
      }
    }
  }

  /** A file is touched by the span of files that it is one of. */
  lemma WithinSpan(files: seq<FileMeta>, level: nat, sel: seq<FileMeta>, r: seq<FileMeta>, f: FileMeta)
    requires TouchedBy(files, level, sel, r) && f in sel && f in files && Ordered(f)
    ensures f in r
  {
    var a, b :| IsHull(sel, a, b) && Overlapping(level, files, a, b, r);
    var lo, hi :| SearchRange(level, files, Some(a.user), Some(b.user), lo, hi) && r == Touching(files, lo, hi);
    TouchingMembers(files, lo, hi);
    assert Touches(f, Some(a.user), Some(b.user));
  }

  /** The file that was due is among the inputs. */
  lemma DueIsInput(
      lists: seq<seq<FileMeta>>, v: Version, maxFileSize: nat, pointers: seq<Option<InternalKey>>,
      sizeLevel: Option<nat>, seekFile: Option<(nat, FileMeta)>, level: nat, in0: seq<FileMeta>, in1: seq<FileMeta>)
    returns (f: FileMeta)
    requires Lists(lists, v) && PicksDue(lists, maxFileSize, pointers, sizeLevel, seekFile, level, in0, in1)
    requires sizeLevel.None? ==> seekFile.Some? && level < NUM_LEVELS && seekFile.value.1 in lists[level]
    ensures IsDue(lists, pointers, sizeLevel, seekFile, level, f) && f in in0
  {
    hide SetUp, SearchRange;
    var picked;
    f, picked :|
      && IsDue(lists, pointers, sizeLevel, seekFile, level, f) && StartsWith(lists[level], level, f, picked)
      && SetUp(lists, level, maxFileSize, picked, in0, in1);
    if level == 0 {
      var lo, hi :| SearchRange(0, lists[0], Some(f.smallest.user), Some(f.largest.user), lo, hi)
          && picked == Touching(lists[0], lo, hi);
      RangeFiles(lists[0], 0, Some(f.smallest.user), Some(f.largest.user), lo, hi);
    }
    PickedStays(lists, v, level, maxFileSize, picked, in0, in1);
  }

  /** A search finds files of the level, and all of those that touch the range. */
  lemma RangeFiles(
      files: seq<FileMeta>, level: nat, begin: Option<UserKey>, end: Option<UserKey>, lo: Option<UserKey>,
      hi: Option<UserKey>)
    requires SearchRange(level, files, begin, end, lo, hi)
    ensures forall f :: f in Touching(files, lo, hi) ==> f in files
    ensures forall f :: f in files && Touches(f, begin, end) ==> f in Touching(files, lo, hi)
  {
    TouchingMembers(files, lo, hi);
  }

  /** A manual compaction takes at least one file of the range that was asked for. */
  lemma RangeIsInput(
      lists: seq<seq<FileMeta>>, v: Version, level: nat, begin: Option<UserKey>, end: Option<UserKey>,
      maxFileSize: nat, picked: seq<FileMeta>, in0: seq<FileMeta>, in1: seq<FileMeta>)
    requires Lists(lists, v) && level + 1 < NUM_LEVELS
    requires StartsInRange(lists[level], level, begin, end, maxFileSize, picked)
    requires SetUp(lists, level, maxFileSize, picked, in0, in1)
    ensures exists f :: f in in0 && Touches(f, begin, end)
  {
    hide SetUp, SearchRange, Touches, SumSizes;
    var files := lists[level];
    var lo, hi :| SearchRange(level, files, begin, end, lo, hi) && picked != [] && picked <= Touching(files, lo, hi)
                  && (level == 0 ==> picked == Touching(files, lo, hi));
    RangeFiles(files, level, begin, end, lo, hi);
    NoneTouches(level, files, begin, end, lo, hi);
    TouchingMembers(files, lo, hi);
    PickedStays(lists, v, level, maxFileSize, picked, in0, in1);
    assert picked[0] in picked && picked[0] in Touching(files, lo, hi);
    if level > 0 {
      SameRange(level, files, begin, end, lo, hi);
      assert picked[0] in in0 && Touches(picked[0], begin, end);
    }
  }

  lemma SameRange(
      level: nat, files: seq<FileMeta>, begin: Option<UserKey>, end: Option<UserKey>, lo: Option<UserKey>,
      hi: Option<UserKey>)
    requires level > 0 && SearchRange(level, files, begin, end, lo, hi)
    ensures lo == begin && hi == end
  {
  }

  /** Inputs in order: files of level 0 each once, files of other levels one after another. */
  ghost predicate InputLists(level: nat, in0: seq<FileMeta>, in1: seq<FileMeta>) {
    (if level == 0 then Distinct(in0) else SortedDisjoint(in0)) && SortedDisjoint(in1)
  }

  lemma InputsListed(
      lists: seq<seq<FileMeta>>, v: Version, level: nat, in0: seq<FileMeta>, lo: Option<UserKey>, hi: Option<UserKey>)
    requires Lists(lists, v) && level + 1 < NUM_LEVELS && Picked(level, lists[level], in0)
    ensures InputLists(level, in0, Touching(lists[level + 1], lo, hi))
  {
    var a, b := TouchingIsStretch(lists[level + 1], lo, hi);
    if level > 0 {
      var p, q :| IsStretch(lists[level], in0, p, q);
    }
  }

  /** What overlaps a compaction two levels down. */
  ghost predicate GrandparentsOk(
      lists: seq<seq<FileMeta>>, level: nat, in0: seq<FileMeta>, in1: seq<FileMeta>, grandparents: seq<FileMeta>)
    requires |lists| == NUM_LEVELS
  {
    if level + 2 < NUM_LEVELS then TouchedBy(lists[level + 2], level + 2, in0 + in1, grandparents)
      else grandparents == []
  }

  class VersionSet {
    const maxFileSize: nat
    ghost var v: Version
    var files: seq<seq<FileMeta>>
    var compactPointer: seq<Option<InternalKey>>

    constructor (maxFileSize: nat, files: seq<seq<FileMeta>>, ghost v: Version)
      requires Lists(files, v)
      ensures Valid() && this.v == v && this.files == files && this.maxFileSize == maxFileSize
    {
      this.maxFileSize := maxFileSize;
      this.files := files;
      this.v := v;
      compactPointer := seq(NUM_LEVELS, _ => None);
    }

    ghost predicate Valid()
      reads this
    {
      Lists(files, v) && |compactPointer| == NUM_LEVELS
    }

    /** The level's pointer moved to the end of the inputs, and no other. */
    twostate predicate PointerMoved(level: nat, in0: seq<FileMeta>)
      reads this
    {
      && |compactPointer| == |old(compactPointer)| == NUM_LEVELS && level < NUM_LEVELS
      && (forall l :: 0 <= l < NUM_LEVELS && l != level ==> compactPointer[l] == old(compactPointer[l]))
      && compactPointer[level].Some? && IsLargest(in0, compactPointer[level].value)
    }

    /** All files of the next level that the inputs touch come along; if the inputs can grow
        without touching more of the next level, they do. */
    method SetupOtherInputs(c: Compaction)
      requires Valid() && c.level + 1 < NUM_LEVELS && c.Unused() && c.grandparents == []
      requires c.inputs0 != [] && Picked(c.level, files[c.level], c.inputs0)
      modifies `compactPointer, c`inputs0, c`inputs1, c`grandparents
      ensures Valid() && c.Unused() && InputsOk(v, c.level, Files(c.inputs0), Files(c.inputs1))
      ensures InputLists(c.level, c.inputs0, c.inputs1)
      ensures SetUp(files, c.level, maxFileSize, old(c.inputs0), c.inputs0, c.inputs1)
      ensures GrandparentsOk(files, c.level, c.inputs0, c.inputs1, c.grandparents)
      ensures PointerMoved(c.level, c.inputs0)
    {
      hide InputsOk, IsSmallest, IsLargest, SumSizes, Picked, Extends, TouchedBy, ExpandedIfPossible, GrandparentsOk,
           InputLists, Compaction.Behind;
      var level := c.level;
      c.inputs0 := AddBoundaryInputs(level, files[level], c.inputs0);
      StillSome(files[level], old(c.inputs0), c.inputs0);
      var smallest, largest;
      smallest, largest, c.inputs1 := NextInputs(level, old(c.inputs0), c.inputs0);
      ghost var base, next := c.inputs0, c.inputs1;
      var allStart, allLimit := GetRange(c.inputs0 + c.inputs1);
      NoExpansion(files, level, maxFileSize, base);
      if c.inputs1 != [] {
        var grown, newLimit, expanded0, expanded1 := TryExpand(level, allStart, allLimit, c.inputs0, c.inputs1);
        if grown {
          assert expanded0 + expanded1 != [];
          largest := newLimit;
          c.inputs0, c.inputs1 := expanded0, expanded1;
          allStart, allLimit := GetRange(c.inputs0 + c.inputs1);
        }
      }
      c.grandparents := Grandparents(level, c.inputs0, c.inputs1, allStart, allLimit);
      compactPointer := compactPointer[level := Some(largest)];
    }

    method Grandparents(
        level: nat, ghost in0: seq<FileMeta>, ghost in1: seq<FileMeta>, allStart: InternalKey, allLimit: InternalKey)
      returns (grandparents: seq<FileMeta>)
      requires Valid() && IsHull(in0 + in1, allStart, allLimit)
      ensures GrandparentsOk(files, level, in0, in1, grandparents)
    {
      hide IsSmallest, IsLargest, TouchedBy;
      grandparents := [];
      if level + 2 < NUM_LEVELS {
        ghost var lo, hi;
        grandparents, lo, hi := GetOverlappingInputs(
          level + 2, files[level + 2], Some(allStart.user), Some(allLimit.user));
        TouchedIs(files[level + 2], level + 2, in0 + in1, allStart, allLimit, lo, hi);
      }
    }

    /** The span of the inputs at a level, and the files of the next level that it touches. */
    method NextInputs(level: nat, ghost picked: seq<FileMeta>, inputs0: seq<FileMeta>)
      returns (smallest: InternalKey, largest: InternalKey, inputs1: seq<FileMeta>)
      requires Valid() && level + 1 < NUM_LEVELS && inputs0 != [] && Picked(level, files[level], inputs0)
      requires picked != [] && Extends(files[level], picked, inputs0)
      ensures IsSmallest(inputs0, smallest) && IsLargest(inputs0, largest)
      ensures TouchedBy(files[level + 1], level + 1, inputs0, inputs1)
      ensures InputsOk(v, level, Files(inputs0), Files(inputs1)) && InputLists(level, inputs0, inputs1)
    {
      hide InputsOk, InputLists, IsSmallest, IsLargest, Picked, Extends, TouchedBy;
      smallest, largest := GetRange(inputs0);
      EndsWithout(files[level], picked, inputs0, largest);
      ghost var lo, hi;
      inputs1, lo, hi := GetOverlappingInputs(level + 1, files[level + 1], Some(smallest.user), Some(largest.user));
      TouchedIs(files[level + 1], level + 1, inputs0, smallest, largest, lo, hi);
      ChosenInputsOk(files, v, level, inputs0, smallest, largest);
      InputsListed(files, v, level, inputs0, lo, hi);
    }

    /** More inputs of the level, if there are any that need no more of the next level. */
    method TryExpand(
        level: nat, allStart: InternalKey, allLimit: InternalKey, inputs0: seq<FileMeta>, inputs1: seq<FileMeta>)
      returns (grown: bool, newLimit: InternalKey, expanded0: seq<FileMeta>, expanded1: seq<FileMeta>)
      requires Valid() && level + 1 < NUM_LEVELS && IsHull(inputs0 + inputs1, allStart, allLimit) && inputs1 != []
      ensures grown ==> expanded0 != [] && IsLargest(expanded0, newLimit)
      ensures grown ==> InputsOk(v, level, Files(expanded0), Files(expanded1))
      ensures grown ==> InputLists(level, expanded0, expanded1)
      ensures grown ==> ExpandedIfPossible(files, level, maxFileSize, inputs0, inputs1, expanded0, expanded1)
      ensures !grown ==> ExpandedIfPossible(files, level, maxFileSize, inputs0, inputs1, inputs0, inputs1)
    {
      hide InputsOk, InputLists, IsSmallest, IsLargest, SumSizes, Picked, Extends, TouchedBy;
      ghost var touched;
      expanded0, touched := Expand(level, allStart, allLimit, inputs0 + inputs1);
      ExpansionIs(files, level, maxFileSize, inputs0, inputs1, touched, expanded0);
      grown, newLimit, expanded1 := false, allLimit, [];
      if |expanded0| > |inputs0| && SumSizes(inputs1) + SumSizes(expanded0) < 25 * maxFileSize {
        var newStart;
        assert touched != [];
        newStart, newLimit, expanded1 := NextInputs(level, touched, expanded0);
        OneTouched(files[level + 1], level + 1, expanded0, expanded1);
        grown := |expanded1| == |inputs1|;
        if grown {
          assert Expansion(files, level, maxFileSize, inputs0, inputs1, expanded0, expanded1);
        }
      }
    }

    /** The files of the level within the whole span of a compaction, with those that continue a key. */
    method Expand(level: nat, allStart: InternalKey, allLimit: InternalKey, ghost all: seq<FileMeta>)
      returns (expanded: seq<FileMeta>, ghost touched: seq<FileMeta>)
      requires Valid() && level < NUM_LEVELS && IsHull(all, allStart, allLimit)
      ensures expanded != [] ==> Picked(level, files[level], expanded)
      ensures TouchedBy(files[level], level, all, touched) && Extends(files[level], touched, expanded)
      ensures touched == [] ==> expanded == []
    {
      hide IsSmallest, IsLargest, Extends, TouchedBy;
      var found, lo, hi := GetOverlappingInputs(level, files[level], Some(allStart.user), Some(allLimit.user));
      touched := found;
      TouchedIs(files[level], level, all, allStart, allLimit, lo, hi);
      if found != [] {
        if level == 0 {
          ClosedRangeIsPicked(files[level], Some(allStart.user), Some(allLimit.user), lo, hi);
        } else {
          ghost var a, b := TouchingIsStretch(files[level], lo, hi);
        }
      }
      expanded := AddBoundaryInputs(level, files[level], found);
      NothingExtends(files[level], expanded);
    }

    /** The next file after the compaction pointer, or the first one again. */
    method PickFile(level: nat) returns (f: FileMeta)
      requires Valid() && level < NUM_LEVELS && files[level] != []
      ensures f in files[level] && IsNextFile(files[level], compactPointer[level], f)
    {
      for i := 0 to |files[level]|
        invariant forall j :: 0 <= j < i ==> !AfterPointer(files[level][j], compactPointer[level])
      {
        f := files[level][i];
        if compactPointer[level].None? || Less(compactPointer[level].value, f.largest) {
          return f;
        }
      }
      return files[level][0];
    }

    /** A compaction of the level that is too big, or of a file that was searched in vain too often. */
    method PickCompaction(sizeLevel: Option<nat>, seekFile: Option<(nat, FileMeta)>) returns (c: Compaction?)
      requires Valid()
      requires sizeLevel.Some? ==> sizeLevel.value + 1 < NUM_LEVELS && files[sizeLevel.value] != []
      requires seekFile.Some? ==> seekFile.value.0 + 1 < NUM_LEVELS && seekFile.value.1 in files[seekFile.value.0]
      modifies `compactPointer
      ensures Valid() && (c == null <==> sizeLevel.None? && seekFile.None?)
      ensures c == null ==> compactPointer == old(compactPointer)
      ensures c != null ==>
          fresh(c) && fresh(c.levelPtrs) && c.Valid() && c.Unused() && c.inputFiles == files
            && c.maxFileSize == maxFileSize
      ensures c != null ==>
          InputsOk(v, c.level, Files(c.inputs0), Files(c.inputs1)) && InputLists(c.level, c.inputs0, c.inputs1)
      ensures c != null ==>
          PicksDue(files, maxFileSize, old(compactPointer), sizeLevel, seekFile, c.level, c.inputs0, c.inputs1)
      ensures c != null ==>
          GrandparentsOk(files, c.level, c.inputs0, c.inputs1, c.grandparents) && PointerMoved(c.level, c.inputs0)
    {
      hide InputsOk, InputLists, SetUp, IsNextFile, GrandparentsOk, SearchRange, Picked;
      var level, f;
      if sizeLevel.Some? {
        level := sizeLevel.value;
        f := PickFile(level);
      } else if seekFile.Some? {
        level, f := seekFile.value.0, seekFile.value.1;
      } else {
        return null;
      }
      assert IsDue(files, compactPointer, sizeLevel, seekFile, level, f);
      c := new Compaction(level, maxFileSize, files);
      c.inputs0 := [f];
      if level == 0 {
        var smallest, largest := GetRange(c.inputs0);
        ghost var lo, hi;
        c.inputs0, lo, hi := GetOverlappingInputs(0, files[0], Some(smallest.user), Some(largest.user));
        OneFileStarts(files[0], f, smallest, largest, lo, hi);
      } else {
        SingleIsStretch(files[level], level, f);
      }
      ghost var picked := c.inputs0;
      SetupOtherInputs(c);
      assert StartsWith(files[level], level, f, picked)
          && SetUp(files, level, maxFileSize, picked, c.inputs0, c.inputs1);
    }

    /** A compaction of part of a level, in one go no more than about one file's worth of it. */
    method CompactRange(level: nat, begin: Option<UserKey>, end: Option<UserKey>) returns (c: Compaction?)
      requires Valid() && level + 1 < NUM_LEVELS
      modifies `compactPointer
      ensures Valid()
      ensures c == null <==> forall f :: f in files[level] ==> !Touches(f, begin, end)
      ensures c == null ==> compactPointer == old(compactPointer)
      ensures c != null ==>
          fresh(c) && fresh(c.levelPtrs) && c.Valid() && c.Unused() && c.inputFiles == files
            && c.maxFileSize == maxFileSize
      ensures c != null ==>
          InputsOk(v, c.level, Files(c.inputs0), Files(c.inputs1)) && InputLists(c.level, c.inputs0, c.inputs1)
      ensures c != null ==> c.level == level && exists picked ::
                && StartsInRange(files[level], level, begin, end, maxFileSize, picked)
                && SetUp(files, level, maxFileSize, picked, c.inputs0, c.inputs1)
      ensures c != null ==>
          GrandparentsOk(files, c.level, c.inputs0, c.inputs1, c.grandparents) && PointerMoved(c.level, c.inputs0)
    {
      hide InputsOk, InputLists, Touching, SumSizes, SetUp, GrandparentsOk, ClosedRange;
      var inputs, lo, hi := GetOverlappingInputs(level, files[level], begin, end);
      TouchingMembers(files[level], lo, hi);
      NoneTouches(level, files[level], begin, end, lo, hi);
      if inputs == [] {
        return null;
      }
      assert inputs[0] in inputs;
      if level == 0 {
        ClosedRangeIsPicked(files[0], begin, end, lo, hi);
      } else {
        inputs := Limit(files[level], level, inputs, lo, hi, maxFileSize);
      }
      assert StartsInRange(files[level], level, begin, end, maxFileSize, inputs);
      c := new Compaction(level, maxFileSize, files);
      c.inputs0 := inputs;
      SetupOtherInputs(c);
    }
  }

  /** A search for the range of one file of level 0 finds files that it can start from, this one among them. */
  lemma OneFileStarts(
      files: seq<FileMeta>, f: FileMeta, smallest: InternalKey, largest: InternalKey, lo: Option<UserKey>,
      hi: Option<UserKey>)
    requires f in files && Distinct(files) && Ordered(f) && IsHull([f], smallest, largest)
    requires SearchRange(0, files, Some(smallest.user), Some(largest.user), lo, hi)
    ensures smallest == f.smallest && largest == f.largest && f in Touching(files, lo, hi)
    ensures Picked(0, files, Touching(files, lo, hi))
    ensures Overlapping(0, files, f.smallest, f.largest, Touching(files, lo, hi))
  {
    TouchingMembers(files, lo, hi);
    assert f in [f];
    assert Touches(f, lo, hi);
    ClosedRangeIsPicked(files, Some(smallest.user), Some(largest.user), lo, hi);
  }

  lemma StillSome(files: seq<FileMeta>, sel: seq<FileMeta>, r: seq<FileMeta>)
    requires Extends(files, sel, r) && sel != []
    ensures r != []
  {
  }

  lemma NothingExtends(files: seq<FileMeta>, r: seq<FileMeta>)
    ensures Extends(files, [], r) ==> r == []
  {
  }

  /** With no file of the next level among the inputs, there is nothing to expand for. */
  lemma NoExpansion(lists: seq<seq<FileMeta>>, level: nat, maxFileSize: nat, base: seq<FileMeta>)
    requires |lists| == NUM_LEVELS && level + 1 < NUM_LEVELS
    ensures ExpandedIfPossible(lists, level, maxFileSize, base, [], base, [])
  {
  }

  lemma EndsWithout(files: seq<FileMeta>, sel: seq<FileMeta>, r: seq<FileMeta>, largest: InternalKey)
    requires Extends(files, sel, r) && sel != [] && IsLargest(r, largest)
    ensures NoBoundary(files, largest)
  {
  }

  /** Cuts a run of files short when it reaches the size of one file. */
  method Limit(
      files: seq<FileMeta>, level: nat, inputs: seq<FileMeta>, ghost lo: Option<UserKey>, ghost hi: Option<UserKey>,
      limit: nat)
    returns (result: seq<FileMeta>)
    requires level > 0 && SortedDisjoint(files) && inputs == Touching(files, lo, hi) && inputs != []
    ensures result != [] && result <= inputs && Picked(level, files, result)
    ensures forall i :: 0 < i < |result| ==> SumSizes(inputs[..i]) < limit
    ensures result == inputs || SumSizes(result) >= limit
  {
    ghost var a, b := TouchingIsStretch(files, lo, hi);
    var total := 0;
    for i := 0 to |inputs|
      invariant total == SumSizes(inputs[..i])
      invariant forall j :: 0 < j <= i ==> SumSizes(inputs[..j]) < limit
    {
      assert inputs[..i + 1][..i] == inputs[..i];
      total := total + inputs[i].size;
      if total >= limit {
        result := inputs[..i + 1];
        assert IsStretch(files, result, a, a + i + 1);
        return;
      }
    }
    assert IsStretch(files, inputs, a, b);
    return inputs;
  }

  lemma SingleIsStretch(files: seq<FileMeta>, level: nat, f: FileMeta)
    requires f in files && level > 0
    ensures Picked(level, files, [f])
  {
    var i :| 0 <= i < |files| && files[i] == f;
    assert IsStretch(files, [f], i, i + 1);
  }

  /** Growing the range of a level-0 search finds nothing only if nothing touched it at first. */
  lemma NoneTouches(
      level: nat, files: seq<FileMeta>, begin: Option<UserKey>, end: Option<UserKey>, lo: Option<UserKey>,
      hi: Option<UserKey>)
    requires SearchRange(level, files, begin, end, lo, hi)
    ensures (exists f :: f in files && Touches(f, lo, hi)) <==> (exists f :: f in files && Touches(f, begin, end))
  {
    if level == 0 {
      if exists f :: f in files && Touches(f, begin, end) {
        var f :| f in files && Touches(f, begin, end);
        assert Touches(f, lo, hi);
      } else {
        assert ClosedRange(files, begin, end, begin, end);
      }
    }
  }
}
