/** Which compactions leave gaps between their inputs: those that start from one file never do, so
    that only one asked for by hand can be spoiled by a flush that comes in between. */
module CompactionGaps {
  import opened Keys
  import opened Store
  import opened Reorganise
  import opened FileSearch
  import opened CompactionInputs
  import opened CompactionPicker
  import opened FlushInCompaction

  lemma OneHasNoGap(f: FileMeta)
    ensures NoGap({f})
  {
    var files := {f};
    assert f in files;
  }

  /** A file within the span of files without a gap, or overlapping its ends, leaves none either. */
  lemma AddToSpan(files: set<FileMeta>, g: FileMeta)
    requires NoGap(files) && TouchesHull(g, files) && g.smallest.user <= g.largest.user
    ensures NoGap(files + {g})
  {
    var all := files + {g};
    assert g in all;
    var a :| a in files && a.smallest.user <= g.largest.user;
    var b :| b in files && g.smallest.user <= b.largest.user;
    forall k | (exists x :: x in all && x.smallest.user <= k) && (exists y :: y in all && k <= y.largest.user)
      ensures Covers(all, k)
    {
      if (exists x :: x in files && x.smallest.user <= k) && (exists y :: y in files && k <= y.largest.user) {
        assert Covers(files, k);
      } else {
        assert g.smallest.user <= k <= g.largest.user;
      }
    }
  }

  /** So do any number of them. */
  lemma {:induction false} AddAllToSpan(files: set<FileMeta>, more: seq<FileMeta>)
    requires NoGap(files) && forall g :: g in more ==> TouchesHull(g, files) && g.smallest.user <= g.largest.user
    ensures NoGap(files + Files(more))
  {
    hide NoGap;
    if more == [] {
      assert files + Files(more) == files;
    } else {
      var front, g := more[..|more| - 1], more[|more| - 1];
      AddAllToSpan(files, front);
      assert TouchesHull(g, files + Files(front)) by {
        WiderHull(g, files, files + Files(front));
      }
      AddToSpan(files + Files(front), g);
      assert files + Files(more) == files + Files(front) + {g};
    }
  }

  lemma WiderHull(g: FileMeta, files: set<FileMeta>, wider: set<FileMeta>)
    requires TouchesHull(g, files) && files <= wider
    ensures TouchesHull(g, wider)
  {
  }

  // ----- Boundary files -----

  /** Each boundary file begins with the user key at which the files before it end. */
  lemma {:induction false} BoundariesHaveNoGap(
      levelFiles: seq<FileMeta>, sel: seq<FileMeta>, r: seq<FileMeta>, n: nat, with: set<FileMeta>)
    requires Extends(levelFiles, sel, r) && |sel| <= n <= |r| && NoGap(with + Files(sel))
    requires forall f :: f in r ==> f.smallest.user <= f.largest.user
    ensures NoGap(with + Files(r[..n]))
  {
    hide NoGap, IsBoundary, IsLargest;
    if n == |sel| {
      assert r[..n] == sel;
    } else {
      BoundariesHaveNoGap(levelFiles, sel, r, n - 1, with);
      var before, g := r[..n - 1], r[n - 1];
      assert BoundaryOf(levelFiles, r[..n - 1], r[n - 1]);
      BoundaryTouches(levelFiles, before, g);
      WiderHull(g, Files(before), with + Files(before));
      AddToSpan(with + Files(before), g);
      assert r[..n] == before + [g];
      assert with + Files(r[..n]) == with + Files(before) + {g};
    }
  }

  lemma BoundaryTouches(levelFiles: seq<FileMeta>, sel: seq<FileMeta>, g: FileMeta)
    requires BoundaryOf(levelFiles, sel, g) && g.smallest.user <= g.largest.user
    requires forall f :: f in sel ==> f.smallest.user <= f.largest.user
    ensures TouchesHull(g, Files(sel))
  {
    var k :| IsLargest(sel, k) && IsBoundary(levelFiles, k, g);
    var i: nat :| i < |levelFiles| && BoundaryAt(levelFiles, k, g, i);
    var f :| f in sel && f.largest == k;
    assert f in Files(sel);
  }

  // ----- The closure on level 0 -----

  /** The greatest last key before `k`, among that of the start and those of some files. */
  lemma {:induction false} LastBefore(files: seq<FileMeta>, start: UserKey, k: UserKey) returns (h: UserKey)
    requires start < k
    ensures start <= h < k
    ensures forall f :: f in files && f.largest.user < k ==> f.largest.user <= h
  {
    if files == [] {
      h := start;
    } else {
      var n := |files| - 1;
      h := LastBefore(files[..n], start, k);
      if h < files[n].largest.user < k {
        h := files[n].largest.user;
      }
      assert files == files[..n] + [files[n]];
    }
  }

  lemma {:induction false} FirstAfter(files: seq<FileMeta>, start: UserKey, k: UserKey) returns (l: UserKey)
    requires k < start
    ensures k < l <= start
    ensures forall f :: f in files && k < f.smallest.user ==> l <= f.smallest.user
  {
    if files == [] {
      l := start;
    } else {
      var n := |files| - 1;
      l := FirstAfter(files[..n], start, k);
      if k < files[n].smallest.user < l {
        l := files[n].smallest.user;
      }
      assert files == files[..n] + [files[n]];
    }
  }

  /** The smallest closed range goes no further up than its files lead without a gap. */
  lemma NoGapAbove(
      files: seq<FileMeta>, begin: UserKey, end: UserKey, lo: Option<UserKey>, hi: Option<UserKey>, k: UserKey)
    requires SearchRange(0, files, Some(begin), Some(end), lo, hi) && end < k
    requires exists b :: b in Touching(files, lo, hi) && k <= b.largest.user
    ensures exists f :: f in Touching(files, lo, hi) && f.smallest.user <= k <= f.largest.user
  {
    TouchingMembers(files, lo, hi);
    var b :| b in Touching(files, lo, hi) && k <= b.largest.user;
    if !exists f :: f in Touching(files, lo, hi) && f.smallest.user <= k <= f.largest.user {
      var h := LastBefore(Touching(files, lo, hi), end, k);
      forall f | f in files && Touches(f, lo, Some(h))
        ensures (lo.Some? ==> lo.value <= f.smallest.user) && f.largest.user <= h
      {
        assert hi.Some? ==> b.largest.user <= hi.value;
        assert Touches(f, lo, hi);
        assert f in Touching(files, lo, hi);
      }
      assert ClosedRange(files, Some(begin), Some(end), lo, Some(h));
      assert AboveEnd(Some(h), hi);
    }
  }

  lemma NoGapBelow(
      files: seq<FileMeta>, begin: UserKey, end: UserKey, lo: Option<UserKey>, hi: Option<UserKey>, k: UserKey)
    requires SearchRange(0, files, Some(begin), Some(end), lo, hi) && k < begin
    requires exists a :: a in Touching(files, lo, hi) && a.smallest.user <= k
    ensures exists f :: f in Touching(files, lo, hi) && f.smallest.user <= k <= f.largest.user
  {
    TouchingMembers(files, lo, hi);
    var a :| a in Touching(files, lo, hi) && a.smallest.user <= k;
    if !exists f :: f in Touching(files, lo, hi) && f.smallest.user <= k <= f.largest.user {
      var l := FirstAfter(Touching(files, lo, hi), begin, k);
      forall f | f in files && Touches(f, Some(l), hi)
        ensures l <= f.smallest.user && (hi.Some? ==> f.largest.user <= hi.value)
      {
        assert lo.Some? ==> lo.value <= a.smallest.user;
        assert Touches(f, lo, hi);
        assert f in Touching(files, lo, hi);
      }
      assert ClosedRange(files, Some(begin), Some(end), Some(l), hi);
      assert Below(Some(l), lo);
    }
  }

  /** Files without a gap, with all that the search for their span finds, leave none either. */
  lemma SearchHasNoGap(
      level: nat, files: seq<FileMeta>, from: set<FileMeta>, a: InternalKey, b: InternalKey, r: seq<FileMeta>)
    requires NoGap(from) && Overlapping(level, files, a, b, r)
    requires (exists f :: f in from && f.smallest == a) && (exists f :: f in from && f.largest == b)
    requires forall f :: f in from ==> a.user <= f.smallest.user && f.largest.user <= b.user
    requires forall f :: f in files ==> f.smallest.user <= f.largest.user
    ensures NoGap(from + Files(r))
  {
    var lo, hi :| SearchRange(level, files, Some(a.user), Some(b.user), lo, hi) && r == Touching(files, lo, hi);
    TouchingMembers(files, lo, hi);
    if level > 0 {
      hide NoGap;
      forall g | g in r ensures TouchesHull(g, from) && g.smallest.user <= g.largest.user {
      }
      AddAllToSpan(from, r);
    } else {
      Level0HasNoGap(files, from, a, b, lo, hi);
    }
  }

  lemma Level0HasNoGap(
      files: seq<FileMeta>, from: set<FileMeta>, a: InternalKey, b: InternalKey, lo: Option<UserKey>,
      hi: Option<UserKey>)
    requires NoGap(from) && SearchRange(0, files, Some(a.user), Some(b.user), lo, hi)
    requires (exists f :: f in from && f.smallest == a) && (exists f :: f in from && f.largest == b)
    requires forall f :: f in from ==> a.user <= f.smallest.user && f.largest.user <= b.user
    ensures NoGap(from + Files(Touching(files, lo, hi)))
  {
    var r := Touching(files, lo, hi);
    var all := from + Files(r);
    hide SearchRange, Touching;
    forall k | (exists x :: x in all && x.smallest.user <= k) && (exists y :: y in all && k <= y.largest.user)
      ensures Covers(all, k)
    {
      if k < a.user {
        var x :| x in all && x.smallest.user <= k;
        assert x in r;
        NoGapBelow(files, a.user, b.user, lo, hi, k);
        var f :| f in r && f.smallest.user <= k <= f.largest.user;
        assert f in all;
      } else if k > b.user {
        var y :| y in all && k <= y.largest.user;
        assert y in r;
        NoGapAbove(files, a.user, b.user, lo, hi, k);
        var f :| f in r && f.smallest.user <= k <= f.largest.user;
        assert f in all;
      } else {
        assert Covers(from, k);
      }
    }
  }

  // ----- Compactions that start from one file -----

  lemma HullKeys(sel: seq<FileMeta>, a: InternalKey, b: InternalKey)
    requires IsHull(sel, a, b)
    ensures (exists f :: f in Files(sel) && f.smallest == a) && (exists f :: f in Files(sel) && f.largest == b)
    ensures forall f :: f in Files(sel) ==> a.user <= f.smallest.user && f.largest.user <= b.user
  {
    var f :| f in sel && f.smallest == a;
    var g :| g in sel && g.largest == b;
    assert f in Files(sel) && g in Files(sel);
  }

  /** Files without a gap, with those of a level that their span touches. */
  lemma TouchedHasNoGap(files: seq<FileMeta>, level: nat, sel: seq<FileMeta>, r: seq<FileMeta>)
    requires NoGap(Files(sel)) && TouchedBy(files, level, sel, r)
    requires forall f :: f in files ==> f.smallest.user <= f.largest.user
    ensures NoGap(Files(sel) + Files(r))
  {
    hide IsHull, Overlapping, NoGap;
    var a, b :| IsHull(sel, a, b) && Overlapping(level, files, a, b, r);
    HullKeys(sel, a, b);
    SearchHasNoGap(level, files, Files(sel), a, b, r);
  }

  /** The files that a compaction for the sake of one file starts from. */
  lemma StartHasNoGap(files: seq<FileMeta>, level: nat, f: FileMeta, picked: seq<FileMeta>)
    requires StartsWith(files, level, f, picked) && f in files
    requires forall g :: g in files ==> g.smallest.user <= g.largest.user
    ensures NoGap(Files(picked)) && picked != [] && forall g :: g in picked ==> g in files
  {
    OneHasNoGap(f);
    assert f in {f};
    if level == 0 {
      SearchHasNoGap(0, files, {f}, f.smallest, f.largest, picked);
      var lo, hi :|
        SearchRange(0, files, Some(f.smallest.user), Some(f.largest.user), lo, hi) && picked == Touching(files, lo, hi);
      RangeFiles(files, 0, Some(f.smallest.user), Some(f.largest.user), lo, hi);
      assert f in picked && {f} + Files(picked) == Files(picked);
    } else {
      assert Files([f]) == {f};
    }
  }

  ghost predicate ProperLists(lists: seq<seq<FileMeta>>) {
    forall l, f :: 0 <= l < |lists| && f in lists[l] ==> f.smallest.user <= f.largest.user
  }

  lemma ListsAreProper(lists: seq<seq<FileMeta>>, v: Version)
    requires Lists(lists, v)
    ensures ProperLists(lists)
  {
    forall l, f | 0 <= l < |lists| && f in lists[l] ensures f.smallest.user <= f.largest.user {
      var i :| 0 <= i < |lists[l]| && lists[l][i] == f;
      assert Ordered(lists[l][i]);
    }
  }

  /** Files are of their level, and so are the boundary files added to them. */
  lemma ExtensionInLevel(levelFiles: seq<FileMeta>, sel: seq<FileMeta>, r: seq<FileMeta>)
    requires Extends(levelFiles, sel, r) && forall f :: f in sel ==> f in levelFiles
    ensures forall f :: f in r ==> f in levelFiles
    ensures forall f :: f in sel ==> f in r
  {
    hide IsLargest;
    forall i | |sel| <= i < |r| ensures r[i] in levelFiles {
      assert BoundaryOf(levelFiles, r[..i], r[i]);
      var k :| IsLargest(r[..i], k) && IsBoundary(levelFiles, k, r[i]);
      var j: nat :| j < |levelFiles| && BoundaryAt(levelFiles, k, r[i], j);
    }
    forall f | f in r ensures f in levelFiles {
      var i :| 0 <= i < |r| && r[i] == f;
      if i < |sel| {
        assert sel[i] in sel;
      }
    }
  }

  lemma TouchedInLevel(files: seq<FileMeta>, level: nat, sel: seq<FileMeta>, r: seq<FileMeta>)
    requires TouchedBy(files, level, sel, r)
    ensures forall f :: f in r ==> f in files
  {
    var a, b :| IsHull(sel, a, b) && Overlapping(level, files, a, b, r);
    var lo, hi :| SearchRange(level, files, Some(a.user), Some(b.user), lo, hi) && r == Touching(files, lo, hi);
    TouchingMembers(files, lo, hi);
  }

  /** A wider span touches at least as many files of a level below level 0. */
  lemma WiderTouchesMore(
      files: seq<FileMeta>, level: nat, sel: seq<FileMeta>, wider: seq<FileMeta>, r: seq<FileMeta>, r': seq<FileMeta>)
    requires level > 0 && TouchedBy(files, level, sel, r) && TouchedBy(files, level, wider, r')
    requires forall f :: f in sel ==> f in wider
    ensures forall f :: f in r ==> f in r'
  {
    var a, b :| IsHull(sel, a, b) && Overlapping(level, files, a, b, r);
    var a', b' :| IsHull(wider, a', b') && Overlapping(level, files, a', b', r');
    TouchingMembers(files, Some(a.user), Some(b.user));
    TouchingMembers(files, Some(a'.user), Some(b'.user));
    var f :| f in sel && f.smallest == a;
    var g :| g in sel && g.largest == b;
    assert a'.user <= a.user && b.user <= b'.user;
  }

  /** The files of the level, boundary files and files of the next level: none of these steps leaves a gap. */
  lemma BaseHasNoGap(
      lists: seq<seq<FileMeta>>, level: nat, picked: seq<FileMeta>, base: seq<FileMeta>, next: seq<FileMeta>)
    requires |lists| == NUM_LEVELS && level + 1 < NUM_LEVELS && ProperLists(lists)
    requires NoGap(Files(picked)) && forall f :: f in picked ==> f in lists[level]
    requires Extends(lists[level], picked, base) && TouchedBy(lists[level + 1], level + 1, base, next)
    ensures NoGap(Files(base) + Files(next))
    ensures forall f :: f in base ==> f in lists[level]
  {
    ExtensionInLevel(lists[level], picked, base);
    hide Extends, TouchedBy, NoGap;
    assert {} + Files(picked) == Files(picked) && base[..|base|] == base && {} + Files(base) == Files(base);
    FrontOf(lists[level], picked, base);
    BoundariesHaveNoGap(lists[level], picked, base, |base|, {});
    TouchedHasNoGap(lists[level + 1], level + 1, base, next);
  }

  lemma FrontOf(levelFiles: seq<FileMeta>, sel: seq<FileMeta>, r: seq<FileMeta>)
    requires Extends(levelFiles, sel, r)
    ensures |sel| <= |r|
  {
  }

  lemma ExpandedHasNoGap(
      lists: seq<seq<FileMeta>>, level: nat, maxFileSize: nat, base: seq<FileMeta>, next: seq<FileMeta>,
      in0: seq<FileMeta>, in1: seq<FileMeta>)
    requires |lists| == NUM_LEVELS && level + 1 < NUM_LEVELS && ProperLists(lists)
    requires forall f :: f in base ==> f in lists[level] && Ordered(f)
    requires NoGap(Files(base) + Files(next)) && TouchedBy(lists[level + 1], level + 1, base, next)
    requires Expansion(lists, level, maxFileSize, base, next, in0, in1)
    ensures NoGap(Files(in0) + Files(in1))
  {
    hide SumSizes, NoGap, Extends, TouchedBy;
    var touched :| TouchedBy(lists[level], level, base + next, touched) && Extends(lists[level], touched, in0);
    TouchedInLevel(lists[level], level, base + next, touched);
    ExtensionInLevel(lists[level], touched, in0);
    FrontOf(lists[level], touched, in0);
    forall f | f in base ensures f in in0 {
      WithinSpan(lists[level], level, base + next, touched, f);
    }
    WiderTouchesMore(lists[level + 1], level + 1, base, in0, next, in1);
    TouchedInLevel(lists[level + 1], level + 1, in0, in1);
    var all := Files(base + next);
    assert all == Files(base) + Files(next);
    TouchedHasNoGap(lists[level], level, base + next, touched);
    assert in0[..|in0|] == in0;
    BoundariesHaveNoGap(lists[level], touched, in0, |in0|, all);
    NextTouchesHull(lists[level + 1], level + 1, in0, in1, all + Files(in0));
    AddAllToSpan(all + Files(in0), in1);
    assert all + Files(in0) + Files(in1) == Files(in0) + Files(in1);
  }

  lemma NextTouchesHull(files: seq<FileMeta>, level: nat, sel: seq<FileMeta>, r: seq<FileMeta>, wider: set<FileMeta>)
    requires level > 0 && TouchedBy(files, level, sel, r) && Files(sel) <= wider
    ensures forall g :: g in r ==> TouchesHull(g, wider)
  {
    var a, b :| IsHull(sel, a, b) && Overlapping(level, files, a, b, r);
    HullKeys(sel, a, b);
    TouchingMembers(files, Some(a.user), Some(b.user));
    forall g | g in r ensures TouchesHull(g, wider) {
      WiderHull(g, Files(sel), wider);
    }
  }

  /** Inputs that are set up from files without a gap leave none. */
  lemma SetUpLeavesNoGap(
      lists: seq<seq<FileMeta>>, v: Version, level: nat, maxFileSize: nat, picked: seq<FileMeta>, in0: seq<FileMeta>,
      in1: seq<FileMeta>)
    requires Lists(lists, v) && level + 1 < NUM_LEVELS && SetUp(lists, level, maxFileSize, picked, in0, in1)
    requires NoGap(Files(picked)) && forall g :: g in picked ==> g in lists[level]
    ensures NoGap(Files(in0) + Files(in1))
  {
    ListsAreProper(lists, v);
    hide NoGap, Lists, Extends, TouchedBy, Expansion;
    var base, next :|
      && Extends(lists[level], picked, base) && TouchedBy(lists[level + 1], level + 1, base, next)
      && ExpandedIfPossible(lists, level, maxFileSize, base, next, in0, in1);
    BaseHasNoGap(lists, level, picked, base, next);
    if Expansion(lists, level, maxFileSize, base, next, in0, in1) {
      forall g | g in base ensures g in lists[level] && Ordered(g) {
        OrderedInList(lists, v, level, g);
      }
      ExpandedHasNoGap(lists, level, maxFileSize, base, next, in0, in1);
    }
  }

  /** The inputs of a compaction that was due leave no gap between their user keys. */
  lemma DueLeavesNoGap(
      lists: seq<seq<FileMeta>>, v: Version, maxFileSize: nat, pointers: seq<Option<InternalKey>>,
      sizeLevel: Option<nat>, seekFile: Option<(nat, FileMeta)>, level: nat, in0: seq<FileMeta>, in1: seq<FileMeta>)
    requires Lists(lists, v) && PicksDue(lists, maxFileSize, pointers, sizeLevel, seekFile, level, in0, in1)
    requires sizeLevel.None? ==> seekFile.Some? && level < NUM_LEVELS && seekFile.value.1 in lists[level]
    ensures NoGap(Files(in0) + Files(in1))
  {
    ListsAreProper(lists, v);
    hide Lists, SetUp, NoGap, StartsWith;
    var f, picked :|
      && IsDue(lists, pointers, sizeLevel, seekFile, level, f) && StartsWith(lists[level], level, f, picked)
      && SetUp(lists, level, maxFileSize, picked, in0, in1);
    assert f in lists[level];
    StartHasNoGap(lists[level], level, f, picked);
    SetUpLeavesNoGap(lists, v, level, maxFileSize, picked, in0, in1);
  }

  lemma OrderedInList(lists: seq<seq<FileMeta>>, v: Version, level: nat, g: FileMeta)
    requires Lists(lists, v) && level < NUM_LEVELS && g in lists[level]
    ensures Ordered(g)
  {
    var i :| 0 <= i < |lists[level]| && lists[level][i] == g;
    assert Ordered(lists[level][i]);
  }
}
