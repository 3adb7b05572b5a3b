/** Searching the sorted file lists of a version: by key, by user-key range, and for the input
    files of a compaction. */
module FileSearch {
  import opened Keys
  import opened Store
  import opened Reorganise

  ghost predicate Ordered(f: FileMeta) {
    AtMost(f.smallest, f.largest)
  }

  /** Files in order, no two of them overlapping. */
  ghost predicate SortedDisjoint(files: seq<FileMeta>) {
    && (forall i :: 0 <= i < |files| ==> Ordered(files[i]))
    && (forall i, j :: 0 <= i < j < |files| ==> Less(files[i].largest, files[j].smallest))
  }

  function SumSizes(files: seq<FileMeta>): nat {
    if files == [] then 0 else SumSizes(files[..|files| - 1]) + files[|files| - 1].size
  }

  function Files(files: seq<FileMeta>): set<FileMeta> {
    set f | f in files
  }

  ghost predicate Distinct(files: seq<FileMeta>) {
    forall i, j :: 0 <= i < j < |files| ==> files[i] != files[j]
  }

  /** Lists of files in order that hold exactly the files of a version. */
  ghost predicate Lists(files: seq<seq<FileMeta>>, v: Version) {
    && |files| == NUM_LEVELS
    && (forall l :: 0 <= l < NUM_LEVELS ==> Files(files[l]) == v[l])
    && (forall i :: 0 <= i < |files[0]| ==> Ordered(files[0][i])) && Distinct(files[0])
    && (forall l :: 1 <= l < NUM_LEVELS ==> SortedDisjoint(files[l]))
  }

  /** Where the search for a key by halving ends, in whatever order the files are. */
  function Bisect(files: seq<FileMeta>, key: InternalKey, left: nat, right: nat): nat
    requires left <= right <= |files|
    decreases right - left
  {
    if left == right then right
    else
      var mid := (left + right) / 2;
      if Less(files[mid].largest, key) then Bisect(files, key, mid + 1, right) else Bisect(files, key, left, mid)
  }

  /** The first file whose last key is at or after `key`, if the files are in order. */
  method FindFile(files: seq<FileMeta>, key: InternalKey) returns (right: nat)
    ensures right <= |files| && right == Bisect(files, key, 0, |files|)
    ensures SortedDisjoint(files) ==> forall i :: 0 <= i < right ==> Less(files[i].largest, key)
    ensures SortedDisjoint(files) ==> forall i :: right <= i < |files| ==> AtMost(key, files[i].largest)
  {
    hide SortedDisjoint, Less, AtMost;
    var left := 0;
    right := |files|;
    while left < right
      invariant 0 <= left <= right <= |files|
      invariant Bisect(files, key, left, right) == Bisect(files, key, 0, |files|)
    {
      var mid := (left + right) / 2;
      if Less(files[mid].largest, key) {
        left := mid + 1;
      } else {
        right := mid;
      }
    }
    if SortedDisjoint(files) {
      BisectFinds(files, key, 0, |files|);
    }
  }

  /** On files in order, with only ends before the key below `left` and none from `right` on, halving
      finds where the ends reach the key. */
  lemma {:induction false} BisectFinds(files: seq<FileMeta>, key: InternalKey, left: nat, right: nat)
    requires SortedDisjoint(files) && left <= right <= |files|
    requires forall i :: 0 <= i < left ==> Less(files[i].largest, key)
    requires forall i :: right <= i < |files| ==> AtMost(key, files[i].largest)
    ensures Bisect(files, key, left, right) <= |files|
    ensures forall i :: 0 <= i < Bisect(files, key, left, right) ==> Less(files[i].largest, key)
    ensures forall i :: Bisect(files, key, left, right) <= i < |files| ==> AtMost(key, files[i].largest)
    decreases right - left
  {
    if left < right {
      var mid := (left + right) / 2;
      if Less(files[mid].largest, key) {
        forall i | 0 <= i < mid ensures Less(files[i].largest, key) {
          assert Less(files[i].largest, files[mid].smallest);
        }
        BisectFinds(files, key, mid + 1, right);
      } else {
        forall i | mid < i < |files| ensures AtMost(key, files[i].largest) {
          assert Less(files[mid].largest, files[i].smallest) && Ordered(files[i]);
        }
        BisectFinds(files, key, left, mid);
      }
    }
  }

  predicate AfterFile(userKey: Option<UserKey>, f: FileMeta) {
    userKey.Some? && userKey.value > f.largest.user
  }

  predicate BeforeFile(userKey: Option<UserKey>, f: FileMeta) {
    userKey.Some? && userKey.value < f.smallest.user
  }

  /** Does a file touch the range, where an absent bound stands for no bound? */
  predicate Touches(f: FileMeta, begin: Option<UserKey>, end: Option<UserKey>) {
    !AfterFile(begin, f) && !BeforeFile(end, f)
  }

  method SomeFileOverlapsRange(disjoint: bool, files: seq<FileMeta>, begin: Option<UserKey>, end: Option<UserKey>)
    returns (found: bool)
    requires disjoint ==> SortedDisjoint(files)
    requires forall f :: f in files ==> f.largest.sequence <= MAX_SEQUENCE
    ensures found <==> exists f :: f in files && Touches(f, begin, end)
  {
    if !disjoint {
      for i := 0 to |files|
        invariant forall j :: 0 <= j < i ==> !Touches(files[j], begin, end)
      {
        if AfterFile(begin, files[i]) || BeforeFile(end, files[i]) {
        } else {
          assert files[i] in files;
          return true;
        }
      }
      return false;
    }
    var index := 0;
    if begin.Some? {
      index := FindFile(files, SeekKey(begin.value, MAX_SEQUENCE));
    }
    if index >= |files| {
      assert forall f :: f in files ==> AfterFile(begin, f);
      return false;
    }
    found := !BeforeFile(end, files[index]);
    assert files[index] in files;
    assert forall i :: 0 <= i < index ==> AfterFile(begin, files[i]);
    assert forall i :: index < i < |files| ==> Less(files[index].largest, files[i].smallest) && Ordered(files[index]);
  }

  // ----- Files overlapping a range -----

  predicate Below(a: Option<UserKey>, b: Option<UserKey>) {
    a.None? || (b.Some? && a.value <= b.value)
  }

  predicate AboveEnd(a: Option<UserKey>, b: Option<UserKey>) {
    a.None? || (b.Some? && a.value >= b.value)
  }

  /** A range that covers [begin, end] and every file touching it. */
  ghost predicate ClosedRange(
      files: seq<FileMeta>, begin: Option<UserKey>, end: Option<UserKey>, lo: Option<UserKey>, hi: Option<UserKey>)
  {
    && Below(lo, begin) && AboveEnd(hi, end)
    && forall f :: f in files && Touches(f, lo, hi) ==>
         (lo.Some? ==> lo.value <= f.smallest.user) && (hi.Some? ==> f.largest.user <= hi.value)
  }

  /** The files touching a range, in list order. */
  function Touching(files: seq<FileMeta>, lo: Option<UserKey>, hi: Option<UserKey>): seq<FileMeta> {
    if files == [] then []
    else
      var rest := Touching(files[..|files| - 1], lo, hi);
      if Touches(files[|files| - 1], lo, hi) then rest + [files[|files| - 1]] else rest
  }

  lemma {:induction false} TouchingMembers(files: seq<FileMeta>, lo: Option<UserKey>, hi: Option<UserKey>)
    ensures forall f :: f in Touching(files, lo, hi) <==> f in files && Touches(f, lo, hi)
  {
    if files != [] {
      TouchingMembers(files[..|files| - 1], lo, hi);
      assert files == files[..|files| - 1] + [files[|files| - 1]];
    }
  }

  lemma {:induction false} TouchingDistinct(files: seq<FileMeta>, lo: Option<UserKey>, hi: Option<UserKey>)
    requires Distinct(files)
    ensures Distinct(Touching(files, lo, hi))
  {
    if files != [] {
      var init := files[..|files| - 1];
      TouchingDistinct(init, lo, hi);
      TouchingMembers(init, lo, hi);
      assert forall f :: f in init ==> f != files[|files| - 1];
      var rest := Touching(init, lo, hi);
      assert forall i :: 0 <= i < |rest| ==> rest[i] in rest;
    }
  }

  /** The range whose touching files a search for [begin, end] returns: below level 0 the range
      itself, at level 0 the smallest one that covers it and every file touching it. */
  ghost predicate SearchRange(
      level: nat, files: seq<FileMeta>, begin: Option<UserKey>, end: Option<UserKey>, lo: Option<UserKey>,
      hi: Option<UserKey>)
  {
    if level > 0 then lo == begin && hi == end
    else
      && ClosedRange(files, begin, end, lo, hi)
      && forall l, h :: ClosedRange(files, begin, end, l, h) ==> Below(l, lo) && AboveEnd(h, hi)
  }

  /** Only one range is the smallest. */
  lemma SearchRangeIsUnique(
      level: nat, files: seq<FileMeta>, begin: Option<UserKey>, end: Option<UserKey>, lo: Option<UserKey>,
      hi: Option<UserKey>, lo': Option<UserKey>, hi': Option<UserKey>)
    requires SearchRange(level, files, begin, end, lo, hi) && SearchRange(level, files, begin, end, lo', hi')
    ensures lo == lo' && hi == hi'
  {
    if level == 0 {
      assert Below(lo, lo') && Below(lo', lo) && AboveEnd(hi, hi') && AboveEnd(hi', hi);
    }
  }

  /** How many files still stick out of the range: the measure of the restarting search. */
  function SticksOut(files: seq<FileMeta>, lo: Option<UserKey>, hi: Option<UserKey>): nat {
    if files == [] then 0
    else
      SticksOut(files[1..], lo, hi)
      + (if lo.Some? && files[0].smallest.user < lo.value then 1 else 0)
      + (if hi.Some? && files[0].largest.user > hi.value then 1 else 0)
  }

  lemma {:induction false} WiderSticksLess(
      files: seq<FileMeta>, lo: Option<UserKey>, hi: Option<UserKey>, lo': Option<UserKey>, hi': Option<UserKey>)
    requires Below(lo', lo) && AboveEnd(hi', hi)
    ensures SticksOut(files, lo', hi') <= SticksOut(files, lo, hi)
    ensures
      (exists f ::
         && f in files
         && (|| (lo.Some? && f.smallest.user < lo.value && (lo'.Some? ==> lo'.value <= f.smallest.user))
             || (hi.Some? && f.largest.user > hi.value && (hi'.Some? ==> f.largest.user <= hi'.value))))
      ==> SticksOut(files, lo', hi') < SticksOut(files, lo, hi)
  {
    if files != [] {
      WiderSticksLess(files[1..], lo, hi, lo', hi');
      assert files == [files[0]] + files[1..];
    }
  }

  /** All files of a level that overlap a range.  Files of level 0 may overlap each other, so
      there the range grows by each file found, and the search starts over: the result is the
      touching set of the smallest range that covers every file it touches. */
  method GetOverlappingInputs(level: nat, files: seq<FileMeta>, begin: Option<UserKey>, end: Option<UserKey>)
    returns (inputs: seq<FileMeta>, ghost lo: Option<UserKey>, ghost hi: Option<UserKey>)
    ensures inputs == Touching(files, lo, hi) && SearchRange(level, files, begin, end, lo, hi)
  {
    inputs := [];
    var userBegin, userEnd := begin, end;
    var i := 0;
    while i < |files|
      invariant 0 <= i <= |files|
      invariant inputs == Touching(files[..i], userBegin, userEnd)
      invariant level > 0 ==> userBegin == begin && userEnd == end
      invariant Below(userBegin, begin) && AboveEnd(userEnd, end)
      invariant level == 0 ==> forall f :: f in files[..i] && Touches(f, userBegin, userEnd) ==>
                  (userBegin.Some? ==> userBegin.value <= f.smallest.user)
                    && (userEnd.Some? ==> f.largest.user <= userEnd.value)
      invariant forall l, h :: ClosedRange(files, begin, end, l, h) ==> Below(l, userBegin) && AboveEnd(h, userEnd)
      decreases SticksOut(files, userBegin, userEnd), |files| - i
    {
      var f := files[i];
      assert files[..i + 1][..i] == files[..i] && files[..i + 1] == files[..i] + [f];
      i := i + 1;
      if userBegin.Some? && f.largest.user < userBegin.value {
        // completely before the range
      } else if userEnd.Some? && f.smallest.user > userEnd.value {
        // completely after the range
      } else {
        inputs := inputs + [f];
        if level == 0 {
          assert f in files;
          if userBegin.Some? && f.smallest.user < userBegin.value {
            WiderSticksLess(files, userBegin, userEnd, Some(f.smallest.user), userEnd);
            ClosedCovers(files, begin, end, f, userBegin, userEnd);
            userBegin := Some(f.smallest.user);
            inputs := [];
            i := 0;
          } else if userEnd.Some? && f.largest.user > userEnd.value {
            WiderSticksLess(files, userBegin, userEnd, userBegin, Some(f.largest.user));
            ClosedCovers(files, begin, end, f, userBegin, userEnd);
            userEnd := Some(f.largest.user);
            inputs := [];
            i := 0;
          }
        }
      }
    }
    assert files[..|files|] == files;
    lo, hi := userBegin, userEnd;
  }

  /** A closed range that covers what has been reached covers every file that touches it. */
  lemma ClosedCovers(
      files: seq<FileMeta>, begin: Option<UserKey>, end: Option<UserKey>, f: FileMeta, lo: Option<UserKey>,
      hi: Option<UserKey>)
    requires f in files && Touches(f, lo, hi)
    ensures forall l, h :: ClosedRange(files, begin, end, l, h) && Below(l, lo) && AboveEnd(h, hi) ==>
              (l.Some? ==> l.value <= f.smallest.user) && (h.Some? ==> f.largest.user <= h.value)
  {
    forall l, h | ClosedRange(files, begin, end, l, h) && Below(l, lo) && AboveEnd(h, hi)
      ensures (l.Some? ==> l.value <= f.smallest.user) && (h.Some? ==> f.largest.user <= h.value)
    {
      assert Touches(f, l, h);
    }
  }
}
