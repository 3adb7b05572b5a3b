/** Choosing the input files of a compaction. */
module CompactionInputs {
  import opened Keys
  import opened Store
  import opened Reorganise
  import opened FileSearch

  ghost predicate IsLargest(files: seq<FileMeta>, k: InternalKey) {
    && (exists f :: f in files && f.largest == k)
    && (forall f :: f in files ==> AtMost(f.largest, k))
  }

  ghost predicate IsSmallest(files: seq<FileMeta>, k: InternalKey) {
    && (exists f :: f in files && f.smallest == k)
    && (forall f :: f in files ==> AtMost(k, f.smallest))
  }

  /** The smallest and the largest key of some files. */
  method GetRange(inputs: seq<FileMeta>) returns (smallest: InternalKey, largest: InternalKey)
    requires inputs != []
    ensures IsSmallest(inputs, smallest) && IsLargest(inputs, largest)
  {
    smallest, largest := inputs[0].smallest, inputs[0].largest;
    assert inputs[0] in inputs;
    for i := 1 to |inputs|
      invariant exists f :: f in inputs && f.smallest == smallest
      invariant exists f :: f in inputs && f.largest == largest
      invariant forall j :: 0 <= j < i ==> AtMost(smallest, inputs[j].smallest) && AtMost(inputs[j].largest, largest)
    {
      assert inputs[i] in inputs;
      if Less(inputs[i].smallest, smallest) {
        smallest := inputs[i].smallest;
      }
      if Less(largest, inputs[i].largest) {
        largest := inputs[i].largest;
      }
    }
  }

  method FindLargestKey(files: seq<FileMeta>) returns (largest: Option<InternalKey>)
    ensures if files == [] then largest == None else largest.Some? && IsLargest(files, largest.value)
  {
    if files == [] {
      return None;
    }
    var k := files[0].largest;
    assert files[0] in files;
    for i := 1 to |files|
      invariant exists f :: f in files && f.largest == k
      invariant forall j :: 0 <= j < i ==> AtMost(files[j].largest, k)
    {
      assert files[i] in files;
      if Less(k, files[i].largest) {
        k := files[i].largest;
      }
    }
    return Some(k);
  }

  /** A file that goes on with the user key at which `k` stops. */
  predicate Continues(f: FileMeta, k: InternalKey) {
    Less(k, f.smallest) && f.smallest.user == k.user
  }

  /** The earliest of the files that go on with the user key, and of several such the first in the list. */
  ghost predicate IsBoundary(levelFiles: seq<FileMeta>, k: InternalKey, f: FileMeta) {
    exists i: nat :: i < |levelFiles| && BoundaryAt(levelFiles, k, f, i)
  }

  ghost predicate BoundaryAt(levelFiles: seq<FileMeta>, k: InternalKey, f: FileMeta, i: nat)
    requires i < |levelFiles|
  {
    && levelFiles[i] == f && Continues(f, k)
    && (forall j :: 0 <= j < |levelFiles| && Continues(levelFiles[j], k) ==> AtMost(f.smallest, levelFiles[j].smallest))
    && (forall j :: 0 <= j < i && Continues(levelFiles[j], k) ==> Less(f.smallest, levelFiles[j].smallest))
  }

  ghost predicate NoBoundary(levelFiles: seq<FileMeta>, k: InternalKey) {
    forall f :: f in levelFiles ==> !Continues(f, k)
  }

  method FindSmallestBoundaryFile(levelFiles: seq<FileMeta>, k: InternalKey) returns (found: Option<FileMeta>)
    ensures found.None? ==> NoBoundary(levelFiles, k)
    ensures found.Some? ==> IsBoundary(levelFiles, k, found.value)
  {
    found := None;
    ghost var at := 0;
    for i := 0 to |levelFiles|
      invariant found.None? ==> forall j :: 0 <= j < i ==> !Continues(levelFiles[j], k)
      invariant found.Some? ==> 0 <= at < i && levelFiles[at] == found.value && Continues(found.value, k)
      invariant found.Some? ==>
                  forall j :: 0 <= j < i && Continues(levelFiles[j], k) ==>
                    AtMost(found.value.smallest, levelFiles[j].smallest)
      invariant found.Some? ==>
                  forall j :: 0 <= j < at && Continues(levelFiles[j], k) ==>
                    Less(found.value.smallest, levelFiles[j].smallest)
    {
      var f := levelFiles[i];
      if Continues(f, k) && (found.None? || Less(f.smallest, found.value.smallest)) {
        found, at := Some(f), i;
      }
    }
    assert found.Some? ==> BoundaryAt(levelFiles, k, found.value, at);
  }

  /** A selection with a boundary file added, then that one's, and so on until there is none. */
  ghost predicate Extends(levelFiles: seq<FileMeta>, sel: seq<FileMeta>, r: seq<FileMeta>) {
    && sel <= r
    && (forall i :: |sel| <= i < |r| ==> BoundaryOf(levelFiles, r[..i], r[i]))
    && (forall k :: IsLargest(r, k) ==> sel == [] || NoBoundary(levelFiles, k))
    && (sel == [] ==> r == [])
  }

  ghost predicate BoundaryOf(levelFiles: seq<FileMeta>, sel: seq<FileMeta>, f: FileMeta) {
    exists k :: IsLargest(sel, k) && IsBoundary(levelFiles, k, f)
  }

  lemma BoundaryIsUnique(levelFiles: seq<FileMeta>, sel: seq<FileMeta>, f: FileMeta, g: FileMeta)
    requires BoundaryOf(levelFiles, sel, f) && BoundaryOf(levelFiles, sel, g)
    ensures f == g
  {
    var k :| IsLargest(sel, k) && IsBoundary(levelFiles, k, f);
    var k' :| IsLargest(sel, k') && IsBoundary(levelFiles, k', g);
    LargestIsUnique(sel, k);
    var i: nat :| i < |levelFiles| && BoundaryAt(levelFiles, k, f, i);
    var j: nat :| j < |levelFiles| && BoundaryAt(levelFiles, k, g, j);
  }

  /** There is one way to extend a selection. */
  lemma ExtensionIsUnique(levelFiles: seq<FileMeta>, sel: seq<FileMeta>, r: seq<FileMeta>, r': seq<FileMeta>)
    requires Extends(levelFiles, sel, r) && Extends(levelFiles, sel, r')
    ensures r == r'
  {
    hide BoundaryOf, IsLargest, NoBoundary;
    var n := if |r| <= |r'| then |r| else |r'|;
    SamePrefix(levelFiles, sel, r, r', n);
    assert r[..|r|] == r && r'[..|r'|] == r';
    if sel != [] {
      NoLonger(levelFiles, sel, r, r');
      NoLonger(levelFiles, sel, r', r);
    }
  }

  lemma NoLonger(levelFiles: seq<FileMeta>, sel: seq<FileMeta>, r: seq<FileMeta>, r': seq<FileMeta>)
    requires sel != [] && Extends(levelFiles, sel, r) && Extends(levelFiles, sel, r')
    requires |r| <= |r'| ==> r == r'[..|r|]
    ensures |r'| <= |r|
  {
    if |r| < |r'| {
      EndHasNoBoundary(levelFiles, r, r'[|r|]);
    }
  }

  lemma EndHasNoBoundary(levelFiles: seq<FileMeta>, r: seq<FileMeta>, f: FileMeta)
    requires forall k :: IsLargest(r, k) ==> NoBoundary(levelFiles, k)
    ensures !BoundaryOf(levelFiles, r, f)
  {
  }

  lemma {:induction false} SamePrefix(
      levelFiles: seq<FileMeta>, sel: seq<FileMeta>, r: seq<FileMeta>, r': seq<FileMeta>, n: nat)
    requires Extends(levelFiles, sel, r) && Extends(levelFiles, sel, r') && n <= |r| && n <= |r'|
    ensures r[..n] == r'[..n]
  {
    hide BoundaryOf, IsLargest, NoBoundary;
    if n <= |sel| {
      assert r[..n] == sel[..n] == r'[..n];
    } else {
      SamePrefix(levelFiles, sel, r, r', n - 1);
      BoundaryIsUnique(levelFiles, r[..n - 1], r[n - 1], r'[n - 1]);
      assert r[..n] == r[..n - 1] + [r[n - 1]] && r'[..n] == r'[..n - 1] + [r'[n - 1]];
    }
  }

  /** Consecutive files of a level. */
  ghost predicate IsStretch(files: seq<FileMeta>, sel: seq<FileMeta>, a: nat, b: nat) {
    a < b <= |files| && sel == files[a..b]
  }

  /** Every file that shares a user key with a selected one is selected. */
  ghost predicate TouchClosed(files: seq<FileMeta>, sel: seq<FileMeta>) {
    && sel != []
    && (forall f :: f in sel ==> f in files)
    && (forall f, g :: f in files && g in sel && RangesTouch(f, g) ==> f in sel)
  }

  /** What a picker may start from at a level. */
  ghost predicate Picked(level: nat, files: seq<FileMeta>, sel: seq<FileMeta>) {
    if level == 0 then TouchClosed(files, sel) && Distinct(sel) else exists a, b :: IsStretch(files, sel, a, b)
  }

  function Larger(files: seq<FileMeta>, k: InternalKey): nat {
    if files == [] then 0 else Larger(files[1..], k) + if Less(k, files[0].largest) then 1 else 0
  }

  lemma {:induction false} LargerShrinks(files: seq<FileMeta>, k: InternalKey, f: FileMeta)
    requires f in files && Less(k, f.largest)
    ensures Larger(files, f.largest) < Larger(files, k)
  {
    LargerMono(files[1..], k, f.largest);
    if f != files[0] {
      assert files == [files[0]] + files[1..];
      LargerShrinks(files[1..], k, f);
    }
  }

  lemma {:induction false} LargerMono(files: seq<FileMeta>, k: InternalKey, k': InternalKey)
    requires Less(k, k')
    ensures Larger(files, k') <= Larger(files, k)
  {
    if files != [] {
      LargerMono(files[1..], k, k');
    }
  }

  lemma StretchExtends(files: seq<FileMeta>, sel: seq<FileMeta>, a: nat, b: nat, f: FileMeta)
    requires SortedDisjoint(files) && IsStretch(files, sel, a, b) && f in files
    requires IsBoundary(files, files[b - 1].largest, f)
    ensures b < |files| && f == files[b]
    ensures IsStretch(files, sel + [f], a, b + 1)
  {
    var i :| 0 <= i < |files| && files[i] == f;
    assert forall j :: 0 <= j < b - 1 ==> Less(files[j].largest, files[b - 1].smallest);
    assert Ordered(files[b - 1]) && Ordered(f);
    assert b <= i;
    assert Less(files[b - 1].largest, files[b].smallest) && Ordered(files[b]);
    assert forall j :: b < j < |files| ==> Less(files[b].largest, files[j].smallest);
    assert files[b] in files && Continues(files[b], files[b - 1].largest);
  }

  lemma StretchLargest(files: seq<FileMeta>, sel: seq<FileMeta>, a: nat, b: nat, k: InternalKey)
    requires SortedDisjoint(files) && IsStretch(files, sel, a, b) && IsLargest(sel, k)
    ensures k == files[b - 1].largest
  {
    assert sel[|sel| - 1] == files[b - 1] && sel[|sel| - 1] in sel;
    var f :| f in sel && f.largest == k;
    var i :| 0 <= i < |sel| && sel[i] == f;
    assert forall j :: a <= j < b - 1 ==> Less(files[j].largest, files[b - 1].smallest);
    assert files[a + i] == f && Ordered(files[b - 1]);
  }

  lemma ClosedHasNoBoundary(files: seq<FileMeta>, sel: seq<FileMeta>, k: InternalKey, f: FileMeta)
    requires TouchClosed(files, sel) && IsLargest(sel, k) && f in files && Ordered(f)
    requires forall g :: g in sel ==> Ordered(g)
    ensures !Continues(f, k)
  {
    var g :| g in sel && g.largest == k;
    assert Continues(f, k) ==> RangesTouch(f, g);
  }

  /** A file found by the search extends the selection; at level 0 none is ever found. */
  lemma BoundaryStep(level: nat, files: seq<FileMeta>, sel: seq<FileMeta>, k: InternalKey, f: FileMeta)
    requires if level == 0 then forall g :: g in files ==> Ordered(g) else SortedDisjoint(files)
    requires Picked(level, files, sel) && IsLargest(sel, k) && IsBoundary(files, k, f)
    ensures Picked(level, files, sel + [f]) && IsLargest(sel + [f], f.largest)
    ensures Larger(files, f.largest) < Larger(files, k)
  {
    if level == 0 {
      ClosedHasNoBoundary(files, sel, k, f);
    } else {
      var a, b :| IsStretch(files, sel, a, b);
      StretchLargest(files, sel, a, b, k);
      StretchExtends(files, sel, a, b, f);
      assert Picked(level, files, sel + [f]);
      LargerShrinks(files, k, f);
      assert f in sel + [f];
    }
  }

  /** Extends the selected files by those that continue their last user key, one after another. */
  method AddBoundaryInputs(level: nat, levelFiles: seq<FileMeta>, compactionFiles: seq<FileMeta>)
    returns (result: seq<FileMeta>)
    requires if level == 0 then forall f :: f in levelFiles ==> Ordered(f) else SortedDisjoint(levelFiles)
    requires compactionFiles != [] ==> Picked(level, levelFiles, compactionFiles)
    ensures Extends(levelFiles, compactionFiles, result)
    ensures compactionFiles != [] ==> Picked(level, levelFiles, result)
  {
    hide IsLargest, Picked, Less, SortedDisjoint;
    var largest := FindLargestKey(compactionFiles);
    if largest.None? {
      EmptyExtends(levelFiles);
      return [];
    }
    result := compactionFiles;
    var k := largest.value;
    var continueSearching := true;
    while continueSearching
      invariant compactionFiles <= result && Picked(level, levelFiles, result) && IsLargest(result, k)
      invariant forall i :: |compactionFiles| <= i < |result| ==> BoundaryOf(levelFiles, result[..i], result[i])
      invariant !continueSearching ==> NoBoundary(levelFiles, k)
      decreases Larger(levelFiles, k), continueSearching
    {
      var found := FindSmallestBoundaryFile(levelFiles, k);
      if found.Some? {
        BoundaryStep(level, levelFiles, result, k, found.value);
        ghost var before := result;
        result := result + [found.value];
        assert forall i :: 0 <= i <= |before| ==> result[..i] == before[..i];
        assert before[..|before|] == before;
        k := found.value.largest;
      } else {
        continueSearching := false;
      }
    }
    LargestIsUnique(result, k);
  }

  lemma EmptyExtends(levelFiles: seq<FileMeta>)
    ensures Extends(levelFiles, [], [])
  {
  }

  lemma LargestIsUnique(files: seq<FileMeta>, k: InternalKey)
    requires IsLargest(files, k)
    ensures forall k' :: IsLargest(files, k') ==> k == k'
  {
  }
}
