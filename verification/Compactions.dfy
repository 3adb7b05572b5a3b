/** One compaction: its inputs, the cursors it moves along deeper levels while keys go by, and
    the loop that writes the output files. */
module Compactions {
  import opened Keys
  import opened Store
  import opened Reorganise
  import opened FileSearch

  class Compaction {
    const level: nat
    const maxFileSize: nat
    const inputFiles: seq<seq<FileMeta>>
    const levelPtrs: array<nat>
    var inputs0: seq<FileMeta>
    var inputs1: seq<FileMeta>
    var grandparents: seq<FileMeta>
    var grandparentIndex: nat
    var seenKey: bool
    var overlappedBytes: nat

    constructor (level: nat, maxFileSize: nat, inputFiles: seq<seq<FileMeta>>)
      requires |inputFiles| == NUM_LEVELS
      ensures this.level == level && this.maxFileSize == maxFileSize && this.inputFiles == inputFiles
      ensures inputs0 == [] && inputs1 == [] && grandparents == [] && Unused()
      ensures fresh(levelPtrs) && levelPtrs.Length == NUM_LEVELS
    {
      this.level := level;
      this.maxFileSize := maxFileSize;
      this.inputFiles := inputFiles;
      levelPtrs := new nat[NUM_LEVELS](_ => 0);
      inputs0, inputs1, grandparents := [], [], [];
      grandparentIndex, seenKey, overlappedBytes := 0, false, 0;
    }

    ghost predicate Valid()
      reads this
    {
      && levelPtrs.Length == NUM_LEVELS
      && |inputFiles| == NUM_LEVELS
      && (forall l :: level + 2 <= l < NUM_LEVELS ==> SortedDisjoint(inputFiles[l]))
      && grandparentIndex <= |grandparents|
    }

    /** No key has gone by yet. */
    ghost predicate Unused()
      reads this, levelPtrs
    {
      grandparentIndex == 0 && !seenKey && overlappedBytes == 0 && forall k :: Behind(k)
    }

    /** Every file that a cursor has passed ends before `k`. */
    ghost predicate Behind(k: UserKey)
      reads levelPtrs
    {
      && levelPtrs.Length == NUM_LEVELS && |inputFiles| == NUM_LEVELS
      && forall l :: 0 <= l < NUM_LEVELS ==>
           levelPtrs[l] <= |inputFiles[l]| && forall i :: 0 <= i < levelPtrs[l] ==> inputFiles[l][i].largest.user < k
    }

    /** No file of the level covers the key. */
    ghost predicate LevelClear(l: nat, k: UserKey)
      requires l < |inputFiles|
    {
      forall i :: 0 <= i < |inputFiles[l]| ==> !(inputFiles[l][i].smallest.user <= k <= inputFiles[l][i].largest.user)
    }

    /** As long as the keys asked for never decrease, moving cursors answer as a full scan of
        the deeper levels would. */
    method IsBaseLevelForKey(userKey: UserKey) returns (base: bool)
      requires Valid() && Behind(userKey)
      modifies levelPtrs
      ensures Behind(userKey)
      ensures base <==> forall l :: level + 2 <= l < NUM_LEVELS ==> LevelClear(l, userKey)
    {
      var lvl := level + 2;
      while lvl < NUM_LEVELS
        invariant level + 2 <= lvl && Behind(userKey)
        invariant forall l :: level + 2 <= l < lvl && l < NUM_LEVELS ==> LevelClear(l, userKey)
        modifies levelPtrs
      {
        var files := inputFiles[lvl];
        while levelPtrs[lvl] < |files|
          invariant Behind(userKey)
          modifies levelPtrs
          decreases |files| - levelPtrs[lvl]
        {
          var f := files[levelPtrs[lvl]];
          if userKey <= f.largest.user {
            if userKey >= f.smallest.user {
              assert !LevelClear(lvl, userKey);
              return false;
            }
            break;
          }
          levelPtrs[lvl] := levelPtrs[lvl] + 1;
        }
        assert forall i :: levelPtrs[lvl] < i < |files| ==> Less(files[levelPtrs[lvl]].largest, files[i].smallest);
        assert LevelClear(lvl, userKey);
        lvl := lvl + 1;
      }
      return true;
    }

    /** Tells when an output should end because it overlaps too much of the level after next. */
    method ShouldStopBefore(key: InternalKey) returns (stop: bool)
      requires Valid()
      modifies this`grandparentIndex, this`seenKey, this`overlappedBytes
      ensures Valid() && old(grandparentIndex) <= grandparentIndex && seenKey
      ensures forall i :: old(grandparentIndex) <= i < grandparentIndex ==> Less(grandparents[i].largest, key)
      ensures grandparentIndex < |grandparents| ==> AtMost(key, grandparents[grandparentIndex].largest)
      ensures var bytes := old(overlappedBytes) + if old(seenKey)
          then SumSizes(grandparents[old(grandparentIndex)..grandparentIndex]) else 0;
        stop == (bytes > 10 * maxFileSize) && overlappedBytes == if stop then 0 else bytes
    {
      ghost var start := grandparentIndex;
      while grandparentIndex < |grandparents| && Less(grandparents[grandparentIndex].largest, key)
        invariant start <= grandparentIndex <= |grandparents| && seenKey == old(seenKey)
        invariant forall i :: start <= i < grandparentIndex ==> Less(grandparents[i].largest, key)
        invariant overlappedBytes == old(overlappedBytes) + if seenKey
            then SumSizes(grandparents[start..grandparentIndex]) else 0
      {
        SumOneMore(grandparents, start, grandparentIndex);
        if seenKey {
          overlappedBytes := overlappedBytes + grandparents[grandparentIndex].size;
        }
        grandparentIndex := grandparentIndex + 1;
      }
      seenKey := true;
      if overlappedBytes > 10 * maxFileSize {
        overlappedBytes := 0;
        return true;
      } else {
        return false;
      }
    }
  }

  lemma SumOneMore(files: seq<FileMeta>, a: nat, b: nat)
    requires a <= b < |files|
    ensures SumSizes(files[a..b + 1]) == SumSizes(files[a..b]) + files[b].size
  {
    var r := files[a..b + 1];
    assert r[..|r| - 1] == files[a..b];
  }

  // ----- What a compaction keeps, by position in the merged input -----

  /** An entry that an earlier one of the same key hides from every reader. */
  ghost predicate HiddenAt(input: seq<Entry>, snapshot: nat, i: nat)
    requires i < |input|
  {
    exists j :: 0 <= j < i && input[j].key.user == input[i].key.user && input[j].key.sequence <= snapshot
  }

  ghost predicate Survives(input: seq<Entry>, v: Version, level: nat, snapshot: nat, i: nat)
    requires i < |input|
  {
    !HiddenAt(input, snapshot, i) && !ObsoleteTombstone(v, level, snapshot, input[i])
  }

  ghost function Survivors(input: seq<Entry>, v: Version, level: nat, snapshot: nat, n: nat): seq<Entry>
    requires n <= |input|
  {
    if n == 0 then []
    else Survivors(input, v, level, snapshot, n - 1) + (if Survives(input, v, level, snapshot, n - 1)
      then [input[n - 1]] else [])
  }

  lemma {:induction false} SurvivorsMembers(input: seq<Entry>, v: Version, level: nat, snapshot: nat, n: nat)
    requires n <= |input|
    ensures forall e :: e in Survivors(input, v, level, snapshot, n) <==>
        exists i :: 0 <= i < n && input[i] == e && Survives(input, v, level, snapshot, i)
  {
    if n != 0 {
      SurvivorsMembers(input, v, level, snapshot, n - 1);
    }
  }

  lemma {:induction false} SurvivorsSorted(input: seq<Entry>, v: Version, level: nat, snapshot: nat, n: nat)
    requires n <= |input| && Sorted(input)
    ensures Sorted(Survivors(input, v, level, snapshot, n))
  {
    if n != 0 {
      SurvivorsSorted(input, v, level, snapshot, n - 1);
      SurvivorsMembers(input, v, level, snapshot, n - 1);
      var s := Survivors(input, v, level, snapshot, n - 1);
      forall j | 0 <= j < |s| ensures Less(s[j].key, input[n - 1].key) {
        assert s[j] in s;
      }
    }
  }

  // ----- Where the outputs are cut -----

  /** What decides where outputs end: the merged input, the files that it overlaps two levels down,
      the size of a full file, and the size of a table with given entries. */
  datatype Limits = Limits(
    input: seq<Entry>, grandparents: seq<FileMeta>, maxFileSize: nat, fileSize: seq<Entry> -> nat)

  /** How many grandparents end before a key. */
  ghost function Passed(grandparents: seq<FileMeta>, key: InternalKey): (n: nat)
    ensures n <= |grandparents|
  {
    if grandparents == [] || !Less(grandparents[0].largest, key) then 0 else 1 + Passed(grandparents[1..], key)
  }

  ghost function BytesBetween(grandparents: seq<FileMeta>, a: nat, b: nat): nat {
    if a <= b <= |grandparents| then SumSizes(grandparents[a..b]) else 0
  }

  /** The last position up to `i` before which an output should end because more than ten files'
      worth of grandparents have been passed since the one before; 0 if there is none. */
  ghost function LastStop(x: Limits, i: nat): (p: nat)
    requires i < |x.input|
    ensures p <= i
  {
    if i == 0 then 0
    else
      var p := LastStop(x, i - 1);
      var before, now := Passed(x.grandparents, x.input[p].key), Passed(x.grandparents, x.input[i].key);
      if BytesBetween(x.grandparents, before, now) > 10 * x.maxFileSize then i else p
  }

  ghost predicate StopsAt(x: Limits, i: nat) {
    0 < i < |x.input| && LastStop(x, i) == i
  }

  /** An output should end somewhere after `a` and not after `b`. */
  ghost predicate StopsBetween(x: Limits, a: Entry, b: Entry) {
    exists i: nat :: StopsAt(x, i) && Less(a.key, x.input[i].key) && AtMost(x.input[i].key, b.key)
  }

  /** Nothing in an output ends it before its last entry. */
  ghost predicate RunsOn(x: Limits, chunk: seq<Entry>) {
    && chunk != []
    && forall n :: 0 < n < |chunk| ==>
      x.fileSize(chunk[..n]) < x.maxFileSize && !StopsBetween(x, chunk[n - 1], chunk[n])
  }

  /** There is a reason to begin a new output between two. */
  ghost predicate EndsBetween(x: Limits, a: seq<Entry>, b: seq<Entry>) {
    a != [] && b != [] && (x.fileSize(a) >= x.maxFileSize || StopsBetween(x, a[|a| - 1], b[0]))
  }

  /** Every output goes on for as long as it may. */
  ghost predicate WellCut(x: Limits, chunks: seq<seq<Entry>>) {
    && (forall j :: 0 <= j < |chunks| ==> RunsOn(x, chunks[j]))
    && (forall j :: 0 <= j < |chunks| - 1 ==> EndsBetween(x, chunks[j], chunks[j + 1]))
  }

  lemma {:induction false} FlattenFront(chunks: seq<seq<Entry>>)
    requires chunks != []
    ensures Flatten(chunks) == chunks[0] + Flatten(chunks[1..])
  {
    var n := |chunks| - 1;
    var front, tail := chunks[..n], chunks[1..];
    if n > 0 {
      FlattenFront(front);
      assert front[0] == chunks[0] && front[1..] == tail[..n - 1] && tail[n - 1] == chunks[n];
      Assoc(chunks[0], Flatten(tail[..n - 1]), chunks[n]);
    } else {
      assert front == [] && tail == [];
    }
  }

  lemma Assoc(a: seq<Entry>, b: seq<Entry>, c: seq<Entry>)
    ensures a + b + c == a + (b + c)
  {
  }

  /** The rules determine the outputs. */
  lemma {:induction false} CutIsUnique(x: Limits, p: seq<seq<Entry>>, q: seq<seq<Entry>>)
    requires WellCut(x, p) && WellCut(x, q) && Flatten(p) == Flatten(q)
    ensures p == q
    decreases |p|
  {
    hide StopsBetween;
    if p != [] {
      FlattenFront(p);
    }
    if q != [] {
      FlattenFront(q);
    }
    if p != [] && q != [] {
      FirstNoLonger(x, p, q);
      FirstNoLonger(x, q, p);
      assert p[0] == Flatten(p)[..|p[0]|] == q[0];
      assert Flatten(p[1..]) == Flatten(p)[|p[0]|..] == Flatten(q[1..]);
      TailWellCut(x, p);
      TailWellCut(x, q);
      CutIsUnique(x, p[1..], q[1..]);
      assert p == [p[0]] + p[1..] && q == [q[0]] + q[1..];
    }
  }

  lemma TailWellCut(x: Limits, p: seq<seq<Entry>>)
    requires WellCut(x, p) && p != []
    ensures WellCut(x, p[1..])
  {
    hide RunsOn, EndsBetween;
    forall j | 0 <= j < |p[1..]| - 1 ensures EndsBetween(x, p[1..][j], p[1..][j + 1]) {
      assert EndsBetween(x, p[j + 1], p[j + 1 + 1]);
    }
  }

  lemma FirstNoLonger(x: Limits, p: seq<seq<Entry>>, q: seq<seq<Entry>>)
    requires WellCut(x, p) && WellCut(x, q) && Flatten(p) == Flatten(q) && p != [] && q != []
    requires Flatten(p) == p[0] + Flatten(p[1..]) && Flatten(q) == q[0] + Flatten(q[1..])
    ensures |q[0]| <= |p[0]|
  {
    var n, s := |p[0]|, Flatten(p);
    assert |s| >= |q[0]| && q[0] == s[..|q[0]|];
    hide StopsBetween, Flatten;
    if n < |q[0]| {
      assert q[0][..n] == s[..n] && q[0][n - 1] == s[n - 1] && q[0][n] == s[n];
      EndsHere(x, p, s);
    }
  }

  lemma EndsHere(x: Limits, p: seq<seq<Entry>>, s: seq<Entry>)
    requires WellCut(x, p) && p != [] && s == p[0] + Flatten(p[1..]) && |p[0]| < |s|
    ensures var n := |p[0]|; n > 0 && (x.fileSize(s[..n]) >= x.maxFileSize || StopsBetween(x, s[n - 1], s[n]))
  {
    hide StopsBetween;
    RestIsNotEmpty(p);
    FlattenFront(p[1..]);
    assert EndsBetween(x, p[0], p[0 + 1]) && RunsOn(x, p[0]) && RunsOn(x, p[1]);
    assert s[..|p[0]|] == p[0];
  }

  lemma RestIsNotEmpty(p: seq<seq<Entry>>)
    ensures p != [] && Flatten(p[1..]) != [] ==> |p| > 1
  {
  }

  lemma {:induction false} PassedIs(grandparents: seq<FileMeta>, key: InternalKey, n: nat)
    requires n <= |grandparents| && forall i :: 0 <= i < n ==> Less(grandparents[i].largest, key)
    requires n < |grandparents| ==> AtMost(key, grandparents[n].largest)
    ensures Passed(grandparents, key) == n
  {
    if n > 0 {
      PassedIs(grandparents[1..], key, n - 1);
    }
  }

  lemma {:induction false} PassedEnd(grandparents: seq<FileMeta>, key: InternalKey)
    ensures forall i :: 0 <= i < Passed(grandparents, key) ==> Less(grandparents[i].largest, key)
  {
    if grandparents != [] && Less(grandparents[0].largest, key) {
      PassedEnd(grandparents[1..], key);
    }
  }

  lemma {:induction false} SumSizesAppend(a: seq<FileMeta>, b: seq<FileMeta>)
    ensures SumSizes(a + b) == SumSizes(a) + SumSizes(b)
  {
    if b != [] {
      SumSizesAppend(a, b[..|b| - 1]);
      assert (a + b)[..|a + b| - 1] == a + b[..|b| - 1];
    } else {
      assert a + b == a;
    }
  }

  lemma BytesAppend(grandparents: seq<FileMeta>, a: nat, b: nat, c: nat)
    requires a <= b <= c <= |grandparents|
    ensures BytesBetween(grandparents, a, c) == BytesBetween(grandparents, a, b) + SumSizes(grandparents[b..c])
  {
    SumSizesAppend(grandparents[a..b], grandparents[b..c]);
    assert grandparents[a..c] == grandparents[a..b] + grandparents[b..c];
  }

  lemma PassedGrows(x: Limits, i: nat, j: nat)
    requires Sorted(x.input) && i <= j < |x.input|
    ensures Passed(x.grandparents, x.input[i].key) <= Passed(x.grandparents, x.input[j].key)
  {
    var m, n := Passed(x.grandparents, x.input[i].key), Passed(x.grandparents, x.input[j].key);
    PassedEnd(x.grandparents, x.input[i].key);
    if n < m && i < j {
      assert Less(x.grandparents[n].largest, x.input[j].key);
      NotPassed(x.grandparents, x.input[j].key);
    }
  }

  lemma {:induction false} NotPassed(grandparents: seq<FileMeta>, key: InternalKey)
    ensures var n := Passed(grandparents, key); n < |grandparents| ==> !Less(grandparents[n].largest, key)
  {
    if grandparents != [] && Less(grandparents[0].largest, key) {
      NotPassed(grandparents[1..], key);
    }
  }

  /** The outputs so far, after the stops before position `n`, and the one under way. */
  ghost predicate CutSoFar(x: Limits, chunks: seq<seq<Entry>>, builder: Option<seq<Entry>>, n: nat) {
    && WellCut(x, chunks) && n <= |x.input|
    && (builder.None? && chunks != [] ==> HasEnded(x, chunks[|chunks| - 1], n))
    && (builder.Some? ==>
          && RunsOn(x, builder.value) && x.fileSize(builder.value) < x.maxFileSize && !StopsAfter(x, builder.value, n)
          && (chunks != [] ==> EndsBetween(x, chunks[|chunks| - 1], builder.value)))
  }

  ghost predicate StopsAfter(x: Limits, chunk: seq<Entry>, n: nat)
    requires chunk != [] && n <= |x.input|
  {
    exists i: nat :: i < n && StopsAt(x, i) && Less(chunk[|chunk| - 1].key, x.input[i].key)
  }

  ghost predicate HasEnded(x: Limits, chunk: seq<Entry>, n: nat)
    requires n <= |x.input|
  {
    chunk != [] && (x.fileSize(chunk) >= x.maxFileSize || StopsAfter(x, chunk, n))
  }

  /** The stop before an entry has been considered. */
  lemma CutStop(x: Limits, chunks: seq<seq<Entry>>, builder: Option<seq<Entry>>, i: nat)
    requires CutSoFar(x, chunks, builder, i) && i < |x.input| && Sorted(x.input)
    requires LastRead(x.input, builder, i)
    ensures if StopsAt(x, i) && builder.Some? then CutSoFar(x, chunks + [builder.value], None, i + 1)
            else CutSoFar(x, chunks, builder, i + 1)
  {
    hide RunsOn, EndsBetween, StopsAt, WellCut;
    if builder.Some? {
      var chunk := builder.value;
      RunsOnSome(x, chunk);
      if StopsAt(x, i) {
        CutClose(x, chunks, chunk);
        var j :| 0 <= j < i && chunk[|chunk| - 1] == x.input[j];
        assert Less(x.input[j].key, x.input[i].key);
        assert StopsAfter(x, chunk, i + 1);
      }
    } else if chunks != [] {
      EndedStays(x, chunks[|chunks| - 1], i);
    }
  }

  lemma RunsOnSome(x: Limits, chunk: seq<Entry>)
    requires RunsOn(x, chunk)
    ensures chunk != []
  {
  }

  lemma EndedStays(x: Limits, chunk: seq<Entry>, i: nat)
    requires i < |x.input| && HasEnded(x, chunk, i)
    ensures HasEnded(x, chunk, i + 1)
  {
    hide StopsAt;
  }

  lemma CutClose(x: Limits, chunks: seq<seq<Entry>>, chunk: seq<Entry>)
    requires WellCut(x, chunks) && RunsOn(x, chunk) && (chunks != [] ==> EndsBetween(x, chunks[|chunks| - 1], chunk))
    ensures WellCut(x, chunks + [chunk])
  {
    hide RunsOn, EndsBetween;
    var all := chunks + [chunk];
    forall j | 0 <= j < |all| - 1 ensures EndsBetween(x, all[j], all[j + 1]) {
      assert j < |chunks| - 1 ==> EndsBetween(x, chunks[j], chunks[j + 1]);
    }
  }

  /** A surviving entry goes into the output under way, or a new one; the output ends if it is full. */
  lemma CutAdd(x: Limits, chunks: seq<seq<Entry>>, builder: Option<seq<Entry>>, i: nat)
    requires CutSoFar(x, chunks, builder, i + 1) && i < |x.input| && Sorted(x.input)
    ensures
      var b := Pending(builder) + [x.input[i]];
      if x.fileSize(b) >= x.maxFileSize then CutSoFar(x, chunks + [b], None, i + 1)
        else CutSoFar(x, chunks, Some(b), i + 1)
  {
    var b := Pending(builder) + [x.input[i]];
    hide StopsAt, StopsBetween, StopsAfter, WellCut, Less;
    NoStopAfterLast(x, b, i);
    AddRunsOn(x, builder, i);
    if chunks != [] {
      AddEnds(x, chunks[|chunks| - 1], builder, i);
    }
    hide RunsOn, EndsBetween;
    CutClose(x, chunks, b);
  }

  /** What ends with the last entry so far has not passed a stop since. */
  lemma NoStopAfterLast(x: Limits, b: seq<Entry>, i: nat)
    requires i < |x.input| && Sorted(x.input) && b != [] && b[|b| - 1] == x.input[i]
    ensures !StopsAfter(x, b, i + 1)
  {
    hide StopsAt;
    forall j: nat | j < i + 1 ensures !Less(x.input[i].key, x.input[j].key) {
      assert j < i ==> Less(x.input[j].key, x.input[i].key);
    }
  }

  lemma AddRunsOn(x: Limits, builder: Option<seq<Entry>>, i: nat)
    requires i < |x.input| && Sorted(x.input)
    requires builder.Some? ==>
               RunsOn(x, builder.value) && x.fileSize(builder.value) < x.maxFileSize
                 && !StopsAfter(x, builder.value, i + 1)
    ensures RunsOn(x, Pending(builder) + [x.input[i]])
  {
    hide StopsAt, Less;
    var p := Pending(builder);
    var b := p + [x.input[i]];
    forall n | 0 < n < |b| ensures x.fileSize(b[..n]) < x.maxFileSize && !StopsBetween(x, b[n - 1], b[n]) {
      assert b[..n] == p[..n];
      if n == |p| {
        assert p[..n] == p;
        NoStopBefore(x, p, i);
      }
    }
  }

  lemma NoStopBefore(x: Limits, p: seq<Entry>, i: nat)
    requires i < |x.input| && Sorted(x.input) && p != [] && !StopsAfter(x, p, i + 1)
    ensures !StopsBetween(x, p[|p| - 1], x.input[i])
  {
    hide StopsAt;
    forall j: nat | StopsAt(x, j) && j < |x.input| && Less(p[|p| - 1].key, x.input[j].key)
      ensures !AtMost(x.input[j].key, x.input[i].key)
    {
      assert j > i && Less(x.input[i].key, x.input[j].key);
    }
    forall j: nat | StopsAt(x, j) ensures j < |x.input| {
      StopInside(x, j);
    }
  }

  lemma StopInside(x: Limits, j: nat)
    requires StopsAt(x, j)
    ensures j < |x.input|
  {
  }

  lemma AddEnds(x: Limits, chunk: seq<Entry>, builder: Option<seq<Entry>>, i: nat)
    requires i < |x.input| && Sorted(x.input)
    requires if builder.None? then HasEnded(x, chunk, i + 1)
        else builder.value != [] && EndsBetween(x, chunk, builder.value)
    ensures EndsBetween(x, chunk, Pending(builder) + [x.input[i]])
  {
    hide StopsAt;
    if builder.None? && x.fileSize(chunk) < x.maxFileSize {
      var j: nat :| j < i + 1 && StopsAt(x, j) && Less(chunk[|chunk| - 1].key, x.input[j].key);
      assert j < i ==> Less(x.input[j].key, x.input[i].key);
      assert StopsBetween(x, chunk[|chunk| - 1], x.input[i]);
    }
  }

  /** The counters of a compaction, when the keys before position `i` have gone by. */
  ghost predicate Counts(c: Compaction, x: Limits, i: nat)
    reads c
    requires i <= |x.input|
  {
    && c.grandparents == x.grandparents && c.maxFileSize == x.maxFileSize
    && if i == 0 then c.grandparentIndex == 0 && !c.seenKey && c.overlappedBytes == 0
       else
         && c.seenKey && c.grandparentIndex == Passed(x.grandparents, x.input[i - 1].key)
         && c.overlappedBytes ==
            BytesBetween(x.grandparents, Passed(x.grandparents, x.input[LastStop(x, i - 1)].key), c.grandparentIndex)
  }

  /** The counters tell where outputs should end. */
  method StopBefore(c: Compaction, ghost x: Limits, ghost i: nat, key: InternalKey) returns (stop: bool)
    requires c.Valid() && i < |x.input| && Sorted(x.input) && Counts(c, x, i) && key == x.input[i].key
    modifies c`grandparentIndex, c`seenKey, c`overlappedBytes
    ensures c.Valid() && Counts(c, x, i + 1) && stop == StopsAt(x, i)
  {
    ghost var from := c.grandparentIndex;
    stop := c.ShouldStopBefore(key);
    if i > 0 {
      PassedGrows(x, LastStop(x, i - 1), i - 1);
      PassedEnd(x.grandparents, x.input[i - 1].key);
      assert Less(x.input[i - 1].key, key);
      BytesAppend(x.grandparents, Passed(x.grandparents, x.input[LastStop(x, i - 1)].key), from, c.grandparentIndex);
    }
    PassedIs(x.grandparents, key, c.grandparentIndex);
  }

  // ----- Writing the outputs -----

  ghost predicate Finished(f: FileMeta, t: seq<Entry>, number: nat) {
    t != [] && f.number == number && f.smallest == t[0].key && f.largest == t[|t| - 1].key
  }

  ghost predicate ChunkWritten(
      outputs: seq<FileMeta>, written: map<nat, seq<Entry>>, chunk: seq<Entry>, first: nat, j: nat)
  {
    && j < |outputs|
    && first + j in written && written[first + j] == chunk
    && Finished(outputs[j], chunk, first + j)
  }

  /** Finished output files, and the one that is being written. */
  ghost predicate Writing(
      outputs: seq<FileMeta>, written: map<nat, seq<Entry>>, chunks: seq<seq<Entry>>, builder: Option<seq<Entry>>,
      first: nat)
  {
    && |outputs| == |chunks| + (if builder.Some? then 1 else 0)
    && (forall n :: n in written ==> first <= n < first + |chunks|)
    && (forall j :: 0 <= j < |chunks| ==> ChunkWritten(outputs, written, chunks[j], first, j))
    && (builder.Some? ==> Finished(outputs[|chunks|], builder.value, first + |chunks|))
  }

  /** The sequence number that the previous entry of the same user key had. */
  ghost predicate Tracks(input: seq<Entry>, i: nat, current: Option<UserKey>, last: nat)
    requires i <= |input|
  {
    && (current.None? <==> i == 0)
    && (i > 0 ==> current == Some(input[i - 1].key.user) && last == input[i - 1].key.sequence)
  }

  /** The size of a finished output is that of its table. */
  ghost predicate Sized(outputs: seq<FileMeta>, chunks: seq<seq<Entry>>, fileSize: seq<Entry> -> nat) {
    |chunks| <= |outputs| && forall j :: 0 <= j < |chunks| ==> outputs[j].size == fileSize(chunks[j])
  }

  lemma SizedStill(
      outputs: seq<FileMeta>, outputs': seq<FileMeta>, chunks: seq<seq<Entry>>, fileSize: seq<Entry> -> nat)
    requires Sized(outputs, chunks, fileSize)
    requires |outputs'| >= |chunks| && forall j :: 0 <= j < |chunks| ==> outputs'[j] == outputs[j]
    ensures Sized(outputs', chunks, fileSize)
  {
  }

  lemma HiddenByLast(input: seq<Entry>, snapshot: nat, i: nat, current: Option<UserKey>, last: nat)
    requires Sorted(input) && i < |input| && Tracks(input, i, current, last) && snapshot < MAX_SEQUENCE
    ensures HiddenAt(input, snapshot, i) <==> current == Some(input[i].key.user) && last <= snapshot
  {
    if i > 0 {
      forall j | 0 <= j < i && input[j].key.user == input[i].key.user
        ensures input[i - 1].key.user == input[i].key.user && input[i - 1].key.sequence <= input[j].key.sequence
      {
        assert j == i - 1 || Less(input[j].key, input[i - 1].key);
        assert Less(input[i - 1].key, input[i].key);
      }
    }
  }

  method FinishOutput(
      outputs: seq<FileMeta>, written: map<nat, seq<Entry>>, ghost chunks: seq<seq<Entry>>, builder: seq<Entry>,
      ghost first: nat, fileSize: seq<Entry> -> nat)
    returns (outputs': seq<FileMeta>, written': map<nat, seq<Entry>>)
    requires Writing(outputs, written, chunks, Some(builder), first) && Sized(outputs, chunks, fileSize)
    ensures Writing(outputs', written', chunks + [builder], None, first) && |outputs'| == |outputs|
    ensures Sized(outputs', chunks + [builder], fileSize)
  {
    var current := outputs[|outputs| - 1];
    assert Finished(current, builder, first + |chunks|);
    outputs' := outputs[|outputs| - 1 := current.(size := fileSize(builder))];
    written' := written[current.number := builder];
    forall j | 0 <= j < |chunks| ensures ChunkWritten(outputs', written', chunks[j], first, j) {
      assert ChunkWritten(outputs, written, chunks[j], first, j);
    }
  }

  method AddToOutput(
      outputs: seq<FileMeta>, ghost written: map<nat, seq<Entry>>, ghost chunks: seq<seq<Entry>>,
      builder: Option<seq<Entry>>, ghost first: nat, nextFile: nat, e: Entry)
    returns (outputs': seq<FileMeta>, builder': seq<Entry>, nextFile': nat)
    requires Writing(outputs, written, chunks, builder, first) && nextFile == first + |outputs|
    ensures Writing(outputs', written, chunks, Some(builder'), first) && nextFile' == first + |outputs'|
    ensures builder' == Pending(builder) + [e]
    ensures |outputs'| >= |chunks| && forall j :: 0 <= j < |chunks| ==> outputs'[j] == outputs[j]
  {
    outputs', nextFile' := outputs, nextFile;
    builder' := [];
    if builder.Some? {
      builder' := builder.value;
      assert Finished(outputs'[|chunks|], builder', first + |chunks|);
    } else {
      outputs' := outputs' + [FileMeta(nextFile, 0, SeekKey(0.0, 0), SeekKey(0.0, 0))];
      nextFile' := nextFile + 1;
    }
    var last := |outputs'| - 1;
    if |builder'| == 0 {
      outputs' := outputs'[last := outputs'[last].(smallest := e.key)];
    }
    outputs' := outputs'[last := outputs'[last].(largest := e.key)];
    builder' := builder' + [e];
    assert last == |chunks| && Finished(outputs'[last], builder', first + last);
    forall j | 0 <= j < |chunks| ensures ChunkWritten(outputs', written, chunks[j], first, j) {
      assert ChunkWritten(outputs, written, chunks[j], first, j);
    }
  }

  /** The drop rule, with the user key and sequence number of the entry before. */
  method ShouldDrop(
      c: Compaction, ghost v: Version, ghost input: seq<Entry>, ghost i: nat, e: Entry, snapshot: nat,
      current: Option<UserKey>, last: nat)
    returns (drop: bool, current': Option<UserKey>, last': nat)
    requires c.Valid() && Lists(c.inputFiles, v)
    requires Sorted(input) && i < |input| && e == input[i] && snapshot < MAX_SEQUENCE
    requires c.Behind(e.key.user) && Tracks(input, i, current, last)
    modifies c.levelPtrs
    ensures c.Behind(e.key.user) && Tracks(input, i + 1, current', last')
    ensures drop <==> !Survives(input, v, c.level, snapshot, i)
  {
    HiddenByLast(input, snapshot, i, current, last);
    current', last' := current, last;
    if current' != Some(e.key.user) {
      current', last' := Some(e.key.user), MAX_SEQUENCE;
    }
    drop := false;
    if last' <= snapshot {
      drop := true;
    } else if e.key.kind == Deletion && e.key.sequence <= snapshot {
      drop := c.IsBaseLevelForKey(e.key.user);
      BaseLevelByLists(c, v, e.key.user);
    }
    last' := e.key.sequence;
  }

  /** Finishes the output under way, if there is one. */
  method CloseOutput(
      outputs: seq<FileMeta>, written: map<nat, seq<Entry>>, ghost chunks: seq<seq<Entry>>,
      builder: Option<seq<Entry>>, ghost first: nat, fileSize: seq<Entry> -> nat)
    returns (outputs': seq<FileMeta>, written': map<nat, seq<Entry>>, ghost chunks': seq<seq<Entry>>)
    requires Writing(outputs, written, chunks, builder, first) && Sized(outputs, chunks, fileSize)
    ensures Writing(outputs', written', chunks', None, first) && Sized(outputs', chunks', fileSize)
    ensures |outputs'| == |outputs|
    ensures chunks' == if builder.Some? then chunks + [builder.value] else chunks
    ensures Flatten(chunks') == Flatten(chunks) + Pending(builder)
  {
    outputs', written', chunks' := outputs, written, chunks;
    if builder.Some? {
      outputs', written' := FinishOutput(outputs, written, chunks, builder.value, first, fileSize);
      FlattenAppend(chunks, builder.value);
      chunks' := chunks + [builder.value];
    }
  }

  /** Writes one entry, opening an output if needed and closing it when it is big enough. */
  method WriteEntry(
      outputs: seq<FileMeta>, written: map<nat, seq<Entry>>, ghost chunks: seq<seq<Entry>>,
      builder: Option<seq<Entry>>, ghost first: nat, nextFile: nat, e: Entry, fileSize: seq<Entry> -> nat,
      maxFileSize: nat)
    returns (
      outputs': seq<FileMeta>, written': map<nat, seq<Entry>>, ghost chunks': seq<seq<Entry>>,
      builder': Option<seq<Entry>>, nextFile': nat)
    requires Writing(outputs, written, chunks, builder, first) && nextFile == first + |outputs|
    requires Sized(outputs, chunks, fileSize)
    ensures Writing(outputs', written', chunks', builder', first) && nextFile' == first + |outputs'|
    ensures Sized(outputs', chunks', fileSize)
    ensures Flatten(chunks') + Pending(builder') == Flatten(chunks) + Pending(builder) + [e]
    ensures
      var b := Pending(builder) + [e];
      if fileSize(b) >= maxFileSize then chunks' == chunks + [b] && builder' == None
        else chunks' == chunks && builder' == Some(b)
  {
    hide Writing, Sized, Flatten;
    var b;
    outputs', b, nextFile' := AddToOutput(outputs, written, chunks, builder, first, nextFile, e);
    SizedStill(outputs, outputs', chunks, fileSize);
    written', chunks', builder' := written, chunks, Some(b);
    Assoc(Flatten(chunks), Pending(builder), [e]);
    if fileSize(b) >= maxFileSize {
      outputs', written', chunks' := CloseOutput(outputs', written, chunks, builder', first, fileSize);
      builder' := None;
    }
  }

  /** The compaction loop: one pass over the merged input, dropping what no reader can see and
      cutting the rest into new files.  `fileSize` stands for the size of a table under way. */
  method DoCompactionWork(
      c: Compaction, ghost v: Version, input: seq<Entry>, snapshot: nat, first: nat, fileSize: seq<Entry> -> nat)
    returns (outputs: seq<FileMeta>, written: map<nat, seq<Entry>>, nextFile: nat, ghost chunks: seq<seq<Entry>>)
    requires c.Valid() && c.Unused() && Lists(c.inputFiles, v)
    requires Sorted(input) && snapshot < MAX_SEQUENCE
    modifies c, c.levelPtrs
    ensures Writing(outputs, written, chunks, None, first) && nextFile == first + |outputs|
    ensures Flatten(chunks) == Survivors(input, v, c.level, snapshot, |input|)
    ensures WellCut(Limits(input, c.grandparents, c.maxFileSize, fileSize), chunks) && Sized(outputs, chunks, fileSize)
    ensures c.inputs0 == old(c.inputs0) && c.inputs1 == old(c.inputs1) && c.grandparents == old(c.grandparents)
  {
    hide Sorted, SortedDisjoint, Lists, HiddenAt, ObsoleteTombstone, Writing, Survives, Survivors, Flatten, Tracks,
         Counts, CutSoFar, Sized, StopsAt, WellCut, Compaction.Behind;
    var current: Option<UserKey>, last: nat := None, MAX_SEQUENCE;
    var builder: Option<seq<Entry>> := None;
    outputs, written, nextFile, chunks := [], map[], first, [];
    NothingWritten(first);
    NothingRead(input, v, c.level, snapshot);
    ghost var x := Limits(input, c.grandparents, c.maxFileSize, fileSize);
    NothingCut(c, x);
    for i := 0 to |input|
      invariant c.Valid() && c.inputs0 == old(c.inputs0) && c.inputs1 == old(c.inputs1)
      invariant c.grandparents == old(c.grandparents)
      invariant i < |input| ==> c.Behind(input[i].key.user)
      invariant Tracks(input, i, current, last) && Counts(c, x, i)
      invariant Writing(outputs, written, chunks, builder, first) && nextFile == first + |outputs|
      invariant Sized(outputs, chunks, fileSize)
      invariant Flatten(chunks) + Pending(builder) == Survivors(input, v, c.level, snapshot, i)
      invariant CutSoFar(x, chunks, builder, i) && LastRead(input, builder, i)
    {
      var e := input[i];
      SurvivorsStep(input, v, c.level, snapshot, i);
      outputs, written, chunks,
        builder := StopOutput(c, x, i, e.key, outputs, written, chunks, builder, first, fileSize);
      var drop;
      drop, current, last := ShouldDrop(c, v, input, i, e, snapshot, current, last);
      if !drop {
        CutAdd(x, chunks, builder, i);
        outputs, written, chunks, builder, nextFile :=
          WriteEntry(outputs, written, chunks, builder, first, nextFile, e, fileSize, c.maxFileSize);
      }
      BehindLater(c, input, i);
    }
    CutDone(x, chunks, builder);
    outputs, written, chunks := CloseOutput(outputs, written, chunks, builder, first, fileSize);
  }

  /** Ends the output under way if it should end before the entry that comes now. */
  method StopOutput(
      c: Compaction, ghost x: Limits, ghost i: nat, key: InternalKey, outputs: seq<FileMeta>,
      written: map<nat, seq<Entry>>, ghost chunks: seq<seq<Entry>>, builder: Option<seq<Entry>>, ghost first: nat,
      fileSize: seq<Entry> -> nat)
    returns (
      outputs': seq<FileMeta>, written': map<nat, seq<Entry>>, ghost chunks': seq<seq<Entry>>,
      builder': Option<seq<Entry>>)
    requires c.Valid() && i < |x.input| && Sorted(x.input) && Counts(c, x, i) && key == x.input[i].key
    requires x.fileSize == fileSize
    requires Writing(outputs, written, chunks, builder, first) && Sized(outputs, chunks, fileSize)
    requires CutSoFar(x, chunks, builder, i) && LastRead(x.input, builder, i)
    modifies c`grandparentIndex, c`seenKey, c`overlappedBytes
    ensures c.Valid() && Counts(c, x, i + 1) && |outputs'| == |outputs|
    ensures Writing(outputs', written', chunks', builder', first) && Sized(outputs', chunks', fileSize)
    ensures CutSoFar(x, chunks', builder', i + 1) && LastRead(x.input, builder', i)
    ensures Flatten(chunks') + Pending(builder') == Flatten(chunks) + Pending(builder)
  {
    hide Sorted, Writing, Flatten, Counts, CutSoFar, Sized, StopsAt;
    outputs', written', chunks', builder' := outputs, written, chunks, builder;
    var stop := StopBefore(c, x, i, key);
    CutStop(x, chunks, builder, i);
    if stop && builder.Some? {
      outputs', written', chunks' := CloseOutput(outputs, written, chunks, builder, first, fileSize);
      builder' := None;
    }
  }

  /** The output under way ends with an entry that was read. */
  ghost predicate LastRead(input: seq<Entry>, builder: Option<seq<Entry>>, i: nat)
    requires i <= |input|
  {
    builder.Some? ==> builder.value != [] && exists j :: 0 <= j < i && builder.value[|builder.value| - 1] == input[j]
  }

  lemma NothingCut(c: Compaction, x: Limits)
    requires c.Unused() && c.grandparents == x.grandparents && c.maxFileSize == x.maxFileSize
    ensures Counts(c, x, 0) && CutSoFar(x, [], None, 0) && Sized([], [], x.fileSize)
    ensures forall k :: c.Behind(k)
  {
  }

  lemma CutDone(x: Limits, chunks: seq<seq<Entry>>, builder: Option<seq<Entry>>)
    requires CutSoFar(x, chunks, builder, |x.input|)
    ensures WellCut(x, if builder.Some? then chunks + [builder.value] else chunks)
  {
    hide RunsOn, EndsBetween;
    if builder.Some? {
      CutClose(x, chunks, builder.value);
    }
  }

  lemma NothingWritten(first: nat)
    ensures Writing([], map[], [], None, first) && Flatten([]) == []
  {
  }

  lemma NothingRead(input: seq<Entry>, v: Version, level: nat, snapshot: nat)
    ensures Tracks(input, 0, None, MAX_SEQUENCE) && Survivors(input, v, level, snapshot, 0) == []
  {
  }

  lemma SurvivorsStep(input: seq<Entry>, v: Version, level: nat, snapshot: nat, i: nat)
    requires i < |input|
    ensures Survives(input, v, level, snapshot, i) ==>
              Survivors(input, v, level, snapshot, i + 1) == Survivors(input, v, level, snapshot, i) + [input[i]]
    ensures !Survives(input, v, level, snapshot, i) ==>
              Survivors(input, v, level, snapshot, i + 1) == Survivors(input, v, level, snapshot, i)
  {
  }

  function Pending(builder: Option<seq<Entry>>): seq<Entry> {
    if builder.Some? then builder.value else []
  }

  lemma BehindLater(c: Compaction, input: seq<Entry>, i: nat)
    requires Sorted(input) && i < |input| && c.Behind(input[i].key.user)
    ensures i + 1 < |input| ==> c.Behind(input[i + 1].key.user)
  {
    assert i + 1 < |input| ==> Less(input[i].key, input[i + 1].key);
  }

  lemma BaseLevelByLists(c: Compaction, v: Version, k: UserKey)
    requires |c.inputFiles| == NUM_LEVELS && Lists(c.inputFiles, v)
    ensures (forall l :: c.level + 2 <= l < NUM_LEVELS ==> c.LevelClear(l, k)) <==> IsBaseLevel(v, c.level, k)
  {
    forall l | 0 <= l < NUM_LEVELS
      ensures c.LevelClear(l, k) <==> forall f :: f in v[l] ==> !(f.smallest.user <= k <= f.largest.user)
    {
      assert forall f :: f in v[l] <==> f in Files(c.inputFiles[l]);
      assert forall i :: 0 <= i < |c.inputFiles[l]| ==> c.inputFiles[l][i] in Files(c.inputFiles[l]);
    }
  }

  // ----- The loop does what the state machine says -----

  /** Position by position, the loop drops what the specification drops. */
  lemma SurvivesIsKept(
      input: seq<Entry>, hist: seq<Op>, v: Version, tables: map<nat, seq<Entry>>, level: nat, files: set<FileMeta>,
      snapshot: nat, i: nat)
    requires Sorted(input) && i < |input|
    requires forall e {:trigger InFiles(tables, files, e)} :: e in input <==> InFiles(tables, files, e)
    requires forall e :: e in input ==> IsUpdate(hist, e)
    ensures Survives(input, v, level, snapshot, i) <==> !Dropped(v, tables, level, files, snapshot, input[i])
  {
    var e := input[i];
    assert e in input;
    if HiddenAt(input, snapshot, i) {
      var j :| 0 <= j < i && input[j].key.user == e.key.user && input[j].key.sequence <= snapshot;
      assert input[j] in input && InFiles(tables, files, input[j]);
      FirstIsNewer(hist, input[j], e);
      assert Hidden(tables, files, snapshot, e);
    }
    if Hidden(tables, files, snapshot, e) {
      var x :| InFiles(tables, files, x) && x.key.user == e.key.user && e.key.sequence < x.key.sequence <= snapshot;
      var j :| 0 <= j < |input| && input[j] == x;
      FirstIsNewer(hist, x, e);
      assert j < i;
    }
  }

  lemma ChunkFile(
      outputs: seq<FileMeta>, written: map<nat, seq<Entry>>, chunks: seq<seq<Entry>>, first: nat, o: FileMeta)
    requires Writing(outputs, written, chunks, None, first) && Sorted(Flatten(chunks)) && o in outputs
    ensures first <= o.number < first + |outputs| && o.number in written && FileMatches(o, written[o.number])
  {
    FlattenSorted(chunks);
    var j :| 0 <= j < |outputs| && outputs[j] == o;
    assert ChunkWritten(outputs, written, chunks[j], first, j);
  }

  lemma ChunkFilesApart(
      outputs: seq<FileMeta>, written: map<nat, seq<Entry>>, chunks: seq<seq<Entry>>, first: nat, o: FileMeta,
      p: FileMeta)
    requires Writing(outputs, written, chunks, None, first) && Sorted(Flatten(chunks))
    requires o in outputs && p in outputs && o != p
    ensures Apart(o, p) && o.number != p.number
  {
    FlattenSorted(chunks);
    hide Sorted, Flatten;
    var i :| 0 <= i < |outputs| && outputs[i] == o;
    var j :| 0 <= j < |outputs| && outputs[j] == p;
    var s, t := chunks[i], chunks[j];
    assert ChunkWritten(outputs, written, s, first, i) && ChunkWritten(outputs, written, t, first, j);
    assert s[0] in s && s[|s| - 1] in s && t[0] in t && t[|t| - 1] in t;
  }

  lemma ChunkEntries(
      outputs: seq<FileMeta>, written: map<nat, seq<Entry>>, chunks: seq<seq<Entry>>, first: nat, e: Entry)
    requires Writing(outputs, written, chunks, None, first)
    ensures e in Flatten(chunks) <==> InFiles(written, Files(outputs), e)
  {
    FlattenMembers(chunks, e);
    if e in Flatten(chunks) {
      var j :| 0 <= j < |chunks| && e in chunks[j];
      assert ChunkWritten(outputs, written, chunks[j], first, j) && outputs[j] in Files(outputs);
    }
    if InFiles(written, Files(outputs), e) {
      var o :| o in Files(outputs) && o.number in written && e in written[o.number];
      var j :| 0 <= j < |outputs| && outputs[j] == o;
      assert ChunkWritten(outputs, written, chunks[j], first, j);
    }
  }

  /** Old and new tables do not mix. */
  lemma TablesApart(
      tables: map<nat, seq<Entry>>, written: map<nat, seq<Entry>>, files: set<FileMeta>, outs: set<FileMeta>,
      first: nat)
    requires forall f :: f in files ==> f.number < first
    requires forall n :: n in written ==> first <= n
    requires forall o :: o in outs ==> o.number in written
    ensures forall e :: InFiles(tables + written, files, e) <==> InFiles(tables, files, e)
    ensures forall e :: InFiles(tables + written, outs, e) <==> InFiles(written, outs, e)
    ensures forall e, s :: Hidden(tables + written, files, s, e) <==> Hidden(tables, files, s, e)
  {
    var all := tables + written;
    forall e ensures InFiles(all, files, e) <==> InFiles(tables, files, e) {
    }
    forall e ensures InFiles(all, outs, e) <==> InFiles(written, outs, e) {
    }
    forall e, s ensures Hidden(all, files, s, e) <==> Hidden(tables, files, s, e) {
    }
  }

  lemma OutputEntries(
      input: seq<Entry>, hist: seq<Op>, v: Version, tables: map<nat, seq<Entry>>, level: nat, files: set<FileMeta>,
      snapshot: nat, outputs: seq<FileMeta>, written: map<nat, seq<Entry>>, chunks: seq<seq<Entry>>, first: nat,
      e: Entry)
    requires Sorted(input)
    requires forall e {:trigger InFiles(tables, files, e)} :: e in input <==> InFiles(tables, files, e)
    requires forall e :: e in input ==> IsUpdate(hist, e)
    requires Writing(outputs, written, chunks, None, first)
    requires Flatten(chunks) == Survivors(input, v, level, snapshot, |input|)
    ensures InFiles(written, Files(outputs), e) <==>
        InFiles(tables, files, e) && !Dropped(v, tables, level, files, snapshot, e)
  {
    hide Sorted, Hidden, HiddenAt, Survives, IsUpdate, ObsoleteTombstone, Writing, Flatten;
    SurvivorsMembers(input, v, level, snapshot, |input|);
    ChunkEntries(outputs, written, chunks, first, e);
    forall i | 0 <= i < |input| && input[i] == e
      ensures Survives(input, v, level, snapshot, i) <==> !Dropped(v, tables, level, files, snapshot, e)
    {
      SurvivesIsKept(input, hist, v, tables, level, files, snapshot, i);
    }
  }

  /** The compaction loop, run over the merged entries of the inputs, writes exactly the files
      with which the state machine begins a compaction. */
  lemma WorkMeetsSpecification(
      input: seq<Entry>, hist: seq<Op>, v: Version, tables: map<nat, seq<Entry>>, level: nat, files: set<FileMeta>,
      snapshot: nat, outputs: seq<FileMeta>, written: map<nat, seq<Entry>>, chunks: seq<seq<Entry>>, first: nat)
    requires Sorted(input)
    requires forall e {:trigger InFiles(tables, files, e)} :: e in input <==> InFiles(tables, files, e)
    requires forall e :: e in input ==> IsUpdate(hist, e)
    requires forall f :: f in files ==> f.number < first
    requires Writing(outputs, written, chunks, None, first)
    requires Flatten(chunks) == Survivors(input, v, level, snapshot, |input|)
    ensures OutputsOk(v, tables + written, level, files, snapshot, Files(outputs))
    ensures forall o :: o in outputs ==> first <= o.number < first + |outputs| && o.number in written
    ensures forall n :: n in written ==> first <= n < first + |outputs|
    ensures forall o, p :: o in outputs && p in outputs && o.number == p.number ==> o == p
  {
    hide Sorted, Hidden, IsUpdate, ObsoleteTombstone, Writing, FileMatches, Apart;
    WrittenNumbers(outputs, written, chunks, first);
    SurvivorsSorted(input, v, level, snapshot, |input|);
    forall o | o in outputs
      ensures first <= o.number < first + |outputs| && o.number in written && FileMatches(o, written[o.number])
    {
      ChunkFile(outputs, written, chunks, first, o);
    }
    forall o, p | o in outputs && p in outputs && o != p ensures Apart(o, p) && o.number != p.number {
      ChunkFilesApart(outputs, written, chunks, first, o, p);
    }
    TablesApart(tables, written, files, Files(outputs), first);
    var all, outs := tables + written, Files(outputs);
    forall e ensures InFiles(all, outs, e) <==> InFiles(all, files, e) && !Dropped(v, all, level, files, snapshot, e) {
      OutputEntries(input, hist, v, tables, level, files, snapshot, outputs, written, chunks, first, e);
    }
  }

  lemma WrittenNumbers(outputs: seq<FileMeta>, written: map<nat, seq<Entry>>, chunks: seq<seq<Entry>>, first: nat)
    requires Writing(outputs, written, chunks, None, first)
    ensures forall n :: n in written ==> first <= n < first + |outputs|
  {
  }

  // ----- What the limits are for -----

  /** If some stop lies after the first entry of an output and not after its last, it lies between two
      that follow each other. */
  lemma {:induction false} StopWithin(x: Limits, chunk: seq<Entry>, n: nat, p: nat)
    requires n < |chunk| && StopsAt(x, p)
    requires Less(chunk[0].key, x.input[p].key) && AtMost(x.input[p].key, chunk[n].key)
    ensures exists m :: 0 < m <= n && StopsBetween(x, chunk[m - 1], chunk[m])
  {
    if n > 0 && AtMost(x.input[p].key, chunk[n - 1].key) {
      StopWithin(x, chunk, n - 1, p);
    } else {
      assert n > 0;
      assert StopsBetween(x, chunk[n - 1], chunk[n]);
    }
  }

  /** No output reaches over more than ten files' worth of the level after next, so that compacting it
      further down stays cheap: between its first key and its last, no more than that is passed. */
  lemma OutputOverlap(x: Limits, chunk: seq<Entry>, a: nat, b: nat)
    requires Sorted(x.input) && RunsOn(x, chunk) && a <= b < |x.input|
    requires chunk[0] == x.input[a] && chunk[|chunk| - 1] == x.input[b]
    ensures
      BytesBetween(x.grandparents, Passed(x.grandparents, x.input[a].key), Passed(x.grandparents, x.input[b].key))
      <= 10 * x.maxFileSize
  {
    hide Passed, BytesBetween, Less;
    var p := LastStop(x, b);
    StopIsStop(x, b);
    if p > a {
      InputOrder(x, a, p);
      InputOrder(x, p, b);
      StopWithin(x, chunk, |chunk| - 1, p);
      assert false;
    }
    SinceStop(x, b);
    PassedLess(x, p, a, b);
  }

  lemma InputOrder(x: Limits, a: nat, b: nat)
    requires Sorted(x.input) && a <= b < |x.input|
    ensures AtMost(x.input[a].key, x.input[b].key) && (a < b ==> Less(x.input[a].key, x.input[b].key))
  {
  }

  lemma {:induction false} StopIsStop(x: Limits, i: nat)
    requires i < |x.input|
    ensures var p := LastStop(x, i); p > 0 ==> StopsAt(x, p)
  {
    hide Passed, BytesBetween;
    if i > 0 {
      StopIsStop(x, i - 1);
    }
  }

  /** Since the last stop, no more has been passed than the limit. */
  lemma SinceStop(x: Limits, i: nat)
    requires i < |x.input|
    ensures
      var p := LastStop(x, i);
      BytesBetween(x.grandparents, Passed(x.grandparents, x.input[p].key), Passed(x.grandparents, x.input[i].key))
      <= 10 * x.maxFileSize
  {
    hide Passed;
    var n := Passed(x.grandparents, x.input[i].key);
    assert x.grandparents[n..n] == [];
  }

  lemma PassedLess(x: Limits, p: nat, a: nat, b: nat)
    requires Sorted(x.input) && p <= a <= b < |x.input|
    ensures
      BytesBetween(x.grandparents, Passed(x.grandparents, x.input[a].key), Passed(x.grandparents, x.input[b].key)) <=
      BytesBetween(x.grandparents, Passed(x.grandparents, x.input[p].key), Passed(x.grandparents, x.input[b].key))
  {
    PassedGrows(x, p, a);
    PassedGrows(x, a, b);
    hide Passed, SumSizes;
    var g := x.grandparents;
    var i, j, k := Passed(g, x.input[p].key), Passed(g, x.input[a].key), Passed(g, x.input[b].key);
    assert g[i..k] == g[i..j] + g[j..k];
    SumSizesAppend(g[i..j], g[j..k]);
  }

  /** And no output is cut for the sake of that level without reason: at a stop, more than the limit has
      been passed since the one before. */
  lemma StopIsNeeded(x: Limits, i: nat)
    requires StopsAt(x, i)
    ensures
      var p := LastStop(x, i - 1);
      && p < i && (p == 0 || StopsAt(x, p)) && (forall q: nat :: p < q < i ==> !StopsAt(x, q))
      && BytesBetween(x.grandparents, Passed(x.grandparents, x.input[p].key), Passed(x.grandparents, x.input[i].key))
         > 10 * x.maxFileSize
  {
    hide Passed, BytesBetween;
    StopIsStop(x, i - 1);
    NoStopSince(x, i - 1);
  }

  lemma {:induction false} NoStopSince(x: Limits, i: nat)
    requires i < |x.input|
    ensures forall q: nat :: LastStop(x, i) < q <= i ==> !StopsAt(x, q)
  {
    hide Passed, BytesBetween;
    if i > 0 {
      NoStopSince(x, i - 1);
    }
  }

  /** Before its last entry, an output is not full; and one that another follows is full, or a stop
      follows it. */
  lemma OutputSize(x: Limits, chunks: seq<seq<Entry>>, j: nat)
    requires WellCut(x, chunks) && j < |chunks|
    ensures chunks[j] != []
    ensures var n := |chunks[j]| - 1; n > 0 ==> x.fileSize(chunks[j][..n]) < x.maxFileSize
    ensures j + 1 < |chunks| ==>
      x.fileSize(chunks[j]) >= x.maxFileSize || StopsBetween(x, chunks[j][|chunks[j]| - 1], chunks[j + 1][0])
  {
    hide StopsBetween;
    assert RunsOn(x, chunks[j]);
    assert j + 1 < |chunks| ==> EndsBetween(x, chunks[j], chunks[j + 1]);
  }
}
