/** Point lookups: the memtable, the immutable memtable, then the levels from newest to oldest,
    stopping at the first entry found.  The first hit is the newest visible update. */
module PointLookup {
  import opened Keys
  import opened Store
  import opened Reorganise
  import opened FileSearch

  ghost predicate Visible(e: Entry, k: UserKey, s: nat) {
    e.key.user == k && e.key.sequence <= s
  }

  /** The first entry of a table at or after the key with which `k` is visible at `s`, if it is for `k`. */
  method SearchTable(t: seq<Entry>, k: UserKey, s: nat) returns (hit: Option<Entry>)
    requires Sorted(t)
    ensures hit.None? ==> forall x :: x in t ==> !Visible(x, k, s)
    ensures hit.Some? ==> hit.value in t && Visible(hit.value, k, s)
    ensures hit.Some? ==> forall x :: x in t && Visible(x, k, s) ==> x.key.sequence <= hit.value.key.sequence
  {
    var target := SeekKey(k, s);
    var lo, hi := 0, |t|;
    while lo < hi
      invariant 0 <= lo <= hi <= |t|
      invariant forall i :: 0 <= i < lo ==> Less(t[i].key, target)
      invariant forall i :: hi <= i < |t| ==> AtMost(target, t[i].key)
    {
      var mid := (lo + hi) / 2;
      if Less(t[mid].key, target) {
        lo := mid + 1;
      } else {
        hi := mid;
      }
    }
    if lo < |t| && t[lo].key.user == k {
      hit := Some(t[lo]);
    } else {
      hit := None;
    }
    forall x | x in t && Visible(x, k, s)
      ensures hit.Some? && x.key.sequence <= hit.value.key.sequence
    {
      var i :| 0 <= i < |t| && t[i] == x;
      assert i == lo || Less(t[lo].key, t[i].key);
    }
  }

  /** Every file's table is there, sorted, and bounded by the file's keys. */
  ghost predicate HasTables(files: seq<FileMeta>, tables: map<nat, seq<Entry>>) {
    forall f :: f in files ==> f.number in tables && FileMatches(f, tables[f.number])
  }

  /** `e` is the newest visible entry of the files; None if there is none. */
  ghost predicate NewestOf(files: seq<FileMeta>, tables: map<nat, seq<Entry>>, k: UserKey, s: nat, e: Option<Entry>)
    requires HasTables(files, tables)
  {
    && (e.Some? ==> Visible(e.value, k, s) && exists f :: f in files && e.value in tables[f.number])
    && (forall f, x :: f in files && x in tables[f.number] && Visible(x, k, s) ==>
      e.Some? && x.key.sequence <= e.value.key.sequence)
  }

  /** A level below level 0: only the first file that ends at or after the key can hold it first. */
  method SearchLevel(files: seq<FileMeta>, tables: map<nat, seq<Entry>>, k: UserKey, s: nat)
    returns (hit: Option<Entry>)
    requires SortedDisjoint(files) && HasTables(files, tables)
    ensures NewestOf(files, tables, k, s, hit)
  {
    var target := SeekKey(k, s);
    var index := FindFile(files, target);
    hit := None;
    if index < |files| {
      var f := files[index];
      assert f in files;
      if k < f.smallest.user {
        // all of the file is past the key
      } else {
        hit := SearchTable(tables[f.number], k, s);
      }
    }
    forall g, x | g in files && x in tables[g.number] && Visible(x, k, s)
      ensures hit.Some? && x.key.sequence <= hit.value.key.sequence
    {
      InFileRange(g, tables[g.number], x);
      var i :| 0 <= i < |files| && files[i] == g;
      assert i >= index;
      LaterFile(files, tables, k, s, index, i, x, hit);
    }
  }

  /** What a later file shows is older than what the file found shows. */
  lemma LaterFile(
      files: seq<FileMeta>, tables: map<nat, seq<Entry>>, k: UserKey, s: nat, index: nat, i: nat, x: Entry,
      hit: Option<Entry>)
    requires SortedDisjoint(files) && HasTables(files, tables) && index <= i < |files|
    requires x in tables[files[i].number] && Visible(x, k, s)
    requires AtMost(SeekKey(k, s), files[index].largest)
    requires k >= files[index].smallest.user ==>
               && (hit.None? ==> forall y :: y in tables[files[index].number] ==> !Visible(y, k, s))
               && (hit.Some? ==> Visible(hit.value, k, s) && hit.value in tables[files[index].number])
               && (hit.Some? ==> forall y :: y in tables[files[index].number] && Visible(y, k, s) ==>
                 y.key.sequence <= hit.value.key.sequence)
    ensures hit.Some? && x.key.sequence <= hit.value.key.sequence
  {
    var f, g := files[index], files[i];
    assert f in files && g in files;
    FileEndsHeld(f, tables[f.number]);
    InFileRange(g, tables[g.number], x);
    assert i == index || Less(f.largest, g.smallest);
    assert k >= f.smallest.user;
    var last :| last in tables[f.number] && last.key == f.largest;
    assert i != index ==> Visible(last, k, s);
    if i != index {
      InFileRange(f, tables[f.number], hit.value);
    }
  }

  /** Files of level 0 that may hold the key, newest first. */
  method NewestFirst(files: seq<FileMeta>, k: UserKey) returns (sorted: seq<FileMeta>)
    ensures forall f :: f in sorted <==> f in files && f.smallest.user <= k <= f.largest.user
    ensures forall i, j :: 0 <= i < j < |sorted| ==> sorted[i].number >= sorted[j].number
  {
    sorted := [];
    for i := 0 to |files|
      invariant forall f :: f in sorted <==> f in files[..i] && f.smallest.user <= k <= f.largest.user
      invariant forall p, q :: 0 <= p < q < |sorted| ==> sorted[p].number >= sorted[q].number
    {
      var f := files[i];
      assert files[..i + 1] == files[..i] + [f];
      if k >= f.smallest.user && k <= f.largest.user {
        sorted := InsertByNumber(sorted, f);
      }
    }
    assert files[..|files|] == files;
  }

  method InsertByNumber(files: seq<FileMeta>, f: FileMeta) returns (sorted: seq<FileMeta>)
    requires forall i, j :: 0 <= i < j < |files| ==> files[i].number >= files[j].number
    ensures forall i, j :: 0 <= i < j < |sorted| ==> sorted[i].number >= sorted[j].number
    ensures forall g :: g in sorted <==> g in files || g == f
  {
    var j := 0;
    while j < |files| && files[j].number > f.number
      invariant 0 <= j <= |files|
      invariant forall p :: 0 <= p < j ==> files[p].number > f.number
    {
      j := j + 1;
    }
    assert files == files[..j] + files[j..];
    sorted := files[..j] + [f] + files[j..];
  }

  /** Level 0: the files overlap, so each one that may hold the key is searched, newest first. */
  method SearchLevel0(files: seq<FileMeta>, tables: map<nat, seq<Entry>>, k: UserKey, s: nat)
    returns (hit: Option<Entry>, ghost at: Option<FileMeta>)
    requires HasTables(files, tables)
    ensures hit.None? ==> forall f, x :: f in files && x in tables[f.number] ==> !Visible(x, k, s)
    ensures hit.Some? ==>
        at.Some? && at.value in files && hit.value in tables[at.value.number] && Visible(hit.value, k, s)
    ensures hit.Some? ==> forall x :: x in tables[at.value.number] && Visible(x, k, s) ==>
        x.key.sequence <= hit.value.key.sequence
    ensures hit.Some? ==> forall f, x :: f in files && f.number > at.value.number && x in tables[f.number] ==>
        !Visible(x, k, s)
  {
    var sorted := NewestFirst(files, k);
    at := None;
    for i := 0 to |sorted|
      invariant forall j, x :: 0 <= j < i && x in tables[sorted[j].number] ==> !Visible(x, k, s)
    {
      var f := sorted[i];
      assert f in sorted;
      hit := SearchTable(tables[f.number], k, s);
      if hit.Some? {
        at := Some(f);
        forall g, x | g in files && g.number > f.number && x in tables[g.number] ensures !Visible(x, k, s) {
          InFileRange(g, tables[g.number], x);
          OnlySorted(files, sorted, k, i, g);
        }
        return;
      }
    }
    hit := None;
    forall g, x | g in files && x in tables[g.number] ensures !Visible(x, k, s) {
      InFileRange(g, tables[g.number], x);
      assert g in sorted || !(g.smallest.user <= k <= g.largest.user);
    }
  }

  lemma OnlySorted(files: seq<FileMeta>, sorted: seq<FileMeta>, k: UserKey, i: nat, g: FileMeta)
    requires forall f :: f in sorted <==> f in files && f.smallest.user <= k <= f.largest.user
    requires forall i, j :: 0 <= i < j < |sorted| ==> sorted[i].number >= sorted[j].number
    requires i < |sorted| && g in files && g.number > sorted[i].number
    ensures g.smallest.user <= k <= g.largest.user ==> exists j :: 0 <= j < i && sorted[j] == g
  {
  }

  // ----- The first hit is the newest visible update -----

  /** `e` at `loc` is newer than every visible entry except possibly those in places below. */
  ghost predicate FirstHit(d: Data, k: UserKey, s: nat, loc: Loc, e: Entry) {
    && Holds(d, loc, e) && Visible(e, k, s)
    && forall a, x :: Holds(d, a, x) && Visible(x, k, s) ==> Above(loc, a) || x.key.sequence <= e.key.sequence
  }

  lemma FirstHitIsNewest(d: Data, hist: seq<Op>, k: UserKey, s: nat, loc: Loc, e: Entry)
    requires DataInv(d, hist) && FirstHit(d, k, s, loc, e)
    ensures Newest(hist, Held(d, hist), k, s) == e.key.sequence
    ensures View(hist, Held(d, hist), k, s) == if e.key.kind == Value then Some(e.value) else None
  {
    var n := e.key.sequence;
    assert IsUpdate(hist, e) && IsHeld(d, hist, n);
    forall i | n < i <= s && i <= |hist| && i in Held(d, hist) ensures hist[i - 1].user != k {
      var a :| Holds(d, a, EntryOf(hist, i));
      assert Above(loc, a) && hist[i - 1].user == k ==> n > i;
    }
    NewestIsUnique(hist, Held(d, hist), k, s, n);
  }

  lemma NoHitIsNone(d: Data, hist: seq<Op>, k: UserKey, s: nat)
    requires forall a, x :: Holds(d, a, x) ==> !Visible(x, k, s)
    ensures View(hist, Held(d, hist), k, s) == None
  {
    forall i | 0 < i <= s && i <= |hist| && i in Held(d, hist) ensures hist[i - 1].user != k {
      var a :| Holds(d, a, EntryOf(hist, i));
    }
    NewestIsUnique(hist, Held(d, hist), k, s, 0);
  }

  /** Nothing visible in the levels before `l`. */
  ghost predicate ClearBefore(d: Data, k: UserKey, s: nat, l: nat) {
    forall a, x :: Holds(d, a, x) && a.InFile? && a.level < l ==> !Visible(x, k, s)
  }

  /** The first hit among the files. */
  ghost predicate FirstInFiles(d: Data, k: UserKey, s: nat, loc: Loc, e: Entry) {
    && loc.InFile? && Holds(d, loc, e) && Visible(e, k, s)
    && forall a, x :: Holds(d, a, x) && a.InFile? && Visible(x, k, s) ==>
      Above(loc, a) || x.key.sequence <= e.key.sequence
  }

  lemma Level0Hit(d: Data, files: seq<FileMeta>, k: UserKey, s: nat, f: FileMeta, e: Entry)
    requires TablesOk(d.version, d.tables) && NumbersUnique(d.version) && Files(files) == d.version[0]
    requires f in files && e in d.tables[f.number] && Visible(e, k, s)
    requires forall x :: x in d.tables[f.number] && Visible(x, k, s) ==> x.key.sequence <= e.key.sequence
    requires forall g, x :: g in files && g.number > f.number && g.number in d.tables && x in d.tables[g.number] ==>
        !Visible(x, k, s)
    ensures FirstInFiles(d, k, s, InFile(0, f), e)
  {
    var loc := InFile(0, f);
    assert f in d.version[0];
    forall a, x | Holds(d, a, x) && a.InFile? && Visible(x, k, s)
      ensures Above(loc, a) || x.key.sequence <= e.key.sequence
    {
      if a.level == 0 {
        assert a.file in Files(files);
        assert a.file.number == f.number ==> a.file == f;
      }
    }
  }

  lemma LevelHit(d: Data, files: seq<FileMeta>, l: nat, k: UserKey, s: nat, e: Entry) returns (loc: Loc)
    requires TablesOk(d.version, d.tables) && 1 <= l < NUM_LEVELS && Files(files) == d.version[l]
    requires HasTables(files, d.tables)
    requires ClearBefore(d, k, s, l) && NewestOf(files, d.tables, k, s, Some(e))
    ensures FirstInFiles(d, k, s, loc, e)
  {
    var f :| f in files && e in d.tables[f.number];
    loc := InFile(l, f);
    assert f in Files(files);
    forall a, x | Holds(d, a, x) && a.InFile? && Visible(x, k, s)
      ensures Above(loc, a) || x.key.sequence <= e.key.sequence
    {
      if a.level == l {
        assert a.file in Files(files);
      }
    }
  }

  /** The levels, newest first, each with the search that suits it. */
  method VersionGet(files: seq<seq<FileMeta>>, tables: map<nat, seq<Entry>>, ghost d: Data, k: UserKey, s: nat)
    returns (hit: Option<Entry>, ghost loc: Loc)
    requires TablesOk(d.version, d.tables) && NumbersUnique(d.version)
    requires Lists(files, d.version) && tables == d.tables
    ensures hit.None? ==> ClearBefore(d, k, s, NUM_LEVELS)
    ensures hit.Some? ==> FirstInFiles(d, k, s, loc, hit.value)
  {
    hit, loc := None, InMem;
    for level := 0 to NUM_LEVELS
      invariant hit.None? && ClearBefore(d, k, s, level)
    {
      assert forall f :: f in files[level] <==> f in Files(files[level]);
      assert HasTables(files[level], tables);
      if level == 0 {
        ghost var at;
        hit, at := SearchLevel0(files[0], tables, k, s);
        if hit.Some? {
          Level0Hit(d, files[0], k, s, at.value, hit.value);
          loc := InFile(0, at.value);
          return;
        }
      } else {
        hit := SearchLevel(files[level], tables, k, s);
        if hit.Some? {
          loc := LevelHit(d, files[level], level, k, s, hit.value);
          return;
        }
      }
    }
  }

  /** A whole lookup finds what the view says: the newest visible update's value, or nothing
      when there is none or it is a deletion. */
  method Get(
      mem: seq<Entry>, imm: seq<Entry>, files: seq<seq<FileMeta>>, tables: map<nat, seq<Entry>>, ghost d: Data,
      ghost hist: seq<Op>, k: UserKey, s: nat)
    returns (value: Option<Bytes>)
    requires DataInv(d, hist) && Lists(files, d.version)
    requires mem == d.mem && imm == d.imm && tables == d.tables
    ensures value == View(hist, Held(d, hist), k, s)
  {
    ghost var loc := InMem;
    var hit := SearchTable(mem, k, s);
    if hit.None? {
      hit := SearchTable(imm, k, s);
      loc := InImm;
      if hit.None? {
        hit, loc := VersionGet(files, tables, d, k, s);
      }
    }
    if hit.None? {
      NoHitIsNone(d, hist, k, s);
      return None;
    }
    FirstHitIsNewest(d, hist, k, s, loc, hit.value);
    return if hit.value.key.kind == Value then Some(hit.value.value) else None;
  }

  // ----- Where a flushed table goes -----

  ghost predicate Overlapped(files: seq<FileMeta>, file: FileMeta) {
    exists f :: f in files && RangesTouch(file, f)
  }

  /** What keeps a new table from going deeper than level `l`: the lowest level for it, a file in
      the next level, or too many bytes in the level after. */
  ghost predicate GoesNoDeeper(files: seq<seq<FileMeta>>, file: FileMeta, maxFileSize: nat, l: nat)
    requires |files| == NUM_LEVELS && l <= MAX_MEM_COMPACT_LEVEL
  {
    || l == MAX_MEM_COMPACT_LEVEL
    || Overlapped(files[l + 1], file)
    || SumSizes(Touching(files[l + 2], Some(file.smallest.user), Some(file.largest.user))) > 10 * maxFileSize
  }

  /** Level 0 if a file there overlaps the new one; otherwise the first level it does not go past. */
  ghost predicate GoesTo(files: seq<seq<FileMeta>>, file: FileMeta, maxFileSize: nat, level: nat)
    requires |files| == NUM_LEVELS
  {
    if Overlapped(files[0], file) then level == 0
    else
      && level <= MAX_MEM_COMPACT_LEVEL && GoesNoDeeper(files, file, maxFileSize, level)
      && forall l :: 0 <= l < level ==> !GoesNoDeeper(files, file, maxFileSize, l)
  }

  lemma GoesToOne(files: seq<seq<FileMeta>>, file: FileMeta, maxFileSize: nat, level: nat, level': nat)
    requires |files| == NUM_LEVELS && GoesTo(files, file, maxFileSize, level)
    requires GoesTo(files, file, maxFileSize, level')
    ensures level == level'
  {
  }

  /** A table that goes below level 0 overlaps no file on its way, and not too much of the level that it
      would be compacted with: no more than ten files' worth, two levels down from each it leaves. */
  lemma FlushIsCheap(files: seq<seq<FileMeta>>, file: FileMeta, maxFileSize: nat, level: nat, l: nat)
    requires |files| == NUM_LEVELS && GoesTo(files, file, maxFileSize, level) && l < level
    ensures level <= 2 && forall g :: g in files[l] ==> !RangesTouch(file, g)
    ensures forall g :: g in files[l + 1] ==> !RangesTouch(file, g)
    ensures SumSizes(Touching(files[l + 2], Some(file.smallest.user), Some(file.largest.user))) <= 10 * maxFileSize
  {
    assert !GoesNoDeeper(files, file, maxFileSize, l);
    assert l > 0 ==> !GoesNoDeeper(files, file, maxFileSize, l - 1);
  }

  /** The level that the rule leads to is one that a flush may use. */
  lemma GoesWhereAllowed(files: seq<seq<FileMeta>>, v: Version, file: FileMeta, maxFileSize: nat, level: nat)
    requires Lists(files, v) && GoesTo(files, file, maxFileSize, level)
    ensures FlushLevelOk(v, file, level)
  {
    forall l, g | 0 <= l <= level && g in v[l] && level > 0 ensures !RangesTouch(file, g) {
      assert g in Files(files[l]) && g in files[l];
      assert l > 0 ==> !GoesNoDeeper(files, file, maxFileSize, l - 1);
    }
  }

  method PickLevelForMemTableOutput(files: seq<seq<FileMeta>>, ghost v: Version, file: FileMeta, maxFileSize: nat)
    returns (level: nat)
    requires Lists(files, v)
    requires forall l, f :: 0 <= l < NUM_LEVELS && f in files[l] ==> f.largest.sequence <= MAX_SEQUENCE
    ensures GoesTo(files, file, maxFileSize, level)
  {
    var begin, end := Some(file.smallest.user), Some(file.largest.user);
    level := 0;
    var overlap := SomeFileOverlapsRange(false, files[0], begin, end);
    if !overlap {
      while level < MAX_MEM_COMPACT_LEVEL
        invariant level <= MAX_MEM_COMPACT_LEVEL
        invariant forall l :: 0 <= l < level ==> !GoesNoDeeper(files, file, maxFileSize, l)
      {
        overlap := SomeFileOverlapsRange(true, files[level + 1], begin, end);
        if overlap {
          break;
        }
        var overlaps, lo, hi := GetOverlappingInputs(level + 2, files[level + 2], begin, end);
        if SumSizes(overlaps) > 10 * maxFileSize {
          break;
        }
        level := level + 1;
      }
    }
  }
}
