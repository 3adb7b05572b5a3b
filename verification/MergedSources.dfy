/** The sources of an iterator over many tables: a cursor of its own for each file of level 0, one
    for all files together of every other level. */
module MergedSources {
  import opened Keys
  import opened Coding
  import opened Store
  import opened Reorganise
  import opened FileSearch
  import opened Cursors
  import opened IteratorWrapper
  import opened MergingIterator
  import opened LevelFiles

  /** A source shows the entries of some places of the database. */
  ghost predicate Shows(d: Data, es: seq<Entry>, places: iset<Loc>) {
    Sorted(es) && forall x :: x in es <==> exists loc :: loc in places && Holds(d, loc, x)
  }

  /** Each source shows places of its own. */
  ghost predicate Parts(d: Data, sources: seq<seq<Entry>>, places: seq<iset<Loc>>) {
    && |sources| == |places|
    && (forall k :: 0 <= k < |sources| ==> Shows(d, sources[k], places[k]))
    && (forall k, l :: 0 <= k < l < |places| ==> places[k] !! places[l])
  }

  ghost predicate Covered(places: seq<iset<Loc>>, loc: Loc) {
    exists k :: 0 <= k < |places| && loc in places[k]
  }

  // ----- The merge -----

  /** Entries that differ have different sequence numbers. */
  ghost predicate SequencesTell(a: seq<Entry>, b: seq<Entry>) {
    forall x, y :: x in a && y in b && x.key.sequence == y.key.sequence ==> x == y
  }

  /** All entries of a source put into a sorted sequence that has none of them. */
  lemma {:induction false} InsertSource(t: seq<Entry>, es: seq<Entry>) returns (all: seq<Entry>)
    requires Sorted(t) && Sorted(es) && SequencesTell(t + es, t + es) && forall x :: x in t ==> x !in es
    ensures Sorted(all) && forall x :: x in all <==> x in t || x in es
    decreases |es|
  {
    hide Less, InsertSorted;
    if es == [] {
      all := t;
    } else {
      var n := |es| - 1;
      var e, front := es[n], es[..n];
      assert es == front + [e];
      NotBefore(es, n);
      assert forall x :: x in t + front ==> x in t + es;
      all := InsertSource(t, front);
      forall x | x in all ensures x.key.sequence != e.key.sequence {
        assert x in t + es && e in t + es && x != e;
      }
      InsertSortedSorted(all, e);
      InsertSortedMembers(all, e);
      all := InsertSorted(all, e);
    }
  }

  /** Sources that share no entry have a merge. */
  lemma {:induction false} MergeExists(sources: seq<seq<Entry>>) returns (all: seq<Entry>)
    requires forall k :: 0 <= k < |sources| ==> Sorted(sources[k])
    requires forall k, l :: 0 <= k < |sources| && 0 <= l < |sources| ==> SequencesTell(sources[k], sources[l])
    requires forall k, l, x :: 0 <= k < |sources| && 0 <= l < |sources| && x in sources[k] && x in sources[l] ==> k == l
    ensures IsMerge(all, sources)
  {
    hide Less, Sorted, SequencesTell;
    all := MergeFirst(sources, |sources|);
    assert sources[..|sources|] == sources;
  }

  lemma {:induction false} MergeFirst(sources: seq<seq<Entry>>, n: nat) returns (all: seq<Entry>)
    requires n <= |sources| && forall k :: 0 <= k < |sources| ==> Sorted(sources[k])
    requires forall k, l :: 0 <= k < |sources| && 0 <= l < |sources| ==> SequencesTell(sources[k], sources[l])
    requires forall k, l, x :: 0 <= k < |sources| && 0 <= l < |sources| && x in sources[k] && x in sources[l] ==> k == l
    ensures Sorted(all) && forall x :: x in all <==> exists k :: 0 <= k < n && x in sources[k]
  {
    hide Less;
    if n == 0 {
      all := [];
    } else {
      var before := MergeFirst(sources, n - 1);
      var es := sources[n - 1];
      forall x: Entry, y: Entry | x in before + es && y in before + es && x.key.sequence == y.key.sequence
        ensures x == y
      {
        var k :| 0 <= k < n && x in sources[k];
        var l :| 0 <= l < n && y in sources[l];
        assert SequencesTell(sources[k], sources[l]);
      }
      all := InsertSource(before, es);
    }
  }

  /** Sources that show different places of a database have a merge, and it shows all these places. */
  lemma PartsMerge(d: Data, hist: seq<Op>, sources: seq<seq<Entry>>, places: seq<iset<Loc>>) returns (all: seq<Entry>)
    requires DataInv(d, hist) && Parts(d, sources, places)
    ensures IsMerge(all, sources)
    ensures forall x :: x in all <==> exists loc :: Covered(places, loc) && Holds(d, loc, x)
    ensures forall x :: x in all ==> IsUpdate(hist, x)
  {
    hide Less, Sorted, Holds, IsUpdate;
    forall k, x | 0 <= k < |sources| && x in sources[k]
      ensures exists loc :: loc in places[k] && Holds(d, loc, x) && IsUpdate(hist, x)
    {
      assert Shows(d, sources[k], places[k]);
    }
    forall k, l | 0 <= k < |sources| && 0 <= l < |sources| ensures SequencesTell(sources[k], sources[l]) {
      SameSequence(hist, sources[k], sources[l]);
    }
    forall k, l, x | 0 <= k < |sources| && 0 <= l < |sources| && x in sources[k] && x in sources[l] ensures k == l {
      var a :| a in places[k] && Holds(d, a, x);
      var b :| b in places[l] && Holds(d, b, x);
      OnePlace(d, hist, a, b, x);
      OneSource(places, k, l, a);
    }
    all := MergeExists(sources);
    forall x ensures x in all <==> exists loc :: Covered(places, loc) && Holds(d, loc, x) {
      if loc :| Covered(places, loc) && Holds(d, loc, x) {
        var k :| 0 <= k < |places| && loc in places[k];
        assert Shows(d, sources[k], places[k]) && x in sources[k];
        var i :| 0 <= i < |sources[k]| && sources[k][i] == x;
      }
    }
  }

  lemma OneSource(places: seq<iset<Loc>>, k: nat, l: nat, loc: Loc)
    requires forall i, j :: 0 <= i < j < |places| ==> places[i] !! places[j]
    requires k < |places| && l < |places| && loc in places[k] && loc in places[l]
    ensures k == l
  {
  }

  lemma SameSequence(hist: seq<Op>, a: seq<Entry>, b: seq<Entry>)
    requires forall x :: x in a || x in b ==> IsUpdate(hist, x)
    ensures SequencesTell(a, b)
  {
  }

  // ----- Opening the sources -----

  /** The places that files of a level are. */
  ghost function PlacesOf(level: nat, files: seq<FileMeta>): iset<Loc> {
    iset f | f in files :: InFile(level, f)
  }

  ghost predicate InLevel(d: Data, level: nat, files: seq<FileMeta>) {
    level < NUM_LEVELS && (forall f :: f in files ==> f in d.version[level]) && Openable(files, d.tables)
  }

  /** One more source. */
  lemma AddPart(d: Data, sources: seq<seq<Entry>>, places: seq<iset<Loc>>, es: seq<Entry>, place: iset<Loc>)
    requires Parts(d, sources, places) && Shows(d, es, place) && forall loc :: loc in place ==> !Covered(places, loc)
    ensures Parts(d, sources + [es], places + [place])
    ensures forall loc :: Covered(places + [place], loc) <==> Covered(places, loc) || loc in place
  {
    hide Shows;
    var all := places + [place];
    forall loc ensures Covered(all, loc) <==> Covered(places, loc) || loc in place {
      if Covered(places, loc) {
        var k :| 0 <= k < |places| && loc in places[k];
        assert loc in all[k];
      }
      assert all[|places|] == place;
    }
    forall k, l | 0 <= k < l < |all| ensures all[k] !! all[l] {
      if l == |places| {
        assert forall loc :: loc in all[k] ==> Covered(places, loc);
      }
    }
  }

  lemma FileShows(d: Data, f: FileMeta)
    requires InLevel(d, 0, [f])
    ensures f.number in d.tables && Shows(d, d.tables[f.number], iset{InFile(0, f)})
  {
    assert f in [f];
    forall x ensures x in d.tables[f.number] <==> exists loc :: loc in iset{InFile(0, f)} && Holds(d, loc, x) {
      assert x in d.tables[f.number] ==> Holds(d, InFile(0, f), x);
    }
  }

  lemma LevelShows(d: Data, level: nat, files: seq<FileMeta>, es: seq<Entry>)
    requires InLevel(d, level, files) && Sorted(es)
    requires forall x :: x in es <==> exists f :: f in files && x in d.tables[f.number]
    ensures Shows(d, es, PlacesOf(level, files))
  {
    hide Sorted;
    forall x ensures x in es <==> exists loc :: loc in PlacesOf(level, files) && Holds(d, loc, x) {
      if x in es {
        var f :| f in files && x in d.tables[f.number];
        assert InFile(level, f) in PlacesOf(level, files) && Holds(d, InFile(level, f), x);
      }
    }
  }

  method OpenFile0(f: FileMeta, tables: map<nat, seq<Entry>>, ghost d: Data) returns (child: Wrapper)
    requires InLevel(d, 0, [f]) && tables == d.tables
    ensures child.Ok() && fresh(child.repr) && Shows(d, child.es, iset{InFile(0, f)})
  {
    FileShows(d, f);
    var cursor := new Cursor(tables[f.number]);
    child := new Wrapper.Single(cursor);
  }

  method OpenFilesOf(level: nat, files: seq<FileMeta>, tables: map<nat, seq<Entry>>, ghost d: Data)
    returns (child: Wrapper)
    requires InLevel(d, level, files) && SortedDisjoint(files) && tables == d.tables
    ensures child.Ok() && fresh(child.repr) && Shows(d, child.es, PlacesOf(level, files))
  {
    child := OpenLevel(files, tables);
    LevelShows(d, level, files, child.es);
  }

  /** Adds the sources for some files of a level: of level 0 one for each file, of another level one
      for all of them. */
  method AddIterators(
      family: Family, level: nat, files: seq<FileMeta>, tables: map<nat, seq<Entry>>, ghost d: Data,
      ghost before: seq<iset<Loc>>)
    returns (ghost places: seq<iset<Loc>>)
    requires InLevel(d, level, files) && tables == d.tables
    requires if level == 0 then Distinct(files) else SortedDisjoint(files)
    requires family.Ok() && Parts(d, family.sources, before)
    requires forall f :: f in files ==> !Covered(before, InFile(level, f))
    modifies family
    ensures family.Ok() && Parts(d, family.sources, places) && fresh(family.repr - old(family.repr))
    ensures forall loc :: Covered(places, loc) <==> Covered(before, loc) || loc in PlacesOf(level, files)
  {
    hide Shows, Parts, Covered, SortedDisjoint, Openable, Family.Ok, Wrapper.Ok;
    places := before;
    if level == 0 {
      for i := 0 to |files|
        invariant family.Ok() && Parts(d, family.sources, places) && fresh(family.repr - old(family.repr))
        invariant forall loc :: Covered(places, loc) <==> Covered(before, loc) || loc in PlacesOf(0, files[..i])
      {
        OneOf(d, files, i);
        var child := OpenFile0(files[i], tables, d);
        AddPart(d, family.sources, places, child.es, iset{InFile(0, files[i])});
        family.Add(child);
        places := places + [iset{InFile(0, files[i])}];
      }
      assert files[..|files|] == files;
    } else if files != [] {
      var child := OpenFilesOf(level, files, tables, d);
      AddPart(d, family.sources, places, child.es, PlacesOf(level, files));
      family.Add(child);
      places := places + [PlacesOf(level, files)];
    }
  }

  lemma OneOf(d: Data, files: seq<FileMeta>, i: nat)
    requires InLevel(d, 0, files) && i < |files| && Distinct(files)
    ensures InLevel(d, 0, [files[i]])
    ensures InFile(0, files[i]) !in PlacesOf(0, files[..i])
    ensures PlacesOf(0, files[..i + 1]) == PlacesOf(0, files[..i]) + iset{InFile(0, files[i])}
  {
  }

  // ----- All sources of a reader -----

  ghost predicate InMemory(imm: Option<seq<Entry>>, loc: Loc) {
    loc.InMem? || (loc.InImm? && imm.Some?)
  }

  /** The places of the memtables and of the files above level `n`. */
  ghost predicate PlacesTo(imm: Option<seq<Entry>>, files: seq<seq<FileMeta>>, n: nat, places: seq<iset<Loc>>) {
    forall loc :: Covered(places, loc) <==>
      InMemory(imm, loc) || (loc.InFile? && loc.level < n && loc.level < |files| && loc.file in files[loc.level])
  }

  lemma AllPlaces(d: Data, imm: Option<seq<Entry>>, files: seq<seq<FileMeta>>, places: seq<iset<Loc>>, x: Entry)
    requires Lists(files, d.version) && PlacesTo(imm, files, NUM_LEVELS, places) && (imm.None? ==> d.imm == [])
    ensures (exists loc :: Covered(places, loc) && Holds(d, loc, x)) <==> exists loc :: Holds(d, loc, x)
  {
    if loc :| Holds(d, loc, x) {
      assert loc.InFile? ==> loc.file in Files(files[loc.level]);
      assert Covered(places, loc) && Holds(d, loc, x);
    }
  }

  lemma MemShows(d: Data)
    requires Sorted(d.mem) && Sorted(d.imm)
    ensures Shows(d, d.mem, iset{InMem}) && Shows(d, d.imm, iset{InImm})
  {
    forall x ensures x in d.mem <==> exists loc :: loc in iset{InMem} && Holds(d, loc, x) {
      assert x in d.mem ==> Holds(d, InMem, x);
    }
    forall x ensures x in d.imm <==> exists loc :: loc in iset{InImm} && Holds(d, loc, x) {
      assert x in d.imm ==> Holds(d, InImm, x);
    }
  }

  lemma LevelOpens(d: Data, hist: seq<Op>, files: seq<seq<FileMeta>>, level: nat)
    requires DataInv(d, hist) && Lists(files, d.version) && level < NUM_LEVELS
    requires forall l, f :: 0 <= l < NUM_LEVELS && f in files[l] ==> f.number < TWO64
    ensures InLevel(d, level, files[level])
    ensures if level == 0 then Distinct(files[0]) else SortedDisjoint(files[level])
  {
    hide SortedDisjoint, Distinct, FileMatches;
    forall f | f in files[level]
      ensures f in d.version[level] && f.number < TWO64 && f.number in d.tables && FileMatches(f, d.tables[f.number])
    {
      assert f in Files(files[level]);
    }
  }

  lemma OneLevelMore(
      imm: Option<seq<Entry>>, files: seq<seq<FileMeta>>, level: nat, before: seq<iset<Loc>>, after: seq<iset<Loc>>)
    requires level < |files| && PlacesTo(imm, files, level, before)
    ensures forall f :: f in files[level] ==> !Covered(before, InFile(level, f))
    ensures (forall loc :: Covered(after, loc) <==> Covered(before, loc) || loc in PlacesOf(level, files[level]))
            ==> PlacesTo(imm, files, level + 1, after)
  {
    hide Covered;
  }

  /** The memtables. */
  method AddMemTables(family: Family, mem: seq<Entry>, imm: Option<seq<Entry>>, ghost d: Data)
    returns (ghost places: seq<iset<Loc>>)
    requires family.Ok() && family.sources == []
    requires Sorted(d.mem) && Sorted(d.imm) && mem == d.mem && d.imm == if imm.Some? then imm.value else []
    modifies family
    ensures family.Ok() && fresh(family.repr - old(family.repr)) && Parts(d, family.sources, places)
    ensures PlacesTo(imm, [], 0, places)
  {
    hide Family.Ok, Wrapper.Ok, Shows, Sorted, Parts, IsMerge;
    MemShows(d);
    NoSources(d);
    var cursor := new Cursor(mem);
    var child := new Wrapper.Single(cursor);
    AddPart(d, [], [], mem, iset{InMem});
    assert [] + [mem] == [mem] && [] + [iset{InMem}] == [iset{InMem}];
    family.Add(child);
    places := [iset{InMem}];
    if imm.Some? {
      var cursor' := new Cursor(imm.value);
      var child' := new Wrapper.Single(cursor');
      AddPart(d, family.sources, places, imm.value, iset{InImm});
      family.Add(child');
      places := places + [iset{InImm}];
    }
  }

  lemma NoSources(d: Data)
    ensures Parts(d, [], []) && forall loc :: !Covered([], loc)
  {
  }

  /** One merging iterator over everything that a reader may see. */
  method NewInternalIterator(
      mem: seq<Entry>, imm: Option<seq<Entry>>, files: seq<seq<FileMeta>>, tables: map<nat, seq<Entry>>,
      ghost d: Data, ghost hist: seq<Op>)
    returns (merger: Merger)
    requires DataInv(d, hist) && Lists(files, d.version) && tables == d.tables
    requires mem == d.mem && d.imm == if imm.Some? then imm.value else []
    requires forall l, f :: 0 <= l < NUM_LEVELS && f in files[l] ==> f.number < TWO64
    ensures merger.Ok() && !merger.Valid() && fresh(merger) && fresh(merger.family) && fresh(merger.family.repr)
    ensures forall x :: x in merger.all <==> exists loc :: Holds(d, loc, x)
    ensures forall x :: x in merger.all ==> IsUpdate(hist, x)
  {
    assert |files| == NUM_LEVELS;
    hide Family.Ok, DataInv, Lists, Parts, Covered, IsUpdate, Holds, SortedDisjoint, Distinct, InLevel, IsMerge;
    var family := new Family();
    assert Sorted(d.mem) && Sorted(d.imm) by {
      MemSorted(d, hist);
    }
    ghost var places := AddMemTables(family, mem, imm, d);
    for level := 0 to NUM_LEVELS
      invariant |files| == NUM_LEVELS && family.Ok() && fresh(family.repr) && Parts(d, family.sources, places)
      invariant PlacesTo(imm, files, level, places)
    {
      LevelOpens(d, hist, files, level);
      ghost var before := places;
      OneLevelMore(imm, files, level, before, before);
      places := AddIterators(family, level, files[level], tables, d, before);
      OneLevelMore(imm, files, level, before, places);
    }
    ghost var all := PartsMerge(d, hist, family.sources, places);
    forall x ensures x in all <==> exists loc :: Holds(d, loc, x) {
      AllPlaces(d, imm, files, places, x);
    }
    merger := new Merger(family, all);
    merger.ValidIff();
  }

  lemma MemSorted(d: Data, hist: seq<Op>)
    requires DataInv(d, hist)
    ensures Sorted(d.mem) && Sorted(d.imm)
  {
  }
}
