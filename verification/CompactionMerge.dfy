/** The input of a compaction: the entries of its files, merged. */
module CompactionMerge {
  import opened Keys
  import opened Coding
  import opened Store
  import opened Reorganise
  import opened FileSearch
  import opened IteratorWrapper
  import opened MergingIterator
  import opened LevelFiles
  import opened MergedSources

  /** Everything that a merging iterator goes over, from front to back. */
  method ReadAll(merger: Merger) returns (input: seq<Entry>)
    requires merger.Ok()
    modifies merger, merger.family.repr
    ensures input == merger.all
  {
    hide Family.Ok, IsMerge;
    merger.SeekToFirst();
    input := [];
    merger.ValidIff();
    while merger.Valid()
      invariant merger.Ok() && merger.at <= |merger.all| && input == merger.all[..merger.at]
      invariant merger.Valid() <==> merger.at < |merger.all|
      invariant fresh(merger.family.repr - old(merger.family.repr))
      decreases |merger.all| - merger.at
    {
      var e := merger.Current();
      input := input + [e];
      merger.Next();
      merger.ValidIff();
    }
  }

  /** What a compaction may read: files of two levels, each with its table. */
  ghost predicate Inputs(d: Data, level: nat, in0: seq<FileMeta>, in1: seq<FileMeta>) {
    InLevel(d, level, in0) && InLevel(d, level + 1, in1)
  }

  lemma InputPlaces(d: Data, level: nat, in0: seq<FileMeta>, in1: seq<FileMeta>, places: seq<iset<Loc>>, x: Entry)
    requires Inputs(d, level, in0, in1)
    requires forall loc :: Covered(places, loc) <==> loc in PlacesOf(level, in0) || loc in PlacesOf(level + 1, in1)
    ensures (exists loc :: Covered(places, loc) && Holds(d, loc, x)) <==> InFiles(d.tables, Files(in0) + Files(in1), x)
  {
    hide Covered;
    if InFiles(d.tables, Files(in0) + Files(in1), x) {
      var f :| f in Files(in0) + Files(in1) && f.number in d.tables && x in d.tables[f.number];
      var loc := if f in in0 then InFile(level, f) else InFile(level + 1, f);
      assert Covered(places, loc) && Holds(d, loc, x);
    }
    if loc :| Covered(places, loc) && Holds(d, loc, x) {
      assert loc.file in Files(in0) + Files(in1);
    }
  }

  /** The merging iterator over the inputs of a compaction, read from front to back. */
  method MergeInputs(
      level: nat, in0: seq<FileMeta>, in1: seq<FileMeta>, tables: map<nat, seq<Entry>>, ghost d: Data,
      ghost hist: seq<Op>)
    returns (input: seq<Entry>)
    requires DataInv(d, hist) && tables == d.tables && Inputs(d, level, in0, in1)
    requires (if level == 0 then Distinct(in0) else SortedDisjoint(in0)) && SortedDisjoint(in1)
    ensures Sorted(input)
    ensures forall e {:trigger InFiles(tables, Files(in0) + Files(in1), e)} :: e in input <==>
        InFiles(tables, Files(in0) + Files(in1), e)
    ensures forall e :: e in input ==> IsUpdate(hist, e)
  {
    hide DataInv, Sorted, IsUpdate, Covered, Parts, Holds, Distinct, SortedDisjoint, InFiles, Family.Ok;
    NoParts(d);
    var family := new Family();
    ghost var places := AddIterators(family, level, in0, tables, d, []);
    places := AddIterators(family, level + 1, in1, tables, d, places);
    ghost var all := PartsMerge(d, hist, family.sources, places);
    forall e ensures e in all <==> InFiles(tables, Files(in0) + Files(in1), e) {
      InputPlaces(d, level, in0, in1, places, e);
    }
    var merger := new Merger(family, all);
    merger.ValidIff();
    input := ReadAll(merger);
  }

  lemma NoParts(d: Data)
    ensures Parts(d, [], []) && forall loc :: !Covered([], loc)
  {
  }
}
