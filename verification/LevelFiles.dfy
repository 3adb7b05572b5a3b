/** The tables of a level below level 0 as one sequence: an index with one entry for each file,
    whose value says which table to open. */
module LevelFiles {
  import opened Keys
  import opened Coding
  import opened Store
  import opened FileSearch
  import opened Cursors
  import opened TwoLevelIterator
  import opened IteratorWrapper

  const HANDLE_SIZE: nat := 16

  /** A file's number and size. */
  function Handle(f: FileMeta): Bytes {
    EncodeFixed64(f.number) + EncodeFixed64(f.size)
  }

  /** Under the largest key of each file, its handle. */
  function IndexOf(files: seq<FileMeta>): seq<Entry> {
    seq(|files|, i requires 0 <= i < |files| => Entry(files[i].largest, Handle(files[i])))
  }

  /** What a handle opens; nothing if it is none. */
  function OpenTable(tables: map<nat, seq<Entry>>, handle: Bytes): seq<Entry> {
    if |handle| != HANDLE_SIZE then []
    else
      var number := DecodeFixed64(handle[..8]);
      if number in tables then tables[number] else []
  }

  function Opener(tables: map<nat, seq<Entry>>): Bytes -> seq<Entry> {
    handle => OpenTable(tables, handle)
  }

  /** Each file has its table, and a number that fits into a handle. */
  ghost predicate Openable(files: seq<FileMeta>, tables: map<nat, seq<Entry>>) {
    forall f :: f in files ==> f.number < TWO64 && f.number in tables && FileMatches(f, tables[f.number])
  }

  lemma OpensItsTable(f: FileMeta, tables: map<nat, seq<Entry>>)
    requires f.number < TWO64 && f.number in tables
    ensures Opener(tables)(Handle(f)) == tables[f.number]
  {
    hide EncodeFixed64, DecodeFixed64;
    assert Handle(f)[..8] == EncodeFixed64(f.number);
    Fixed64RoundTrip(f.number);
  }

  /** The largest keys of a level's files separate their tables. */
  lemma FilesSeparate(files: seq<FileMeta>, tables: map<nat, seq<Entry>>)
    requires SortedDisjoint(files) && Openable(files, tables)
    ensures Separates(IndexOf(files), Opener(tables))
  {
    var index, open := IndexOf(files), Opener(tables);
    forall i | 0 <= i < |files|
      ensures open(index[i].value) == tables[files[i].number] && FileMatches(files[i], tables[files[i].number])
    {
      assert files[i] in files;
      OpensItsTable(files[i], tables);
    }
    forall i, x | 0 <= i < |files| && x in open(index[i].value)
      ensures AtMost(x.key, files[i].largest) && AtMost(files[i].smallest, x.key)
    {
      InFileRange(files[i], tables[files[i].number], x);
    }
    hide FileMatches;
    forall i, j | 0 <= i < j < |index| ensures Less(index[i].key, index[j].key) {
      assert Ordered(files[j]);
    }
  }

  /** The concatenation holds the entries of the files' tables. */
  lemma {:induction false} FlatEntries(files: seq<FileMeta>, tables: map<nat, seq<Entry>>, n: nat, x: Entry)
    requires n <= |files| && Openable(files, tables)
    ensures x in Flat(IndexOf(files), Opener(tables), n) <==> exists i :: 0 <= i < n && x in tables[files[i].number]
  {
    hide FileMatches, OpenTable, Handle, Opener;
    if n > 0 {
      FlatEntries(files, tables, n - 1, x);
      var f := files[n - 1];
      assert f in files;
      OpensItsTable(f, tables);
      assert IndexOf(files)[n - 1].value == Handle(f);
      assert Flat(IndexOf(files), Opener(tables), n) == Flat(IndexOf(files), Opener(tables), n - 1) + tables[f.number];
    }
  }

  /** One cursor over all tables of a level. */
  method OpenLevel(files: seq<FileMeta>, tables: map<nat, seq<Entry>>) returns (child: Wrapper)
    requires SortedDisjoint(files) && Openable(files, tables)
    ensures child.Ok() && fresh(child.repr)
    ensures forall x :: x in child.es <==> exists f :: f in files && x in tables[f.number]
  {
    FilesSeparate(files, tables);
    var index := new Cursor(IndexOf(files));
    var t := new TwoLevel(index, Opener(tables));
    child := new Wrapper.Level(t);
    forall x ensures x in child.es <==> exists f :: f in files && x in tables[f.number] {
      FlatEntries(files, tables, |files|, x);
      if f :| f in files && x in tables[f.number] {
        var i :| 0 <= i < |files| && files[i] == f;
      }
    }
  }
}
