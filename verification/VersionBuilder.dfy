/** Applying many manifest records at once, without building the versions in between. */
module VersionBuilder {
  import opened Keys
  import opened Store
  import opened Reorganise
  import opened FileSearch
  import opened Engine

  /** The order of files in a level: by smallest key, then by number. */
  predicate BySmallestKey(f: FileMeta, g: FileMeta) {
    Less(f.smallest, g.smallest) || (!Less(g.smallest, f.smallest) && f.number < g.number)
  }

  ghost predicate InOrder(files: seq<FileMeta>) {
    forall i, j :: 0 <= i < j < |files| ==> BySmallestKey(files[i], files[j])
  }

  ghost function Numbers(files: set<FileMeta>): set<nat> {
    set f | f in files :: f.number
  }

  /** Insertion into an ordered set: an element that compares equal is left as it is. */
  method InsertOrdered(files: seq<FileMeta>, f: FileMeta) returns (result: seq<FileMeta>)
    requires InOrder(files)
    requires forall g :: g in files ==> g.number != f.number
    ensures InOrder(result) && Files(result) == Files(files) + {f}
  {
    var i := 0;
    while i < |files| && BySmallestKey(files[i], f)
      invariant 0 <= i <= |files|
      invariant forall j :: 0 <= j < i ==> BySmallestKey(files[j], f)
    {
      i := i + 1;
    }
    InsertHere(files, i, f);
    result := files[..i] + [f] + files[i..];
  }

  lemma InsertHere(files: seq<FileMeta>, i: nat, f: FileMeta)
    requires InOrder(files) && i <= |files|
    requires forall g :: g in files ==> g.number != f.number
    requires forall j :: 0 <= j < i ==> BySmallestKey(files[j], f)
    requires i < |files| ==> !BySmallestKey(files[i], f)
    ensures InOrder(files[..i] + [f] + files[i..])
    ensures Files(files[..i] + [f] + files[i..]) == Files(files) + {f}
  {
    var result := files[..i] + [f] + files[i..];
    forall j | i <= j < |files| ensures BySmallestKey(f, files[j]) {
      assert files[i] in files && files[j] in files;
      assert j == i || BySmallestKey(files[i], files[j]);
    }
    hide BySmallestKey;
    assert forall j :: 0 <= j < |result| ==> result[j] == if j < i then files[j] else if j == i then f
        else files[j - 1];
    assert files == files[..i] + files[i..];
    forall g ensures g in result <==> g in files || g == f {
    }
  }

  /** A version's files and a run of edits on top of it. */
  class Builder {
    const base: seq<seq<FileMeta>>
    var deleted: seq<set<nat>>
    var added: seq<seq<FileMeta>>

    constructor (base: seq<seq<FileMeta>>)
      requires |base| == NUM_LEVELS && forall l :: 0 <= l < NUM_LEVELS ==> InOrder(base[l])
      ensures this.base == base && Valid()
      ensures forall l :: 0 <= l < NUM_LEVELS ==> added[l] == [] && deleted[l] == {}
    {
      this.base := base;
      deleted := seq(NUM_LEVELS, _ => {});
      added := seq(NUM_LEVELS, _ => []);
    }

    ghost predicate Valid()
      reads this
    {
      && |base| == NUM_LEVELS && |deleted| == NUM_LEVELS && |added| == NUM_LEVELS
      && (forall l :: 0 <= l < NUM_LEVELS ==> InOrder(base[l]) && InOrder(added[l]))
      && (forall l :: 0 <= l < NUM_LEVELS ==> Numbers(Files(base[l])) !! Numbers(Files(added[l])))
    }

    /** The files that the edits so far leave at a level. */
    ghost function Level(l: nat): set<FileMeta>
      requires Valid() && l < NUM_LEVELS
      reads this
    {
      set f | f in Files(base[l]) + Files(added[l]) && f.number !in deleted[l]
    }

    /** Every number that was ever listed at a level. */
    ghost function Listed(l: nat): set<nat>
      requires Valid() && l < NUM_LEVELS
      reads this
    {
      Numbers(Files(base[l])) + Numbers(Files(added[l]))
    }

    /** Records the deletions of an edit. */
    method ApplyDeletions(dels: set<(nat, nat)>)
      requires Valid() && forall p :: p in dels ==> p.0 < NUM_LEVELS
      modifies `deleted
      ensures Valid()
      ensures forall l :: 0 <= l < NUM_LEVELS ==> deleted[l] == old(deleted[l]) + set p | p in dels && p.0 == l :: p.1
    {
      var left := dels;
      while left != {}
        invariant left <= dels && Valid()
        invariant forall l, n :: 0 <= l < NUM_LEVELS ==>
            (n in deleted[l] <==> n in old(deleted[l]) || (l, n) in dels - left)
        decreases left
      {
        var p :| p in left;
        deleted := deleted[p.0 := deleted[p.0] + {p.1}];
        left := left - {p};
      }
      forall l | 0 <= l < NUM_LEVELS ensures deleted[l] == old(deleted[l]) + set p | p in dels && p.0 == l :: p.1 {
        forall n ensures n in deleted[l] <==> n in old(deleted[l]) + set p | p in dels && p.0 == l :: p.1 {
          assert (l, n) in dels ==> (l, n).0 == l && (l, n).1 == n;
        }
      }
    }

    /** Records one new file. */
    method AddFile(l: nat, f: FileMeta)
      requires Valid() && l < NUM_LEVELS && f.number !in Listed(l)
      modifies `deleted, `added
      ensures Valid()
      ensures Level(l) == old(Level(l)) + {f} && Listed(l) == old(Listed(l)) + {f.number}
      ensures forall m :: 0 <= m < NUM_LEVELS && m != l ==> Level(m) == old(Level(m)) && Listed(m) == old(Listed(m))
    {
      assert forall g :: g in base[l] ==> g in Files(base[l]) && g.number in Listed(l);
      assert forall g :: g in added[l] ==> g in Files(added[l]) && g.number in Listed(l);
      var files := InsertOrdered(added[l], f);
      deleted := deleted[l := deleted[l] - {f.number}];
      added := added[l := files];
      assert Numbers(Files(files)) == Numbers(Files(old(added[l]))) + {f.number} by {
        assert f in Files(files);
      }
    }
 
    method ApplyAdditions(news: seq<(nat, FileMeta)>)
      requires Valid() && AddsOnce(news)
      modifies `deleted, `added
      ensures Valid()
      ensures forall l :: 0 <= l < NUM_LEVELS ==> Level(l) == old(Level(l)) + NewAt(news, l)
      ensures forall l :: 0 <= l < NUM_LEVELS ==> Listed(l) == old(Listed(l)) + Numbers(NewAt(news, l))
    {
      for i := 0 to |news|
        invariant Valid()
        invariant forall l :: 0 <= l < NUM_LEVELS ==> Level(l) == old(Level(l)) + NewAt(news[..i], l)
        invariant forall l :: 0 <= l < NUM_LEVELS ==> Listed(l) == old(Listed(l)) + Numbers(NewAt(news[..i], l))
      {
        var (l, f) := news[i];
        assert news[i] in news;
        NewAtAppend(news, i);
        AddFile(l, f);
      }
      assert news[..|news|] == news;
    }

    /** Applies one manifest record: deletions first, then additions. */
    method Apply(e: Edit, news: seq<(nat, FileMeta)>)
      requires Valid() && (set p | p in news) == e.added && AddsOnce(news)
      requires forall p :: p in e.deleted ==> p.0 < NUM_LEVELS
      modifies `deleted, `added
      ensures Valid()
      ensures forall l :: 0 <= l < NUM_LEVELS ==> Level(l) == LevelAfter(old(Level(l)), l, e)
      ensures forall l :: 0 <= l < NUM_LEVELS ==> Listed(l) == old(Listed(l)) + Numbers(NewAt(news, l))
    {
      ApplyDeletions(e.deleted);
      forall l | 0 <= l < NUM_LEVELS ensures Level(l) == set f | f in old(Level(l)) && (l, f.number) !in e.deleted {
        forall n ensures n in deleted[l] <==> n in old(deleted[l]) || (l, n) in e.deleted {
          assert (l, n) in e.deleted ==> (l, n).0 == l && (l, n).1 == n;
        }
      }
      ApplyAdditions(news);
      forall l | 0 <= l < NUM_LEVELS ensures NewAt(news, l) == set p | p in e.added && p.0 == l :: p.1 {
        assert forall p :: p in news <==> p in e.added;
      }
    }

    /** Whether a file ends up in the saved version. */
    predicate Kept(l: nat, f: FileMeta)
      requires Valid() && l < NUM_LEVELS
      reads this
    {
      f.number !in deleted[l]
    }

    /** One level of the result: base and new files merged in order, without the deleted ones. */
    method SaveLevel(l: nat) returns (files: seq<FileMeta>)
      requires Valid() && l < NUM_LEVELS
      ensures InOrder(files) && Files(files) == Level(l)
    {
      files := [];
      var i := 0;
      ghost var merged: seq<FileMeta> := [];
      MergingStarts(base[l], added[l], deleted[l]);
      hide Merging, Undeleted, InOrder;
      for j := 0 to |added[l]|
        invariant 0 <= i <= |base[l]|
        invariant Merging(base[l], i, added[l], j, merged) && files == Undeleted(merged, deleted[l])
      {
        var f := added[l][j];
        while i < |base[l]| && !BySmallestKey(f, base[l][i])
          invariant 0 <= i <= |base[l]|
          invariant Merging(base[l], i, added[l], j, merged) && files == Undeleted(merged, deleted[l])
        {
          MergeBase(base[l], i, added[l], j, merged);
          UndeletedAppend(merged, base[l][i], deleted[l]);
          merged := merged + [base[l][i]];
          if Kept(l, base[l][i]) {
            files := files + [base[l][i]];
          }
          i := i + 1;
        }
        MergeAdded(base[l], i, added[l], j, merged);
        UndeletedAppend(merged, f, deleted[l]);
        merged := merged + [f];
        if Kept(l, f) {
          files := files + [f];
        }
      }
      while i < |base[l]|
        invariant 0 <= i <= |base[l]|
        invariant Merging(base[l], i, added[l], |added[l]|, merged) && files == Undeleted(merged, deleted[l])
      {
        MergeBase(base[l], i, added[l], |added[l]|, merged);
        UndeletedAppend(merged, base[l][i], deleted[l]);
        merged := merged + [base[l][i]];
        if Kept(l, base[l][i]) {
          files := files + [base[l][i]];
        }
        i := i + 1;
      }
      MergingEnds(base[l], added[l], merged);
      UndeletedMembers(merged, deleted[l]);
    }

    /** The version that the edits lead to. */
    method SaveTo() returns (files: seq<seq<FileMeta>>)
      requires Valid()
      ensures |files| == NUM_LEVELS
      ensures forall l :: 0 <= l < NUM_LEVELS ==> InOrder(files[l]) && Files(files[l]) == Level(l)
    {
      files := [];
      for l := 0 to NUM_LEVELS
        invariant |files| == l
        invariant forall m :: 0 <= m < l ==> InOrder(files[m]) && Files(files[m]) == Level(m)
      {
        var level := SaveLevel(l);
        files := files + [level];
      }
    }

    /** What the new files must satisfy: each number is new to its level. */
    ghost predicate AddsOnce(news: seq<(nat, FileMeta)>)
      requires Valid()
      reads this
    {
      && (forall p :: p in news ==> p.0 < NUM_LEVELS && p.1.number !in Listed(p.0))
      && (forall i, j :: 0 <= i < j < |news| && news[i].0 == news[j].0 ==> news[i].1.number != news[j].1.number)
    }
  }

  ghost function NewAt(news: seq<(nat, FileMeta)>, l: nat): set<FileMeta> {
    set p | p in news && p.0 == l :: p.1
  }

  lemma NewAtAppend(news: seq<(nat, FileMeta)>, i: nat)
    requires i < |news|
    requires forall i, j :: 0 <= i < j < |news| && news[i].0 == news[j].0 ==> news[i].1.number != news[j].1.number
    ensures forall l :: NewAt(news[..i + 1], l) == NewAt(news[..i], l) + if news[i].0 == l then {news[i].1} else {}
    ensures news[i].1.number !in Numbers(NewAt(news[..i], news[i].0))
  {
    assert news[..i + 1] == news[..i] + [news[i]];
    forall l ensures NewAt(news[..i + 1], l) == NewAt(news[..i], l) + if news[i].0 == l then {news[i].1} else {} {
      forall f
        ensures f in NewAt(news[..i + 1], l) <==> f in NewAt(news[..i], l) || (news[i].0 == l && f == news[i].1)
      {
        if f in NewAt(news[..i + 1], l) {
          var p :| p in news[..i + 1] && p.0 == l && p.1 == f;
        }
        if f in NewAt(news[..i], l) {
          var p :| p in news[..i] && p.0 == l && p.1 == f;
          assert p in news[..i + 1];
        }
        if news[i].0 == l && f == news[i].1 {
          assert news[i] in news[..i + 1];
        }
      }
    }
    forall f | f in NewAt(news[..i], news[i].0) ensures f.number != news[i].1.number {
      var p :| p in news[..i] && p.0 == news[i].0 && p.1 == f;
      var j :| 0 <= j < i && news[j] == p;
    }
  }

  function Undeleted(files: seq<FileMeta>, deleted: set<nat>): seq<FileMeta> {
    if files == [] then []
    else
      var rest := Undeleted(files[..|files| - 1], deleted);
      if files[|files| - 1].number in deleted then rest else rest + [files[|files| - 1]]
  }

  lemma UndeletedAppend(files: seq<FileMeta>, f: FileMeta, deleted: set<nat>)
    ensures Undeleted(files + [f], deleted) == Undeleted(files, deleted) + if f.number in deleted then [] else [f]
  {
    assert (files + [f])[..|files + [f]| - 1] == files;
  }

  lemma {:induction false} UndeletedMembers(files: seq<FileMeta>, deleted: set<nat>)
    requires InOrder(files)
    ensures InOrder(Undeleted(files, deleted))
    ensures forall f :: f in Undeleted(files, deleted) <==> f in files && f.number !in deleted
  {
    if files != [] {
      var init, last := files[..|files| - 1], files[|files| - 1];
      UndeletedMembers(init, deleted);
      assert files == init + [last];
      var rest := Undeleted(init, deleted);
      forall j | 0 <= j < |rest| ensures BySmallestKey(rest[j], last) {
        assert rest[j] in rest;
        var m :| 0 <= m < |init| && init[m] == rest[j];
      }
    }
  }

  /** A merge of two ordered lists that has taken `i` files of one and `j` of the other. */
  ghost predicate Merging(base: seq<FileMeta>, i: nat, added: seq<FileMeta>, j: nat, merged: seq<FileMeta>) {
    && i <= |base| && j <= |added|
    && InOrder(base) && InOrder(added) && Numbers(Files(base)) !! Numbers(Files(added))
    && InOrder(merged)
    && (forall f :: f in merged <==> f in base[..i] || f in added[..j])
    && (forall f :: f in merged ==>
      (i < |base| ==> BySmallestKey(f, base[i])) && (j < |added| ==> BySmallestKey(f, added[j])))
  }

  lemma MergingStarts(base: seq<FileMeta>, added: seq<FileMeta>, deleted: set<nat>)
    requires InOrder(base) && InOrder(added) && Numbers(Files(base)) !! Numbers(Files(added))
    ensures Merging(base, 0, added, 0, []) && Undeleted([], deleted) == []
  {
  }

  lemma MergingEnds(base: seq<FileMeta>, added: seq<FileMeta>, merged: seq<FileMeta>)
    requires Merging(base, |base|, added, |added|, merged)
    ensures InOrder(merged) && forall f :: f in merged <==> f in base || f in added
  {
    assert base[..|base|] == base && added[..|added|] == added;
  }

  lemma MergeBase(base: seq<FileMeta>, i: nat, added: seq<FileMeta>, j: nat, merged: seq<FileMeta>)
    requires Merging(base, i, added, j, merged) && i < |base|
    requires j < |added| ==> !BySmallestKey(added[j], base[i])
    ensures Merging(base, i + 1, added, j, merged + [base[i]])
  {
    assert base[..i + 1] == base[..i] + [base[i]];
    assert base[i] in Files(base) && base[i].number in Numbers(Files(base));
    assert j < |added| ==> added[j] in Files(added) && added[j].number in Numbers(Files(added));
    assert i + 1 < |base| ==> BySmallestKey(base[i], base[i + 1]);
  }

  lemma MergeAdded(base: seq<FileMeta>, i: nat, added: seq<FileMeta>, j: nat, merged: seq<FileMeta>)
    requires Merging(base, i, added, j, merged) && j < |added|
    requires i < |base| ==> BySmallestKey(added[j], base[i])
    ensures Merging(base, i, added, j + 1, merged + [added[j]])
  {
    assert added[..j + 1] == added[..j] + [added[j]];
    assert j + 1 < |added| ==> BySmallestKey(added[j], added[j + 1]);
  }
}
