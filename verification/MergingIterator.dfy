/** Several sorted sources seen as one: the merging iterator is a cursor over the sorted union
    of its children, in both directions and across changes of direction. */
module MergingIterator {
  import opened Keys
  import opened Cursors
  import opened IteratorWrapper

  datatype Direction = Forward | Reverse

  /** `all` is the sorted union of the sources, and no entry comes from two of them. */
  ghost predicate IsMerge(all: seq<Entry>, sources: seq<seq<Entry>>) {
    && Sorted(all)
    && (forall k, i :: 0 <= k < |sources| && 0 <= i < |sources[k]| ==> sources[k][i] in all)
    && (forall x :: x in all ==> exists k :: 0 <= k < |sources| && x in sources[k])
    && (forall k, l, x :: 0 <= k < |sources| && 0 <= l < |sources| && x in sources[k] && x in sources[l] ==> k == l)
  }

  /** Position `p` of a source is where the part before the cut at `c` ends. */
  ghost predicate Cut(all: seq<Entry>, es: seq<Entry>, c: nat, p: nat) {
    && c <= |all| && p <= |es|
    && (forall i :: 0 <= i < p ==> es[i] in all[..c])
    && (forall i :: p <= i < |es| ==> es[i] in all[c..])
  }

  /** Position `p` of a source is the last one before the cut; past the end if there is none. */
  ghost predicate CutBack(all: seq<Entry>, es: seq<Entry>, c: nat, p: nat) {
    && c <= |all| && p <= |es|
    && (if p < |es| then Cut(all, es, c, p + 1) else Cut(all, es, c, 0))
  }

  lemma SplitAt(all: seq<Entry>, c: nat, x: Entry)
    requires Sorted(all) && c < |all| && x in all
    ensures x in all[..c] <==> Less(x.key, all[c].key)
    ensures x in all[c..] <==> !Less(x.key, all[c].key)
    ensures x in all[c + 1..] <==> Less(all[c].key, x.key)
    ensures x in all[..c + 1] <==> !Less(all[c].key, x.key)
  {
    var i :| 0 <= i < |all| && all[i] == x;
    assert i < c ==> all[..c][i] == x && all[..c + 1][i] == x;
    assert i == c ==> all[c..][0] == x && all[..c + 1][c] == x;
    assert i > c ==> all[c..][i - c] == x && all[c + 1..][i - c - 1] == x;
    assert forall j :: 0 <= j < c ==> Less(all[j].key, all[c].key);
    assert forall j :: c < j < |all| ==> Less(all[c].key, all[j].key);
  }

  /** Nothing before the cut is after its last entry. */
  lemma TopOfCut(all: seq<Entry>, c: nat, x: Entry)
    requires Sorted(all) && 0 < c <= |all| && x in all[..c] && AtMost(all[c - 1].key, x.key)
    ensures x == all[c - 1]
  {
    hide Less;
    var i: nat :| i < c && all[i] == x;
    assert forall j :: 0 <= j < c - 1 ==> Less(all[j].key, all[c - 1].key);
  }

  lemma FirstOfCut(all: seq<Entry>, c: nat, x: Entry)
    requires Sorted(all) && c < |all| && x in all[c..] && AtMost(x.key, all[c].key)
    ensures x == all[c]
  {
    hide Less;
    var i: nat :| i < |all[c..]| && all[c..][i] == x;
    assert forall j :: c < j < |all| ==> Less(all[c].key, all[j].key);
  }

  lemma CutBackTop(all: seq<Entry>, es: seq<Entry>, c: nat, p: nat, i: nat)
    requires Sorted(all) && Sorted(es) && 0 < c <= |all| && CutBack(all, es, c, p) && i < |es| && es[i] == all[c - 1]
    ensures p < |es| && es[p] == all[c - 1]
  {
    hide Less;
    NotBehind(all, c);
    assert i <= p < |es|;
    assert i < p ==> Less(es[i].key, es[p].key);
    if i < p {
      NotBoth(es[i].key, es[p].key);
      TopOfCut(all, c, es[p]);
    }
  }

  lemma CutFirst(all: seq<Entry>, es: seq<Entry>, c: nat, p: nat, i: nat)
    requires Sorted(all) && Sorted(es) && c < |all| && Cut(all, es, c, p) && i < |es| && es[i] == all[c]
    ensures p < |es| && es[p] == all[c]
  {
    hide Less;
    NotBefore(all, c);
    assert p <= i;
    assert p < i ==> Less(es[p].key, es[i].key);
    if p < i {
      NotBoth(es[p].key, es[i].key);
      FirstOfCut(all, c, es[p]);
    }
  }

  lemma NotBoth(a: InternalKey, b: InternalKey)
    requires Less(a, b)
    ensures AtMost(a, b)
  {
  }

  lemma NotBehind(all: seq<Entry>, c: nat)
    requires Sorted(all) && 0 < c <= |all|
    ensures all[c - 1] !in all[c..]
  {
    forall j | c <= j < |all| ensures all[j] != all[c - 1] {
      assert Less(all[c - 1].key, all[j].key);
    }
  }

  lemma NotBefore(all: seq<Entry>, c: nat)
    requires Sorted(all) && c < |all|
    ensures all[c] !in all[..c]
  {
    forall j | 0 <= j < c ensures all[j] != all[c] {
      assert Less(all[j].key, all[c].key);
    }
  }

  // ----- Where the children stand -----

  /** Every child stands where the part before the cut at `c` ends. */
  ghost predicate AllCut(all: seq<Entry>, sources: seq<seq<Entry>>, ps: seq<nat>, c: nat) {
    |ps| == |sources| && forall k :: 0 <= k < |sources| ==> Cut(all, sources[k], c, ps[k])
  }

  /** Every child stands at its last entry before the cut. */
  ghost predicate AllCutBack(all: seq<Entry>, sources: seq<seq<Entry>>, ps: seq<nat>, c: nat) {
    |ps| == |sources| && forall k :: 0 <= k < |sources| ==> CutBack(all, sources[k], c, ps[k])
  }

  /** As AllCut, for all children but one. */
  ghost predicate OthersCut(all: seq<Entry>, sources: seq<seq<Entry>>, ps: seq<nat>, cur: nat, n: nat, c: nat) {
    |ps| == |sources| && forall k :: 0 <= k < n && k < |sources| && k != cur ==> Cut(all, sources[k], c, ps[k])
  }

  ghost predicate OthersCutBack(all: seq<Entry>, sources: seq<seq<Entry>>, ps: seq<nat>, cur: nat, n: nat, c: nat) {
    |ps| == |sources| && forall k :: 0 <= k < n && k < |sources| && k != cur ==> CutBack(all, sources[k], c, ps[k])
  }

  /** The current child stands at the current entry. */
  ghost predicate CurrentAt(all: seq<Entry>, sources: seq<seq<Entry>>, ps: seq<nat>, cur: nat, c: nat) {
    && c < |all| && cur < |sources| == |ps| && ps[cur] < |sources[cur]| && sources[cur][ps[cur]] == all[c]
  }

  lemma AllSkip(all: seq<Entry>, sources: seq<seq<Entry>>, ps: seq<nat>, cur: nat, c: nat)
    requires IsMerge(all, sources) && CurrentAt(all, sources, ps, cur, c) && AllCut(all, sources, ps, c)
    ensures OthersCut(all, sources, ps, cur, |sources|, c + 1)
  {
    hide IsMerge, Cut;
    assert all[c] in sources[cur];
    forall k | 0 <= k < |sources| && k != cur ensures Cut(all, sources[k], c + 1, ps[k]) {
      OthersSkip(all, sources, cur, k, ps[k], c);
    }
  }

  lemma AllBack(all: seq<Entry>, sources: seq<seq<Entry>>, ps: seq<nat>, cur: nat, c: nat)
    requires IsMerge(all, sources) && CurrentAt(all, sources, ps, cur, c) && AllCutBack(all, sources, ps, c + 1)
    ensures OthersCutBack(all, sources, ps, cur, |sources|, c)
  {
    hide IsMerge, CutBack;
    assert all[c] in sources[cur];
    forall k | 0 <= k < |sources| && k != cur ensures CutBack(all, sources[k], c, ps[k]) {
      OthersBack(all, sources, cur, k, ps[k], c);
    }
  }

  /** With the current child stepped over its entry, all children stand at the next cut. */
  lemma StepCuts(all: seq<Entry>, sources: seq<seq<Entry>>, ps: seq<nat>, ps': seq<nat>, cur: nat, c: nat)
    requires IsMerge(all, sources) && AllSorted(sources) && CurrentAt(all, sources, ps, cur, c)
    requires OthersCut(all, sources, ps, cur, |sources|, c + 1)
    requires OnlyMoved(ps, ps', cur) && ps'[cur] == ps[cur] + 1
    ensures AllCut(all, sources, ps', c + 1)
  {
    hide IsMerge, Cut;
    CurrentSteps(all, sources, cur, ps[cur], c);
  }

  lemma StepCutsBack(all: seq<Entry>, sources: seq<seq<Entry>>, ps: seq<nat>, ps': seq<nat>, cur: nat, c: nat)
    requires IsMerge(all, sources) && AllSorted(sources) && CurrentAt(all, sources, ps, cur, c)
    requires OthersCutBack(all, sources, ps, cur, |sources|, c)
    requires OnlyMoved(ps, ps', cur) && ps'[cur] == Back(sources[cur], ps[cur])
    ensures AllCutBack(all, sources, ps', c)
  {
    hide IsMerge, CutBack;
    CurrentBack(all, sources, cur, ps[cur], c);
  }

  ghost predicate AllSorted(sources: seq<seq<Entry>>) {
    forall k :: 0 <= k < |sources| ==> Sorted(sources[k])
  }

  /** No child stands at an entry before that of `best`; there is no `best` only if all are at their ends. */
  ghost predicate IsSmallest(sources: seq<seq<Entry>>, ps: seq<nat>, best: Option<nat>, from: nat, to: nat) {
    && from <= to <= |ps| == |sources|
    && (best.None? ==> forall k :: from <= k < to ==> ps[k] >= |sources[k]|)
    && (best.Some? ==>
          && from <= best.value < to && ps[best.value] < |sources[best.value]|
          && forall k :: from <= k < to && ps[k] < |sources[k]| ==>
               AtMost(sources[best.value][ps[best.value]].key, sources[k][ps[k]].key))
  }

  ghost predicate IsLargest(sources: seq<seq<Entry>>, ps: seq<nat>, best: Option<nat>, from: nat, to: nat) {
    && from <= to <= |ps| == |sources|
    && (best.None? ==> forall k :: from <= k < to ==> ps[k] >= |sources[k]|)
    && (best.Some? ==>
          && from <= best.value < to && ps[best.value] < |sources[best.value]|
          && forall k :: from <= k < to && ps[k] < |sources[k]| ==>
               AtMost(sources[k][ps[k]].key, sources[best.value][ps[best.value]].key))
  }

  /** Every merged entry comes from a child. */
  lemma SourceOf(all: seq<Entry>, sources: seq<seq<Entry>>, c: nat) returns (k: nat, i: nat)
    requires IsMerge(all, sources) && c < |all|
    ensures k < |sources| && i < |sources[k]| && sources[k][i] == all[c]
  {
    hide Less;
    assert all[c] in all;
    k :| k < |sources| && all[c] in sources[k];
    i :| i < |sources[k]| && sources[k][i] == all[c];
  }

  /** When all children stand at the cut, the smallest of them is the next merged entry. */
  lemma SmallestIsNext(all: seq<Entry>, sources: seq<seq<Entry>>, ps: seq<nat>, c: nat, best: Option<nat>)
    requires IsMerge(all, sources) && AllSorted(sources) && AllCut(all, sources, ps, c) && c <= |all|
    requires IsSmallest(sources, ps, best, 0, |ps|)
    ensures best.Some? <==> c < |all|
    ensures best.Some? ==> sources[best.value][ps[best.value]] == all[c]
  {
    hide Less;
    if best.Some? {
      assert Cut(all, sources[best.value], c, ps[best.value]);
      assert sources[best.value][ps[best.value]] in all[c..];
    }
    if c < |all| {
      var k, i := SourceOf(all, sources, c);
      CutFirst(all, sources[k], c, ps[k], i);
      FirstOfCut(all, c, sources[best.value][ps[best.value]]);
    }
  }

  lemma LargestIsLast(all: seq<Entry>, sources: seq<seq<Entry>>, ps: seq<nat>, c: nat, best: Option<nat>)
    requires IsMerge(all, sources) && AllSorted(sources) && AllCutBack(all, sources, ps, c) && c <= |all|
    requires IsLargest(sources, ps, best, 0, |ps|)
    ensures best.Some? <==> c > 0
    ensures best.Some? ==> sources[best.value][ps[best.value]] == all[c - 1]
  {
    hide Less;
    if best.Some? {
      assert CutBack(all, sources[best.value], c, ps[best.value]);
      assert sources[best.value][ps[best.value]] in all[..c];
    }
    if c > 0 {
      var k, i := SourceOf(all, sources, c - 1);
      CutBackTop(all, sources[k], c, ps[k], i);
      TopOfCut(all, c, sources[best.value][ps[best.value]]);
    }
  }

  /** Where a search for a merged key leaves a child. */
  lemma SeekCuts(all: seq<Entry>, sources: seq<seq<Entry>>, k: nat, p: nat, c: nat)
    requires IsMerge(all, sources) && k < |sources| && c < |all| && IsSeek(sources[k], all[c].key, p)
    ensures Cut(all, sources[k], c, p)
  {
    forall i | 0 <= i < |sources[k]| ensures if i < p then sources[k][i] in all[..c] else sources[k][i] in all[c..] {
      assert sources[k][i] in all;
      SplitAt(all, c, sources[k][i]);
    }
  }

  lemma SeekTargetCuts(all: seq<Entry>, sources: seq<seq<Entry>>, k: nat, p: nat, target: InternalKey, c: nat)
    requires IsMerge(all, sources) && k < |sources| && IsSeek(sources[k], target, p) && IsSeek(all, target, c)
    ensures Cut(all, sources[k], c, p)
  {
    forall i | 0 <= i < |sources[k]| ensures if i < p then sources[k][i] in all[..c] else sources[k][i] in all[c..] {
      assert sources[k][i] in all;
      var j :| 0 <= j < |all| && all[j] == sources[k][i];
      assert j < c ==> all[..c][j] == all[j];
      assert j >= c ==> all[c..][j - c] == all[j];
    }
  }

  /** The current entry belongs to the current child alone: the others are past it already. */
  lemma OthersSkip(all: seq<Entry>, sources: seq<seq<Entry>>, cur: nat, k: nat, p: nat, c: nat)
    requires IsMerge(all, sources) && k < |sources| && cur < |sources| && cur != k && c < |all|
    requires all[c] in sources[cur] && Cut(all, sources[k], c, p)
    ensures Cut(all, sources[k], c + 1, p)
    ensures p < |sources[k]| ==> Less(all[c].key, sources[k][p].key)
  {
    forall i | 0 <= i < |sources[k]|
      ensures if i < p then sources[k][i] in all[..c + 1]
          else sources[k][i] in all[c + 1..] && Less(all[c].key, sources[k][i].key)
    {
      var x := sources[k][i];
      assert x in sources[k] && x in all && x != all[c];
      SplitAt(all, c, x);
      NotEqualKeys(all, c, x);
    }
  }

  lemma OthersBack(all: seq<Entry>, sources: seq<seq<Entry>>, cur: nat, k: nat, p: nat, c: nat)
    requires IsMerge(all, sources) && k < |sources| && cur < |sources| && cur != k && c < |all|
    requires all[c] in sources[cur] && CutBack(all, sources[k], c + 1, p)
    ensures CutBack(all, sources[k], c, p)
  {
    forall i | 0 <= i < |sources[k]|
      ensures sources[k][i] in all[..c + 1] ==> sources[k][i] in all[..c]
      ensures sources[k][i] in all[c + 1..] ==> sources[k][i] in all[c..]
    {
      var x := sources[k][i];
      assert x in sources[k] && x in all && x != all[c];
      SplitAt(all, c, x);
      NotEqualKeys(all, c, x);
    }
  }

  /** Stepping the current child over the current entry. */
  lemma CurrentSteps(all: seq<Entry>, sources: seq<seq<Entry>>, k: nat, p: nat, c: nat)
    requires IsMerge(all, sources) && AllSorted(sources) && k < |sources| && c < |all| && p < |sources[k]|
    requires sources[k][p] == all[c]
    ensures Cut(all, sources[k], c + 1, p + 1)
    ensures Cut(all, sources[k], c, p)
  {
    var es := sources[k];
    forall i | 0 <= i < |es|
      ensures if i <= p then es[i] in all[..c + 1] else es[i] in all[c + 1..]
      ensures if i < p then es[i] in all[..c] else es[i] in all[c..]
    {
      assert es[i] in all;
      SplitAt(all, c, es[i]);
      assert i < p ==> Less(es[i].key, es[p].key);
      assert i > p ==> Less(es[p].key, es[i].key);
    }
  }

  /** Stepping the current child back from the current entry. */
  lemma CurrentBack(all: seq<Entry>, sources: seq<seq<Entry>>, k: nat, p: nat, c: nat)
    requires IsMerge(all, sources) && AllSorted(sources) && k < |sources| && c < |all| && p < |sources[k]|
    requires sources[k][p] == all[c]
    ensures CutBack(all, sources[k], c, Back(sources[k], p))
  {
    CurrentSteps(all, sources, k, p, c);
  }

  lemma EndCuts(all: seq<Entry>, sources: seq<seq<Entry>>, k: nat)
    requires IsMerge(all, sources) && k < |sources|
    ensures Cut(all, sources[k], 0, 0)
    ensures CutBack(all, sources[k], |all|, LastIn(sources[k]))
  {
    assert all[0..] == all && all[..|all|] == all;
  }

  /** Stepping a child back from where a search for the current key left it; to its end if it is past that. */
  lemma SeekBack(all: seq<Entry>, sources: seq<seq<Entry>>, k: nat, p: nat, c: nat)
    requires k < |sources| && Cut(all, sources[k], c, p)
    ensures p < |sources[k]| ==> CutBack(all, sources[k], c, Back(sources[k], p))
    ensures p == |sources[k]| ==> CutBack(all, sources[k], c, LastIn(sources[k]))
  {
  }

  // ----- The children -----

  /** The last position of some entries. */
  function LastIn(es: seq<Entry>): nat {
    if es == [] then 0 else |es| - 1
  }

  /** One position back; past the end if there is none. */
  function Back(es: seq<Entry>, p: nat): nat {
    if p == 0 then |es| else p - 1
  }

  /** Positions of which only the one of child `i` has changed. */
  ghost predicate OnlyMoved(before: seq<nat>, after: seq<nat>, i: nat) {
    |before| == |after| && forall k :: 0 <= k < |after| && k != i ==> after[k] == before[k]
  }

  /** The children of a merging iterator, each at some position of its entries. */
  class Family {
    var children: seq<Wrapper>
    ghost var sources: seq<seq<Entry>>
    ghost var ps: seq<nat>
    ghost var repr: set<object>

    constructor ()
      ensures Ok() && sources == [] && repr == {this}
    {
      children, sources, ps, repr := [], [], [], {this};
    }

    /** One more child, which shares no object with the others. */
    method Add(child: Wrapper)
      requires Ok() && child.Ok() && child.repr !! repr
      modifies this
      ensures Ok() && sources == old(sources) + [child.es] && repr == old(repr) + child.repr
    {
      hide Wrapper.Ok;
      assert child in child.repr by {
        child.OwnsItself();
      }
      ghost var n := |children|;
      children, sources, ps := children + [child], sources + [child.es], ps + [child.pos];
      repr := repr + child.repr;
      forall k | 0 <= k < |children| ensures ChildOk(k) {
        assert k < n ==> old(ChildOk(k));
      }
      forall k, l | 0 <= k < l < |children| ensures children[k].repr !! children[l].repr {
        assert old(ChildOk(k));
        assert l < n ==> old(children[k].repr) !! old(children[l].repr);
      }
    }

    ghost predicate ChildOk(k: nat)
      requires k < |children|
      reads this, repr
    {
      && k < |sources| && k < |ps| && children[k] in repr && children[k].repr <= repr && this !in children[k].repr
      && children[k].Ok() && children[k].es == sources[k] && children[k].pos == ps[k]
    }

    ghost predicate Ok()
      reads this, repr
    {
      && this in repr && |children| == |sources| == |ps|
      && (forall k :: 0 <= k < |children| ==> children[k] in repr)
      && (forall k :: 0 <= k < |children| ==> ChildOk(k))
      && (forall k, l :: 0 <= k < l < |children| ==> children[k].repr !! children[l].repr)
    }

    lemma Sizes()
      requires Ok()
      ensures |children| == |sources| == |ps|
    {
    }

    lemma OthersApart(i: nat)
      requires Ok() && i < |children|
      ensures ChildOk(i)
      ensures forall k :: 0 <= k < |children| && k != i ==>
          children[k].repr !! children[i].repr && children[k] !in children[i].repr
    {
      assert ChildOk(i);
      forall k | 0 <= k < |children| && k != i
        ensures children[k].repr !! children[i].repr && children[k] !in children[i].repr
      {
        assert k < i ==> children[k].repr !! children[i].repr;
        assert i < k ==> children[i].repr !! children[k].repr;
        assert ChildOk(k);
      }
    }

    lemma OneChild(i: nat)
      requires Ok() && i < |children|
      ensures i < |ps| == |sources| == |children| && children[i].Ok() && children[i].repr <= repr
      ensures Sorted(sources[i]) && ps[i] <= |sources[i]|
      ensures children[i].valid == (ps[i] < |sources[i]|)
      ensures children[i].valid ==> children[i].key == sources[i][ps[i]].key
    {
      assert ChildOk(i);
    }

    lemma InOrder()
      requires Ok()
      ensures AllSorted(sources)
    {
      hide Ok;
      Sizes();
      forall k | 0 <= k < |sources| ensures Sorted(sources[k]) {
        OneChild(k);
      }
    }

    // ----- Moving one child -----

    method ChildFirst(i: nat)
      requires Ok() && i < |children|
      modifies repr
      ensures Ok() && fresh(repr - old(repr)) && children == old(children) && sources == old(sources)
      ensures OnlyMoved(old(ps), ps, i)
      ensures i < |ps| && ps[i] == 0
    {
      hide Wrapper.Ok;
      OthersApart(i);
      OneChild(i);
      children[i].SeekToFirst();
      ps, repr := ps[i := children[i].pos], repr + children[i].repr;
      forall k | 0 <= k < |children| ensures ChildOk(k) {
        assert old(ChildOk(k));
      }
    }

    method ChildLast(i: nat)
      requires Ok() && i < |children|
      modifies repr
      ensures Ok() && fresh(repr - old(repr)) && children == old(children) && sources == old(sources)
      ensures OnlyMoved(old(ps), ps, i)
      ensures i < |ps| == |sources| && ps[i] == LastIn(sources[i])
    {
      hide Wrapper.Ok;
      OthersApart(i);
      OneChild(i);
      children[i].SeekToLast();
      ps, repr := ps[i := children[i].pos], repr + children[i].repr;
      forall k | 0 <= k < |children| ensures ChildOk(k) {
        assert old(ChildOk(k));
      }
    }

    method ChildSeek(i: nat, target: InternalKey)
      requires Ok() && i < |children|
      modifies repr
      ensures Ok() && fresh(repr - old(repr)) && children == old(children) && sources == old(sources)
      ensures OnlyMoved(old(ps), ps, i)
      ensures i < |ps| == |sources| && IsSeek(sources[i], target, ps[i])
    {
      hide Wrapper.Ok;
      OthersApart(i);
      OneChild(i);
      children[i].Seek(target);
      ps, repr := ps[i := children[i].pos], repr + children[i].repr;
      forall k | 0 <= k < |children| ensures ChildOk(k) {
        assert old(ChildOk(k));
      }
    }

    method ChildNext(i: nat)
      requires Ok() && i < |children| && i < |ps| == |sources| && ps[i] < |sources[i]|
      modifies repr
      ensures Ok() && fresh(repr - old(repr)) && children == old(children) && sources == old(sources)
      ensures OnlyMoved(old(ps), ps, i)
      ensures ps[i] == old(ps[i]) + 1
    {
      hide Wrapper.Ok;
      OthersApart(i);
      OneChild(i);
      children[i].Next();
      ps, repr := ps[i := children[i].pos], repr + children[i].repr;
      forall k | 0 <= k < |children| ensures ChildOk(k) {
        assert old(ChildOk(k));
      }
    }

    method ChildPrev(i: nat)
      requires Ok() && i < |children| && i < |ps| == |sources| && ps[i] < |sources[i]|
      modifies repr
      ensures Ok() && fresh(repr - old(repr)) && children == old(children) && sources == old(sources)
      ensures OnlyMoved(old(ps), ps, i)
      ensures ps[i] == Back(sources[i], old(ps[i]))
    {
      hide Wrapper.Ok;
      OthersApart(i);
      OneChild(i);
      children[i].Prev();
      ps, repr := ps[i := children[i].pos], repr + children[i].repr;
      forall k | 0 <= k < |children| ensures ChildOk(k) {
        assert old(ChildOk(k));
      }
    }

    // ----- Moving all children -----

    method SeekAll(ghost all: seq<Entry>, target: InternalKey, ghost c: nat)
      requires Ok() && IsMerge(all, sources) && IsSeek(all, target, c)
      modifies repr
      ensures Ok() && fresh(repr - old(repr)) && children == old(children) && sources == old(sources)
      ensures AllCut(all, sources, ps, c)
    {
      hide Cut, IsMerge, IsSeek, Ok;
      Sizes();
      for i := 0 to |children|
        invariant Ok() && fresh(repr - old(repr)) && children == old(children) && sources == old(sources)
        invariant OthersCut(all, sources, ps, |children|, i, c)
      {
        ChildSeek(i, target);
        SeekTargetCuts(all, sources, i, ps[i], target, c);
      }
    }

    method FirstAll(ghost all: seq<Entry>)
      requires Ok() && IsMerge(all, sources)
      modifies repr
      ensures Ok() && fresh(repr - old(repr)) && children == old(children) && sources == old(sources)
      ensures AllCut(all, sources, ps, 0)
    {
      hide Cut, IsMerge, Ok;
      Sizes();
      for i := 0 to |children|
        invariant Ok() && fresh(repr - old(repr)) && children == old(children) && sources == old(sources)
        invariant OthersCut(all, sources, ps, |children|, i, 0)
      {
        ChildFirst(i);
        EndCuts(all, sources, i);
      }
    }

    method LastAll(ghost all: seq<Entry>)
      requires Ok() && IsMerge(all, sources)
      modifies repr
      ensures Ok() && fresh(repr - old(repr)) && children == old(children) && sources == old(sources)
      ensures AllCutBack(all, sources, ps, |all|)
    {
      hide Cut, CutBack, IsMerge, Ok;
      Sizes();
      for i := 0 to |children|
        invariant Ok() && fresh(repr - old(repr)) && children == old(children) && sources == old(sources)
        invariant OthersCutBack(all, sources, ps, |children|, i, |all|)
      {
        ChildLast(i);
        EndCuts(all, sources, i);
      }
    }

    /** All children but the current one are moved past the current key. */
    method TurnForward(ghost all: seq<Entry>, cur: nat, key: InternalKey, ghost c: nat)
      requires Ok() && IsMerge(all, sources) && CurrentAt(all, sources, ps, cur, c) && key == all[c].key
      modifies repr
      ensures Ok() && fresh(repr - old(repr)) && children == old(children) && sources == old(sources)
      ensures CurrentAt(all, sources, ps, cur, c) && OthersCut(all, sources, ps, cur, |children|, c + 1)
    {
      hide Cut, IsMerge, IsSeek, Ok;
      Sizes();
      for i := 0 to |children|
        invariant Ok() && fresh(repr - old(repr)) && children == old(children) && sources == old(sources)
        invariant CurrentAt(all, sources, ps, cur, c) && OthersCut(all, sources, ps, cur, i, c + 1)
      {
        if i != cur {
          ChildSeek(i, key);
          SeekSkips(all, sources, cur, i, ps[i], c);
          OneChild(i);
          if children[i].valid && children[i].key == key {
            assert false; // keys differ between children
          }
        }
      }
    }

    /** All children but the current one are moved to before the current key. */
    method TurnBack(ghost all: seq<Entry>, cur: nat, key: InternalKey, ghost c: nat)
      requires Ok() && IsMerge(all, sources) && CurrentAt(all, sources, ps, cur, c) && key == all[c].key
      modifies repr
      ensures Ok() && fresh(repr - old(repr)) && children == old(children) && sources == old(sources)
      ensures CurrentAt(all, sources, ps, cur, c) && OthersCutBack(all, sources, ps, cur, |children|, c)
    {
      hide Cut, CutBack, IsMerge, IsSeek, Ok;
      Sizes();
      for i := 0 to |children|
        invariant Ok() && fresh(repr - old(repr)) && children == old(children) && sources == old(sources)
        invariant CurrentAt(all, sources, ps, cur, c) && OthersCutBack(all, sources, ps, cur, i, c)
      {
        if i != cur {
          ChildSeek(i, key);
          SeekCuts(all, sources, i, ps[i], c);
          SeekBack(all, sources, i, ps[i], c);
          OneChild(i);
          if children[i].valid {
            ChildPrev(i);
          } else {
            ChildLast(i);
          }
        }
      }
    }

    /** The child with the smallest key. */
    method Smallest() returns (smallest: Option<nat>)
      requires Ok()
      ensures IsSmallest(sources, ps, smallest, 0, |children|)
    {
      hide Less, Ok;
      Sizes();
      smallest := None;
      for i := 0 to |children|
        invariant Ok() && IsSmallest(sources, ps, smallest, 0, i)
      {
        var child := children[i];
        OneChild(i);
        if child.valid {
          if smallest.None? {
            smallest := Some(i);
            ReflexiveKey(child.key);
          } else {
            OneChild(smallest.value);
            Compare(sources, ps, smallest.value, i);
            if Less(child.key, children[smallest.value].key) {
              smallest := Some(i);
            }
          }
        }
      }
    }

    /** The child with the largest key. */
    method Largest() returns (largest: Option<nat>)
      requires Ok()
      ensures IsLargest(sources, ps, largest, 0, |children|)
    {
      hide Less, Ok;
      Sizes();
      largest := None;
      var i := |children|;
      while i > 0
        invariant 0 <= i <= |children| && Ok() && IsLargest(sources, ps, largest, i, |children|)
      {
        i := i - 1;
        var child := children[i];
        OneChild(i);
        if child.valid {
          if largest.None? {
            largest := Some(i);
            ReflexiveKey(child.key);
          } else {
            OneChild(largest.value);
            Compare(sources, ps, largest.value, i);
            if Less(children[largest.value].key, child.key) {
              largest := Some(i);
            }
          }
        }
      }
    }
  }

  lemma SeekSkips(all: seq<Entry>, sources: seq<seq<Entry>>, cur: nat, k: nat, p: nat, c: nat)
    requires IsMerge(all, sources) && k < |sources| && cur < |sources| && cur != k && c < |all|
    requires all[c] in sources[cur]
    requires IsSeek(sources[k], all[c].key, p)
    ensures Cut(all, sources[k], c + 1, p)
    ensures p < |sources[k]| ==> sources[k][p].key != all[c].key
  {
    SeekCuts(all, sources, k, p, c);
    OthersSkip(all, sources, cur, k, p, c);
  }

  class Merger {
    const family: Family
    ghost const all: seq<Entry>
    var current: Option<nat>
    var direction: Direction
    /** The position in the merged entries; their number when the iterator is invalid. */
    ghost var at: nat

    constructor (family: Family, ghost all: seq<Entry>)
      requires family.Ok() && IsMerge(all, family.sources)
      ensures Ok() && at == |all| && this.family == family && this.all == all
    {
      hide Family.Ok, IsMerge;
      this.family := family;
      this.all := all;
      current, direction, at := None, Forward, |all|;
    }

    ghost predicate Base()
      reads family, family.repr
    {
      family.Ok() && this !in family.repr && IsMerge(all, family.sources)
    }

    /** Moving forward, every child stands at its first entry at or after the current one;
        moving backward, at its last entry at or before it. */
    ghost predicate Ok()
      reads this, family, family.repr
    {
      && Base() && at <= |all|
      && (current.Some? <==> at < |all|)
      && (current.Some? ==>
            && CurrentAt(all, family.sources, family.ps, current.value, at)
            && if direction == Forward then AllCut(all, family.sources, family.ps, at)
               else AllCutBack(all, family.sources, family.ps, at + 1))
    }

    predicate Valid()
      reads this
    {
      current.Some?
    }

    lemma ValidIff()
      requires Ok()
      ensures Valid() <==> at < |all|
      ensures at <= |all| && Sorted(all)
    {
    }

    /** Key and value together. */
    method Current() returns (e: Entry)
      requires Ok() && Valid()
      ensures e == all[at]
    {
      assert family.ChildOk(current.value);
      e := family.children[current.value].Current();
    }

    // ----- Choosing the current child -----

    method FindSmallest(ghost c: nat)
      requires Base() && AllCut(all, family.sources, family.ps, c)
      requires direction == Forward && c <= |all|
      modifies this
      ensures Ok() && at == c && direction == Forward
    {
      hide Cut, IsMerge, Less, Family.Ok;
      family.InOrder();
      family.Sizes();
      var smallest := family.Smallest();
      SmallestIsNext(all, family.sources, family.ps, c, smallest);
      current, at := smallest, c;
    }

    method FindLargest(ghost c: nat)
      requires Base() && AllCutBack(all, family.sources, family.ps, c)
      requires direction == Reverse && c <= |all|
      modifies this
      ensures Ok() && direction == Reverse && at == if c == 0 then |all| else c - 1
    {
      hide CutBack, IsMerge, Less, Family.Ok;
      family.InOrder();
      family.Sizes();
      var largest := family.Largest();
      LargestIsLast(all, family.sources, family.ps, c, largest);
      current, at := largest, if c == 0 then |all| else c - 1;
    }

    // ----- Moving -----

    method SeekToFirst()
      requires Ok()
      modifies this, family.repr
      ensures Ok() && fresh(family.repr - old(family.repr)) && family.sources == old(family.sources) && at == 0
      ensures at <= |all| && Valid() == (at < |all|)
    {
      hide Cut, IsMerge, Family.Ok;
      direction := Forward;
      family.FirstAll(all);
      FindSmallest(0);
    }

    method SeekToLast()
      requires Ok()
      modifies this, family.repr
      ensures Ok() && fresh(family.repr - old(family.repr)) && family.sources == old(family.sources)
          && at == if all == [] then 0 else |all| - 1
      ensures at <= |all| && Valid() == (at < |all|)
    {
      hide CutBack, Cut, IsMerge, Family.Ok;
      direction := Reverse;
      family.LastAll(all);
      FindLargest(|all|);
    }

    method Seek(target: InternalKey)
      requires Ok()
      modifies this, family.repr
      ensures Ok() && fresh(family.repr - old(family.repr)) && family.sources == old(family.sources)
      ensures IsSeek(all, target, at)
      ensures at <= |all| && Valid() == (at < |all|)
    {
      ValidIff();
      hide Cut, IsMerge, IsSeek, Family.Ok;
      ghost var c := SeekPosition(all, target);
      SeekIn(all, target, c);
      direction := Forward;
      family.SeekAll(all, target, c);
      FindSmallest(c);
    }

    /** To the next merged entry. */
    method Next()
      requires Ok() && Valid()
      modifies this, family.repr
      ensures Ok() && fresh(family.repr - old(family.repr)) && family.sources == old(family.sources)
      ensures at == old(at) + 1
      ensures at <= |all| && Valid() == (at < |all|)
    {
      hide Cut, CutBack, IsMerge, Family.Ok;
      ghost var c := at;
      var cur := current.value;
      family.InOrder();
      family.Sizes();
      if direction != Forward {
        family.OneChild(cur);
        family.TurnForward(all, cur, family.children[cur].key, c);
        direction := Forward;
      } else {
        AllSkip(all, family.sources, family.ps, cur, c);
      }
      ghost var ps := family.ps;
      family.ChildNext(cur);
      StepCuts(all, family.sources, ps, family.ps, cur, c);
      FindSmallest(c + 1);
    }

    /** To the merged entry before. */
    method Prev()
      requires Ok() && Valid()
      modifies this, family.repr
      ensures Ok() && fresh(family.repr - old(family.repr)) && family.sources == old(family.sources)
          && at == if old(at) == 0 then |all| else old(at) - 1
      ensures at <= |all| && Valid() == (at < |all|)
    {
      hide Cut, CutBack, IsMerge, Family.Ok;
      ghost var c := at;
      var cur := current.value;
      family.InOrder();
      family.Sizes();
      if direction != Reverse {
        family.OneChild(cur);
        family.TurnBack(all, cur, family.children[cur].key, c);
        direction := Reverse;
      } else {
        AllBack(all, family.sources, family.ps, cur, c);
      }
      ghost var ps := family.ps;
      family.ChildPrev(cur);
      StepCutsBack(all, family.sources, ps, family.ps, cur, c);
      FindLargest(c);
    }
  }

  lemma ReflexiveKey(k: InternalKey)
    ensures AtMost(k, k)
  {
  }

  /** Keys are totally ordered. */
  lemma Compare(sources: seq<seq<Entry>>, ps: seq<nat>, a: nat, b: nat)
    requires |ps| == |sources| && a < |ps| && b < |ps| && ps[a] < |sources[a]| && ps[b] < |sources[b]|
    ensures var x, y := sources[a][ps[a]].key, sources[b][ps[b]].key;
      && AtMost(x, x) && AtMost(y, y)
      && (Less(x, y) ==> AtMost(x, y) && forall z :: AtMost(z, x) ==> AtMost(z, y))
      && (Less(y, x) ==> AtMost(y, x) && forall z :: AtMost(x, z) ==> AtMost(y, z))
      && (!Less(x, y) ==> AtMost(y, x)) && (!Less(y, x) ==> AtMost(x, y))
  {
  }

  lemma SeekIn(all: seq<Entry>, target: InternalKey, c: nat)
    requires IsSeek(all, target, c)
    ensures c <= |all|
  {
  }

  lemma NotEqualKeys(all: seq<Entry>, c: nat, x: Entry)
    requires Sorted(all) && c < |all| && x in all && x != all[c]
    ensures Less(all[c].key, x.key) || Less(x.key, all[c].key)
  {
    var i :| 0 <= i < |all| && all[i] == x;
  }

  /** Where a search for `target` ends. */
  ghost function SeekPosition(all: seq<Entry>, target: InternalKey): (c: nat)
    requires Sorted(all)
    ensures IsSeek(all, target, c)
  {
    if all == [] then 0
    else if Less(all[|all| - 1].key, target) then |all|
    else SeekPosition(all[..|all| - 1], target)
  }
}
