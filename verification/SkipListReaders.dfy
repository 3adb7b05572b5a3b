/** Readers take no lock.  One writer and a reader are interleaved one load and one store at a time;
    whatever the interleaving, a search returns what a scan of the list would return at the moment
    of its last load.  (Readers do not see each other, so one stands for any number of them.) */
module SkipListReaders {
  import opened Keys
  import opened SkipList

  /** An insertion between two of its stores: it will next copy a pointer into the new node, or,
      if that is done, link the node, on level `i`.  The last two fields are auxiliary: the list as
      it was, and where on each level the new node belongs. */
  datatype Writer =
    | Idle
    | Linking(entry: Entry, height: nat, node: nat, prev: seq<nat>, i: nat, copied: bool, before: List0, at: seq<nat>)

  datatype List0 = List0(nodes: Arena, levels: seq<seq<nat>>)

  /** A search that stands at node `x` on a level, or is over: it stopped at `last`, and saw `next`. */
  datatype Reader =
    | Resting
    | Searching(target: Option<InternalKey>, x: nat, level: nat)
    | Stopped(sought: Option<InternalKey>, last: nat, next: Ptr)

  /** `levels` is auxiliary: the nodes that each level links. */
  datatype System = System(nodes: Arena, maxHeight: nat, levels: seq<seq<nat>>, writer: Writer, reader: Reader)

  datatype Step =
    | BeginInsert(entry: Entry, height: nat, prev: seq<nat>, at: seq<nat>)
    | CopyPointer
    | LinkNode
    | BeginSearch(target: Option<InternalKey>, height: nat)
    | Load

  ghost predicate IsInitial(s: System) {
    && |s.nodes| == 1 && |s.nodes[HEAD].next| == MAX_HEIGHT && s.maxHeight == 1 && s.writer.Idle? && s.reader.Resting?
    && (forall l :: 0 <= l < MAX_HEIGHT ==> s.nodes[HEAD].next[l] == None)
    && |s.levels| == MAX_HEIGHT && forall l :: 0 <= l < MAX_HEIGHT ==> s.levels[l] == [HEAD]
  }

  ghost predicate HasEntries(m: Arena, levels: seq<seq<nat>>) {
    |levels| == MAX_HEIGHT && levels[0] != [] && forall i :: 0 <= i < |levels[0]| ==> levels[0][i] < |m|
  }

  /** The pointers that the writer's next store is about are there. */
  ghost predicate InArena(s: System) {
    var w := s.writer;
    && w.Linking? && w.i < |w.prev| && w.i < |w.at| && w.i < |s.levels| && w.at[w.i] < |s.levels[w.i]|
    && w.node < |s.nodes| && w.i < |s.nodes[w.node].next|
    && w.prev[w.i] < |s.nodes| && w.i < |s.nodes[w.prev[w.i]].next|
  }

  /** What the steps need.  A new entry's place was found by a search; a search may start from any
      height that the list has ever had. */
  ghost predicate Enabled(s: System, step: Step) {
    match step
    case BeginInsert(e, height, prev, at) =>
      && s.writer.Idle? && 1 <= height <= MAX_HEIGHT && HasEntries(s.nodes, s.levels)
      && (forall o :: o in EntriesOf(s.nodes, s.levels[0]) ==> Comparable(o.key, e.key))
      && |at| == (if height > s.maxHeight then height else s.maxHeight)
      && Turned(s.nodes, s.levels, e.key, 0, prev, at)
    case CopyPointer => InArena(s) && !s.writer.copied
    case LinkNode => InArena(s) && s.writer.copied
    case BeginSearch(_, height) => !s.reader.Searching? && 1 <= height <= s.maxHeight
    case Load =>
      && s.reader.Searching? && s.reader.x < |s.nodes| && s.reader.level < |s.nodes[s.reader.x].next|
      && var next := s.nodes[s.reader.x].next[s.reader.level];
         next.Some? ==> next.value < |s.nodes|
  }

  /** What a search does with the pointer that it has loaded. */
  function AfterLoad(m: Arena, target: Option<InternalKey>, x: nat, level: nat, next: Ptr): Reader
    requires next.Some? ==> next.value < |m|
  {
    if next.Some? && KeyIsAfterNode(m, target, next.value) then Searching(target, next.value, level)
    else if level == 0 then Stopped(target, x, next)
    else Searching(target, x, level - 1)
  }

  ghost function After(s: System, step: Step): System
    requires Enabled(s, step)
  {
    match step
    case BeginInsert(e, height, prev, at) =>
      s.(nodes := NewNode(s.nodes, e, height),
         maxHeight := if height > s.maxHeight then height else s.maxHeight,
         writer := Linking(e, height, |s.nodes|, prev, 0, false, List0(s.nodes, s.levels), at))
    case CopyPointer =>
      var w := s.writer;
      s.(nodes := SetNext(s.nodes, w.node, w.i, s.nodes[w.prev[w.i]].next[w.i]), writer := w.(copied := true))
    case LinkNode =>
      var w := s.writer;
      s.(nodes := SetNext(s.nodes, w.prev[w.i], w.i, Some(w.node)),
         levels := s.levels[w.i := Spliced(s.levels[w.i], w.at[w.i], w.node)],
         writer := if w.i + 1 < w.height then w.(i := w.i + 1, copied := false) else Idle)
    case BeginSearch(target, height) => s.(reader := Searching(target, HEAD, height - 1))
    case Load =>
      var r := s.reader;
      s.(reader := AfterLoad(s.nodes, r.target, r.x, r.level, s.nodes[r.x].next[r.level]))
  }

  // ----- What every step keeps -----

  /** `m` is the memory before the pointer of level `i` was copied, if it was. */
  ghost predicate WriterAt(s: System, m: Arena) {
    var w := s.writer;
    && w.Linking? && 1 <= w.height <= s.maxHeight && w.i < w.height && w.node == |w.before.nodes|
    && Turned(w.before.nodes, w.before.levels, w.entry.key, 0, w.prev, w.at)
    && Midway(w.before.nodes, w.before.levels, m, s.levels, w.entry, w.height, w.at, w.i)
    && if !w.copied then s.nodes == m
       else
         && w.i < |w.prev| && w.prev[w.i] < |m| && w.i < |m[w.prev[w.i]].next| && w.node < |m| && w.i < |m[w.node].next|
         && s.nodes == SetNext(m, w.node, w.i, m[w.prev[w.i]].next[w.i])
  }

  ghost predicate ReaderOk(s: System) {
    s.reader.Searching? ==>
      && s.reader.level < |s.levels| && s.reader.x in s.levels[s.reader.level] && s.reader.x < |s.nodes|
      && (s.reader.x == HEAD || KeyIsAfterNode(s.nodes, s.reader.target, s.reader.x))
  }

  ghost predicate Inv(s: System) {
    && Linked(s.nodes, s.levels) && 1 <= s.maxHeight <= MAX_HEIGHT
    && (s.writer.Linking? ==> exists m :: WriterAt(s, m))
    && ReaderOk(s)
  }

  lemma InitialInv(s: System)
    requires IsInitial(s)
    ensures Inv(s)
  {
  }

  /** Nodes keep their entries, and no node leaves a level. */
  ghost predicate Grows(s: System, s': System) {
    && |s.nodes| <= |s'.nodes| && (forall n :: 0 <= n < |s.nodes| ==> s'.nodes[n].entry == s.nodes[n].entry)
    && |s.levels| == |s'.levels| && (forall l, n :: 0 <= l < |s.levels| && n in s.levels[l] ==> n in s'.levels[l])
  }

  lemma ReaderStays(s: System, s': System)
    requires ReaderOk(s) && s'.reader == s.reader && Grows(s, s')
    ensures ReaderOk(s')
  {
  }

  lemma BeginInsertKeepsInv(s: System, step: Step)
    requires Inv(s) && step.BeginInsert? && Enabled(s, step)
    ensures Inv(After(s, step)) && Grows(s, After(s, step))
  {
    hide Less, Turned, Midway, NewNode, EntriesOf;
    var s' := After(s, step);
    Allocate(s.nodes, s.levels, step.entry, step.height);
    TurnedIs(s.nodes, s.levels, step.entry.key, step.prev, step.at);
    MidwayStarts(s.nodes, s.levels, step.entry, step.height, step.prev, step.at);
    assert WriterAt(s', s'.nodes);
    ReaderStays(s, s');
  }

  /** The facts that make the two stores on a level what an insertion makes them. */
  lemma WriterPlace(s: System, m: Arena)
    requires WriterAt(s, m)
    ensures
      var w := s.writer;
      && |s.levels| == MAX_HEIGHT && w.i < MAX_HEIGHT && w.i < |w.at| && w.i < |w.prev| && w.at[w.i] < |s.levels[w.i]|
      && w.prev[w.i] == s.levels[w.i][w.at[w.i]]
      && var p := w.prev[w.i];
      && p < |m| && w.i < |m[p].next| && w.node < |m| && w.i < |m[w.node].next|
      && var m1 := SetNext(m, w.node, w.i, m[p].next[w.i]);
      && Linked(m1, s.levels) && SameEntries(m, m1) && p < |m1| && w.i < |m1[p].next|
      && var m2 := SetNext(m1, p, w.i, Some(w.node));
      && SameEntries(m1, m2)
      && Midway(w.before.nodes, w.before.levels, m2, s.levels[w.i := Spliced(s.levels[w.i], w.at[w.i], w.node)],
                w.entry, w.height, w.at, w.i + 1)
  {
    hide Less, Turned, Midway, SetNext, Spliced, Linked;
    var w := s.writer;
    MidwayStep(w.before.nodes, w.before.levels, m, s.levels, w.entry, w.height, w.at, w.i);
    TurnedIs(w.before.nodes, w.before.levels, w.entry.key, w.prev, w.at);
    SetNextSets(m, w.node, w.i, m[w.prev[w.i]].next[w.i]);
    var m1 := SetNext(m, w.node, w.i, m[w.prev[w.i]].next[w.i]);
    SetNextSets(m1, w.prev[w.i], w.i, Some(w.node));
  }

  lemma CopyPointerKeepsInv(s: System)
    requires Inv(s) && Enabled(s, CopyPointer)
    ensures Inv(After(s, CopyPointer)) && Grows(s, After(s, CopyPointer))
  {
    hide Less, Turned, Midway, SetNext, Spliced, Linked;
    var s' := After(s, CopyPointer);
    var m :| WriterAt(s, m);
    WriterPlace(s, m);
    assert WriterAt(s', m);
    ReaderStays(s, s');
  }

  lemma LinkNodeKeepsInv(s: System)
    requires Inv(s) && Enabled(s, LinkNode)
    ensures Inv(After(s, LinkNode)) && Grows(s, After(s, LinkNode))
  {
    hide Less, Turned, Midway, SetNext, Spliced, Linked;
    var s' := After(s, LinkNode);
    var w := s.writer;
    var m :| WriterAt(s, m);
    WriterPlace(s, m);
    MidwayLinked(w.before.nodes, w.before.levels, s'.nodes, s'.levels, w.entry, w.height, w.at, w.i + 1);
    if w.i + 1 < w.height {
      assert WriterAt(s', s'.nodes);
    }
    forall l, n | 0 <= l < |s.levels| && n in s.levels[l] ensures n in s'.levels[l] {
      SplicedMembers(s.levels[w.i], w.at[w.i], w.node, n);
    }
    ReaderStays(s, s');
  }

  lemma MidwayLinked(
      m0: Arena, levels0: seq<seq<nat>>, m: Arena, levels: seq<seq<nat>>, e: Entry, height: nat, at: seq<nat>, i: nat)
    requires Midway(m0, levels0, m, levels, e, height, at, i)
    ensures Linked(m, levels)
  {
  }

  /** Where the reader stands is a place on its level. */
  lemma LoadFinds(s: System) returns (j: nat)
    requires Inv(s) && s.reader.Searching?
    ensures
      var r := s.reader;
      && r.level < MAX_HEIGHT && |s.levels| == MAX_HEIGHT && j < |s.levels[r.level]| && s.levels[r.level][j] == r.x
      && Chain(s.nodes, r.level, s.levels[r.level])
      && r.x < |s.nodes| && r.level < |s.nodes[r.x].next|
        && s.nodes[r.x].next[r.level] == Successor(s.levels[r.level], j)
      && (j + 1 < |s.levels[r.level]| ==> s.levels[r.level][j + 1] < |s.nodes|)
      && (j == 0 || KeyIsAfterNode(s.nodes, r.target, r.x))
  {
    hide Less, WriterAt;
    var r := s.reader;
    LinkedChain(s.nodes, s.levels, r.level);
    j :| 0 <= j < |s.levels[r.level]| && s.levels[r.level][j] == r.x;
    ChainNext(s.nodes, r.level, s.levels[r.level], j);
  }

  lemma LoadKeepsInv(s: System)
    requires Inv(s) && Enabled(s, Load)
    ensures Inv(After(s, Load)) && Grows(s, After(s, Load))
  {
    hide Less, WriterAt, Chain, KeyIsAfterNode;
    var s' := After(s, Load);
    var r := s.reader;
    var j := LoadFinds(s);
    assert forall m :: WriterAt(s, m) ==> WriterAt(s', m) by {
      WriterIgnoresReader(s, s');
    }
    if s'.reader.Searching? && s'.reader.level != r.level {
      assert r.x in s.levels[r.level] && r.x in s.levels[r.level - 1];
    }
  }

  lemma WriterIgnoresReader(s: System, s': System)
    requires s' == s.(reader := s'.reader)
    ensures forall m :: WriterAt(s, m) ==> WriterAt(s', m)
  {
  }

  /** Every step keeps the list sound, and takes nothing out of it. */
  lemma StepKeepsInv(s: System, step: Step)
    requires Inv(s) && Enabled(s, step)
    ensures Inv(After(s, step)) && Grows(s, After(s, step))
  {
    hide Less, WriterAt, Linked, Grows, Inv;
    match step
    case BeginInsert(_, _, _, _) => BeginInsertKeepsInv(s, step);
    case CopyPointer => CopyPointerKeepsInv(s);
    case LinkNode => LinkNodeKeepsInv(s);
    case BeginSearch(_, _) => BeginSearchKeepsInv(s, step);
    case Load => LoadKeepsInv(s);
  }

  lemma BeginSearchKeepsInv(s: System, step: Step)
    requires Inv(s) && step.BeginSearch? && Enabled(s, step)
    ensures Inv(After(s, step)) && Grows(s, After(s, step))
  {
    hide Less, WriterAt;
    WriterIgnoresReader(s, After(s, step));
    LinkedChain(s.nodes, s.levels, step.height - 1);
    assert s.levels[step.height - 1][0] == HEAD;
  }

  /** No store or load of an insertion or a search that has begun is ever stuck. */
  lemma NeverStuck(s: System)
    requires Inv(s)
    ensures s.writer.Linking? ==> Enabled(s, CopyPointer) || Enabled(s, LinkNode)
    ensures s.reader.Searching? ==> Enabled(s, Load)
  {
    hide Less, Turned, Midway, SetNext, Spliced, Linked, Chain;
    if s.writer.Linking? {
      var m :| WriterAt(s, m);
      WriterPlace(s, m);
    }
    if s.reader.Searching? {
      var _ := LoadFinds(s);
    }
  }

  // ----- Whole runs -----

  ghost predicate IsReadRun(run: seq<System>, steps: seq<Step>) {
    && |run| == |steps| + 1 && IsInitial(run[0])
    && forall i :: 0 <= i < |steps| ==> Enabled(run[i], steps[i]) && run[i + 1] == After(run[i], steps[i])
  }

  lemma {:induction false} RunKeepsInv(run: seq<System>, steps: seq<Step>, i: nat)
    requires IsReadRun(run, steps) && i < |run|
    ensures Inv(run[i])
  {
    hide Enabled, After, Inv;
    if i == 0 {
      InitialInv(run[0]);
    } else {
      RunKeepsInv(run, steps, i - 1);
      StepKeepsInv(run[i - 1], steps[i - 1]);
    }
  }

  lemma {:induction false} RunGrows(run: seq<System>, steps: seq<Step>, i: nat, k: nat)
    requires IsReadRun(run, steps) && i <= k < |run|
    ensures Grows(run[i], run[k])
    decreases k - i
  {
    hide Enabled, After, Inv;
    if i < k {
      RunKeepsInv(run, steps, i);
      StepKeepsInv(run[i], steps[i]);
      RunGrows(run, steps, i + 1, k);
    }
  }

  /** The load that ends a search finds what a scan of the list finds at that moment. */
  lemma SearchIsScan(run: seq<System>, steps: seq<Step>, i: nat)
    requires IsReadRun(run, steps) && i < |steps| && run[i].reader.Searching? && run[i + 1].reader.Stopped?
    ensures
      var s := run[i + 1];
      && HasEntries(s.nodes, s.levels)
      && exists j: nat :: Stop(s.nodes, s.levels[0], s.reader.sought, j)
           && j < |s.levels[0]| && s.reader.last == s.levels[0][j] && s.reader.next == Successor(s.levels[0], j)
  {
    hide Less, Stop, Linked;
    var s, s' := run[i], run[i + 1];
    RunKeepsInv(run, steps, i);
    var j := LoadFinds(s);
    LinkedChain(s.nodes, s.levels, 0);
    assert steps[i] == Load;
    NeighboursDecide(s.nodes, 0, s.levels[0], s.reader.target, j);
  }

  /** What is in the list stays there, and every later search for it finds it. */
  lemma PresentIsFound(run: seq<System>, steps: seq<Step>, a: nat, i: nat, e: Entry)
    requires IsReadRun(run, steps) && a <= i < |steps| && run[i].reader.Searching? && run[i + 1].reader.Stopped?
    requires HasEntries(run[a].nodes, run[a].levels) && e in EntriesOf(run[a].nodes, run[a].levels[0])
    requires run[i + 1].reader.sought == Some(e.key)
    ensures
      var s := run[i + 1];
      s.reader.next.Some? && s.reader.next.value < |s.nodes| && s.nodes[s.reader.next.value].entry == e
  {
    hide Stop, Linked, Chain, Enabled, After, EntriesOf;
    var s0, s := run[a], run[i + 1];
    RunIsLinked(run, steps, a);
    RunIsLinked(run, steps, i + 1);
    RunGrows(run, steps, a, i + 1);
    SearchIsScan(run, steps, i);
    LinkedChain(s0.nodes, s0.levels, 0);
    LinkedChain(s.nodes, s.levels, 0);
    var j: nat :| Stop(s.nodes, s.levels[0], s.reader.sought, j) && j < |s.levels[0]|
               && s.reader.next == Successor(s.levels[0], j);
    ScanFindsMember(s0.nodes, s0.levels[0], s.nodes, s.levels[0], e, j);
    assert Successor(s.levels[0], j) == Some(s.levels[0][j + 1]);
  }

  lemma ScanFindsMember(m0: Arena, s0: seq<nat>, m: Arena, s: seq<nat>, e: Entry, j: nat)
    requires Chain(m0, 0, s0) && Chain(m, 0, s) && e in EntriesOf(m0, s0) && Stop(m, s, Some(e.key), j)
    requires |m0| <= |m| && forall n :: 0 <= n < |m0| ==> m[n].entry == m0[n].entry
    requires forall n :: n in s0 ==> n in s
    ensures j + 1 < |s| && s[j + 1] < |m| && m[s[j + 1]].entry == e
  {
    assert Same(e.key, e.key);
    hide Less, Same, Stop;
    EntriesAt(m0, s0);
    var k: nat :| k < |EntriesOf(m0, s0)| && EntriesOf(m0, s0)[k] == e;
    var n := s0[k + 1];
    assert n in s0 && n in s;
    var p: nat :| p < |s| && s[p] == n;
    assert p != 0;
    OnlyNext(m, s, e.key, j, p);
  }

  lemma RunIsLinked(run: seq<System>, steps: seq<Step>, i: nat)
    requires IsReadRun(run, steps) && i < |run|
    ensures Linked(run[i].nodes, run[i].levels)
  {
    hide IsReadRun, Linked;
    RunKeepsInv(run, steps, i);
  }
}
