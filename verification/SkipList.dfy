/** The memtable's index: a linked list of entries with express lanes above it.  Nodes live in an
    arena and are never freed, so a pointer is a position in the arena. */
module SkipList {
  import opened Keys

  const MAX_HEIGHT: nat := 12
  const HEAD: nat := 0

  type Ptr = Option<nat>

  datatype Node = Node(entry: Entry, next: seq<Ptr>)

  type Arena = seq<Node>

  /** One store of one pointer. */
  function SetNext(m: Arena, n: nat, level: nat, p: Ptr): Arena
    requires n < |m| && level < |m[n].next|
  {
    m[n := m[n].(next := m[n].next[level := p])]
  }

  /** A node that is not linked in yet. */
  function NewNode(m: Arena, e: Entry, height: nat): Arena {
    m + [Node(e, seq(height, _ => None))]
  }

  /** No target stands for one past every key. */
  predicate KeyIsAfterNode(m: Arena, target: Option<InternalKey>, n: nat)
    requires n < |m|
  {
    target.None? || Less(m[n].entry.key, target.value)
  }

  // ----- What the pointers say -----

  function Successor(s: seq<nat>, j: nat): Ptr
    requires j < |s|
  {
    if j + 1 < |s| then Some(s[j + 1]) else None
  }

  /** Level `l` links exactly the nodes `s`, the head first and the others by increasing key. */
  ghost predicate Chain(m: Arena, l: nat, s: seq<nat>) {
    && s != [] && s[0] == HEAD
    && (forall j :: 0 <= j < |s| ==> s[j] < |m| && l < |m[s[j]].next| && m[s[j]].next[l] == Successor(s, j))
    && (forall j :: 1 <= j < |s| ==> s[j] != HEAD)
    && (forall i, j :: 1 <= i < j < |s| ==> Less(m[s[i]].entry.key, m[s[j]].entry.key))
  }

  ghost predicate Nested(levels: seq<seq<nat>>) {
    forall k, l, n {:trigger n in levels[l], levels[k]} :: 0 <= k <= l < |levels| && n in levels[l] ==> n in levels[k]
  }

  /** Every level is such a chain, and part of the one below. */
  ghost predicate Linked(m: Arena, levels: seq<seq<nat>>) {
    && |levels| == MAX_HEIGHT
    && (forall l :: 0 <= l < MAX_HEIGHT ==> Chain(m, l, levels[l]))
    && Nested(levels)
  }

  /** `s[j]` is the last node before the target: the place a scan of the level would stop at. */
  ghost predicate Stop(m: Arena, s: seq<nat>, target: Option<InternalKey>, j: nat) {
    && j < |s| && (forall i :: 0 <= i < |s| ==> s[i] < |m|)
    && (forall i :: 1 <= i <= j ==> KeyIsAfterNode(m, target, s[i]))
    && (forall i :: j < i < |s| ==> !KeyIsAfterNode(m, target, s[i]))
  }

  /** The entries, in order. */
  ghost function EntriesOf(m: Arena, s: seq<nat>): (t: seq<Entry>)
    requires forall i :: 0 <= i < |s| ==> s[i] < |m|
    requires s != []
    ensures |t| == |s| - 1
  {
    seq(|s| - 1, i requires 0 <= i < |s| - 1 => m[s[i + 1]].entry)
  }

  // ----- One store at a time -----

  /** Where two neighbours stand on the two sides of the target, every node does. */
  lemma NeighboursDecide(m: Arena, l: nat, s: seq<nat>, target: Option<InternalKey>, j: nat)
    requires Chain(m, l, s) && j < |s|
    requires j == 0 || KeyIsAfterNode(m, target, s[j])
    requires j + 1 < |s| ==> !KeyIsAfterNode(m, target, s[j + 1])
    ensures Stop(m, s, target, j)
  {
    hide Less;
    if target.Some? {
      var t := target.value;
      forall i | 1 <= i <= j ensures Less(m[s[i]].entry.key, t) {
        if i < j {
          LessAtMost(m[s[i]].entry.key, m[s[j]].entry.key, t);
        }
      }
      forall i | j < i < |s| ensures !Less(m[s[i]].entry.key, t) {
        if i > j + 1 {
          LessAtMost(m[s[j + 1]].entry.key, m[s[i]].entry.key, t);
        }
      }
    }
  }

  lemma LessAtMost(a: InternalKey, b: InternalKey, c: InternalKey)
    requires Less(a, b)
    ensures Less(b, c) ==> Less(a, c)
  {
  }

  /** A store into a node that is not on that level yet changes no level. */
  lemma PrivateStore(m: Arena, levels: seq<seq<nat>>, x: nat, level: nat, p: Ptr)
    requires Linked(m, levels) && x < |m| && level < |m[x].next| && level < MAX_HEIGHT
    requires x !in levels[level]
    ensures Linked(SetNext(m, x, level, p), levels)
  {
    hide Less;
    var m' := SetNext(m, x, level, p);
    forall l | 0 <= l < MAX_HEIGHT ensures Chain(m', l, levels[l]) {
      assert Chain(m, l, levels[l]);
    }
  }

  lemma Allocate(m: Arena, levels: seq<seq<nat>>, e: Entry, height: nat)
    requires Linked(m, levels)
    ensures Linked(NewNode(m, e, height), levels)
    ensures forall l :: 0 <= l < MAX_HEIGHT ==> |m| !in levels[l]
    ensures
      var m' := NewNode(m, e, height);
      && |m'| == |m| + 1 && m'[|m|].entry == e && |m'[|m|].next| == height
      && forall n :: 0 <= n < |m| ==> m'[n].entry == m[n].entry
  {
    hide Less;
    var m' := NewNode(m, e, height);
    forall l | 0 <= l < MAX_HEIGHT ensures Chain(m', l, levels[l]) && |m| !in levels[l] {
      assert Chain(m, l, levels[l]);
    }
  }

  function Spliced(s: seq<nat>, j: nat, x: nat): seq<nat>
    requires j < |s|
  {
    s[..j + 1] + [x] + s[j + 1..]
  }

  /** The store that links a node into a level puts it into its place on that level alone. */
  lemma LinkChain(m: Arena, l: nat, s: seq<nat>, x: nat, j: nat)
    requires Chain(m, l, s) && 0 < x < |m| && l < |m[x].next| && x !in s && j < |s|
    requires m[x].next[l] == Successor(s, j)
    requires Stop(m, s, Some(m[x].entry.key), j)
    requires j + 1 < |s| ==> Less(m[x].entry.key, m[s[j + 1]].entry.key)
    ensures Chain(SetNext(m, s[j], l, Some(x)), l, Spliced(s, j, x))
  {
    hide Less;
    LinkPointers(m, l, s, x, j);
    LinkOrder(m, l, s, x, j);
  }

  lemma LinkPointers(m: Arena, l: nat, s: seq<nat>, x: nat, j: nat)
    requires Chain(m, l, s) && 0 < x < |m| && l < |m[x].next| && x !in s && j < |s|
    requires m[x].next[l] == Successor(s, j)
    ensures
      var m', s' := SetNext(m, s[j], l, Some(x)), Spliced(s, j, x);
      forall i :: 0 <= i < |s'| ==> s'[i] < |m'| && l < |m'[s'[i]].next| && m'[s'[i]].next[l] == Successor(s', i)
  {
    hide Less;
    var m', s' := SetNext(m, s[j], l, Some(x)), Spliced(s, j, x);
    forall i | 0 <= i < |s'| ensures s'[i] < |m'| && l < |m'[s'[i]].next| && m'[s'[i]].next[l] == Successor(s', i) {
      if i < j {
        assert s'[i] == s[i] && s'[i + 1] == s[i + 1];
        Distinct(m, l, s, i, j);
      } else if i > j + 1 {
        assert s'[i] == s[i - 1];
        Distinct(m, l, s, j, i - 1);
      }
    }
  }

  lemma LinkOrder(m: Arena, l: nat, s: seq<nat>, x: nat, j: nat)
    requires Chain(m, l, s) && 0 < x < |m| && j < |s|
    requires Stop(m, s, Some(m[x].entry.key), j)
    requires j + 1 < |s| ==> Less(m[x].entry.key, m[s[j + 1]].entry.key)
    ensures
      var s' := Spliced(s, j, x);
      && (forall i :: 0 <= i < |s'| ==> s'[i] < |m|)
      && (forall a, b :: 1 <= a < b < |s'| ==> Less(m[s'[a]].entry.key, m[s'[b]].entry.key))
  {
    hide Less;
    var s' := Spliced(s, j, x);
    forall a, b | 1 <= a < b < |s'| ensures Less(m[s'[a]].entry.key, m[s'[b]].entry.key) {
      if b == j + 1 {
        assert s'[a] == s[a] && KeyIsAfterNode(m, Some(m[x].entry.key), s[a]);
      } else if a == j + 1 && b > j + 2 {
        LessAtMost(m[x].entry.key, m[s[j + 1]].entry.key, m[s[b - 1]].entry.key);
      }
    }
  }

  lemma Distinct(m: Arena, l: nat, s: seq<nat>, i: nat, j: nat)
    requires Chain(m, l, s) && i < j < |s|
    ensures s[i] != s[j]
  {
    if i > 0 {
      assert Less(m[s[i]].entry.key, m[s[j]].entry.key);
    }
  }

  lemma Link(m: Arena, levels: seq<seq<nat>>, level: nat, x: nat, j: nat)
    requires Linked(m, levels) && level < MAX_HEIGHT
    requires 0 < x < |m| && level < |m[x].next| && x !in levels[level] && j < |levels[level]|
    requires forall k :: 0 <= k < level ==> x in levels[k]
    requires m[x].next[level] == Successor(levels[level], j)
    requires Stop(m, levels[level], Some(m[x].entry.key), j)
    requires j + 1 < |levels[level]| ==> Less(m[x].entry.key, m[levels[level][j + 1]].entry.key)
    ensures Linked(SetNext(m, levels[level][j], level, Some(x)), levels[level := Spliced(levels[level], j, x)])
  {
    hide Less, Stop, Spliced, Nested, SetNext;
    var s := levels[level];
    var m' := SetNext(m, s[j], level, Some(x));
    var levels' := levels[level := Spliced(s, j, x)];
    LinkChain(m, level, s, x, j);
    forall l | 0 <= l < MAX_HEIGHT ensures Chain(m', l, levels'[l]) {
      if l != level {
        assert Chain(m, l, levels[l]);
        OtherLevel(m, s[j], level, Some(x), l, levels[l]);
      }
    }
    SplicedNested(levels, level, j, x);
  }

  lemma OtherLevel(m: Arena, n: nat, level: nat, p: Ptr, l: nat, s: seq<nat>)
    requires n < |m| && level < |m[n].next| && l != level && Chain(m, l, s)
    ensures Chain(SetNext(m, n, level, p), l, s)
  {
    hide Less;
  }

  lemma SplicedNested(levels: seq<seq<nat>>, level: nat, j: nat, x: nat)
    requires Nested(levels) && level < |levels| && j < |levels[level]|
    requires forall k :: 0 <= k < level ==> x in levels[k]
    ensures Nested(levels[level := Spliced(levels[level], j, x)])
  {
    hide Spliced;
    var levels' := levels[level := Spliced(levels[level], j, x)];
    forall k, l, n | 0 <= k <= l < |levels'| && n in levels'[l] ensures n in levels'[k] {
      SplicedMembers(levels[level], j, x, n);
    }
  }

  lemma SplicedMembers(s: seq<nat>, j: nat, x: nat, n: nat)
    requires j < |s|
    ensures n in Spliced(s, j, x) <==> n in s || n == x
  {
    assert s == s[..j + 1] + s[j + 1..];
  }

  /** The entries after a link at the lowest level: the new one stands where sorting puts it. */
  lemma {:induction false} InsertAt(t: seq<Entry>, e: Entry, j: nat)
    requires j <= |t|
    requires forall i :: 0 <= i < j ==> !Less(e.key, t[i].key)
    requires j < |t| ==> Less(e.key, t[j].key)
    ensures InsertSorted(t, e) == t[..j] + [e] + t[j..]
  {
    hide Less;
    if j > 0 {
      assert t == [t[0]] + t[1..];
      InsertAt(t[1..], e, j - 1);
      assert t[1..][..j - 1] == t[1..j] && t[1..][j - 1..] == t[j..];
      assert t[..j] == [t[0]] + t[1..j];
    }
  }

  lemma LinkEntries(m: Arena, s: seq<nat>, x: nat, j: nat)
    requires s != [] && (forall i :: 0 <= i < |s| ==> s[i] < |m|) && x < |m| && j < |s|
    requires forall i :: 1 <= i <= j ==> Less(m[s[i]].entry.key, m[x].entry.key)
    requires j + 1 < |s| ==> Less(m[x].entry.key, m[s[j + 1]].entry.key)
    ensures forall i :: 0 <= i < |s| + 1 ==> Spliced(s, j, x)[i] < |m|
    ensures EntriesOf(m, Spliced(s, j, x)) == InsertSorted(EntriesOf(m, s), m[x].entry)
  {
    hide Less;
    var t, e := EntriesOf(m, s), m[x].entry;
    var s' := Spliced(s, j, x);
    forall i | 0 <= i < j ensures !Less(e.key, t[i].key) {
      NotBoth(m[s[i + 1]].entry.key, e.key);
    }
    InsertAt(t, e, j);
    assert forall i :: 0 <= i < |s'| ==> s'[i] == if i <= j then s[i] else if i == j + 1 then x else s[i - 1];
    var t' := EntriesOf(m, s');
    var u := t[..j] + [e] + t[j..];
    forall i | 0 <= i < |t'| ensures t'[i] == u[i] {
      assert t'[i] == m[s'[i + 1]].entry;
    }
    assert t' == u;
  }

  lemma NotBoth(a: InternalKey, b: InternalKey)
    requires Less(a, b)
    ensures !Less(b, a)
  {
  }

  /** A node of a level stands on every lower level as well. */
  lemma Descend(m: Arena, levels: seq<seq<nat>>, level: nat, j: nat) returns (j': nat)
    requires Linked(m, levels) && 1 <= level < MAX_HEIGHT && j < |levels[level]|
    ensures j' < |levels[level - 1]| && levels[level - 1][j'] == levels[level][j]
    ensures j == 0 ==> j' == 0
  {
    hide Less;
    assert Chain(m, level, levels[level]) && Chain(m, level - 1, levels[level - 1]);
    assert levels[level][j] in levels[level] && levels[level][j] in levels[level - 1];
    j' :| 0 <= j' < |levels[level - 1]| && levels[level - 1][j'] == levels[level][j];
    if j == 0 {
      j' := 0;
    }
  }

  /** The same nodes, with the same entries and heights: only links differ. */
  ghost predicate SameEntries(m: Arena, m': Arena) {
    |m| == |m'| && forall n :: 0 <= n < |m| ==> m'[n].entry == m[n].entry && |m'[n].next| == |m[n].next|
  }

  lemma StopSame(m: Arena, m': Arena, s: seq<nat>, target: Option<InternalKey>, j: nat)
    requires Stop(m, s, target, j)
    requires |m| <= |m'| && forall n :: 0 <= n < |m| ==> m'[n].entry == m[n].entry
    ensures Stop(m', s, target, j)
  {
    hide Less;
  }

  /** The two stores that link x into level `i` behind `levels[i][j]`: the list is sound after each. */
  lemma LinkSteps(m: Arena, levels: seq<seq<nat>>, i: nat, x: nat, j: nat)
    requires Linked(m, levels) && i < MAX_HEIGHT && 0 < x < |m| && i < |m[x].next|
    requires x !in levels[i] && forall k :: 0 <= k < i ==> x in levels[k]
    requires Stop(m, levels[i], Some(m[x].entry.key), j)
    requires Others(m, levels[i], m[x].entry.key)
    ensures
      var p := levels[i][j];
      && p < |m| && i < |m[p].next|
      && var m1 := SetNext(m, x, i, m[p].next[i]);
      && Linked(m1, levels) && SameEntries(m, m1)
      && var m2 := SetNext(m1, p, i, Some(x));
      && Linked(m2, levels[i := Spliced(levels[i], j, x)]) && SameEntries(m, m2)
  {
    hide Less, Nested, Spliced, Linked, SetNext;
    LinkedChain(m, levels, i);
    var s := levels[i];
    var p := s[j];
    LinkPlace(m, i, s, x, j);
    var m1 := SetNext(m, x, i, m[p].next[i]);
    PrivateStore(m, levels, x, i, m[p].next[i]);
    SetNextSets(m, x, i, m[p].next[i]);
    StopSame(m, m1, s, Some(m[x].entry.key), j);
    Link(m1, levels, i, x, j);
    SetNextSets(m1, p, i, Some(x));
  }

  lemma SetNextSets(m: Arena, n: nat, level: nat, p: Ptr)
    requires n < |m| && level < |m[n].next|
    ensures SameEntries(m, SetNext(m, n, level, p))
    ensures SetNext(m, n, level, p)[n].next[level] == p
  {
  }

  /** Where a new node goes: behind a node that is linked there, and before the next one. */
  lemma LinkPlace(m: Arena, i: nat, s: seq<nat>, x: nat, j: nat)
    requires Chain(m, i, s) && x < |m| && x !in s && Stop(m, s, Some(m[x].entry.key), j)
    requires Others(m, s, m[x].entry.key)
    ensures j < |s| && s[j] < |m| && s[j] != x && i < |m[s[j]].next| && m[s[j]].next[i] == Successor(s, j)
    ensures j + 1 < |s| ==> s[j + 1] < |m| && Less(m[x].entry.key, m[s[j + 1]].entry.key)
  {
    hide Less;
    assert s[j] in s;
    if j + 1 < |s| {
      assert s[j + 1] in s && s[j + 1] != HEAD;
      assert !KeyIsAfterNode(m, Some(m[x].entry.key), s[j + 1]);
    }
  }

  predicate Comparable(a: InternalKey, b: InternalKey) {
    Less(a, b) || Less(b, a)
  }

  lemma ChainNext(m: Arena, l: nat, s: seq<nat>, j: nat)
    requires Chain(m, l, s) && j < |s|
    ensures s[j] < |m| && l < |m[s[j]].next| && m[s[j]].next[l] == Successor(s, j)
    ensures j + 1 < |s| ==> s[j + 1] < |m|
  {
  }

  lemma LinkedChain(m: Arena, levels: seq<seq<nat>>, l: nat)
    requires Linked(m, levels) && l < MAX_HEIGHT
    ensures |levels| == MAX_HEIGHT && Chain(m, l, levels[l])
    ensures m != [] && forall i :: 0 <= i < |levels[l]| ==> levels[l][i] < |m|
  {
  }

  /** While the new node x for entry `e` is linked into one level after another, below `i` so far:
      the list was `m0`, and on each level x belongs behind the node at position `at[l]`. */
  ghost predicate Midway(
      m0: Arena, levels0: seq<seq<nat>>, m: Arena, levels: seq<seq<nat>>, e: Entry, height: nat, at: seq<nat>, i: nat)
  {
    && Linked(m, levels) && |levels0| == MAX_HEIGHT
    && |m| == |m0| + 1 && m0 != [] && m[|m0|].entry == e && |m[|m0|].next| == height
    && (forall n :: 0 <= n < |m0| ==> m[n].entry == m0[n].entry)
    && (forall l :: 0 <= l < i && l < MAX_HEIGHT ==> |m0| in levels[l])
    && (forall l :: i <= l < MAX_HEIGHT ==> levels[l] == levels0[l] && |m0| !in levels[l])
    && (forall l :: 0 <= l < MAX_HEIGHT ==> Others(m0, levels0[l], e.key))
    && height <= |at| <= MAX_HEIGHT && (forall l :: 0 <= l < height ==> Stop(m0, levels0[l], Some(e.key), at[l]))
    && (0 < i <= height ==> at[0] < |levels0[0]| && levels[0] == Spliced(levels0[0], at[0], |m0|))
  }

  lemma MidwayStarts(m0: Arena, levels0: seq<seq<nat>>, e: Entry, height: nat, prev: seq<nat>, at: seq<nat>)
    requires Linked(m0, levels0) && height <= |at| <= MAX_HEIGHT
    requires forall i :: 0 <= i < |levels0[0]| ==> levels0[0][i] < |m0|
    requires forall o :: o in EntriesOf(m0, levels0[0]) ==> Comparable(o.key, e.key)
    requires Turned(m0, levels0, e.key, 0, prev, at)
    ensures Midway(m0, levels0, NewNode(m0, e, height), levels0, e, height, at, 0)
  {
    hide Less, Stop, NewNode, Others, Spliced, EntriesOf;
    LinkedChain(m0, levels0, 0);
    Allocate(m0, levels0, e, height);
    OthersComparable(m0, levels0, e);
  }

  /** The two stores on one level, as the insertion makes them.  The list is sound after each. */
  lemma MidwayStep(
      m0: Arena, levels0: seq<seq<nat>>, m: Arena, levels: seq<seq<nat>>, e: Entry, height: nat, at: seq<nat>, i: nat)
    requires Midway(m0, levels0, m, levels, e, height, at, i) && i < height
    ensures height <= |at| <= MAX_HEIGHT && |levels| == MAX_HEIGHT && at[i] < |levels[i]| && levels[i] == levels0[i]
    ensures
      var x, p := |m0|, levels[i][at[i]];
      && p < |m| && i < |m[p].next| && x < |m| && i < |m[x].next|
      && var m1 := SetNext(m, x, i, m[p].next[i]);
      && Linked(m1, levels) && p < |m1| && i < |m1[p].next|
      && Midway(m0, levels0, SetNext(m1, p, i, Some(x)), levels[i := Spliced(levels[i], at[i], x)],
                e, height, at, i + 1)
  {
    hide Less, Nested, Linked, SetNext, Chain, Spliced, Others;
    var x, j := |m0|, at[i];
    LinkedChain(m, levels, i);
    StopSame(m0, m, levels[i], Some(e.key), j);
    OthersSame(m0, m, levels[i], e.key);
    LinkSteps(m, levels, i, x, j);
    SplicedMembers(levels[i], j, x, x);
  }

  /** On the levels from `from` on, where a search for the key turned downwards. */
  ghost predicate Turned(m: Arena, levels: seq<seq<nat>>, key: InternalKey, from: nat, prev: seq<nat>, at: seq<nat>) {
    && |prev| == |at| && from + |at| <= |levels|
    && forall l :: from <= l < from + |at| ==>
         && at[l - from] < |levels[l]| && Stop(m, levels[l], Some(key), at[l - from])
         && prev[l - from] == levels[l][at[l - from]]
  }

  lemma TurnedNone(m: Arena, levels: seq<seq<nat>>, key: InternalKey, from: nat)
    requires from <= |levels|
    ensures Turned(m, levels, key, from, [], [])
  {
  }

  lemma TurnedBelow(m: Arena, levels: seq<seq<nat>>, key: InternalKey, from: nat, prev: seq<nat>, at: seq<nat>, j: nat)
    requires from > 0 && Turned(m, levels, key, from, prev, at) && Stop(m, levels[from - 1], Some(key), j)
    ensures Turned(m, levels, key, from - 1, [levels[from - 1][j]] + prev, [j] + at)
  {
    hide Less, KeyIsAfterNode;
  }

  lemma TurnedAbove(m: Arena, levels: seq<seq<nat>>, key: InternalKey, prev: seq<nat>, at: seq<nat>)
    requires m != [] && Turned(m, levels, key, 0, prev, at) && |at| < |levels| && levels[|at|] == [HEAD]
    ensures Turned(m, levels, key, 0, prev + [HEAD], at + [0])
  {
    hide Less, KeyIsAfterNode;
  }

  lemma InsertEntries(m: Arena, m': Arena, s: seq<nat>, x: nat, j: nat)
    requires Chain(m, 0, s) && |m| == x < |m'| && forall n :: 0 <= n < |m| ==> m'[n].entry == m[n].entry
    requires Stop(m, s, Some(m'[x].entry.key), j)
    requires Others(m, s, m'[x].entry.key)
    ensures forall i :: 0 <= i < |s| + 1 ==> Spliced(s, j, x)[i] < |m'|
    ensures EntriesOf(m', Spliced(s, j, x)) == InsertSorted(EntriesOf(m, s), m'[x].entry)
  {
    hide Less;
    assert EntriesOf(m, s) == EntriesOf(m', s);
    forall i | 1 <= i <= j ensures Less(m'[s[i]].entry.key, m'[x].entry.key) {
      assert KeyIsAfterNode(m, Some(m'[x].entry.key), s[i]);
    }
    if j + 1 < |s| {
      assert s[j + 1] in s && !KeyIsAfterNode(m, Some(m'[x].entry.key), s[j + 1]);
    }
    LinkEntries(m', s, x, j);
  }

  ghost predicate Others(m: Arena, s: seq<nat>, key: InternalKey) {
    forall n :: n in s && n != HEAD ==> n < |m| && Comparable(m[n].entry.key, key)
  }

  lemma OthersSame(m: Arena, m': Arena, s: seq<nat>, key: InternalKey)
    requires Others(m, s, key) && |m| <= |m'| && forall n :: 0 <= n < |m| ==> m'[n].entry == m[n].entry
    ensures Others(m', s, key)
  {
  }

  lemma OthersComparable(m: Arena, levels: seq<seq<nat>>, e: Entry)
    requires Linked(m, levels)
    requires forall i :: 0 <= i < |levels[0]| ==> levels[0][i] < |m|
    requires forall o :: o in EntriesOf(m, levels[0]) ==> Comparable(o.key, e.key)
    ensures forall l :: 0 <= l < MAX_HEIGHT ==> Others(m, levels[l], e.key)
  {
    hide Less, Comparable;
    forall l, n | 0 <= l < MAX_HEIGHT && n in levels[l] && n != HEAD
      ensures n < |m| && Comparable(m[n].entry.key, e.key)
    {
      assert n in levels[0];
      var j :| 0 <= j < |levels[0]| && levels[0][j] == n;
      LinkedChain(m, levels, 0);
      assert EntriesOf(m, levels[0])[j - 1] == m[n].entry;
      assert m[n].entry in EntriesOf(m, levels[0]);
    }
  }

  lemma TurnedIs(m: Arena, levels: seq<seq<nat>>, key: InternalKey, prev: seq<nat>, at: seq<nat>)
    requires Turned(m, levels, key, 0, prev, at)
    ensures |prev| == |at| <= |levels|
    ensures forall l :: 0 <= l < |at| ==>
              at[l] < |levels[l]| && prev[l] == levels[l][at[l]] && Stop(m, levels[l], Some(key), at[l])
  {
  }

  lemma MidwayEnds(
      m0: Arena, levels0: seq<seq<nat>>, m: Arena, levels: seq<seq<nat>>, e: Entry, height: nat, at: seq<nat>)
    requires Midway(m0, levels0, m, levels, e, height, at, height) && height > 0 && Linked(m0, levels0)
    ensures Linked(m, levels) && |levels| == MAX_HEIGHT
    ensures (forall l :: height <= l < MAX_HEIGHT ==> levels[l] == levels0[l])
    ensures Chain(m, 0, levels[0]) && Chain(m0, 0, levels0[0])
    ensures EntriesOf(m, levels[0]) == InsertSorted(EntriesOf(m0, levels0[0]), e)
  {
    hide Less, Nested, Spliced, Stop, EntriesOf, InsertSorted, Others;
    LinkedChain(m0, levels0, 0);
    LinkedChain(m, levels, 0);
    InsertEntries(m0, m, levels0[0], |m0|, at[0]);
  }

  lemma EntriesAt(m: Arena, s: seq<nat>)
    requires s != [] && forall i :: 0 <= i < |s| ==> s[i] < |m|
    ensures forall i :: 0 <= i < |s| - 1 ==> EntriesOf(m, s)[i] == m[s[i + 1]].entry
  {
  }

  lemma ContainsIff(m: Arena, s: seq<nat>, key: InternalKey, j: nat)
    requires Chain(m, 0, s) && Stop(m, s, Some(key), j)
    ensures (exists e :: e in EntriesOf(m, s) && Same(e.key, key)) <==> j + 1 < |s| && Same(m[s[j + 1]].entry.key, key)
  {
    assert s != [] && forall i :: 0 <= i < |s| ==> s[i] < |m|;
    hide Less, Same, EntriesOf, Chain;
    var t := EntriesOf(m, s);
    EntriesAt(m, s);
    if j + 1 < |s| {
      assert t[j] == m[s[j + 1]].entry && t[j] in t;
    }
    if e :| e in t && Same(e.key, key) {
      var i: nat :| i < |t| && t[i] == e;
      OnlyNext(m, s, key, j, i + 1);
    }
  }

  predicate Same(a: InternalKey, b: InternalKey) {
    !Less(a, b) && !Less(b, a)
  }

  lemma OnlyNext(m: Arena, s: seq<nat>, key: InternalKey, j: nat, i: nat)
    requires Chain(m, 0, s) && Stop(m, s, Some(key), j) && 1 <= i < |s| && Same(m[s[i]].entry.key, key)
    ensures i == j + 1
  {
    hide Less;
    assert KeyIsAfterNode(m, Some(key), s[i]) <==> Less(m[s[i]].entry.key, key);
    if i > j + 1 {
      assert KeyIsAfterNode(m, Some(key), s[j + 1]) <==> Less(m[s[j + 1]].entry.key, key);
      NotBefore(key, m[s[j + 1]].entry.key, m[s[i]].entry.key);
      BeforeSame(m[s[j + 1]].entry.key, m[s[i]].entry.key, key);
    }
  }

  lemma BeforeSame(a: InternalKey, b: InternalKey, c: InternalKey)
    requires Less(a, b) && Same(b, c)
    ensures Less(a, c)
  {
  }

  lemma NotBefore(a: InternalKey, b: InternalKey, c: InternalKey)
    requires Less(b, c)
    ensures Less(a, b) ==> Less(a, c)
  {
  }

  class List {
    var nodes: Arena
    var maxHeight: nat
    /** The nodes that each level links. */
    ghost var levels: seq<seq<nat>>

    /** All that a search needs.  It holds after every single store of an insertion. */
    ghost predicate Searchable()
      reads this
    {
      1 <= maxHeight <= MAX_HEIGHT && Linked(nodes, levels)
    }

    ghost predicate Ok()
      reads this
    {
      Searchable() && forall l :: maxHeight <= l < MAX_HEIGHT ==> levels[l] == [HEAD]
    }

    ghost function Entries(): seq<Entry>
      requires Searchable()
      reads this
    {
      assert Chain(nodes, 0, levels[0]);
      EntriesOf(nodes, levels[0])
    }

    constructor ()
      ensures Ok() && Entries() == []
    {
      nodes := [Node(Entry(InternalKey(0.0, 0, Value), []), seq(MAX_HEIGHT, _ => None))];
      maxHeight := 1;
      levels := seq(MAX_HEIGHT, _ => [HEAD]);
    }

    /** The earliest node at or after the key, and on every level the last node before it. */
    method FindGreaterOrEqual(key: InternalKey) returns (r: Ptr, prev: seq<nat>, ghost at: seq<nat>)
      requires Searchable()
      ensures |at| == maxHeight && Turned(nodes, levels, key, 0, prev, at)
      ensures r == Successor(levels[0], at[0])
    {
      hide Less, KeyIsAfterNode, Turned, Stop, Chain, Linked;
      var x := HEAD;
      var level := maxHeight - 1;
      LinkedChain(nodes, levels, level);
      ghost var j: nat := 0;
      TurnedNone(nodes, levels, key, maxHeight);
      prev, at := [], [];
      while true
        invariant 0 <= level < maxHeight && |levels| == MAX_HEIGHT && Chain(nodes, level, levels[level])
        invariant j < |levels[level]| && x == levels[level][j] && x < |nodes|
        invariant j == 0 || KeyIsAfterNode(nodes, Some(key), x)
        invariant |at| == maxHeight - 1 - level && Turned(nodes, levels, key, level + 1, prev, at)
        decreases level, |levels[level]| - j
      {
        ChainNext(nodes, level, levels[level], j);
        var next := nodes[x].next[level];
        if next.Some? && KeyIsAfterNode(nodes, Some(key), next.value) {
          x := next.value;
          j := j + 1;
        } else {
          NeighboursDecide(nodes, level, levels[level], Some(key), j);
          TurnedBelow(nodes, levels, key, level + 1, prev, at, j);
          prev, at := [x] + prev, [j] + at;
          if level == 0 {
            return next, prev, at;
          }
          j := Descend(nodes, levels, level, j);
          level := level - 1;
          LinkedChain(nodes, levels, level);
        }
      }
    }

    /** The latest node before the key, or the head. */
    method FindLessThan(key: InternalKey) returns (x: nat, ghost at: nat)
      requires Searchable()
      ensures Stop(nodes, levels[0], Some(key), at) && x == levels[0][at]
    {
      hide Less, KeyIsAfterNode, Stop, Chain, Linked;
      x := HEAD;
      var level := maxHeight - 1;
      LinkedChain(nodes, levels, level);
      at := 0;
      while true
        invariant 0 <= level < maxHeight && |levels| == MAX_HEIGHT && Chain(nodes, level, levels[level])
        invariant at < |levels[level]| && x == levels[level][at] && x < |nodes|
        invariant at == 0 || KeyIsAfterNode(nodes, Some(key), x)
        decreases level, |levels[level]| - at
      {
        ChainNext(nodes, level, levels[level], at);
        var next := nodes[x].next[level];
        if next.None? || !KeyIsAfterNode(nodes, Some(key), next.value) {
          if level == 0 {
            NeighboursDecide(nodes, 0, levels[0], Some(key), at);
            return;
          }
          at := Descend(nodes, levels, level, at);
          level := level - 1;
          LinkedChain(nodes, levels, level);
        } else {
          x := next.value;
          at := at + 1;
        }
      }
    }

    /** The last node, or the head of an empty list. */
    method FindLast() returns (x: nat)
      requires Searchable()
      ensures x == levels[0][|levels[0]| - 1]
    {
      hide Less, Chain, Linked;
      x := HEAD;
      var level := maxHeight - 1;
      LinkedChain(nodes, levels, level);
      ghost var j: nat := 0;
      while true
        invariant 0 <= level < maxHeight && |levels| == MAX_HEIGHT && Chain(nodes, level, levels[level])
        invariant j < |levels[level]| && x == levels[level][j]
        decreases level, |levels[level]| - j
      {
        ChainNext(nodes, level, levels[level], j);
        var next := nodes[x].next[level];
        if next.None? {
          if level == 0 {
            return;
          }
          j := Descend(nodes, levels, level, j);
          level := level - 1;
          LinkedChain(nodes, levels, level);
        } else {
          x := next.value;
          j := j + 1;
        }
      }
    }

    method Contains(key: InternalKey) returns (found: bool)
      requires Searchable()
      ensures found <==> exists e :: e in Entries() && Same(e.key, key)
    {
      hide Less, Same, Turned, EntriesOf;
      var r, prev, at := FindGreaterOrEqual(key);
      TurnedIs(nodes, levels, key, prev, at);
      ContainsIff(nodes, levels[0], key, at[0]);
      found := r.Some? && Same(nodes[r.value].entry.key, key);
    }

    /** Links a new entry in, from the lowest level up.  Between any two stores the list can be
        searched, and the entry is there from the first link on. */
    method Insert(e: Entry, height: nat)
      requires Ok() && 1 <= height <= MAX_HEIGHT
      requires forall o :: o in Entries() ==> Comparable(o.key, e.key)
      modifies this
      ensures Ok()
      ensures Entries() == InsertSorted(old(Entries()), e)
    {
      hide Less, KeyIsAfterNode, Spliced, SetNext, Chain, NewNode, Linked, EntriesOf, Midway, Turned, InsertSorted;
      var next, prev, at := FindGreaterOrEqual(e.key);
      ghost var m0, levels0 := nodes, levels;
      LinkedChain(nodes, levels, 0);
      if height > maxHeight {
        var i: nat := maxHeight;
        while i < height
          invariant maxHeight <= i <= height && |at| == i && Ok() && |levels| == MAX_HEIGHT
          invariant nodes == m0 && levels == levels0 && Turned(nodes, levels, e.key, 0, prev, at)
        {
          TurnedAbove(nodes, levels, e.key, prev, at);
          prev, at := prev + [HEAD], at + [0];
          i := i + 1;
        }
        maxHeight := height;
      }
      assert Searchable();
      ghost var h := maxHeight;
      MidwayStarts(m0, levels, e, height, prev, at);
      TurnedIs(m0, levels, e.key, prev, at);
      var x := |nodes|;
      nodes := NewNode(nodes, e, height);
      var i: nat := 0;
      while i < height
        invariant 0 <= i <= height && maxHeight == h
        invariant Midway(m0, levels0, nodes, levels, e, height, at, i)
      {
        MidwayStep(m0, levels0, nodes, levels, e, height, at, i);
        nodes := SetNext(nodes, x, i, nodes[prev[i]].next[i]);
        assert Searchable();
        nodes := SetNext(nodes, prev[i], i, Some(x));
        levels := levels[i := Spliced(levels[i], at[i], x)];
        i := i + 1;
      }
      MidwayEnds(m0, levels0, nodes, levels, e, height, at);
    }
  }
}
