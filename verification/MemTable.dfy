/** The memtable: a skip list of entries, looked up by user key and sequence number. */
module MemTable {
  import opened Keys
  import opened SkipList
  import opened PointLookup

  datatype Lookup = Missing | Deleted | Found(value: Bytes)

  /** What the newest entry for `k` visible at `s` says. */
  ghost predicate Answers(t: seq<Entry>, k: UserKey, s: nat, r: Lookup) {
    if r.Missing? then forall e :: e in t ==> !Visible(e, k, s)
    else exists e ::
      && e in t && Visible(e, k, s)
      && (forall x :: x in t && Visible(x, k, s) ==> x.key.sequence <= e.key.sequence)
      && r == if e.key.kind == Value then Found(e.value) else Deleted
  }

  class Table {
    const table: List

    constructor ()
      ensures table.Ok() && table.Entries() == [] && fresh(table)
    {
      table := new List();
    }

    /** The node's height is the one choice left to chance. */
    method Add(s: nat, kind: Kind, user: UserKey, value: Bytes, height: nat)
      requires table.Ok() && 1 <= height <= MAX_HEIGHT
      requires forall e :: e in table.Entries() ==> e.key.user != user || e.key.sequence != s
      modifies table
      ensures table.Ok()
      ensures table.Entries() == InsertSorted(old(table.Entries()), Entry(InternalKey(user, s, kind), value))
    {
      table.Insert(Entry(InternalKey(user, s, kind), value), height);
    }

    method Get(user: UserKey, s: nat) returns (r: Lookup)
      requires table.Ok()
      ensures Answers(table.Entries(), user, s, r)
    {
      hide Turned, EntriesOf;
      var target := SeekKey(user, s);
      var next, prev, at := table.FindGreaterOrEqual(target);
      TurnedIs(table.nodes, table.levels, target, prev, at);
      AtTarget(table.nodes, table.levels[0], user, s, at[0]);
      if next.None? || table.nodes[next.value].entry.key.user != user {
        return Missing;
      }
      var e := table.nodes[next.value].entry;
      return if e.key.kind == Value then Found(e.value) else Deleted;
    }
  }

  /** The first entry at or after the target is the newest visible one, if it is for the same user key. */
  lemma AtTarget(m: Arena, s: seq<nat>, k: UserKey, n: nat, j: nat)
    requires Chain(m, 0, s) && Stop(m, s, Some(SeekKey(k, n)), j)
    ensures
      var t := EntriesOf(m, s);
      if j + 1 < |s| && m[s[j + 1]].entry.key.user == k then
        var e := m[s[j + 1]].entry;
        e in t && Visible(e, k, n) && forall x :: x in t && Visible(x, k, n) ==> x.key.sequence <= e.key.sequence
      else forall x :: x in t ==> !Visible(x, k, n)
  {
    hide Less, EntriesOf;
    var t := EntriesOf(m, s);
    EntriesAt(m, s);
    if j + 1 < |s| {
      var first := t[j];
      assert first in t && !KeyIsAfterNode(m, Some(SeekKey(k, n)), s[j + 1]);
      if first.key.user == k {
        VisibleIffAtOrAfter(first.key, n);
      }
    }
    forall x | x in t && Visible(x, k, n)
      ensures j + 1 < |s| && m[s[j + 1]].entry.key.user == k && x.key.sequence <= m[s[j + 1]].entry.key.sequence
    {
      var i: nat :| i < |t| && t[i] == x;
      VisibleIffAtOrAfter(x.key, n);
      assert KeyIsAfterNode(m, Some(SeekKey(k, n)), s[i + 1]) <==> Less(x.key, SeekKey(k, n));
      assert i == j || Less(m[s[j + 1]].entry.key, m[s[i + 1]].entry.key);
      FirstDecides(m[s[j + 1]].entry.key, x.key, n);
    }
  }

  lemma VisibleIffAtOrAfter(a: InternalKey, n: nat)
    ensures a.sequence <= n <==> !Less(a, SeekKey(a.user, n))
  {
  }

  lemma FirstDecides(a: InternalKey, b: InternalKey, n: nat)
    requires !Less(a, SeekKey(b.user, n)) && b.sequence <= n && (a == b || Less(a, b))
    ensures a.user == b.user && b.sequence <= a.sequence
  {
  }
}
