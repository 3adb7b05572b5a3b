/** What a user's iterator goes over: the whole stack, from the tables of a reader up to the entries
    that it shows, is a cursor over the map of committed updates. */
module ReadView {
  import opened Keys
  import opened Store
  import opened Engine
  import opened EngineInvariant
  import opened EngineViews
  import opened DbIterator

  /** What a map maps a key to is what is shown for it, and one entry is shown for a key. */
  ghost predicate ShowsView(es: seq<Entry>, s: nat, view: UserKey -> Option<Bytes>) {
    && (forall k, v :: view(k) == Some(v) <==>
          exists i :: 0 <= i < |es| && Shown(es, s, i) && es[i].key.user == k && es[i].value == v)
    && (forall i, j :: 0 <= i < j < |es| && Shown(es, s, i) && Shown(es, s, j) ==> es[i].key.user < es[j].key.user)
  }

  ghost function ViewOf(d: Data, hist: seq<Op>, s: nat): UserKey -> Option<Bytes> {
    k => View(hist, Held(d, hist), k, s)
  }

  function InMap(m: map<UserKey, Bytes>): UserKey -> Option<Bytes> {
    k => if k in m then Some(m[k]) else None
  }

  /** All entries of a database in order, and nothing else. */
  ghost predicate IsAll(d: Data, hist: seq<Op>, es: seq<Entry>) {
    && Sorted(es)
    && (forall x :: x in es <==> exists loc :: Holds(d, loc, x))
    && forall x :: x in es ==> IsUpdate(hist, x)
  }

  /** The entries of the memtables and tables that the newest open iterator of a state holds on to. */
  ghost predicate OverNewestReader(s: State, es: seq<Entry>) {
    s.readers != [] && IsAll(ReaderData(s, s.readers[|s.readers| - 1]), s.history, es)
  }

  lemma AllIsHeld(d: Data, hist: seq<Op>, es: seq<Entry>)
    requires IsAll(d, hist, es)
    ensures forall e :: e in es ==> e.key.sequence in Held(d, hist)
    ensures forall n: nat :: n in Held(d, hist) && 1 <= n <= |hist| ==> EntryOf(hist, n) in es
  {
    forall e | e in es ensures e.key.sequence in Held(d, hist) {
      var loc :| Holds(d, loc, e);
      assert IsHeld(d, hist, e.key.sequence);
    }
  }

  /** Going over all entries of a database shows the view of what it stores, in key order. */
  lemma ShowsItsView(d: Data, hist: seq<Op>, es: seq<Entry>, s: nat)
    requires IsAll(d, hist, es)
    ensures ShowsView(es, s, ViewOf(d, hist, s))
  {
    AllIsHeld(d, hist, es);
    var view := ViewOf(d, hist, s);
    forall k, v
      ensures view(k) == Some(v) <==>
          exists i :: 0 <= i < |es| && Shown(es, s, i) && es[i].key.user == k && es[i].value == v
    {
      ShownIsView(es, hist, Held(d, hist), s, k);
    }
    UsersOrdered(es);
    forall i, j | 0 <= i < j < |es| && Shown(es, s, i) && Shown(es, s, j) ensures es[i].key.user < es[j].key.user {
      ShownIsView(es, hist, Held(d, hist), s, es[i].key.user);
    }
  }

  // ----- Writing goes on -----

  /** Entries that were inserted after an iterator was opened are newer than what it reads, and
      change nothing of what it shows. */
  lemma NewerAreNotShown(es: seq<Entry>, live: seq<Entry>, s: nat, view: UserKey -> Option<Bytes>)
    requires Sorted(es) && Sorted(live) && ShowsView(es, s, view)
    requires forall x :: x in es ==> x in live
    requires forall x :: x in live ==> x in es || x.key.sequence > s
    ensures ShowsView(live, s, view)
  {
    hide ShowsView;
    ShowsSame(es, live, s);
    ShowsSameView(es, live, s, view);
  }

  ghost predicate ShowsEntry(es: seq<Entry>, s: nat, e: Entry) {
    exists i :: 0 <= i < |es| && Shown(es, s, i) && es[i] == e
  }

  /** Where an entry of one sequence stands in another that also holds what comes before it. */
  lemma ShownThere(es: seq<Entry>, live: seq<Entry>, s: nat, i: nat)
    requires Sorted(es) && Sorted(live) && i < |es| && Shown(es, s, i) && es[i] in live
    requires forall x :: x in live && x.key.sequence <= s ==> x in es
    ensures ShowsEntry(live, s, es[i])
  {
    var k :| 0 <= k < |live| && live[k] == es[i];
    forall j | 0 <= j < k && VisibleAt(live, s, j) ensures live[j].key.user != live[k].key.user {
      assert live[j] in live && Less(live[j].key, live[k].key);
      var m :| 0 <= m < |es| && es[m] == live[j];
      assert m > i ==> Less(es[i].key, es[m].key);
    }
    assert Shown(live, s, k);
  }

  lemma ShowsSame(es: seq<Entry>, live: seq<Entry>, s: nat)
    requires Sorted(es) && Sorted(live)
    requires forall x :: x in es ==> x in live
    requires forall x :: x in live ==> x in es || x.key.sequence > s
    ensures forall e :: ShowsEntry(es, s, e) <==> ShowsEntry(live, s, e)
  {
    forall i | 0 <= i < |es| && Shown(es, s, i) ensures ShowsEntry(live, s, es[i]) {
      assert es[i] in es;
      ShownThere(es, live, s, i);
    }
    forall i | 0 <= i < |live| && Shown(live, s, i) ensures ShowsEntry(es, s, live[i]) {
      assert live[i] in live;
      ShownThere(live, es, s, i);
    }
  }

  lemma ShowsSameView(es: seq<Entry>, live: seq<Entry>, s: nat, view: UserKey -> Option<Bytes>)
    requires ShowsView(es, s, view) && Sorted(live)
    requires forall e :: ShowsEntry(es, s, e) <==> ShowsEntry(live, s, e)
    ensures ShowsView(live, s, view)
  {
    hide Shown;
    forall k, v
      ensures view(k) == Some(v) <==>
          exists i :: 0 <= i < |live| && Shown(live, s, i) && live[i].key.user == k && live[i].value == v
    {
      if view(k) == Some(v) {
        var i :| 0 <= i < |es| && Shown(es, s, i) && es[i].key.user == k && es[i].value == v;
        assert ShowsEntry(es, s, es[i]);
      }
      if i :| 0 <= i < |live| && Shown(live, s, i) && live[i].key.user == k && live[i].value == v {
        assert ShowsEntry(live, s, live[i]);
      }
    }
    forall i, j | 0 <= i < j < |live| && Shown(live, s, i) && Shown(live, s, j)
      ensures live[i].key.user < live[j].key.user
    {
      OneShown(live, s, i, j);
    }
  }

  lemma OneShown(es: seq<Entry>, s: nat, i: nat, j: nat)
    requires Sorted(es) && i < j < |es| && Shown(es, s, i) && Shown(es, s, j)
    ensures es[i].key.user < es[j].key.user
  {
    UsersOrdered(es);
  }

  /** However many updates are written while an iterator is open, going over the memtable as it is
      by then shows the view of the time of opening. */
  lemma LiveIteratorShowsView(
      d: Data, hist: seq<Op>, mem: seq<Entry>, hist': seq<Op>, es: seq<Entry>, live: seq<Entry>, s: nat)
    requires IsAll(d, hist, es) && IsAll(d.(mem := mem), hist', live)
    requires forall x :: x in d.mem ==> x in mem
    requires forall x :: x in mem ==> x in d.mem || x.key.sequence > s
    ensures ShowsView(live, s, ViewOf(d, hist, s))
  {
    hide IsUpdate, Less;
    ShowsItsView(d, hist, es, s);
    var d' := d.(mem := mem);
    forall x | x in es ensures x in live {
      var loc :| Holds(d, loc, x);
      assert Holds(d', loc, x);
    }
    forall x | x in live ensures x in es || x.key.sequence > s {
      var loc :| Holds(d', loc, x);
      assert x in d'.mem ==> x in d.mem || x.key.sequence > s;
      assert loc.InMem? && x in d.mem ==> Holds(d, InMem, x);
      assert !loc.InMem? ==> Holds(d, loc, x);
    }
    NewerAreNotShown(es, live, s, ViewOf(d, hist, s));
  }

  lemma SameView(es: seq<Entry>, s: nat, f: UserKey -> Option<Bytes>, g: UserKey -> Option<Bytes>)
    requires ShowsView(es, s, f) && forall k :: f(k) == g(k)
    ensures ShowsView(es, s, g)
  {
    hide Shown;
    forall k, v
      ensures g(k) == Some(v) <==>
          exists i :: 0 <= i < |es| && Shown(es, s, i) && es[i].key.user == k && es[i].value == v
    {
      assert f(k) == g(k);
    }
  }

  /** In every run of safe steps, an iterator that goes over the entries that an open reader holds
      on to shows exactly the map after the updates up to the reader's sequence number. */
  lemma IteratorShowsMap(states: seq<State>, steps: seq<Step>, i: nat, r: Reader, es: seq<Entry>)
    requires IsRun(states, steps) && i <= |steps|
    requires forall j :: 0 <= j < i ==> Safe(states[j], steps[j])
    requires r in states[i].readers && IsAll(ReaderData(states[i], r), states[i].history, es)
    ensures r.sequence <= |states[i].history|
    ensures ShowsView(es, r.sequence, InMap(MapAfter(states[i].history, r.sequence)))
  {
    hide IsAll, Shown, Safe, MapAfter;
    var s := states[i];
    RunShowsMap(states, steps, i);
    var d, m := ReaderData(s, r), MapAfter(s.history, r.sequence);
    ShowsItsView(d, s.history, es, r.sequence);
    assert ShowsMap(s.history, d, r.sequence);
    SameView(es, r.sequence, ViewOf(d, s.history, r.sequence), InMap(m));
  }
}
