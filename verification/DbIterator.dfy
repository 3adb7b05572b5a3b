/** The user-facing iterator: it walks the entries of all sources and shows, for each user key,
    the newest value visible at its sequence number. */
module DbIterator {
  import opened Keys
  import opened Store
  import opened Cursors
  import opened MergingIterator

  ghost predicate VisibleAt(es: seq<Entry>, s: nat, i: nat) {
    i < |es| && es[i].key.sequence <= s
  }

  /** Entry `i` is what a reader at `s` sees for its key. */
  ghost predicate Shown(es: seq<Entry>, s: nat, i: nat) {
    && VisibleAt(es, s, i)
    && es[i].key.kind == Value
    && forall j :: 0 <= j < i && VisibleAt(es, s, j) ==> es[j].key.user != es[i].key.user
  }

  lemma UsersOrdered(es: seq<Entry>)
    requires Sorted(es)
    ensures forall i, j :: 0 <= i <= j < |es| ==> es[i].key.user <= es[j].key.user
  {
  }

  /** The first shown entry at or after position `p`; the length if there is none. */
  ghost predicate FirstShown(es: seq<Entry>, s: nat, p: nat, at: nat) {
    && at <= |es|
    && (at < |es| ==> p <= at && Shown(es, s, at))
    && forall j :: p <= j < at && j < |es| ==> !Shown(es, s, j)
  }

  /** The last shown entry before position `p`; the length if there is none. */
  ghost predicate LastShown(es: seq<Entry>, s: nat, p: nat, at: nat) {
    && at <= |es|
    && (at < |es| ==> at < p && Shown(es, s, at) && forall j :: at < j < p && j < |es| ==> !Shown(es, s, j))
    && (at == |es| ==> forall j :: 0 <= j < p && j < |es| ==> !Shown(es, s, j))
  }

  /** Going back from `start` to `p`: the last visible entry, if it has a value, is the only one that can be shown. */
  ghost predicate BestBack(es: seq<Entry>, s: nat, p: nat, start: nat, found: bool, last: nat) {
    && (forall j :: p <= j < start && Shown(es, s, j) ==> found && j == last)
    && (found ==>
          && p <= last < start && VisibleAt(es, s, last) && es[last].key.kind == Value
          && forall j :: p <= j < last ==> !VisibleAt(es, s, j))
  }

  lemma BestBackStep(es: seq<Entry>, s: nat, p: nat, start: nat, found: bool, last: nat)
    requires Sorted(es) && p < start <= |es| && BestBack(es, s, p + 1, start, found, last)
    ensures !VisibleAt(es, s, p) ==> BestBack(es, s, p, start, found, last)
    ensures VisibleAt(es, s, p) && !(found && es[p].key.user < es[last].key.user) ==>
              BestBack(es, s, p, start, es[p].key.kind == Value, p)
    ensures VisibleAt(es, s, p) && found && es[p].key.user < es[last].key.user ==> LastShown(es, s, start, last)
  {
    UsersOrdered(es);
  }

  lemma NothingBack(es: seq<Entry>, s: nat, start: nat)
    ensures BestBack(es, s, start, start, false, |es|)
  {
  }

  /** The entry found is shown once the search has stopped, with nothing visible of its key before it. */
  lemma ShownBack(es: seq<Entry>, s: nat, p: nat, start: nat, last: nat)
    requires Sorted(es) && LastShown(es, s, start, last) && last < |es| && BestBack(es, s, p, start, true, last)
    ensures Shown(es, s, last)
    ensures forall j :: p <= j < |es| && VisibleAt(es, s, j) ==> es[j].key.user >= es[last].key.user
  {
    UsersOrdered(es);
  }

  lemma BestBackEnds(es: seq<Entry>, s: nat, start: nat, found: bool, last: nat)
    requires Sorted(es) && start <= |es| && BestBack(es, s, 0, start, found, last)
    ensures LastShown(es, s, start, if found then last else |es|)
    ensures found ==> last < |es|
  {
  }

  class DBIter {
    const iter: Merger
    const sequence: nat
    var direction: Direction
    var valid: bool
    var savedKey: Option<UserKey>
    var savedValue: Bytes
    /** The position of the shown entry; the number of entries when the iterator is invalid. */
    ghost var at: nat

    constructor (iter: Merger, sequence: nat)
      requires iter.Ok() && !iter.Valid()
      ensures Ok() && !valid && this.iter == iter && this.sequence == sequence
    {
      iter.ValidIff();
      hide Merger.Ok;
      this.iter := iter;
      this.sequence := sequence;
      direction, valid, savedKey, savedValue, at := Forward, false, None, [], |iter.all|;
    }

    /** The merged entries are in order, and the cursor stands at one of them, or at their end. */
    ghost predicate IterOk()
      reads this, iter, iter.family, iter.family.repr
    {
      && iter.Ok() && this !in iter.family.repr && Sorted(iter.all)
      && iter.at <= |iter.all| && iter.Valid() == (iter.at < |iter.all|)
    }

    /** Moving backward, the entry to the left is visible and of a smaller key, and nothing
        visible of a smaller key lies to its right. */
    ghost predicate LeftOf(k: UserKey)
      reads iter
    {
      && (iter.Valid() ==> VisibleAt(iter.all, sequence, iter.at) && iter.all[iter.at].key.user < k)
      && forall j ::
           (if iter.Valid() then iter.at + 1 else 0) <= j < |iter.all| && VisibleAt(iter.all, sequence, j) ==>
             iter.all[j].key.user >= k
    }

    ghost predicate Ok()
      reads this, iter, iter.family, iter.family.repr
    {
      && IterOk()
      && (valid <==> at < |iter.all|)
      && at <= |iter.all|
      && (valid ==>
            && Shown(iter.all, sequence, at)
            && (direction == Forward ==> iter.at == at)
            && (direction == Reverse ==>
                  && savedKey == Some(iter.all[at].key.user)
                  && savedValue == iter.all[at].value
                  && LeftOf(iter.all[at].key.user)))
    }

    method Key() returns (k: UserKey)
      requires Ok() && valid
      ensures k == iter.all[at].key.user
    {
      if direction == Forward {
        var e := iter.Current();
        k := e.key.user;
      } else {
        k := savedKey.value;
      }
    }

    method Val() returns (v: Bytes)
      requires Ok() && valid
      ensures v == iter.all[at].value
    {
      if direction == Forward {
        var e := iter.Current();
        v := e.value;
      } else {
        v := savedValue;
      }
    }

    /** Searches forward for an entry to show, past everything hidden and past keys up to `skip`. */
    method FindNextUserEntry(skipping0: bool, skip0: Option<UserKey>)
      requires IterOk() && iter.Valid() && direction == Forward && (skipping0 ==> skip0.Some?)
      requires forall j :: 0 <= j < iter.at && VisibleAt(iter.all, sequence, j) ==>
                 if skipping0 then iter.all[j].key.user <= skip0.value
                   else iter.all[j].key.user < iter.all[iter.at].key.user
      requires forall j :: iter.at <= j < |iter.all| && VisibleAt(iter.all, sequence, j) && skipping0 ==>
          iter.all[j].key.user >= skip0.value
      modifies this, iter, iter.family.repr
      ensures fresh(iter.family.repr - old(iter.family.repr))
      ensures Ok() && direction == Forward
      ensures valid ==> old(iter.at) <= at && (skipping0 ==> iter.all[at].key.user > skip0.value)
      ensures forall j :: old(iter.at) <= j < at && j < |iter.all| && Shown(iter.all, sequence, j) ==>
          skipping0 && iter.all[j].key.user <= skip0.value
    {
      hide Merger.Ok;
      UsersOrdered(iter.all);
      ghost var start := iter.at;
      var skipping, skip := skipping0, skip0;
      while iter.Valid()
        invariant IterOk() && fresh(iter.family.repr - old(iter.family.repr)) && start <= iter.at
        invariant direction == Forward && (skipping ==> skip.Some?)
        invariant forall j :: start <= j < iter.at && Shown(iter.all, sequence, j) ==>
            skipping0 && iter.all[j].key.user <= skip0.value
        invariant forall j :: start <= j < iter.at && VisibleAt(iter.all, sequence, j) ==>
            skipping && iter.all[j].key.user <= skip.value
        invariant skipping0 ==> skipping && skip.value >= skip0.value
        invariant skipping ==>
                    || (skipping0 && skip == skip0)
                    || exists d ::
                         start <= d < iter.at && VisibleAt(iter.all, sequence, d) && skip == Some(iter.all[d].key.user)
        decreases |iter.all| - iter.at
      {
        var e := iter.Current();
        if e.key.sequence <= sequence {
          assert VisibleAt(iter.all, sequence, iter.at);
          if e.key.kind == Deletion {
            skip := Some(e.key.user);
            skipping := true;
          } else if skipping && e.key.user <= skip.value {
            // hidden
          } else {
            valid, savedKey, at := true, None, iter.at;
            return;
          }
        }
        iter.Next();
      }
      savedKey, valid, at := None, false, |iter.all|;
    }

    /** Searches backward for the newest entry of the last key that has a value to show. */
    method FindPrevUserEntry()
      requires IterOk() && direction == Reverse
      modifies this, iter, iter.family.repr
      ensures fresh(iter.family.repr - old(iter.family.repr))
      ensures Ok()
      ensures LastShown(iter.all, sequence, if old(iter.Valid()) then old(iter.at) + 1 else 0, at)
      ensures valid ==> direction == Reverse
      ensures !valid ==> direction == Forward
    {
      hide Merger.Ok, BestBack, LastShown, Shown, Sorted, Less;
      var valueType := Deletion;
      ghost var start := if iter.Valid() then iter.at + 1 else 0;
      ghost var last: nat := |iter.all|;
      NothingBack(iter.all, sequence, start);
      while iter.Valid()
        invariant IterOk() && fresh(iter.family.repr - old(iter.family.repr)) && direction == Reverse
        invariant iter.Valid() ==> iter.at < start
        invariant BestBack(iter.all, sequence, if iter.Valid() then iter.at + 1 else 0, start, valueType == Value, last)
        invariant valueType == Value ==>
                    && last < |iter.all| && savedKey == Some(iter.all[last].key.user)
                      && savedValue == iter.all[last].value
        decreases if iter.Valid() then iter.at + 1 else 0
      {
        var e := iter.Current();
        BestBackStep(iter.all, sequence, iter.at, start, valueType == Value, last);
        if e.key.sequence <= sequence {
          if valueType != Deletion && e.key.user < savedKey.value {
            break;
          }
          valueType := e.key.kind;
          last := iter.at;
          if valueType == Deletion {
            savedKey, savedValue := None, [];
          } else {
            savedKey, savedValue := Some(e.key.user), e.value;
          }
        }
        iter.Prev();
      }
      if !iter.Valid() {
        BestBackEnds(iter.all, sequence, start, valueType == Value, last);
      }
      Settle(valueType, start, last);
    }

    /** The saved entry is the one to show, if one was saved. */
    method Settle(valueType: Kind, ghost start: nat, ghost last: nat)
      requires IterOk() && direction == Reverse
      requires LastShown(iter.all, sequence, start, if valueType == Value then last else |iter.all|)
      requires valueType == Value ==>
                 && last < |iter.all| && savedKey == Some(iter.all[last].key.user) && savedValue == iter.all[last].value
                 && iter.at <= |iter.all|
                   && (iter.Valid() ==>
                     VisibleAt(iter.all, sequence, iter.at) && iter.all[iter.at].key.user < iter.all[last].key.user)
                 && BestBack(iter.all, sequence, if iter.Valid() then iter.at + 1 else 0, start, true, last)
      modifies this
      ensures Ok() && LastShown(iter.all, sequence, start, at)
      ensures valid ==> direction == Reverse
      ensures !valid ==> direction == Forward
    {
      hide Merger.Ok, BestBack, LastShown, Shown, Sorted, Less;
      if valueType == Deletion {
        valid, savedKey, savedValue, direction, at := false, None, [], Forward, |iter.all|;
      } else {
        ShownBack(iter.all, sequence, if iter.Valid() then iter.at + 1 else 0, start, last);
        valid, at := true, last;
      }
    }

    /** To the next shown entry. */
    method Next()
      requires Ok() && valid
      modifies this, iter, iter.family.repr
      ensures fresh(iter.family.repr - old(iter.family.repr))
      ensures Ok()
      ensures FirstShown(iter.all, sequence, old(at) + 1, at)
    {
      hide Merger.Ok;
      UsersOrdered(iter.all);
      if direction == Reverse {
        direction := Forward;
        if !iter.Valid() {
          iter.SeekToFirst();
        } else {
          iter.Next();
        }
        if !iter.Valid() {
          assert false; // the shown entry itself lies ahead
        }
      } else {
        var e := iter.Current();
        savedKey := Some(e.key.user);
      }
      FindNextUserEntry(true, savedKey);
    }

    /** To the shown entry before. */
    method Prev()
      requires Ok() && valid
      modifies this, iter, iter.family.repr
      ensures fresh(iter.family.repr - old(iter.family.repr))
      ensures Ok()
      ensures LastShown(iter.all, sequence, old(at), at)
    {
      hide Merger.Ok;
      UsersOrdered(iter.all);
      ghost var was := at;
      if direction == Forward {
        var e := iter.Current();
        savedKey := Some(e.key.user);
        while true
          invariant IterOk() && fresh(iter.family.repr - old(iter.family.repr)) && iter.Valid() && iter.at <= was
          invariant savedKey == Some(iter.all[was].key.user)
          invariant direction == Forward && at == was
          invariant forall j :: iter.at <= j <= was ==> iter.all[j].key.user == iter.all[was].key.user
          decreases iter.at
        {
          iter.Prev();
          if !iter.Valid() {
            valid, savedKey, savedValue, at := false, None, [], |iter.all|;
            return;
          }
          var e' := iter.Current();
          if e'.key.user < savedKey.value {
            break;
          }
        }
        direction := Reverse;
      }
      FindPrevUserEntry();
    }

    /** To the first shown entry of a key at or after `target`. */
    method Seek(target: UserKey)
      requires Ok()
      modifies this, iter, iter.family.repr
      ensures fresh(iter.family.repr - old(iter.family.repr))
      ensures Ok()
      ensures valid ==> Shown(iter.all, sequence, at) && iter.all[at].key.user >= target
      ensures forall j :: 0 <= j < at && j < |iter.all| && Shown(iter.all, sequence, j) ==>
          iter.all[j].key.user < target
    {
      hide Merger.Ok;
      UsersOrdered(iter.all);
      direction := Forward;
      savedValue, savedKey := [], None;
      iter.Seek(SeekKey(target, sequence));
      if iter.Valid() {
        FindNextUserEntry(false, savedKey);
      } else {
        valid, at := false, |iter.all|;
      }
    }

    method SeekToFirst()
      requires Ok()
      modifies this, iter, iter.family.repr
      ensures fresh(iter.family.repr - old(iter.family.repr))
      ensures Ok()
      ensures FirstShown(iter.all, sequence, 0, at)
    {
      hide Merger.Ok;
      direction, savedValue := Forward, [];
      iter.SeekToFirst();
      if iter.Valid() {
        FindNextUserEntry(false, savedKey);
      } else {
        valid, at := false, |iter.all|;
      }
    }

    method SeekToLast()
      requires Ok()
      modifies this, iter, iter.family.repr
      ensures fresh(iter.family.repr - old(iter.family.repr))
      ensures Ok()
      ensures LastShown(iter.all, sequence, |iter.all|, at)
    {
      hide Merger.Ok;
      direction, savedValue := Reverse, [];
      iter.SeekToLast();
      FindPrevUserEntry();
    }
  }

  // ----- The shown entries are the user's view -----

  /** Going forward and back again, or back and forward, ends where it began. */
  lemma NextThenPrev(es: seq<Entry>, s: nat, at: nat, next: nat, back: nat)
    requires Sorted(es) && Shown(es, s, at)
    requires FirstShown(es, s, at + 1, next) && next < |es| && LastShown(es, s, next, back)
    ensures back == at
  {
  }

  lemma PrevThenNext(es: seq<Entry>, s: nat, at: nat, prev: nat, forth: nat)
    requires Sorted(es) && Shown(es, s, at)
    requires LastShown(es, s, at, prev) && prev < |es| && FirstShown(es, s, prev + 1, forth)
    ensures forth == at
  {
  }

  /** One entry at most is shown for a key, and it is the one a point lookup finds. */
  lemma ShownIsView(es: seq<Entry>, hist: seq<Op>, held: iset<nat>, s: nat, k: UserKey)
    requires Sorted(es)
    requires forall e :: e in es ==> IsUpdate(hist, e) && e.key.sequence in held
    requires forall n: nat :: n in held && 1 <= n <= |hist| ==> EntryOf(hist, n) in es
    ensures forall v :: View(hist, held, k, s) == Some(v)
              <==> exists i :: 0 <= i < |es| && Shown(es, s, i) && es[i].key.user == k && es[i].value == v
    ensures forall i, j :: 0 <= i < |es| && 0 <= j < |es| && Shown(es, s, i) && Shown(es, s, j) ==>
              es[i].key.user == es[j].key.user ==> i == j
  {
    NewestIsNewest(hist, held, k, s);
    var n := Newest(hist, held, k, s);
    if View(hist, held, k, s).Some? {
      var e := EntryOf(hist, n);
      var i :| 0 <= i < |es| && es[i] == e;
      forall j | 0 <= j < i && VisibleAt(es, s, j) ensures es[j].key.user != k {
        assert es[j] in es;
      }
      assert Shown(es, s, i);
    }
    forall i | 0 <= i < |es| && Shown(es, s, i) && es[i].key.user == k
      ensures View(hist, held, k, s) == Some(es[i].value)
    {
      var e := es[i];
      assert e in es;
      assert n >= e.key.sequence;
      assert EntryOf(hist, n) in es;
      var j :| 0 <= j < |es| && es[j] == EntryOf(hist, n);
      assert VisibleAt(es, s, j);
      assert i < j ==> Less(es[i].key, es[j].key);
    }
  }
}
