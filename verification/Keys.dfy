/** Internal keys: a user key tagged with a sequence number and a value type.
    The user comparator is any total order on byte strings.  There are countably many byte
    strings, and every countable total order embeds in the order of the real numbers, so a
    user key is modelled by its image under such an embedding. */
module Keys {
  newtype Byte = b: int | 0 <= b < 256
  type Bytes = seq<Byte>

  type UserKey = real

  /** Eight bits stay free at the bottom of a 64-bit word for the value type. */
  const MAX_SEQUENCE: nat := 0x100_0000_0000_0000 - 1

  datatype Option<+T> = None | Some(value: T)

  datatype Kind = Deletion | Value {
    function Code(): nat {
      if Deletion? then 0 else 1
    }
  }

  datatype InternalKey = InternalKey(user: UserKey, sequence: nat, kind: Kind)

  datatype Entry = Entry(key: InternalKey, value: Bytes)

  function PackSequenceAndType(sequence: nat, kind: Kind): nat {
    sequence * 256 + kind.Code()
  }

  /** Increasing user key, then decreasing sequence number, then decreasing type. */
  predicate Less(a: InternalKey, b: InternalKey) {
    a.user < b.user
    || (a.user == b.user
        && PackSequenceAndType(a.sequence, a.kind) > PackSequenceAndType(b.sequence, b.kind))
  }

  predicate AtMost(a: InternalKey, b: InternalKey) {
    !Less(b, a)
  }

  /** The smallest internal key with which `user` is visible at `sequence`. */
  function SeekKey(user: UserKey, sequence: nat): InternalKey {
    InternalKey(user, sequence, Value)
  }

  /** Entries in strictly increasing internal-key order. */
  ghost predicate Sorted(t: seq<Entry>) {
    forall i, j :: 0 <= i < j < |t| ==> Less(t[i].key, t[j].key)
  }

  /** Insertion at the one place that keeps the order, as the memtable's skip list does. */
  function InsertSorted(t: seq<Entry>, e: Entry): seq<Entry> {
    if t == [] || Less(e.key, t[0].key) then [e] + t
    else [t[0]] + InsertSorted(t[1..], e)
  }

  lemma {:induction false} InsertSortedMembers(t: seq<Entry>, e: Entry)
    ensures forall x :: x in InsertSorted(t, e) <==> x in t || x == e
  {
    if t == [] || Less(e.key, t[0].key) {
    } else {
      InsertSortedMembers(t[1..], e);
      assert t == [t[0]] + t[1..];
      assert InsertSorted(t, e) == [t[0]] + InsertSorted(t[1..], e);
    }
  }

  lemma {:induction false} InsertSortedSorted(t: seq<Entry>, e: Entry)
    requires Sorted(t)
    requires forall x :: x in t ==> x.key.user != e.key.user || x.key.sequence != e.key.sequence
    ensures Sorted(InsertSorted(t, e))
  {
    if t == [] {
    } else if Less(e.key, t[0].key) {
    } else {
      assert forall x :: x in t[1..] ==> x in t;
      InsertSortedSorted(t[1..], e);
      InsertSortedMembers(t[1..], e);
      var r := InsertSorted(t[1..], e);
      assert t[0] in t;
      forall j | 0 <= j < |r| ensures Less(t[0].key, r[j].key) {
        assert r[j] in r;
        if r[j] != e {
          assert r[j] in t[1..];
        }
      }
    }
  }

  // ----- Entries cut into chunks -----

  function Flatten(chunks: seq<seq<Entry>>): seq<Entry> {
    if chunks == [] then [] else Flatten(chunks[..|chunks| - 1]) + chunks[|chunks| - 1]
  }

  lemma FlattenAppend(chunks: seq<seq<Entry>>, last: seq<Entry>)
    ensures Flatten(chunks + [last]) == Flatten(chunks) + last
  {
    assert (chunks + [last])[..|chunks|] == chunks;
  }

  lemma {:induction false} FlattenMembers(chunks: seq<seq<Entry>>, x: Entry)
    ensures x in Flatten(chunks) <==> exists i :: 0 <= i < |chunks| && x in chunks[i]
  {
    if chunks != [] {
      FlattenMembers(chunks[..|chunks| - 1], x);
    }
  }

  lemma SortedParts(a: seq<Entry>, b: seq<Entry>)
    requires Sorted(a + b)
    ensures Sorted(a) && Sorted(b)
    ensures forall x, y :: x in a && y in b ==> Less(x.key, y.key)
  {
    var s := a + b;
    assert forall i :: 0 <= i < |a| ==> s[i] == a[i];
    assert forall i :: 0 <= i < |b| ==> s[|a| + i] == b[i];
  }

  /** Chunks of a sorted sequence are sorted, and each ends before the next begins. */
  lemma {:induction false} FlattenSorted(chunks: seq<seq<Entry>>)
    requires Sorted(Flatten(chunks))
    ensures forall i :: 0 <= i < |chunks| ==> Sorted(chunks[i])
    ensures forall i, j, x, y :: 0 <= i < j < |chunks| && x in chunks[i] && y in chunks[j] ==> Less(x.key, y.key)
  {
    if chunks != [] {
      var init, last := chunks[..|chunks| - 1], chunks[|chunks| - 1];
      SortedParts(Flatten(init), last);
      FlattenSorted(init);
      hide Sorted, Less;
      forall i, x | 0 <= i < |init| && x in init[i] ensures x in Flatten(init) {
        FlattenMembers(init, x);
      }
    }
  }

  /** A sequence loses one element, wherever it is. */
  lemma WithoutOne<T>(a: seq<T>, k: nat)
    requires k < |a|
    ensures multiset(a[..k] + a[k + 1..]) == multiset(a) - multiset{a[k]}
  {
    assert a == a[..k] + [a[k]] + a[k + 1..];
  }
}
