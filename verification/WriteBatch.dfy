/** A batch of updates as bytes: a sequence number, a count, and the updates. */
module WriteBatch {
  import opened Keys
  import opened Coding

  const HEADER: nat := 12
  const TYPE_DELETION: Byte := 0
  const TYPE_VALUE: Byte := 1

  datatype Update = Put(key: Bytes, value: Bytes) | Delete(key: Bytes)

  function UpdateBytes(u: Update): (b: Bytes)
    ensures b != []
  {
    match u
    case Put(key, value) => [TYPE_VALUE] + LengthPrefixed(key) + LengthPrefixed(value)
    case Delete(key) => [TYPE_DELETION] + LengthPrefixed(key)
  }

  function UpdatesBytes(us: seq<Update>): Bytes {
    if us == [] then [] else UpdatesBytes(us[..|us| - 1]) + UpdateBytes(us[|us| - 1])
  }

  /** The bytes of a batch. */
  function RepOf(sequence: nat, us: seq<Update>): (rep: Bytes)
    ensures |rep| >= HEADER
  {
    EncodeFixed64(sequence) + EncodeFixed32(|us|) + UpdatesBytes(us)
  }

  /** The lengths and the count fit into 32 bits, and the sequence number into 64. */
  ghost predicate Fits(sequence: nat, us: seq<Update>) {
    && sequence < TWO32 * TWO32 && |us| < TWO32
    && forall u :: u in us ==> |u.key| < TWO32 && (u.Put? ==> |u.value| < TWO32)
  }

  // ----- Reading -----

  datatype Next = Next(update: Update, rest: Bytes)

  function NextUpdate(input: Bytes): (r: Option<Next>)
    requires input != []
    ensures r.Some? ==> |r.value.rest| < |input|
  {
    var key := GetLengthPrefixed(input[1..]);
    if input[0] == TYPE_VALUE then
      if key.None? then None
      else
        var value := GetLengthPrefixed(key.value.rest);
        if value.None? then None else Some(Next(Put(key.value.data, value.value.data), value.value.rest))
    else if input[0] == TYPE_DELETION then
      if key.None? then None else Some(Next(Delete(key.value.data), key.value.rest))
    else None
  }

  /** The updates that can be read before the end or the first malformed one, and whether it was the end. */
  function ReadUpdates(input: Bytes): (r: (seq<Update>, bool))
    decreases |input|
  {
    if input == [] then ([], true)
    else
      var next := NextUpdate(input);
      if next.None? then ([], false)
      else
        var rest := ReadUpdates(next.value.rest);
        ([next.value.update] + rest.0, rest.1)
  }

  lemma NextOfBytes(u: Update, rest: Bytes)
    requires |u.key| < TWO32 && (u.Put? ==> |u.value| < TWO32)
    ensures NextUpdate(UpdateBytes(u) + rest) == Some(Next(u, rest))
  {
    hide LengthPrefixed, GetLengthPrefixed;
    var b := UpdateBytes(u) + rest;
    match u {
      case Put(key, value) =>
        assert b[1..] == LengthPrefixed(key) + (LengthPrefixed(value) + rest);
        LengthPrefixedRoundTrip(key, LengthPrefixed(value) + rest);
        LengthPrefixedRoundTrip(value, rest);
      case Delete(key) =>
        assert b[1..] == LengthPrefixed(key) + rest;
        LengthPrefixedRoundTrip(key, rest);
    }
  }

  lemma {:induction false} UpdatesBytesFront(us: seq<Update>)
    requires us != []
    ensures UpdatesBytes(us) == UpdateBytes(us[0]) + UpdatesBytes(us[1..])
  {
    hide UpdateBytes;
    if |us| > 1 {
      var last := us[|us| - 1];
      UpdatesBytesFront(us[..|us| - 1]);
      assert us[1..][..|us| - 2] == us[..|us| - 1][1..];
      assert us[1..][|us| - 2] == last;
    }
  }

  lemma {:induction false} UpdatesBytesAppend(us: seq<Update>, vs: seq<Update>)
    ensures UpdatesBytes(us + vs) == UpdatesBytes(us) + UpdatesBytes(vs)
  {
    hide UpdateBytes;
    if vs == [] {
      assert us + vs == us;
    } else {
      assert (us + vs)[..|us + vs| - 1] == us + vs[..|vs| - 1];
      UpdatesBytesAppend(us, vs[..|vs| - 1]);
    }
  }

  /** What was written is what is read. */
  lemma {:induction false} ReadsBack(us: seq<Update>)
    requires forall u :: u in us ==> |u.key| < TWO32 && (u.Put? ==> |u.value| < TWO32)
    ensures ReadUpdates(UpdatesBytes(us)) == (us, true)
  {
    hide UpdateBytes, NextUpdate;
    if us != [] {
      UpdatesBytesFront(us);
      NextOfBytes(us[0], UpdatesBytes(us[1..]));
      ReadsBack(us[1..]);
      assert us == [us[0]] + us[1..];
    }
  }

  // ----- What is malformed is not read -----

  /** Part of an update is not taken for one. */
  lemma NextOfCut(u: Update, n: nat)
    requires |u.key| < TWO32 && (u.Put? ==> |u.value| < TWO32)
    requires 0 < n < |UpdateBytes(u)|
    ensures NextUpdate(UpdateBytes(u)[..n]) == None
  {
    hide LengthPrefixed, GetLengthPrefixed;
    var b, key := UpdateBytes(u)[..n], LengthPrefixed(u.key);
    if n - 1 < |key| {
      assert b[1..] == key[..n - 1];
      PrefixedCut(u.key, n - 1);
    } else {
      var m := n - 1 - |key|;
      assert b[1..] == key + LengthPrefixed(u.value)[..m];
      LengthPrefixedRoundTrip(u.key, LengthPrefixed(u.value)[..m]);
      PrefixedCut(u.value, m);
    }
  }

  /** Updates that are cut off anywhere: the whole ones are read, and the rest is malformed unless the
      cut is between two. */
  lemma {:induction false} UpdatesCut(us: seq<Update>, n: nat) returns (k: nat)
    requires forall u :: u in us ==> |u.key| < TWO32 && (u.Put? ==> |u.value| < TWO32)
    requires n <= |UpdatesBytes(us)|
    ensures k <= |us| && |UpdatesBytes(us[..k])| <= n && (k < |us| ==> n < |UpdatesBytes(us[..k + 1])|)
    ensures n < |UpdatesBytes(us)| ==> k < |us|
    ensures ReadUpdates(UpdatesBytes(us)[..n]) == (us[..k], n == |UpdatesBytes(us[..k])|)
  {
    hide UpdateBytes, NextUpdate;
    k := 0;
    if us != [] {
      UpdatesBytesFront(us);
      var first, rest := UpdateBytes(us[0]), UpdatesBytes(us[1..]);
      var b := UpdatesBytes(us)[..n];
      assert us[..1] == [us[0]] && [us[0]][..0] == [];
      assert UpdatesBytes(us[..1]) == first;
      if n < |first| {
        assert b == first[..n];
        if n > 0 {
          NextOfCut(us[0], n);
        }
      } else {
        var k' := UpdatesCut(us[1..], n - |first|);
        assert b == first + rest[..n - |first|];
        NextOfBytes(us[0], rest[..n - |first|]);
        k := k' + 1;
        FrontOf(us, k');
        if k' + 1 < |us| {
          FrontOf(us, k' + 1);
        }
      }
    }
  }

  lemma FrontOf(us: seq<Update>, k: nat)
    requires k + 1 <= |us|
    ensures us[..k + 1] == [us[0]] + us[1..][..k]
    ensures UpdatesBytes(us[..k + 1]) == UpdateBytes(us[0]) + UpdatesBytes(us[1..][..k])
  {
    hide UpdateBytes;
    UpdatesBytesFront(us[..k + 1]);
    assert us[..k + 1][1..] == us[1..][..k];
  }

  /** Updates with anything behind them. */
  lemma {:induction false} ReadsOn(us: seq<Update>, more: Bytes)
    requires forall u :: u in us ==> |u.key| < TWO32 && (u.Put? ==> |u.value| < TWO32)
    ensures ReadUpdates(UpdatesBytes(us) + more) == (us + ReadUpdates(more).0, ReadUpdates(more).1)
  {
    hide UpdateBytes, NextUpdate;
    if us == [] {
      assert UpdatesBytes(us) + more == more && us + ReadUpdates(more).0 == ReadUpdates(more).0;
    } else {
      UpdatesBytesFront(us);
      var first, rest := UpdateBytes(us[0]), UpdatesBytes(us[1..]);
      assert UpdatesBytes(us) + more == first + (rest + more);
      NextOfBytes(us[0], rest + more);
      ReadsOn(us[1..], more);
      assert [us[0]] + (us[1..] + ReadUpdates(more).0) == us + ReadUpdates(more).0;
    }
  }

  /** A type that is neither a value's nor a deletion's ends the reading, and is reported. */
  lemma UnknownType(us: seq<Update>, t: Byte, more: Bytes)
    requires forall u :: u in us ==> |u.key| < TWO32 && (u.Put? ==> |u.value| < TWO32)
    requires t > 1
    ensures ReadUpdates(UpdatesBytes(us) + ([t] + more)) == (us, false)
  {
    ReadsOn(us, [t] + more);
    assert ReadUpdates([t] + more) == ([], false);
    assert us + [] == us;
  }

  lemma RepParts(a: Bytes, b: Bytes, c: Bytes)
    requires |a| == 8 && |b| == 4
    ensures var r := a + b + c; r[..8] == a && r[8..12] == b && r[12..] == c && r[8..] == b + c
  {
  }

  lemma OneMore(a: Bytes, b: Bytes, us: seq<Update>, u: Update)
    ensures a + b + UpdatesBytes(us + [u]) == a + b + UpdatesBytes(us) + UpdateBytes(u)
  {
    hide UpdateBytes;
    assert (us + [u])[..|us|] == us;
  }

  class Batch {
    var rep: Bytes
    /** What the bytes stand for. */
    ghost var sequence: nat
    ghost var updates: seq<Update>

    constructor ()
      ensures Ok() && updates == []
    {
      rep := seq(HEADER, _ => 0);
      sequence := 0;
      updates := [];
      new;
      assert rep == RepOf(0, []);
    }

    /** A batch with the contents of a log record, whatever they are. */
    constructor Contents(rep: Bytes)
      ensures this.rep == rep
    {
      this.rep := rep;
      sequence := 0;
      updates := [];
    }

    ghost predicate Ok()
      reads this
    {
      rep == RepOf(sequence, updates) && Fits(sequence, updates)
    }

    method Count() returns (n: nat)
      requires Ok()
      ensures n == |updates|
    {
      hide EncodeFixed64, EncodeFixed32, DecodeFixed32;
      n := DecodeFixed32(rep[8..12]);
      assert rep[8..12] == EncodeFixed32(|updates|);
      Fixed32RoundTrip(|updates|);
    }

    method Sequence() returns (n: nat)
      requires Ok()
      ensures n == sequence
    {
      hide EncodeFixed64, EncodeFixed32, DecodeFixed64;
      n := DecodeFixed64(rep[..8]);
      assert rep[..8] == EncodeFixed64(sequence);
      Fixed64RoundTrip(sequence);
    }

    method SetSequence(n: nat)
      requires Ok() && n < TWO32 * TWO32
      modifies this
      ensures Ok() && sequence == n && updates == old(updates)
    {
      hide EncodeFixed64, EncodeFixed32, UpdatesBytes;
      RepParts(EncodeFixed64(sequence), EncodeFixed32(|updates|), UpdatesBytes(updates));
      rep := EncodeFixed64(n) + rep[8..];
      sequence := n;
    }

    /** Between this and the appending of the updates that it counts, the batch is not sound. */
    method SetCount(n: nat)
      requires Ok()
      modifies this`rep
      ensures rep == EncodeFixed64(sequence) + EncodeFixed32(n) + UpdatesBytes(updates)
    {
      hide EncodeFixed64, EncodeFixed32, UpdatesBytes;
      RepParts(EncodeFixed64(sequence), EncodeFixed32(|updates|), UpdatesBytes(updates));
      rep := rep[..8] + EncodeFixed32(n) + rep[12..];
    }

    method Put(key: Bytes, value: Bytes)
      requires Ok() && Fits(sequence, updates + [Update.Put(key, value)])
      modifies this
      ensures Ok() && sequence == old(sequence) && updates == old(updates) + [Update.Put(key, value)]
    {
      hide EncodeFixed64, EncodeFixed32, LengthPrefixed, UpdatesBytes;
      var n := Count();
      SetCount(n + 1);
      OneMore(EncodeFixed64(sequence), EncodeFixed32(n + 1), updates, Update.Put(key, value));
      PutIs(rep, key, value);
      rep := rep + [TYPE_VALUE];
      rep := rep + LengthPrefixed(key);
      rep := rep + LengthPrefixed(value);
      updates := updates + [Update.Put(key, value)];
    }

    method Delete(key: Bytes)
      requires Ok() && Fits(sequence, updates + [Update.Delete(key)])
      modifies this
      ensures Ok() && sequence == old(sequence) && updates == old(updates) + [Update.Delete(key)]
    {
      hide EncodeFixed64, EncodeFixed32, LengthPrefixed, UpdatesBytes;
      var n := Count();
      SetCount(n + 1);
      OneMore(EncodeFixed64(sequence), EncodeFixed32(n + 1), updates, Update.Delete(key));
      DeleteIs(rep, key);
      rep := rep + [TYPE_DELETION];
      rep := rep + LengthPrefixed(key);
      updates := updates + [Update.Delete(key)];
    }

    method Append(source: Batch)
      requires Ok() && source.Ok() && source != this && Fits(sequence, updates + source.updates)
      modifies this
      ensures Ok() && sequence == old(sequence) && updates == old(updates) + source.updates
    {
      hide EncodeFixed64, EncodeFixed32, UpdatesBytes;
      var n := Count();
      var m := source.Count();
      SetCount(n + m);
      RepParts(EncodeFixed64(source.sequence), EncodeFixed32(|source.updates|), UpdatesBytes(source.updates));
      UpdatesBytesAppend(updates, source.updates);
      Assoc(EncodeFixed64(sequence) + EncodeFixed32(n + m), UpdatesBytes(updates), UpdatesBytes(source.updates));
      rep := rep + source.rep[HEADER..];
      updates := updates + source.updates;
    }

    /** The updates in the order in which they are handed on, and whether the batch was sound. */
    method Iterate() returns (ok: bool, handed: seq<Update>)
      requires |rep| >= HEADER
      ensures var r := ReadUpdates(rep[HEADER..]);
              handed == r.0 && ok == (r.1 && |r.0| == DecodeFixed32(rep[8..12]))
      ensures Ok() ==> ok && handed == updates
    {
      hide DecodeFixed32, NextUpdate;
      var input := rep[HEADER..];
      ghost var all := ReadUpdates(input);
      handed := [];
      SoundIterates();
      assert [] + all.0 == all.0;
      while input != []
        invariant var r := ReadUpdates(input); all == (handed + r.0, r.1)
        decreases |input|
      {
        var next := NextUpdate(input);
        if next.None? {
          assert handed + [] == handed;
          return false, handed;
        }
        assert handed + ([next.value.update] + ReadUpdates(next.value.rest).0)
            == handed + [next.value.update] + ReadUpdates(next.value.rest).0;
        handed := handed + [next.value.update];
        input := next.value.rest;
      }
      assert handed + [] == handed;
      ok := |handed| == DecodeFixed32(rep[8..12]);
    }

    lemma SoundIterates()
      ensures Ok() ==> ReadUpdates(rep[HEADER..]) == (updates, true) && DecodeFixed32(rep[8..12]) == |updates|
    {
      hide EncodeFixed64, EncodeFixed32, DecodeFixed32, UpdatesBytes, ReadUpdates;
      if Ok() {
        ReadsBack(updates);
        Fixed32RoundTrip(|updates|);
        assert rep[HEADER..] == UpdatesBytes(updates);
        assert rep[8..12] == EncodeFixed32(|updates|);
      }
    }
  }

  lemma PutIs(rep: Bytes, key: Bytes, value: Bytes)
    ensures rep + [TYPE_VALUE] + LengthPrefixed(key) + LengthPrefixed(value) == rep
        + UpdateBytes(Update.Put(key, value))
  {
    hide LengthPrefixed;
  }

  lemma DeleteIs(rep: Bytes, key: Bytes)
    ensures rep + [TYPE_DELETION] + LengthPrefixed(key) == rep + UpdateBytes(Update.Delete(key))
  {
    hide LengthPrefixed;
  }
}
