/** What the log reader makes of any file, damaged or not.  The physical records that are found in it
    are laid out as one sequence; the records returned are then the runs of fragments in it that
    belong together, all of them and nothing else, and every byte that was found and not returned
    is reported. */
module LogTrace {
  import opened Keys
  import opened Coding
  import opened LogFormat
  import opened LogReader

  /** The physical records from a position on, damaged ones among them. */
  function Trace(crc: Crc, file: Bytes, pos: nat): (t: seq<Physical>)
    requires pos <= |file|
    ensures forall k :: 0 <= k < |t| ==> t[k].code != EOF
    decreases |file| - pos
  {
    var p := Scan(crc, file, pos);
    if p.code == EOF then [] else [p] + Trace(crc, file, p.next)
  }

  function Payloads(t: seq<Physical>, i: nat, j: nat): Bytes
    requires i <= j <= |t|
  {
    if i == j then [] else Payloads(t, i, j - 1) + t[j - 1].payload
  }

  /** A first fragment, and then middle ones only, up to position `j`. */
  ghost predicate Begun(t: seq<Physical>, i: nat, j: nat) {
    i < j <= |t| && t[i].code == FIRST as nat && forall k :: i < k < j ==> t[k].code == MIDDLE as nat
  }

  /** A full fragment, or a first one, middle ones and a last one with nothing between them. */
  ghost predicate IsRecord(t: seq<Physical>, i: nat, j: nat) {
    j < |t| && if i == j then t[j].code == FULL as nat else Begun(t, i, j) && t[j].code == LAST as nat
  }

  // ----- The reader's state, in terms of the trace -----

  ghost predicate InState(t: seq<Physical>, a: nat, inFragmented: bool, scratch: Bytes) {
    && a <= |t|
    && if inFragmented then exists i: nat :: Begun(t, i, a) && scratch == Payloads(t, i, a)
       else scratch == [] && forall i: nat :: !Begun(t, i, a)
  }

  lemma BegunOnce(t: seq<Physical>, i: nat, j: nat, a: nat)
    requires Begun(t, i, a) && Begun(t, j, a)
    ensures i == j
  {
  }

  lemma OnePayload(t: seq<Physical>, i: nat)
    requires i < |t|
    ensures Payloads(t, i, i + 1) == t[i].payload
  {
    assert Payloads(t, i, i) == [];
  }

  /** A physical record that completes nothing. */
  lemma GoesOnReading(t: seq<Physical>, a: nat, inFragmented: bool, scratch: Bytes)
    requires InState(t, a, inFragmented, scratch) && a < |t| && !Completes(t[a], inFragmented)
    ensures var kept := Kept(t[a], inFragmented, scratch); InState(t, a + 1, kept.0, kept.1)
    ensures forall i: nat :: !IsRecord(t, i, a)
  {
    if t[a].code == FIRST as nat {
      OnePayload(t, a);
      assert Begun(t, a, a + 1);
    } else if t[a].code == MIDDLE as nat && inFragmented {
      var i :| Begun(t, i, a) && scratch == Payloads(t, i, a);
      assert Begun(t, i, a + 1);
    } else {
      var n := a + 1;
      assert forall i: nat :: Begun(t, i, n) ==> i == a || Begun(t, i, a);
    }
  }

  /** The physical record that completes a logical one. */
  lemma Completed(t: seq<Physical>, a: nat, inFragmented: bool, scratch: Bytes) returns (i: nat)
    requires InState(t, a, inFragmented, scratch) && a < |t| && Completes(t[a], inFragmented)
    ensures IsRecord(t, i, a) && InState(t, a + 1, false, [])
    ensures Payloads(t, i, a + 1) == if t[a].code == FULL as nat then t[a].payload else scratch + t[a].payload
  {
    if t[a].code == FULL as nat {
      OnePayload(t, a);
      i := a;
    } else {
      i :| Begun(t, i, a) && scratch == Payloads(t, i, a);
    }
  }

  /** One record, or that there is none left. */
  lemma {:induction false} AssembleFinds(
      crc: Crc, file: Bytes, pos: nat, t: seq<Physical>, a: nat, inFragmented: bool, scratch: Bytes)
    returns (i: nat, j: nat)
    requires pos <= |file| && a <= |t| && InState(t, a, inFragmented, scratch) && Trace(crc, file, pos) == t[a..]
    ensures
      var l := Assemble(crc, file, pos, inFragmented, scratch);
      if l.record.None? then forall i': nat, j': nat :: IsRecord(t, i', j') ==> j' < a
      else
        && a <= j < |t| && IsRecord(t, i, j) && l.record.value == Payloads(t, i, j + 1)
        && Trace(crc, file, l.next) == t[j + 1..] && InState(t, j + 1, false, [])
        && forall i': nat, j': nat :: IsRecord(t, i', j') ==> j' < a || j <= j'
    decreases |file| - pos
  {
    hide Scan, Kept, Reported, Completes, IsRecord, InState, Payloads;
    i, j := 0, 0;
    var p := Scan(crc, file, pos);
    if p.code == EOF {
      RecordsEnd(t);
    } else {
      assert t[a..] == [p] + Trace(crc, file, p.next);
      assert a < |t|;
      assert t[a] == t[a..][0] == p && t[a + 1..] == t[a..][1..] == Trace(crc, file, p.next);
      if Completes(p, inFragmented) {
        i := Completed(t, a, inFragmented, scratch);
        j := a;
      } else {
        GoesOnReading(t, a, inFragmented, scratch);
        var kept := Kept(p, inFragmented, scratch);
        i, j := AssembleFinds(crc, file, p.next, t, a + 1, kept.0, kept.1);
      }
    }
  }

  lemma RecordsEnd(t: seq<Physical>)
    ensures forall i: nat, j: nat :: IsRecord(t, i, j) ==> j < |t|
  {
  }

  ghost predicate StandsAt(t: seq<Physical>, a: nat, at: (nat, nat), record: Bytes) {
    a <= at.1 && IsRecord(t, at.0, at.1) && record == Payloads(t, at.0, at.1 + 1)
  }

  /** Where all records from physical record `a` on stand. */
  ghost predicate AreRecords(t: seq<Physical>, a: nat, at: seq<(nat, nat)>, records: seq<Bytes>) {
    && |at| == |records|
    && (forall k :: 0 <= k < |at| ==> StandsAt(t, a, at[k], records[k]))
    && (forall k, l :: 0 <= k < l < |at| ==> at[k].1 < at[l].0)
    && (forall i: nat, j: nat :: IsRecord(t, i, j) && a <= j ==> (i, j) in at)
  }

  lemma {:induction false} ReadFromFinds(crc: Crc, file: Bytes, pos: nat, t: seq<Physical>, a: nat)
    returns (at: seq<(nat, nat)>)
    requires pos <= |file| && a <= |t| && InState(t, a, false, []) && Trace(crc, file, pos) == t[a..]
    ensures AreRecords(t, a, at, ReadFrom(crc, file, pos).0)
    decreases |file| - pos
  {
    hide Assemble, InState, Trace, IsRecord, Payloads;
    var l := Assemble(crc, file, pos, false, []);
    var i, j := AssembleFinds(crc, file, pos, t, a, false, []);
    at := [];
    if l.record.Some? {
      var rest := ReadFromFinds(crc, file, l.next, t, j + 1);
      at := [(i, j)] + rest;
      FirstOfAll(t, a, i, j, rest, l.record.value, ReadFrom(crc, file, l.next).0);
    }
  }

  /** Two records have no fragment in common. */
  lemma RecordsApart(t: seq<Physical>, i: nat, j: nat, i': nat, j': nat)
    requires IsRecord(t, i, j) && IsRecord(t, i', j') && j <= j'
    ensures i' <= j' && (j < i' || (i == i' && j == j'))
  {
  }

  lemma FirstOfAll(
      t: seq<Physical>, a: nat, i: nat, j: nat, rest: seq<(nat, nat)>, record: Bytes, records: seq<Bytes>)
    requires StandsAt(t, a, (i, j), record) && AreRecords(t, j + 1, rest, records)
    requires forall i': nat, j': nat :: IsRecord(t, i', j') ==> j' < a || j <= j'
    ensures AreRecords(t, a, [(i, j)] + rest, [record] + records)
  {
    hide IsRecord, Payloads;
    var at := [(i, j)] + rest;
    forall k, l | 0 <= k < l < |at| ensures at[k].1 < at[l].0 {
      if k == 0 {
        assert StandsAt(t, j + 1, rest[l - 1], records[l - 1]);
        RecordsApart(t, i, j, at[l].0, at[l].1);
      } else {
        assert at[k] == rest[k - 1] && at[l] == rest[l - 1];
      }
    }
    forall i': nat, j': nat | IsRecord(t, i', j') && a <= j' ensures (i', j') in at {
      RecordsApart(t, i, j, i', j');
      if j < j' {
        assert (i', j') in rest;
      } else {
        assert at[0] == (i', j');
      }
    }
    forall k | 0 <= k < |at| ensures StandsAt(t, a, at[k], ([record] + records)[k]) {
      if k > 0 {
        assert StandsAt(t, j + 1, rest[k - 1], records[k - 1]);
      }
    }
  }

  /** On any bytes: the records returned are exactly the full fragments and the runs of a first
      fragment, middle ones and a last one that stand next to each other in the file, in order. */
  lemma RecordsAreRuns(crc: Crc, file: Bytes, pos: nat) returns (at: seq<(nat, nat)>)
    requires pos <= |file|
    ensures AreRecords(Trace(crc, file, pos), 0, at, ReadFrom(crc, file, pos).0)
  {
    hide Trace, ReadFrom;
    var t := Trace(crc, file, pos);
    assert t[0..] == t;
    at := ReadFromFinds(crc, file, pos, t, 0);
  }

  // ----- Nothing is dropped without a report -----

  function Sum(ns: seq<nat>): nat {
    if ns == [] then 0 else ns[0] + Sum(ns[1..])
  }

  lemma {:induction false} SumAppend(a: seq<nat>, b: seq<nat>)
    ensures Sum(a + b) == Sum(a) + Sum(b)
  {
    if a == [] {
      assert a + b == b;
    } else {
      assert (a + b)[1..] == a[1..] + b;
      SumAppend(a[1..], b);
    }
  }

  function Lengths(bs: seq<Bytes>): nat {
    if bs == [] then 0 else |bs[0]| + Lengths(bs[1..])
  }

  /** The bytes that were found in fragments, and the bytes reported while looking for them.  The
      reader's mark for a damaged record is the type 6; what an intact fragment of that type holds
      is taken for damage as well. */
  function Found(t: seq<Physical>): nat {
    if t == [] then 0
    else (if t[0].code == BAD_RECORD then 0 else |t[0].payload|) + Sum(t[0].drops) + Found(t[1..])
  }

  lemma {:induction false} EndIsSilent(crc: Crc, file: Bytes, pos: nat)
    requires pos <= |file| && Scan(crc, file, pos).code == EOF
    ensures Scan(crc, file, pos).drops == []
    decreases |file| - pos
  {
    var whole := BlockEnd(pos) <= |file|;
    var limit := if whole then BlockEnd(pos) else |file|;
    if limit - pos < HEADER_SIZE && whole {
      EndIsSilent(crc, file, limit);
    }
  }

  /** What is put together, kept or reported for a physical record is what there was before and what
      it holds. */
  lemma ReportIs(p: Physical, inFragmented: bool, scratch: Bytes)
    requires p.code != EOF && (!inFragmented ==> scratch == [])
    ensures
      var n := |scratch| + if p.code == BAD_RECORD then 0 else |p.payload|;
      var reported := Sum(Reported(p, inFragmented, scratch));
      if Completes(p, inFragmented) then
        reported + |if p.code == FULL as nat then p.payload else scratch + p.payload| == n
      else
        var kept := Kept(p, inFragmented, scratch);
        reported + |kept.1| == n && (!kept.0 ==> kept.1 == [])
  {
    var n := |scratch|;
    assert [n][1..] == [] && [|p.payload|][1..] == [] && [|p.payload| + n][1..] == [];
  }

  /** How much there is of a record that was begun and not finished. */
  ghost function Unfinished(t: seq<Physical>): nat {
    if i: nat :| Begun(t, i, |t|) then |Payloads(t, i, |t|)| else 0
  }

  lemma UnfinishedIs(t: seq<Physical>, inFragmented: bool, scratch: Bytes)
    requires InState(t, |t|, inFragmented, scratch)
    ensures Unfinished(t) == |scratch|
  {
    if inFragmented {
      var i: nat :| Begun(t, i, |t|) && scratch == Payloads(t, i, |t|);
      forall j: nat | Begun(t, j, |t|) ensures j == i {
        BegunOnce(t, i, j, |t|);
      }
    }
  }

  /** One record, and all that was reported on the way to it. */
  lemma {:induction false} AssembleAccounts(
      crc: Crc, file: Bytes, pos: nat, t: seq<Physical>, a: nat, inFragmented: bool, scratch: Bytes)
    requires pos <= |file| && a <= |t| && InState(t, a, inFragmented, scratch) && Trace(crc, file, pos) == t[a..]
    requires !inFragmented ==> scratch == []
    ensures
      var l := Assemble(crc, file, pos, inFragmented, scratch);
      Sum(l.drops) + (if l.record.Some? then |l.record.value| + Found(Trace(crc, file, l.next)) else Unfinished(t))
      == |scratch| + Found(t[a..])
    decreases |file| - pos
  {
    hide Scan, Kept, Reported, Completes, InState, Unfinished;
    var p := Scan(crc, file, pos);
    if p.code == EOF {
      EndIsSilent(crc, file, pos);
      UnfinishedIs(t, inFragmented, scratch);
    } else {
      var reported := Reported(p, inFragmented, scratch);
      assert t[a..] == [p] + Trace(crc, file, p.next);
      assert t[a] == t[a..][0] == p && t[a + 1..] == t[a..][1..];
      ReportIs(p, inFragmented, scratch);
      SumAppend(p.drops, reported);
      if !Completes(p, inFragmented) {
        var kept := Kept(p, inFragmented, scratch);
        GoesOnReading(t, a, inFragmented, scratch);
        AssembleAccounts(crc, file, p.next, t, a + 1, kept.0, kept.1);
        SumAppend(p.drops + reported, Assemble(crc, file, p.next, kept.0, kept.1).drops);
      }
    }
  }

  lemma {:induction false} ReadFromAccounts(crc: Crc, file: Bytes, pos: nat, t: seq<Physical>, a: nat)
    requires pos <= |file| && a <= |t| && InState(t, a, false, []) && Trace(crc, file, pos) == t[a..]
    ensures
      var r := ReadFrom(crc, file, pos);
      Lengths(r.0) + Sum(r.1) + Unfinished(t) == Found(t[a..])
    decreases |file| - pos
  {
    hide Assemble, InState, Trace, Unfinished;
    var l := Assemble(crc, file, pos, false, []);
    AssembleAccounts(crc, file, pos, t, a, false, []);
    if l.record.Some? {
      var _, j := AssembleFinds(crc, file, pos, t, a, false, []);
      var rest := ReadFrom(crc, file, l.next);
      ReadFromAccounts(crc, file, l.next, t, j + 1);
      SumAppend(l.drops, rest.1);
      assert ([l.record.value] + rest.0)[1..] == rest.0;
    }
  }

  /** On any bytes: whatever was found in a fragment is returned, or reported as dropped, or belongs
      to a record that is unfinished at the end. */
  lemma EveryByteIsAccounted(crc: Crc, file: Bytes, pos: nat)
    requires pos <= |file|
    ensures
      var r, t := ReadFrom(crc, file, pos), Trace(crc, file, pos);
      Lengths(r.0) + Sum(r.1) + Unfinished(t) == Found(t)
  {
    hide Trace, ReadFrom, Unfinished;
    var t := Trace(crc, file, pos);
    assert t[0..] == t;
    ReadFromAccounts(crc, file, pos, t, 0);
  }

  // ----- What is found in a file -----

  /** A fragment stands there in full, and its checksum is right. */
  ghost predicate Intact(crc: Crc, file: Bytes, at: nat, code: nat, payload: Bytes) {
    && at + HEADER_SIZE + |payload| <= |file| && file[at + 6] as nat == code
    && LengthIn(file[at..]) == |payload| && payload == file[at + HEADER_SIZE..at + HEADER_SIZE + |payload|]
    && crc(file[at + 6], payload) % TWO32 == DecodeFixed32(file[at..at + 4])
  }

  /** Zero bytes where a header would be: nothing was written there yet. */
  ghost predicate Unwritten(file: Bytes, at: nat) {
    at + HEADER_SIZE <= |file| && file[at + 6] == 0 && LengthIn(file[at..]) == 0
  }

  /** Whatever is found, a whole fragment with the right checksum stands at it; or it is damage, and
      the rest of its block is left out and reported, or left out because it was not written. */
  lemma FoundIsIntact(crc: Crc, file: Bytes, pos: nat) returns (at: nat)
    requires pos <= |file| && Scan(crc, file, pos).code != EOF
    ensures
      var p := Scan(crc, file, pos);
      && pos <= at < pos + HEADER_SIZE && at < p.next
      && if p.drops == [] && !Unwritten(file, at) then
           Intact(crc, file, at, p.code, p.payload) && p.next == at + HEADER_SIZE + |p.payload|
         else
           && p.code == BAD_RECORD && p.payload == []
           && p.next == (if BlockEnd(at) <= |file| then BlockEnd(at) else |file|)
           && p.drops == if Unwritten(file, at) then [] else [p.next - at]
  {
    hide Parse, Intact, Unwritten;
    BlockEndIs(pos);
    at := pos;
    if BlockEnd(pos) <= |file| && BlockEnd(pos) - pos < HEADER_SIZE {
      at := BlockEnd(pos);
      BlockEndIs(at);
    }
    assert Scan(crc, file, pos) == Scan(crc, file, at);
    var limit := if BlockEnd(at) <= |file| then BlockEnd(at) else |file|;
    ScanInBlock(crc, file, at);
    ParseFinds(crc, file, at, limit, BlockEnd(at) > |file|);
  }

  lemma ParseFinds(crc: Crc, file: Bytes, pos: nat, limit: nat, eof: bool)
    requires pos + HEADER_SIZE <= limit <= |file|
    ensures
      var p := Parse(crc, file[pos..limit], pos, eof);
      if p.code == EOF then eof || Intact(crc, file, pos, EOF, file[pos + HEADER_SIZE..p.next])
      else if p.drops == [] && !Unwritten(file, pos) then
        Intact(crc, file, pos, p.code, p.payload) && p.next == pos + HEADER_SIZE + |p.payload|
      else
        && p.code == BAD_RECORD && p.payload == [] && p.next == limit
        && p.drops == if Unwritten(file, pos) then [] else [limit - pos]
  {
    hide DecodeFixed32;
    var buffer := file[pos..limit];
    assert buffer[..4] == file[pos..pos + 4];
    assert LengthIn(buffer) == LengthIn(file[pos..]);
    var n := LengthIn(buffer);
    if HEADER_SIZE + n <= |buffer| {
      assert buffer[HEADER_SIZE..HEADER_SIZE + n] == file[pos + HEADER_SIZE..pos + HEADER_SIZE + n];
    }
  }

  // ----- Damage stays in its block -----

  /** An intact fragment of type 5, which the code takes for the end of the file. */
  ghost predicate FalseEnd(crc: Crc, file: Bytes, at: nat) {
    exists payload :: Intact(crc, file, at, EOF, payload)
  }

  lemma EndInBlock(crc: Crc, file: Bytes, pos: nat) returns (at: nat)
    requires pos < BlockEnd(pos) <= |file| && Scan(crc, file, pos).code == EOF
    requires BlockEnd(pos) - pos >= HEADER_SIZE
    ensures at == pos && FalseEnd(crc, file, at)
  {
    at := pos;
    ParseFinds(crc, file, pos, BlockEnd(pos), false);
  }

  /** From anywhere before a block, reading gets to the beginning of that block; or it ends before,
      at a fragment whose type is the code's own mark for the end. */
  lemma {:induction false} BlockIsReached(crc: Crc, file: Bytes, pos: nat, block: nat) returns (k: nat, at: nat)
    requires pos <= block <= |file| && block % BLOCK_SIZE == 0
    ensures
      var t := Trace(crc, file, pos);
      (k <= |t| && t[k..] == Trace(crc, file, block)) || (pos <= at < block && FalseEnd(crc, file, at))
    decreases |file| - pos
  {
    hide Parse, FalseEnd, Intact;
    k, at := 0, 0;
    BlockEndIs(pos);
    var p := Scan(crc, file, pos);
    var t := Trace(crc, file, pos);
    if pos == block {
      assert t[0..] == t;
    } else {
      EndsBefore(pos, block);
      if BlockEnd(pos) - pos < HEADER_SIZE {
        assert p == Scan(crc, file, BlockEnd(pos));
        assert t == Trace(crc, file, BlockEnd(pos));
        k, at := BlockIsReached(crc, file, BlockEnd(pos), block);
      } else if p.code == EOF {
        at := EndInBlock(crc, file, pos);
      } else {
        assert p.next <= BlockEnd(pos);
        var k', at' := BlockIsReached(crc, file, p.next, block);
        var rest := Trace(crc, file, p.next);
        assert t == [p] + rest;
        k, at := k' + 1, at';
        if k' <= |rest| {
          assert t[k..] == rest[k'..];
        }
      }
    }
  }

  lemma EndsBefore(pos: nat, block: nat)
    requires pos < block && block % BLOCK_SIZE == 0
    ensures BlockEnd(pos) <= block
  {
  }

  /** Whatever stands before a block, damaged or not, every record that begins in the block or after
      it is returned, as long as no fragment before it has the code's own mark for the end. */
  lemma DamageIsConfined(crc: Crc, file: Bytes, pos: nat, block: nat, i: nat, j: nat)
    requires pos <= block <= |file| && block % BLOCK_SIZE == 0
    requires forall at :: pos <= at < block ==> !FalseEnd(crc, file, at)
    requires IsRecord(Trace(crc, file, block), i, j)
    ensures i <= j && Payloads(Trace(crc, file, block), i, j + 1) in ReadFrom(crc, file, pos).0
  {
    hide ReadFrom, FalseEnd, Trace;
    var t, late := Trace(crc, file, pos), Trace(crc, file, block);
    var k, _ := BlockIsReached(crc, file, pos, block);
    var at := RecordsAreRuns(crc, file, pos);
    RecordLater(t, late, k, i, j);
    var l :| 0 <= l < |at| && at[l] == (i + k, j + k);
    assert StandsAt(t, 0, at[l], ReadFrom(crc, file, pos).0[l]);
  }

  lemma RecordLater(t: seq<Physical>, late: seq<Physical>, k: nat, i: nat, j: nat)
    requires k <= |t| && t[k..] == late && IsRecord(late, i, j)
    ensures i <= j && IsRecord(t, i + k, j + k) && Payloads(t, i + k, j + k + 1) == Payloads(late, i, j + 1)
  {
    hide Payloads;
    if i < j {
      BegunLater(t, late, k, i, j);
    }
    assert t[j + k] == late[j];
    PayloadsLater(t, late, k, i, j + 1);
  }

  lemma BegunLater(t: seq<Physical>, late: seq<Physical>, k: nat, i: nat, j: nat)
    requires k <= |t| && t[k..] == late && Begun(late, i, j)
    ensures Begun(t, i + k, j + k)
  {
    assert t[i + k] == late[i];
    forall l | i + k < l < j + k ensures t[l].code == MIDDLE as nat {
      assert t[l] == late[l - k];
    }
  }

  lemma {:induction false} PayloadsLater(t: seq<Physical>, late: seq<Physical>, k: nat, i: nat, j: nat)
    requires k <= |t| && t[k..] == late && i <= j <= |late|
    ensures Payloads(t, i + k, j + k) == Payloads(late, i, j)
    decreases j - i
  {
    if i < j {
      PayloadsLater(t, late, k, i, j - 1);
      assert t[j + k - 1] == late[j - 1];
    }
  }
}
