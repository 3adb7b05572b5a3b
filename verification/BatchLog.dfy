/** Write batches in a log: a crash in the middle of writing loses whole batches from the end, and
    no part of a batch. */
module BatchLog {
  import opened Keys
  import opened Coding
  import opened WriteBatch
  import opened LogFormat
  import opened LogReader

  datatype Logged = Logged(sequence: nat, updates: seq<Update>)

  /** The log records of some batches. */
  function Records(batches: seq<Logged>): seq<Bytes> {
    seq(|batches|, i requires 0 <= i < |batches| => RepOf(batches[i].sequence, batches[i].updates))
  }

  /** What recovery makes of a record: nothing of one that is damaged or too small. */
  function BatchOf(record: Bytes): Option<Logged> {
    if |record| < HEADER then None
    else
      var r := ReadUpdates(record[HEADER..]);
      if r.1 && |r.0| == DecodeFixed32(record[8..12]) then Some(Logged(DecodeFixed64(record[..8]), r.0)) else None
  }

  lemma BatchBack(b: Logged)
    requires Fits(b.sequence, b.updates)
    ensures BatchOf(RepOf(b.sequence, b.updates)) == Some(b)
  {
    hide EncodeFixed64, EncodeFixed32, DecodeFixed64, DecodeFixed32, UpdatesBytes, ReadUpdates;
    RepParts(EncodeFixed64(b.sequence), EncodeFixed32(|b.updates|), UpdatesBytes(b.updates));
    ReadsBack(b.updates);
    Fixed32RoundTrip(|b.updates|);
    Fixed64RoundTrip(b.sequence);
  }

  /** A batch with another count than its updates is nothing. */
  lemma CountDecides(sequence: nat, count: nat, updates: seq<Update>)
    requires Fits(sequence, updates) && count < TWO32
    ensures BatchOf(EncodeFixed64(sequence) + EncodeFixed32(count) + UpdatesBytes(updates)) ==
      if count == |updates| then Some(Logged(sequence, updates)) else None
  {
    hide EncodeFixed64, EncodeFixed32, DecodeFixed64, DecodeFixed32, UpdatesBytes, ReadUpdates;
    RepParts(EncodeFixed64(sequence), EncodeFixed32(count), UpdatesBytes(updates));
    ReadsBack(updates);
    Fixed32RoundTrip(count);
    Fixed64RoundTrip(sequence);
  }

  /** A batch that has lost bytes at its end is nothing, even if it was cut between two updates. */
  lemma CutBatchIsNothing(b: Logged, n: nat)
    requires Fits(b.sequence, b.updates) && n < |RepOf(b.sequence, b.updates)|
    ensures BatchOf(RepOf(b.sequence, b.updates)[..n]) == None
  {
    hide EncodeFixed32, DecodeFixed32, UpdatesBytes, ReadUpdates, RepOf, BatchOf;
    var rep := RepOf(b.sequence, b.updates)[..n];
    if n >= HEADER {
      RepCut(b, n);
      var k := UpdatesCut(b.updates, n - HEADER);
      Fixed32RoundTrip(|b.updates|);
    }
    Miscounted(rep);
  }

  lemma Miscounted(rep: Bytes)
    requires |rep| >= HEADER ==> |ReadUpdates(rep[HEADER..]).0| != DecodeFixed32(rep[8..12])
    ensures BatchOf(rep) == None
  {
    hide DecodeFixed32, ReadUpdates;
  }

  lemma RepCut(b: Logged, n: nat)
    requires HEADER <= n < |RepOf(b.sequence, b.updates)|
    ensures
      var rep := RepOf(b.sequence, b.updates)[..n];
      && n - HEADER < |UpdatesBytes(b.updates)|
      && rep[8..12] == EncodeFixed32(|b.updates|) && rep[HEADER..] == UpdatesBytes(b.updates)[..n - HEADER]
  {
    hide EncodeFixed64, EncodeFixed32, UpdatesBytes;
    var all := RepOf(b.sequence, b.updates);
    RepParts(EncodeFixed64(b.sequence), EncodeFixed32(|b.updates|), UpdatesBytes(b.updates));
    assert all[..n][8..12] == all[8..12];
    assert all[..n][HEADER..] == all[HEADER..][..n - HEADER];
  }

  /** However many bytes of the log are there, what is read back is some number of whole batches
      from its beginning: all of those that end within these bytes. */
  lemma TornLogKeepsWholeBatches(crc: Crc, batches: seq<Logged>, n: nat)
    requires n <= |FileOf(crc, Records(batches))|
    requires forall b :: b in batches ==> Fits(b.sequence, b.updates)
    ensures
      var read := ReadFrom(crc, FileOf(crc, Records(batches))[..n], 0);
      var k := |read.0|;
      && k <= |batches| && read.1 == []
      && (forall i :: 0 <= i < k ==> BatchOf(read.0[i]) == Some(batches[i]))
      && |FileOf(crc, Records(batches[..k]))| <= n
      && (k < |batches| ==> n < |FileOf(crc, Records(batches[..k + 1]))|)
  {
    hide FileOf, ReadFrom, RepOf, BatchOf, Fits, Whole;
    var records := Records(batches);
    TornLogReadsBack(crc, records, n);
    var k := Whole(crc, records, n);
    assert records[..k] == Records(batches[..k]);
    if k < |batches| {
      assert records[..k + 1] == Records(batches[..k + 1]);
    }
    forall i | 0 <= i < k ensures BatchOf(records[..k][i]) == Some(batches[i]) {
      BatchBack(batches[i]);
    }
  }
}
