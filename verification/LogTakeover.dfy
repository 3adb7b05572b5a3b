/** A log that is opened again and written on.  After a crash its last record may be cut short; the
    writer goes on behind the piece that is left of it, and what it appends there is read back only
    if that piece means nothing to the reader. */
module LogTakeover {
  import opened Keys
  import opened Coding
  import opened LogFormat
  import opened LogReader

  /** A file after more records have been appended to it. */
  function Continued(crc: Crc, file: Bytes, more: seq<Bytes>): Bytes {
    if more == [] then file
    else
      var before := Continued(crc, file, more[..|more| - 1]);
      before + Appended(crc, |before|, more[|more| - 1])
  }

  method AppendAll(crc: Crc, file: Bytes, more: seq<Bytes>) returns (taken: Bytes)
    ensures taken == Continued(crc, file, more)
  {
    hide Appended;
    var writer := new Writer(crc, file);
    for i := 0 to |more|
      invariant fresh(writer) && writer.Ok() && writer.crc == crc && writer.dest == Continued(crc, file, more[..i])
    {
      assert more[..i + 1][..i] == more[..i];
      writer.AddRecord(more[i]);
    }
    assert more[..|more|] == more;
    taken := writer.dest;
  }

  lemma ContinuedNext(crc: Crc, file: Bytes, more: seq<Bytes>, i: nat)
    requires i < |more|
    ensures Continued(crc, file, more[..i + 1])
         == Continued(crc, file, more[..i]) + Appended(crc, |Continued(crc, file, more[..i])|, more[i])
  {
    assert more[..i + 1][..i] == more[..i];
  }

  lemma {:induction false} ContinuedGrows(crc: Crc, file: Bytes, more: seq<Bytes>, i: nat, j: nat)
    requires i <= j <= |more|
    ensures Continued(crc, file, more[..i]) <= Continued(crc, file, more[..j])
    decreases j
  {
    hide Appended;
    if i < j {
      ContinuedGrows(crc, file, more, i, j - 1);
      ContinuedNext(crc, file, more, j - 1);
    }
  }

  /** Records that were appended are read back by a reader that gets to where they begin. */
  lemma {:induction false} ReadsContinued(crc: Crc, file: Bytes, more: seq<Bytes>, taken: Bytes, i: nat)
    requires i <= |more| && taken == Continued(crc, file, more)
    ensures |Continued(crc, file, more[..i])| <= |taken|
    ensures ReadFrom(crc, taken, |Continued(crc, file, more[..i])|) == (more[i..], [])
    decreases |more| - i
  {
    hide Appended, Assemble, Continued;
    assert more[..|more|] == more;
    ContinuedGrows(crc, file, more, i, |more|);
    var pos := |Continued(crc, file, more[..i])|;
    if i == |more| {
      AssembleAtEnd(crc, taken);
      assert more[i..] == [];
    } else {
      var e := Appended(crc, pos, more[i]);
      ContinuedNext(crc, file, more, i);
      ContinuedGrows(crc, file, more, i + 1, |more|);
      assert e <= taken[pos..];
      AssembleAppended(crc, taken, pos, more[i]);
      ReadsContinued(crc, file, more, taken, i + 1);
      assert more[i..] == [more[i]] + more[i + 1..];
      var none: seq<nat> := [];
      assert none + none == none;
    }
  }

  /** Whole records at the beginning are read first, whatever comes behind them. */
  lemma {:induction false} ReadsFront(crc: Crc, raw: seq<Bytes>, file: Bytes, i: nat)
    requires i <= |raw| && FileOf(crc, raw) <= file
    ensures |FileOf(crc, raw[..i])| <= |file|
    ensures
      var rest := ReadFrom(crc, file, |FileOf(crc, raw)|);
      ReadFrom(crc, file, |FileOf(crc, raw[..i])|) == (raw[i..] + rest.0, rest.1)
    decreases |raw| - i
  {
    hide Appended, Assemble;
    var rest := ReadFrom(crc, file, |FileOf(crc, raw)|);
    FileOfSplits(crc, raw, i);
    if i == |raw| {
      assert raw[..i] == raw && raw[i..] + rest.0 == rest.0;
    } else {
      FileOfNext(crc, raw, i);
      FileOfSplits(crc, raw, i + 1);
      var pos := |FileOf(crc, raw[..i])|;
      var e := Appended(crc, pos, raw[i]);
      assert e <= file[pos..] by {
        assert FileOf(crc, raw[..i + 1]) <= file;
      }
      hide FileOf, Suffix;
      AssembleAppended(crc, file, pos, raw[i]);
      ReadsFront(crc, raw, file, i + 1);
      assert raw[i..] + rest.0 == [raw[i]] + (raw[i + 1..] + rest.0);
      assert [] + rest.1 == rest.1;
    }
  }

  // ----- Pieces that mean nothing -----

  /** A front part of what writing one more record adds to a file of whole ones. */
  ghost predicate IsTorn(crc: Crc, raw: seq<Bytes>, extra: Bytes, b: nat, torn: Bytes) {
    var start := |FileOf(crc, raw)|;
    && b < |Appended(crc, start, extra)|
    && torn == FileOf(crc, raw) + Appended(crc, start, extra)[..b]
  }

  /** The piece is no more than what fills up a block: zero bytes in which no header fits, or a
      header that begins a record at the very end and holds nothing of it. */
  predicate IsFilling(offset: nat, extra: Bytes, b: nat)
    requires offset <= BLOCK_SIZE
  {
    b <= |Trailer(offset)| || (offset + HEADER_SIZE == BLOCK_SIZE && b == HEADER_SIZE && extra != [])
  }

  /** From anywhere within the filling of a block, reading goes on with the next block. */
  lemma ScanSkips(crc: Crc, file: Bytes, pos: nat, pos': nat)
    requires pos <= pos' <= |file| && pos' <= BlockEnd(pos) && BlockEnd(pos) - pos < HEADER_SIZE
    ensures Scan(crc, file, pos) == Scan(crc, file, pos')
  {
    hide Parse;
    if pos' < BlockEnd(pos) {
      BlockEndIs(pos);
      BlockEndIs(pos');
      SameBlock(pos, pos');
    } else if |file| == pos' {
      ScanAtEndIs(crc, file);
    }
  }

  lemma SameBlock(pos: nat, pos': nat)
    requires pos <= pos' < BlockEnd(pos)
    ensures BlockEnd(pos') == BlockEnd(pos)
  {
  }

  lemma ScanAtEndIs(crc: Crc, file: Bytes)
    ensures Scan(crc, file, |file|) == Physical(EOF, [], |file|, [])
  {
    BlockEndIs(|file|);
  }

  lemma SameReading(crc: Crc, file: Bytes, pos: nat, pos': nat)
    requires pos <= |file| && pos' <= |file| && Scan(crc, file, pos) == Scan(crc, file, pos')
    ensures ReadFrom(crc, file, pos) == ReadFrom(crc, file, pos')
  {
    hide Scan;
    assert Assemble(crc, file, pos, false, []) == Assemble(crc, file, pos', false, []);
  }

  /** A record that has begun with nothing is forgotten when another begins. */
  lemma UnbegunReads(crc: Crc, file: Bytes, pos: nat)
    requires pos <= |file|
    requires var p := Scan(crc, file, pos); p.code == EOF || p.code == FULL as nat || p.code == FIRST as nat
    ensures Assemble(crc, file, pos, true, []) == Assemble(crc, file, pos, false, [])
  {
    hide Scan;
  }

  lemma TrailerBlock(start: nat)
    ensures Trailer(start % BLOCK_SIZE) != [] ==>
              BlockEnd(start) - start < HEADER_SIZE && start + |Trailer(start % BLOCK_SIZE)| == BlockEnd(start)
  {
    BlockEndIs(start);
  }

  /** What is appended behind a filling is read back. */
  lemma FillingIsSkipped(crc: Crc, raw: seq<Bytes>, extra: Bytes, b: nat, torn: Bytes, more: seq<Bytes>, taken: Bytes)
    requires IsTorn(crc, raw, extra, b, torn) && taken == Continued(crc, torn, more)
    requires IsFilling(|FileOf(crc, raw)| % BLOCK_SIZE, extra, b)
    ensures torn <= taken && ReadFrom(crc, taken, |FileOf(crc, raw)|) == (more, [])
  {
    hide Scan, ReadFrom, Fragment, FileOf, Emit;
    var start := |FileOf(crc, raw)|;
    assert more[..0] == [] && more[0..] == more && more[..|more|] == more;
    ContinuedGrows(crc, torn, more, 0, |more|);
    ReadsContinued(crc, torn, more, taken, 0);
    assert |torn| == start + b;
    if b <= |Trailer(start % BLOCK_SIZE)| {
      TrailerBlock(start);
      if b > 0 {
        ScanSkips(crc, taken, start, |torn|);
        SameReading(crc, taken, start, |torn|);
      }
    } else {
      HeaderAlone(crc, raw, extra, torn, more, taken);
    }
  }

  lemma FirstFragment(crc: Crc, offset: nat, data: Bytes, begin: bool)
    requires offset <= BLOCK_SIZE
    ensures Fragment(crc, offset, data, begin) <= Emit(crc, offset, data, begin)
  {
  }

  /** What the first appended record looks like to the reader. */
  lemma NextBegins(crc: Crc, torn: Bytes, more: seq<Bytes>, taken: Bytes)
    requires taken == Continued(crc, torn, more)
    ensures torn <= taken
    ensures var p := Scan(crc, taken, |torn|);
      p.drops == [] && if more == [] then p.code == EOF else p.code == FULL as nat || p.code == FIRST as nat
  {
    hide Scan, Fragment, Emit;
    assert more[..0] == [] && more[..|more|] == more;
    ContinuedGrows(crc, torn, more, 0, |more|);
    if more == [] {
      ScanAtEndIs(crc, taken);
    } else {
      var f := Fragment(crc, |torn| % BLOCK_SIZE, more[0], true);
      ContinuedNext(crc, torn, more, 0);
      ContinuedGrows(crc, torn, more, 1, |more|);
      FirstFragment(crc, |torn| % BLOCK_SIZE, more[0], true);
      assert f <= taken[|torn|..];
      ScanFragment(crc, taken, |torn|, more[0], true);
    }
  }

  lemma HeaderAlone(crc: Crc, raw: seq<Bytes>, extra: Bytes, torn: Bytes, more: seq<Bytes>, taken: Bytes)
    requires IsTorn(crc, raw, extra, HEADER_SIZE, torn) && taken == Continued(crc, torn, more) && torn <= taken
    requires |FileOf(crc, raw)| % BLOCK_SIZE + HEADER_SIZE == BLOCK_SIZE && extra != []
    ensures |FileOf(crc, raw)| <= |taken|
    ensures ReadFrom(crc, taken, |FileOf(crc, raw)|) == ReadFrom(crc, taken, |torn|)
  {
    var start := |FileOf(crc, raw)|;
    var f := Fragment(crc, start % BLOCK_SIZE, extra, true);
    assert FragmentLength(start % BLOCK_SIZE, extra) == 0 && |f| == HEADER_SIZE by {
      FragmentSize(crc, start % BLOCK_SIZE, extra, true);
    }
    FirstFragment(crc, start % BLOCK_SIZE, extra, true);
    hide Fragment, Emit, FileOf, Scan, Assemble;
    assert f <= taken[start..] by {
      assert Appended(crc, start, extra)[..HEADER_SIZE] == f;
      assert torn[start..] == f;
    }
    ScanFragment(crc, taken, start, extra, true);
    NextBegins(crc, torn, more, taken);
    UnbegunReads(crc, taken, |torn|);
    EmptyBegins(crc, taken, start, |torn|);
  }

  /** Reading a record's beginning that holds nothing. */
  lemma EmptyBegins(crc: Crc, file: Bytes, pos: nat, next: nat)
    requires pos <= next <= |file| && Scan(crc, file, pos) == Physical(FIRST as nat, [], next, [])
    requires Assemble(crc, file, next, true, []) == Assemble(crc, file, next, false, [])
    ensures ReadFrom(crc, file, pos) == ReadFrom(crc, file, next)
  {
    hide Scan;
    var l := Assemble(crc, file, next, false, []);
    assert [] + l.drops == l.drops;
    assert Assemble(crc, file, pos, false, []) == l;
  }

  /** So a file that was taken over behind a filling reads back as if nothing had happened. */
  lemma FillingReadsBack(crc: Crc, raw: seq<Bytes>, extra: Bytes, b: nat, torn: Bytes, more: seq<Bytes>, taken: Bytes)
    requires IsTorn(crc, raw, extra, b, torn) && taken == Continued(crc, torn, more)
    requires IsFilling(|FileOf(crc, raw)| % BLOCK_SIZE, extra, b)
    ensures ReadFrom(crc, taken, 0) == (raw + more, [])
  {
    FillingIsSkipped(crc, raw, extra, b, torn, more, taken);
    assert FileOf(crc, raw) <= torn <= taken;
    ReadsFront(crc, raw, taken, 0);
    assert raw[..0] == [] && raw[0..] == raw && FileOf(crc, raw[..0]) == [];
  }

  // ----- Pieces that are taken for part of a record -----

  /** Where a record that ends at `end` breaks off: the place of its last fragment there, and the data
      from that fragment on. */
  datatype Break = Break(at: nat, data: Bytes, begin: bool)

  function FragmentBytes(offset: nat, data: Bytes): (n: nat)
    requires offset <= BLOCK_SIZE
    ensures n > 0
  {
    |Trailer(offset)| + HEADER_SIZE + FragmentLength(offset, data)
  }

  function BreakOf(pos: nat, data: Bytes, begin: bool, end: nat): Break
    decreases |data|, if pos % BLOCK_SIZE + HEADER_SIZE == BLOCK_SIZE then 1 else 0
  {
    var offset := pos % BLOCK_SIZE;
    var n := FragmentLength(offset, data);
    var next := pos + FragmentBytes(offset, data);
    if n == |data| || end < next then Break(pos, data, begin)
    else
      BreakProgress(pos, data);
      BreakOf(next, data[n..], false, end)
  }

  lemma BreakProgress(pos: nat, data: Bytes)
    requires FragmentLength(pos % BLOCK_SIZE, data) < |data|
    ensures
      var n, next := FragmentLength(pos % BLOCK_SIZE, data), pos + FragmentBytes(pos % BLOCK_SIZE, data);
      next % BLOCK_SIZE == 0 && (n > 0 || pos % BLOCK_SIZE + HEADER_SIZE == BLOCK_SIZE)
  {
    var offset := pos % BLOCK_SIZE;
    FillsBlock(offset, data);
    TrailerBlock(pos);
    BlockEndIs(pos);
    var next := pos + FragmentBytes(offset, data);
    if Trailer(offset) == [] {
      assert next == BlockEnd(pos);
    } else {
      assert next == BlockEnd(pos) + BLOCK_SIZE;
    }
  }

  /** The reader makes nothing of what stands there: it takes it for the end of the file, or reports it. */
  ghost predicate Refused(crc: Crc, file: Bytes, pos: nat)
    requires pos <= |file|
  {
    var p := Scan(crc, file, pos);
    p.code == EOF || p.drops != []
  }

  /** Nothing was read, or something was reported. */
  predicate Spoilt(l: Logical) {
    l.record.None? || l.drops != []
  }

  lemma RefusedSpoils(crc: Crc, file: Bytes, pos: nat, inFragmented: bool, scratch: Bytes)
    requires pos <= |file| && Refused(crc, file, pos)
    ensures Spoilt(Assemble(crc, file, pos, inFragmented, scratch))
  {
    hide Scan;
  }

  /** A record that begins while another is unfinished is reported. */
  lemma BeginSpoils(crc: Crc, file: Bytes, pos: nat, scratch: Bytes)
    requires pos <= |file| && scratch != []
    requires Scan(crc, file, pos).code == FULL as nat || Scan(crc, file, pos).code == FIRST as nat
    ensures Spoilt(Assemble(crc, file, pos, true, scratch))
  {
    hide Scan;
  }

  /** The broken fragment is refused; or the record breaks off between fragments, and another begins there. */
  ghost predicate BreaksBadly(crc: Crc, file: Bytes, br: Break, end: nat) {
    && br.at <= end <= |file|
    && if br.at < end then Refused(crc, file, br.at)
       else Scan(crc, file, end).code == FULL as nat || Scan(crc, file, end).code == FIRST as nat
  }

  /** A record that breaks off spoils what the reader puts together. */
  lemma {:induction false} BrokenSpoils(
      crc: Crc, file: Bytes, pos: nat, data: Bytes, begin: bool, scratch: Bytes, end: nat)
    requires pos <= end <= |file| && GoesOn(file[..end], pos, Emit(crc, pos % BLOCK_SIZE, data, begin))
    requires end - pos < |Emit(crc, pos % BLOCK_SIZE, data, begin)|
    requires BreaksBadly(crc, file, BreakOf(pos, data, begin, end), end)
    requires begin ==> scratch == []
    requires pos == end ==> !begin && scratch != []
    requires !begin && scratch == [] ==> pos % BLOCK_SIZE == 0
    requires begin && pos % BLOCK_SIZE + HEADER_SIZE == BLOCK_SIZE ==> end - pos != HEADER_SIZE
    ensures Spoilt(Assemble(crc, file, pos, !begin, scratch))
    decreases |data|, if pos % BLOCK_SIZE + HEADER_SIZE == BLOCK_SIZE then 1 else 0
  {
    hide Scan, Fragment, Parse, Header, Assemble, Emit, Refused, FragmentLength, FragmentEnd, Trailer;
    var offset := pos % BLOCK_SIZE;
    var n := FragmentLength(offset, data);
    FragmentSize(crc, offset, data, begin);
    var next := pos + FragmentBytes(offset, data);
    if n == |data| || end < next {
      if pos == end {
        BeginSpoils(crc, file, pos, scratch);
      } else {
        RefusedSpoils(crc, file, pos, !begin, scratch);
      }
    } else {
      BreakProgress(pos, data);
      RestEmitted(crc, file[..end], pos, data, begin);
      WholeFragment(crc, file, pos, data, begin, end);
      ScratchGrows(scratch, data, n);
      BrokenSpoils(crc, file, next, data[n..], false, scratch + data[..n], end);
      FragmentRead(crc, file, pos, begin, scratch, data[..n], next);
    }
  }

  lemma ScratchGrows(scratch: Bytes, data: Bytes, n: nat)
    requires n <= |data|
    ensures scratch + data[..n] == [] <==> scratch == [] && n == 0
  {
  }

  lemma RestEmitted(crc: Crc, file: Bytes, pos: nat, data: Bytes, begin: bool)
    requires GoesOn(file, pos, Emit(crc, pos % BLOCK_SIZE, data, begin))
    requires FragmentLength(pos % BLOCK_SIZE, data) < |data|
    requires pos + FragmentBytes(pos % BLOCK_SIZE, data) <= |file|
    ensures
      var n, next := FragmentLength(pos % BLOCK_SIZE, data), pos + FragmentBytes(pos % BLOCK_SIZE, data);
      && GoesOn(file, pos, Fragment(crc, pos % BLOCK_SIZE, data, begin))
      && GoesOn(file, next, Emit(crc, next % BLOCK_SIZE, data[n..], false))
      && |Emit(crc, pos % BLOCK_SIZE, data, begin)| == next - pos + |Emit(crc, next % BLOCK_SIZE, data[n..], false)|
  {
    hide Fragment, Emit, FragmentLength, FragmentEnd, Trailer;
    var offset := pos % BLOCK_SIZE;
    var n := FragmentLength(offset, data);
    var f := Fragment(crc, offset, data, begin);
    var rest := Emit(crc, FragmentEnd(offset, data), data[n..], false);
    EmitGoesOn(crc, offset, data, begin);
    FragmentSize(crc, offset, data, begin);
    NextOffset(crc, pos, data, begin);
    GoesOnSplits(file, pos, f, rest);
    assert |f| == FragmentBytes(offset, data);
    TakenFront(file, pos, f);
  }

  lemma EmitGoesOn(crc: Crc, offset: nat, data: Bytes, begin: bool)
    requires offset <= BLOCK_SIZE && FragmentLength(offset, data) < |data|
    ensures
      Emit(crc, offset, data, begin) ==
      Fragment(crc, offset, data, begin)
      + Emit(crc, FragmentEnd(offset, data), data[FragmentLength(offset, data)..], false)
  {
  }

  lemma TakenFront(file: Bytes, pos: nat, f: Bytes)
    requires GoesOn(file, pos, f) && pos + |f| <= |file|
    ensures f <= file[pos..]
  {
  }

  lemma WholeFragment(crc: Crc, file: Bytes, pos: nat, data: Bytes, begin: bool, end: nat)
    requires pos + |Fragment(crc, pos % BLOCK_SIZE, data, begin)| <= end <= |file|
    requires GoesOn(file[..end], pos, Fragment(crc, pos % BLOCK_SIZE, data, begin))
    ensures
      var f := Fragment(crc, pos % BLOCK_SIZE, data, begin);
      var n := FragmentLength(pos % BLOCK_SIZE, data);
      Scan(crc, file, pos) == Physical(FragmentType(begin, n == |data|) as nat, data[..n], pos + |f|, [])
  {
    hide Scan, Fragment;
    var f := Fragment(crc, pos % BLOCK_SIZE, data, begin);
    assert f <= file[..end][pos..];
    assert file[..end][pos..] <= file[pos..];
    ScanFragment(crc, file, pos, data, begin);
  }

  /** Reading a fragment that goes on. */
  lemma FragmentRead(crc: Crc, file: Bytes, pos: nat, begin: bool, scratch: Bytes, payload: Bytes, next: nat)
    requires pos < next <= |file| && (begin ==> scratch == [])
    requires Scan(crc, file, pos) == Physical(FragmentType(begin, false) as nat, payload, next, [])
    requires Spoilt(Assemble(crc, file, next, true, scratch + payload))
    ensures Spoilt(Assemble(crc, file, pos, !begin, scratch))
  {
    hide Scan;
    assert begin ==> scratch + payload == payload;
  }

  /** If a broken fragment is refused once records stand behind it, the records appended behind a
      piece are all read back, with nothing reported, if and only if the piece is a filling. */
  lemma TakeoverReadsBackIff(
      crc: Crc, raw: seq<Bytes>, extra: Bytes, b: nat, torn: Bytes, more: seq<Bytes>, taken: Bytes)
    requires IsTorn(crc, raw, extra, b, torn) && taken == Continued(crc, torn, more) && more != []
    requires torn <= taken
    requires var start := |FileOf(crc, raw)|;
      var br := BreakOf(start, extra, true, |torn|);
      !IsFilling(start % BLOCK_SIZE, extra, b) && br.at < |torn| ==> Refused(crc, taken, br.at)
    ensures ReadFrom(crc, taken, 0) == (raw + more, []) <==> IsFilling(|FileOf(crc, raw)| % BLOCK_SIZE, extra, b)
  {
    var start := |FileOf(crc, raw)|;
    assert FileOf(crc, raw) <= torn <= taken;
    ReadsFront(crc, raw, taken, 0);
    assert raw[..0] == [] && raw[0..] == raw && FileOf(crc, raw[..0]) == [];
    var rest := ReadFrom(crc, taken, start);
    if IsFilling(start % BLOCK_SIZE, extra, b) {
      FillingReadsBack(crc, raw, extra, b, torn, more, taken);
    } else {
      PieceSpoils(crc, raw, extra, b, torn, more, taken);
      hide Assemble, IsTorn, FileOf, Continued;
      var l := Assemble(crc, taken, start, false, []);
      if l.record.None? {
        assert rest.0 == [] && raw + more != raw + rest.0;
      } else {
        assert rest.1 != [];
      }
    }
  }

  lemma PieceSpoils(crc: Crc, raw: seq<Bytes>, extra: Bytes, b: nat, torn: Bytes, more: seq<Bytes>, taken: Bytes)
    requires IsTorn(crc, raw, extra, b, torn) && taken == Continued(crc, torn, more) && more != [] && torn <= taken
    requires !IsFilling(|FileOf(crc, raw)| % BLOCK_SIZE, extra, b)
    requires
      var br := BreakOf(|FileOf(crc, raw)|, extra, true, |torn|);
      br.at < |torn| ==> Refused(crc, taken, br.at)
    ensures Spoilt(Assemble(crc, taken, |FileOf(crc, raw)|, false, []))
  {
    hide Scan, Emit, Fragment, FileOf, Refused, Assemble;
    var start, end := |FileOf(crc, raw)|, |torn|;
    var e := Emit(crc, start % BLOCK_SIZE, extra, true);
    assert taken[..end] == torn && torn[start..] == e[..b];
    BreakWithin(start, extra, true, end);
    NextBegins(crc, torn, more, taken);
    if extra == [] {
      EmptyIsShort(crc, start % BLOCK_SIZE);
    }
    BrokenSpoils(crc, taken, start, extra, true, [], end);
  }

  lemma EmptyIsShort(crc: Crc, offset: nat)
    requires offset <= BLOCK_SIZE
    ensures |Emit(crc, offset, [], true)| == |Trailer(offset)| + HEADER_SIZE
  {
    FragmentSize(crc, offset, [], true);
  }

  lemma {:induction false} BreakWithin(pos: nat, data: Bytes, begin: bool, end: nat)
    requires pos <= end
    ensures BreakOf(pos, data, begin, end).at <= end
    decreases |data|, if pos % BLOCK_SIZE + HEADER_SIZE == BLOCK_SIZE then 1 else 0
  {
    var offset := pos % BLOCK_SIZE;
    var n := FragmentLength(offset, data);
    var next := pos + FragmentBytes(offset, data);
    if n != |data| && end >= next {
      BreakProgress(pos, data);
      BreakWithin(next, data[n..], false, end);
    }
  }

  // ----- When a piece is refused -----

  /** A piece that holds the whole header of its fragment is refused, unless the checksum takes the
      bytes that came to stand behind the header for the fragment's own. */
  lemma WholeHeaderIsRefused(crc: Crc, file: Bytes, pos: nat, data: Bytes, begin: bool, end: nat)
    requires pos <= end <= |file| && GoesOn(file[..end], pos, Fragment(crc, pos % BLOCK_SIZE, data, begin))
    requires
      var h := pos + |Trailer(pos % BLOCK_SIZE)| + HEADER_SIZE;
      h <= end < pos + |Fragment(crc, pos % BLOCK_SIZE, data, begin)|
    requires
      var h := pos + |Trailer(pos % BLOCK_SIZE)| + HEADER_SIZE;
      var n := FragmentLength(pos % BLOCK_SIZE, data);
      var t := FragmentType(begin, n == |data|);
      h + n <= |file| ==> crc(t, file[h..h + n]) % TWO32 != crc(t, data[..n]) % TWO32
    ensures Refused(crc, file, pos)
  {
    var offset := pos % BLOCK_SIZE;
    var trailer := Trailer(offset);
    var at, n := pos + |trailer|, FragmentLength(offset, data);
    var payload := data[..n];
    assert (payload == data) == (n == |data|);
    var t := FragmentType(begin, payload == data);
    TrailerBlock(pos);
    FragmentSize(crc, offset, data, begin);
    FitsBlock(pos, data);
    HeaderIsThere(crc, file, pos, data, begin, end);
    hide Fragment, Header, Scan, FragmentLength, Trailer;
    HeaderRefused(crc, file, at, t, payload);
    if trailer != [] {
      ScanSkips(crc, file, pos, at);
    }
  }

  lemma HeaderIsThere(crc: Crc, file: Bytes, pos: nat, data: Bytes, begin: bool, end: nat)
    requires pos <= end <= |file| && GoesOn(file[..end], pos, Fragment(crc, pos % BLOCK_SIZE, data, begin))
    requires
      var h := pos + |Trailer(pos % BLOCK_SIZE)| + HEADER_SIZE;
      h <= end < pos + |Fragment(crc, pos % BLOCK_SIZE, data, begin)|
    ensures
      var n := FragmentLength(pos % BLOCK_SIZE, data);
      HeaderStands(crc, file, pos + |Trailer(pos % BLOCK_SIZE)|, FragmentType(begin, n == |data|), data[..n])
  {
    var trailer := Trailer(pos % BLOCK_SIZE);
    var n := FragmentLength(pos % BLOCK_SIZE, data);
    var payload := data[..n];
    assert (payload == data) == (n == |data|);
    var h := Header(crc, FragmentType(begin, payload == data), payload);
    var f := Fragment(crc, pos % BLOCK_SIZE, data, begin);
    assert f == trailer + h + payload;
    hide Fragment, Header, FragmentLength, Trailer;
    HeaderWithin(file, pos, end, trailer, h, payload);
  }

  lemma HeaderWithin(file: Bytes, pos: nat, end: nat, trailer: Bytes, h: Bytes, payload: Bytes)
    requires pos <= end <= |file| && GoesOn(file[..end], pos, trailer + h + payload)
    requires pos + |trailer + h| <= end < pos + |trailer + h + payload|
    ensures file[pos + |trailer|..pos + |trailer| + |h|] == h
  {
    var piece := file[..end][pos..];
    var f := trailer + h + payload;
    assert piece < f && piece == f[..|piece|];
    assert piece == file[pos..end];
    SubSlice(file, pos, end, |trailer|, |trailer| + |h|);
    SubSlice(f, 0, |piece|, |trailer|, |trailer| + |h|);
    assert f[0..|piece|] == piece;
    assert f[|trailer|..|trailer| + |h|] == h;
  }

  /** A header of a fragment with this payload stands at `at`. */
  ghost predicate HeaderStands(crc: Crc, file: Bytes, at: nat, t: Byte, payload: Bytes) {
    at + HEADER_SIZE <= |file| && |payload| <= 0xffff && file[at..at + HEADER_SIZE] == Header(crc, t, payload)
  }

  lemma FitsBlock(pos: nat, data: Bytes)
    ensures
      var at := pos + |Trailer(pos % BLOCK_SIZE)|;
      at + HEADER_SIZE + FragmentLength(pos % BLOCK_SIZE, data) <= BlockEnd(at)
  {
    TrailerBlock(pos);
    BlockEndIs(pos);
    BlockEndIs(pos + |Trailer(pos % BLOCK_SIZE)|);
  }

  lemma HeaderRefused(crc: Crc, file: Bytes, at: nat, t: Byte, payload: Bytes)
    requires HeaderStands(crc, file, at, t, payload) && t != 0
    requires at + HEADER_SIZE + |payload| <= BlockEnd(at)
    requires at + HEADER_SIZE + |payload| <= |file| ==>
               crc(t, file[at + HEADER_SIZE..at + HEADER_SIZE + |payload|]) % TWO32 != crc(t, payload) % TWO32
    ensures Refused(crc, file, at)
  {
    hide BlockEnd, Header, Scan;
    ScanInBlock(crc, file, at);
    var whole := BlockEnd(at) <= |file|;
    var limit := if whole then BlockEnd(at) else |file|;
    var buffer := file[at..limit];
    SubSlice(file, at, limit, 0, HEADER_SIZE);
    HeaderFields(crc, t, payload, buffer);
    if HEADER_SIZE + |payload| <= |buffer| {
      SubSlice(file, at, limit, HEADER_SIZE, HEADER_SIZE + |payload|);
    }
  }

  lemma HeaderFields(crc: Crc, t: Byte, payload: Bytes, buffer: Bytes)
    requires |payload| <= 0xffff && |buffer| >= HEADER_SIZE && buffer[..HEADER_SIZE] == Header(crc, t, payload)
    ensures DecodeFixed32(buffer[..4]) == crc(t, payload) % TWO32
    ensures LengthIn(buffer) == |payload| && buffer[6] == t
  {
    var h := Header(crc, t, payload);
    assert buffer[..4] == buffer[..HEADER_SIZE][..4] == EncodeFixed32(crc(t, payload) % TWO32);
    assert buffer[4] == buffer[..HEADER_SIZE][4] == h[4] && buffer[5] == buffer[..HEADER_SIZE][5] == h[5];
    assert buffer[6] == buffer[..HEADER_SIZE][6] == t;
    Fixed32RoundTrip(crc(t, payload) % TWO32);
  }

  // ----- What is lost -----

  /** A piece that breaks off in its first fragment, with the whole header of it there. */
  ghost predicate BreaksInFirst(crc: Crc, raw: seq<Bytes>, extra: Bytes, b: nat) {
    var offset := |FileOf(crc, raw)| % BLOCK_SIZE;
    |Trailer(offset)| + HEADER_SIZE <= b < |Fragment(crc, offset, extra, true)|
  }

  /** The checksum in the header of the piece does not match what came to stand behind it. */
  ghost predicate ChecksumTells(crc: Crc, raw: seq<Bytes>, extra: Bytes, file: Bytes) {
    var start := |FileOf(crc, raw)|;
    var h := start + |Trailer(start % BLOCK_SIZE)| + HEADER_SIZE;
    var n := FragmentLength(start % BLOCK_SIZE, extra);
    var t := FragmentType(true, n == |extra|);
    h + n <= |file| ==> crc(t, file[h..h + n]) % TWO32 != crc(t, extra[..n]) % TWO32
  }

  lemma FirstIsRefused(crc: Crc, raw: seq<Bytes>, extra: Bytes, b: nat, torn: Bytes, taken: Bytes)
    requires IsTorn(crc, raw, extra, b, torn) && torn <= taken
    requires BreaksInFirst(crc, raw, extra, b) && ChecksumTells(crc, raw, extra, taken)
    ensures |FileOf(crc, raw)| <= |taken| && Refused(crc, taken, |FileOf(crc, raw)|)
  {
    var start, end := |FileOf(crc, raw)|, |torn|;
    var f := Fragment(crc, start % BLOCK_SIZE, extra, true);
    FirstFragment(crc, start % BLOCK_SIZE, extra, true);
    assert taken[..end] == torn;
    assert torn[start..] == Emit(crc, start % BLOCK_SIZE, extra, true)[..b] == f[..b];
    hide Fragment, Emit, FileOf, Refused, Trailer;
    WholeHeaderIsRefused(crc, taken, start, extra, true, end);
  }

  /** While the file ends in the block of such a piece, everything that was appended is lost: only
      the records before the piece are read back. */
  lemma AppendedAreLost(crc: Crc, raw: seq<Bytes>, extra: Bytes, b: nat, torn: Bytes, more: seq<Bytes>, taken: Bytes)
    requires IsTorn(crc, raw, extra, b, torn) && taken == Continued(crc, torn, more)
    requires BreaksInFirst(crc, raw, extra, b) && ChecksumTells(crc, raw, extra, taken)
    requires var start := |FileOf(crc, raw)|; |taken| < BlockEnd(start + |Trailer(start % BLOCK_SIZE)|)
    ensures ReadFrom(crc, taken, 0).0 == raw
  {
    hide Fragment, Emit, Trailer;
    var start := |FileOf(crc, raw)|;
    assert more[..0] == [] && more[..|more|] == more;
    ContinuedGrows(crc, torn, more, 0, |more|);
    FirstIsRefused(crc, raw, extra, b, torn, taken);
    RefusedEnds(crc, taken, start);
    ReadsFront(crc, raw, taken, 0);
    assert raw[..0] == [] && raw[0..] == raw && FileOf(crc, raw[..0]) == [] && raw + [] == raw;
  }

  /** What is refused in the last block ends the reading. */
  lemma RefusedEnds(crc: Crc, file: Bytes, pos: nat)
    requires pos <= |file| && Refused(crc, file, pos)
    requires |file| < BlockEnd(pos + |Trailer(pos % BLOCK_SIZE)|)
    ensures ReadFrom(crc, file, pos).0 == []
  {
    RefusedNext(crc, file, pos);
    hide Scan;
    var p := Scan(crc, file, pos);
    if p.code != EOF {
      ScanAtEndIs(crc, file);
    }
  }

  lemma RefusedNext(crc: Crc, file: Bytes, pos: nat)
    requires pos <= |file| && Refused(crc, file, pos)
    requires |file| < BlockEnd(pos + |Trailer(pos % BLOCK_SIZE)|)
    ensures var p := Scan(crc, file, pos); p.code == EOF || (p.code == BAD_RECORD && p.next == |file|)
  {
    TrailerBlock(pos);
  }
}
