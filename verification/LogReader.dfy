/** Reading the log back.  What one call of the reader does is first said as a function of the file
    and of a position in it, on any bytes at all; the class, which keeps a block in a buffer, is
    proved to compute that function; and on the bytes the writer left, cut off anywhere, the
    function is proved to give back the records that are there in full. */
module LogReader {
  import opened Keys
  import opened Coding
  import opened LogFormat

  const EOF: nat := 5
  const BAD_RECORD: nat := 6

  /** What reading one physical record gives: its type or one of the two codes, its payload, the
      position after it, and the sizes of the drops that were reported. */
  datatype Physical = Physical(code: nat, payload: Bytes, next: nat, drops: seq<nat>)

  datatype Logical = Logical(record: Option<Bytes>, next: nat, drops: seq<nat>)

  function LengthIn(header: Bytes): nat
    requires |header| >= HEADER_SIZE
  {
    header[4] as nat + 256 * (header[5] as nat)
  }

  /** The end of the block that position `pos` is in. */
  function BlockEnd(pos: nat): (e: nat)
    ensures pos < e <= pos + BLOCK_SIZE && e % BLOCK_SIZE == 0
  {
    (pos / BLOCK_SIZE + 1) * BLOCK_SIZE
  }

  function Parse(crc: Crc, buffer: Bytes, pos: nat, eof: bool): (p: Physical)
    requires |buffer| >= HEADER_SIZE
    ensures pos < p.next <= pos + |buffer|
  {
    var length := LengthIn(buffer);
    var end := pos + |buffer|;
    var payload := if HEADER_SIZE + length <= |buffer| then buffer[HEADER_SIZE..HEADER_SIZE + length] else [];
    if HEADER_SIZE + length > |buffer| then
      if eof then Physical(EOF, [], end, []) else Physical(BAD_RECORD, [], end, [|buffer|])
    else if buffer[6] == 0 && length == 0 then Physical(BAD_RECORD, [], end, [])
    else if crc(buffer[6], payload) % TWO32 != DecodeFixed32(buffer[..4]) then
      Physical(BAD_RECORD, [], end, [|buffer|])
    else Physical(buffer[6] as nat, payload, pos + HEADER_SIZE + length, [])
  }

  /** One physical record, from any position of any file. */
  function Scan(crc: Crc, file: Bytes, pos: nat): (p: Physical)
    requires pos <= |file|
    ensures pos <= p.next <= |file|
    ensures p.code != EOF ==> pos < p.next
    decreases |file| - pos
  {
    var whole := BlockEnd(pos) <= |file|;
    var limit := if whole then BlockEnd(pos) else |file|;
    if limit - pos >= HEADER_SIZE then Parse(crc, file[pos..limit], pos, !whole)
    else if whole then Scan(crc, file, limit)
    else Physical(EOF, [], |file|, [])
  }

  /** Whether a physical record completes the logical one. */
  predicate Completes(p: Physical, inFragmented: bool) {
    p.code == FULL as nat || (p.code == LAST as nat && inFragmented)
  }

  /** The drops reported for a physical record that does not fit in with those before it. */
  function Reported(p: Physical, inFragmented: bool, scratch: Bytes): seq<nat> {
    if p.code == FULL as nat || p.code == FIRST as nat then
      if inFragmented && scratch != [] then [|scratch|] else []
    else if p.code == MIDDLE as nat || p.code == LAST as nat then if inFragmented then [] else [|p.payload|]
    else if p.code == BAD_RECORD then if inFragmented then [|scratch|] else []
    else [|p.payload| + if inFragmented then |scratch| else 0]
  }

  /** Whether there is an unfinished record after it, and what is known of it. */
  function Kept(p: Physical, inFragmented: bool, scratch: Bytes): (bool, Bytes) {
    if p.code == FIRST as nat then (true, p.payload)
    else if p.code == MIDDLE as nat && inFragmented then (true, scratch + p.payload)
    else (false, [])
  }

  /** One logical record: the fragments put together. */
  function Assemble(crc: Crc, file: Bytes, pos: nat, inFragmented: bool, scratch: Bytes): (l: Logical)
    requires pos <= |file|
    ensures pos <= l.next <= |file|
    ensures l.record.Some? ==> pos < l.next
    decreases |file| - pos
  {
    var p := Scan(crc, file, pos);
    if p.code == EOF then Logical(None, p.next, p.drops)
    else
      var drops := p.drops + Reported(p, inFragmented, scratch);
      if Completes(p, inFragmented) then
        Logical(Some(if p.code == FULL as nat then p.payload else scratch + p.payload), p.next, drops)
      else
        var kept := Kept(p, inFragmented, scratch);
        var rest := Assemble(crc, file, p.next, kept.0, kept.1);
        Logical(rest.record, rest.next, drops + rest.drops)
  }

  /** Every record from a position on, and every drop reported on the way. */
  function ReadFrom(crc: Crc, file: Bytes, pos: nat): (r: (seq<Bytes>, seq<nat>))
    requires pos <= |file|
    decreases |file| - pos
  {
    var l := Assemble(crc, file, pos, false, []);
    if l.record.None? then ([], l.drops)
    else
      var rest := ReadFrom(crc, file, l.next);
      ([l.record.value] + rest.0, l.drops + rest.1)
  }

  // ----- What the writer left is read back -----

  lemma ParseWhole(crc: Crc, t: Byte, payload: Bytes, rest: Bytes, pos: nat, eof: bool)
    requires |payload| <= 0xffff && t != 0
    ensures Parse(crc, Header(crc, t, payload) + payload + rest, pos, eof)
         == Physical(t as nat, payload, pos + HEADER_SIZE + |payload|, [])
  {
    var h := Header(crc, t, payload);
    var buffer := h + payload + rest;
    Fixed32RoundTrip(crc(t, payload) % TWO32);
    assert buffer[..4] == EncodeFixed32(crc(t, payload) % TWO32);
    assert buffer[4] == h[4] && buffer[5] == h[5] && buffer[6] == t;
    assert LengthIn(buffer) == |payload|;
    assert buffer[HEADER_SIZE..HEADER_SIZE + |payload|] == payload;
  }

  lemma ParseTorn(crc: Crc, t: Byte, payload: Bytes, buffer: Bytes, pos: nat)
    requires |payload| <= 0xffff
    requires HEADER_SIZE <= |buffer| < HEADER_SIZE + |payload|
    requires buffer <= Header(crc, t, payload) + payload
    ensures Parse(crc, buffer, pos, true) == Physical(EOF, [], pos + |buffer|, [])
  {
    var h := Header(crc, t, payload);
    assert buffer[4] == (h + payload)[4] == h[4];
    assert buffer[5] == (h + payload)[5] == h[5];
    assert LengthIn(buffer) == |payload|;
  }

  lemma BlockEndIs(pos: nat)
    ensures BlockEnd(pos) == pos - pos % BLOCK_SIZE + BLOCK_SIZE
  {
  }

  /** The file goes on with the bytes `b` at `pos`, or ends somewhere among them. */
  ghost predicate GoesOn(file: Bytes, pos: nat, b: Bytes) {
    pos <= |file| && (b <= file[pos..] || file[pos..] < b)
  }

  lemma GoesOnSplits(file: Bytes, pos: nat, a: Bytes, b: Bytes)
    requires GoesOn(file, pos, a + b)
    ensures GoesOn(file, pos, a)
    ensures a <= file[pos..] ==> GoesOn(file, pos + |a|, b)
    ensures a + b <= file[pos..] <==> a <= file[pos..] && b <= file[pos + |a|..]
  {
    var rest := file[pos..];
    if a + b <= rest {
      assert rest[..|a|] == (a + b)[..|a|] == a;
      assert file[pos + |a|..] == rest[|a|..];
      assert rest[|a|..][..|b|] == (a + b)[|a|..] == b;
    } else if |rest| >= |a| {
      assert rest == (a + b)[..|rest|];
      assert rest[..|a|] == (a + b)[..|a|] == a;
      assert file[pos + |a|..] == rest[|a|..];
      assert rest[|a|..] == b[..|rest| - |a|];
    } else {
      assert rest == (a + b)[..|rest|] == a[..|rest|];
    }
  }

  lemma ScanInBlock(crc: Crc, file: Bytes, pos: nat)
    requires pos <= |file|
    ensures
      var whole := BlockEnd(pos) <= |file|;
      var limit := if whole then BlockEnd(pos) else |file|;
      limit - pos >= HEADER_SIZE ==> Scan(crc, file, pos) == Parse(crc, file[pos..limit], pos, !whole)
  {
  }

  /** A fragment: read if it is there in full, and otherwise the end. */
  lemma ScanFragmentHere(crc: Crc, file: Bytes, pos: nat, data: Bytes, begin: bool)
    requires BLOCK_SIZE - pos % BLOCK_SIZE >= HEADER_SIZE
    requires GoesOn(file, pos, Fragment(crc, pos % BLOCK_SIZE, data, begin))
    ensures
      var f := Fragment(crc, pos % BLOCK_SIZE, data, begin);
      var length := FragmentLength(pos % BLOCK_SIZE, data);
      var p := Scan(crc, file, pos);
      if f <= file[pos..]
      then p == Physical(FragmentType(begin, length == |data|) as nat, data[..length], pos + |f|, [])
      else p.code == EOF && p.drops == []
  {
    hide Header, Parse, Scan, BlockEnd;
    var offset := pos % BLOCK_SIZE;
    var f := Fragment(crc, offset, data, begin);
    var length := FragmentLength(offset, data);
    var payload := data[..length];
    var t := FragmentType(begin, payload == data);
    assert (payload == data) == (length == |data|);
    assert f == Header(crc, t, payload) + payload;
    BlockEndIs(pos);
    ScanInBlock(crc, file, pos);
    var limit := if BlockEnd(pos) <= |file| then BlockEnd(pos) else |file|;
    var buffer := file[pos..limit];
    if f <= file[pos..] {
      assert pos + |f| <= limit;
      assert buffer[..|f|] == file[pos..][..|f|] == f;
      assert buffer == f + buffer[|f|..];
      ParseWhole(crc, t, payload, buffer[|f|..], pos, BlockEnd(pos) > |file|);
    } else {
      assert limit == |file| && buffer == file[pos..];
      if |buffer| >= HEADER_SIZE {
        ParseTorn(crc, t, payload, buffer, pos);
      } else {
        assert Scan(crc, file, pos) == Physical(EOF, [], |file|, []) by {
          ScanShort(crc, file, pos);
        }
      }
    }
  }

  lemma ScanShort(crc: Crc, file: Bytes, pos: nat)
    requires pos <= |file| < BlockEnd(pos) && |file| - pos < HEADER_SIZE
    ensures Scan(crc, file, pos) == Physical(EOF, [], |file|, [])
  {
  }

  lemma ScanFragment(crc: Crc, file: Bytes, pos: nat, data: Bytes, begin: bool)
    requires GoesOn(file, pos, Fragment(crc, pos % BLOCK_SIZE, data, begin))
    ensures
      var f := Fragment(crc, pos % BLOCK_SIZE, data, begin);
      var length := FragmentLength(pos % BLOCK_SIZE, data);
      var p := Scan(crc, file, pos);
      if f <= file[pos..]
      then p == Physical(FragmentType(begin, length == |data|) as nat, data[..length], pos + |f|, [])
      else p.code == EOF && p.drops == []
  {
    var offset := pos % BLOCK_SIZE;
    if BLOCK_SIZE - offset >= HEADER_SIZE {
      ScanFragmentHere(crc, file, pos, data, begin);
    } else {
      ScanFragmentNextBlock(crc, file, pos, data, begin);
    }
  }

  lemma ScanFragmentNextBlock(crc: Crc, file: Bytes, pos: nat, data: Bytes, begin: bool)
    requires BLOCK_SIZE - pos % BLOCK_SIZE < HEADER_SIZE
    requires GoesOn(file, pos, Fragment(crc, pos % BLOCK_SIZE, data, begin))
    ensures
      var f := Fragment(crc, pos % BLOCK_SIZE, data, begin);
      var length := FragmentLength(pos % BLOCK_SIZE, data);
      var p := Scan(crc, file, pos);
      if f <= file[pos..]
      then p == Physical(FragmentType(begin, length == |data|) as nat, data[..length], pos + |f|, [])
      else p.code == EOF && p.drops == []
  {
    hide Header, Parse;
    var offset := pos % BLOCK_SIZE;
    var next := BlockEnd(pos);
    BlockEndIs(pos);
    var f, g := Fragment(crc, offset, data, begin), Fragment(crc, 0, data, begin);
    assert f == Trailer(offset) + g by {
      assert FragmentLength(offset, data) == FragmentLength(0, data);
      assert Trailer(0) == [];
    }
    GoesOnSplits(file, pos, Trailer(offset), g);
    assert next == pos + |Trailer(offset)|;
    if next <= |file| {
      assert Scan(crc, file, pos) == Scan(crc, file, next);
      assert Trailer(offset) <= file[pos..];
      ScanFragmentHere(crc, file, next, data, begin);
    } else {
      ScanShort(crc, file, pos);
    }
  }

  /** At the very end of a file there is nothing, and nothing is reported. */
  lemma ScanAtEnd(crc: Crc, file: Bytes)
    ensures Scan(crc, file, |file|).code == EOF && Scan(crc, file, |file|).drops == []
  {
  }

  /** The rest of a record, from any of its fragments on. */
  lemma {:induction false} AssembleEmitted(crc: Crc, file: Bytes, pos: nat, data: Bytes, begin: bool, scratch: Bytes)
    requires GoesOn(file, pos, Emit(crc, pos % BLOCK_SIZE, data, begin))
    requires begin ==> scratch == []
    ensures
      var e := Emit(crc, pos % BLOCK_SIZE, data, begin);
      var l := Assemble(crc, file, pos, !begin, scratch);
      if e <= file[pos..] then l == Logical(Some(scratch + data), pos + |e|, [])
      else l.record == None && l.drops == []
    decreases |data|, if pos % BLOCK_SIZE + HEADER_SIZE == BLOCK_SIZE then 1 else 0
  {
    hide Scan, Fragment, FragmentLength, FragmentEnd;
    var offset := pos % BLOCK_SIZE;
    var f := Fragment(crc, offset, data, begin);
    var length := FragmentLength(offset, data);
    if length == |data| {
      ScanFragment(crc, file, pos, data, begin);
      assert data[..length] == data;
      assert begin ==> scratch + data == data;
    } else {
      var rest := Emit(crc, FragmentEnd(offset, data), data[length..], false);
      assert Emit(crc, offset, data, begin) == f + rest;
      GoesOnSplits(file, pos, f, rest);
      ScanFragment(crc, file, pos, data, begin);
      if f <= file[pos..] {
        NextOffset(crc, pos, data, begin);
        AssembleEmitted(crc, file, pos + |f|, data[length..], false, scratch + data[..length]);
        assert begin ==> scratch + data[..length] == data[..length];
        assert pos + |f| + |rest| == pos + |f + rest|;
        assert scratch + data[..length] + data[length..] == scratch + data;
      }
    }
  }

  lemma NextOffset(crc: Crc, pos: nat, data: Bytes, begin: bool)
    requires FragmentLength(pos % BLOCK_SIZE, data) < |data|
    ensures
      var offset := pos % BLOCK_SIZE;
      var next := pos + |Fragment(crc, offset, data, begin)|;
      var length := FragmentLength(offset, data);
      && Emit(crc, FragmentEnd(offset, data), data[length..], false) ==
         Emit(crc, next % BLOCK_SIZE, data[length..], false)
      && (length > 0 || (offset + HEADER_SIZE == BLOCK_SIZE && next % BLOCK_SIZE == 0))
  {
    var offset := pos % BLOCK_SIZE;
    var length := FragmentLength(offset, data);
    FillsBlock(offset, data);
    FragmentSize(crc, offset, data, begin);
    hide Emit, Fragment, FragmentLength, FragmentEnd;
    ModAdd(pos, offset, |Fragment(crc, offset, data, begin)|);
    EmitAtBlockEnd(crc, data[length..], false);
  }

  /** A fragment that is not the last ends its block. */
  lemma FillsBlock(offset: nat, data: Bytes)
    requires offset < BLOCK_SIZE && FragmentLength(offset, data) < |data|
    ensures FragmentEnd(offset, data) == BLOCK_SIZE
    ensures FragmentLength(offset, data) > 0 || offset + HEADER_SIZE == BLOCK_SIZE
  {
  }

  // ----- The whole log -----

  /** The records from the i-th on, as they stand in a file. */
  function Suffix(crc: Crc, records: seq<Bytes>, i: nat): Bytes
    requires i <= |records|
    decreases |records| - i
  {
    if i == |records| then []
    else Appended(crc, |FileOf(crc, records[..i])|, records[i]) + Suffix(crc, records, i + 1)
  }

  lemma FileOfNext(crc: Crc, records: seq<Bytes>, i: nat)
    requires i < |records|
    ensures FileOf(crc, records[..i + 1])
         == FileOf(crc, records[..i]) + Appended(crc, |FileOf(crc, records[..i])|, records[i])
  {
    assert records[..i + 1][..i] == records[..i];
  }

  lemma {:induction false} FileOfSplits(crc: Crc, records: seq<Bytes>, i: nat)
    requires i <= |records|
    ensures FileOf(crc, records) == FileOf(crc, records[..i]) + Suffix(crc, records, i)
    decreases |records| - i
  {
    if i == |records| {
      assert records[..i] == records;
    } else {
      FileOfSplits(crc, records, i + 1);
      FileOfNext(crc, records, i);
      Assoc(FileOf(crc, records[..i]), Appended(crc, |FileOf(crc, records[..i])|, records[i]),
            Suffix(crc, records, i + 1));
    }
  }

  /** How many of the records are wholly within the first n bytes. */
  function Whole(crc: Crc, records: seq<Bytes>, n: nat, i: nat := 0): (k: nat)
    requires i <= |records|
    ensures i <= k <= |records|
    decreases |records| - i
  {
    if i < |records| && |FileOf(crc, records[..i + 1])| <= n then Whole(crc, records, n, i + 1) else i
  }

  lemma {:induction false} WholeIsWithin(crc: Crc, records: seq<Bytes>, n: nat, i: nat)
    requires i <= |records| && |FileOf(crc, records[..i])| <= n
    ensures
      var k := Whole(crc, records, n, i);
      && |FileOf(crc, records[..k])| <= n
      && (k < |records| ==> n < |FileOf(crc, records[..k + 1])|)
    decreases |records| - i
  {
    hide FileOf;
    if i < |records| && |FileOf(crc, records[..i + 1])| <= n {
      WholeIsWithin(crc, records, n, i + 1);
    }
  }

  lemma {:induction false} ReadsWrittenFrom(crc: Crc, records: seq<Bytes>, file: Bytes, i: nat)
    requires i <= |records|
    requires GoesOn(file, |FileOf(crc, records[..i])|, Suffix(crc, records, i))
    requires file[|FileOf(crc, records[..i])|..] <= Suffix(crc, records, i)
    ensures ReadFrom(crc, file, |FileOf(crc, records[..i])|)
         == (records[i..Whole(crc, records, |file|, i)], [])
    decreases |records| - i
  {
    hide Appended, FileOf, Assemble;
    var pos := |FileOf(crc, records[..i])|;
    if i == |records| {
      assert pos == |file| && records[i..i] == [];
      AssembleAtEnd(crc, file);
    } else {
      var e := Appended(crc, pos, records[i]);
      FileOfNext(crc, records, i);
      GoesOnSplits(file, pos, e, Suffix(crc, records, i + 1));
      AssembleAppended(crc, file, pos, records[i]);
      if e <= file[pos..] {
        assert file[pos + |e|..] == file[pos..][|e|..];
        ReadsWrittenFrom(crc, records, file, i + 1);
        var k := Whole(crc, records, |file|, i);
        assert records[i..k] == [records[i]] + records[i + 1..k];
        var none: seq<nat> := [];
        assert none + none == none;
      } else {
        assert file[pos..] < e && records[i..i] == [];
      }
    }
  }

  lemma AssembleAtEnd(crc: Crc, file: Bytes)
    ensures Assemble(crc, file, |file|, false, []).record == None
    ensures Assemble(crc, file, |file|, false, []).drops == []
  {
    ScanAtEnd(crc, file);
  }

  lemma AssembleAppended(crc: Crc, file: Bytes, pos: nat, record: Bytes)
    requires GoesOn(file, pos, Appended(crc, pos, record))
    ensures
      var e := Appended(crc, pos, record);
      var l := Assemble(crc, file, pos, false, []);
      if e <= file[pos..] then l == Logical(Some(record), pos + |e|, [])
      else l.record == None && l.drops == []
  {
    hide Assemble, Emit;
    AssembleEmitted(crc, file, pos, record, true, []);
    var none: Bytes := [];
    assert none + record == record;
  }

  lemma FileOfStart(crc: Crc, records: seq<Bytes>)
    ensures FileOf(crc, records[..0]) == [] && FileOf(crc, records) == Suffix(crc, records, 0)
  {
    assert FileOf(crc, records[..0]) == [];
    hide Suffix, Appended;
    FileOfSplits(crc, records, 0);
    assert [] + Suffix(crc, records, 0) == Suffix(crc, records, 0);
  }

  lemma FromStart(file: Bytes, whole: Bytes, n: nat)
    requires n <= |whole| && file == whole[..n]
    ensures GoesOn(file, 0, whole) && file[0..] <= whole
  {
    assert file[0..] == file;
  }

  /** A log that was cut off after any number of bytes gives back exactly the records that end
      within them, in order, and nothing is reported as damaged. */
  lemma TornLogReadsBack(crc: Crc, records: seq<Bytes>, n: nat)
    requires n <= |FileOf(crc, records)|
    ensures
      var k := Whole(crc, records, n);
      && |FileOf(crc, records[..k])| <= n
      && (k < |records| ==> n < |FileOf(crc, records[..k + 1])|)
      && ReadFrom(crc, FileOf(crc, records)[..n], 0) == (records[..k], [])
  {
    hide FileOf, Suffix, ReadFrom, Whole, Appended;
    FileOfStart(crc, records);
    WholeIsWithin(crc, records, n, 0);
    var file := FileOf(crc, records)[..n];
    FromStart(file, Suffix(crc, records, 0), n);
    ReadsWrittenFrom(crc, records, file, 0);
    assert records[0..Whole(crc, records, n)] == records[..Whole(crc, records, n)];
  }

  /** And a log that was not cut off gives back every record. */
  lemma LogReadsBack(crc: Crc, records: seq<Bytes>)
    ensures ReadFrom(crc, FileOf(crc, records), 0) == (records, [])
  {
    var n := |FileOf(crc, records)|;
    hide FileOf, Suffix, ReadFrom, Whole;
    TornLogReadsBack(crc, records, n);
    var k := Whole(crc, records, n);
    assert FileOf(crc, records)[..n] == FileOf(crc, records);
    assert records[..|records|] == records;
    if k < |records| {
      FileOfSplits(crc, records, k + 1);
      assert false;
    }
  }

  /** The buffer ends where the block of its first byte ends, or where the file does. */
  lemma BufferEnd(file: Bytes, end: nat, size: nat, eof: bool)
    requires size <= end <= |file|
    requires if eof then end == |file| && size <= |file| % BLOCK_SIZE else end % BLOCK_SIZE == 0 && size <= BLOCK_SIZE
    ensures eof ==> |file| < BlockEnd(end - size)
    ensures !eof && size > 0 ==> BlockEnd(end - size) == end
  {
  }

  lemma RefillEnd(size: nat, end: nat)
    requires end <= size && end % BLOCK_SIZE == 0
    ensures size - end < BLOCK_SIZE ==> size % BLOCK_SIZE == size - end
    ensures (end + BLOCK_SIZE) % BLOCK_SIZE == 0
  {
  }

  /** What the reader must do next depends on its buffer alone. */
  lemma ScanBuffered(crc: Crc, file: Bytes, end: nat, size: nat, eof: bool)
    requires size <= end <= |file|
    requires if eof then end == |file| && size <= |file| % BLOCK_SIZE else end % BLOCK_SIZE == 0 && size <= BLOCK_SIZE
    ensures size >= HEADER_SIZE ==> Scan(crc, file, end - size) == Parse(crc, file[end - size..end], end - size, eof)
    ensures size < HEADER_SIZE && eof ==> Scan(crc, file, end - size) == Physical(EOF, [], |file|, [])
    ensures size < HEADER_SIZE && !eof ==> Scan(crc, file, end - size) == Scan(crc, file, end)
  {
    hide Parse, BlockEnd;
    BufferEnd(file, end, size, eof);
  }

  lemma AssembleStep(crc: Crc, file: Bytes, pos: nat, inFragmented: bool, scratch: Bytes, drops: seq<nat>)
    requires pos <= |file|
    ensures
      var p := Scan(crc, file, pos);
      var l := Assemble(crc, file, pos, inFragmented, scratch);
      var reported := Reported(p, inFragmented, scratch);
      if p.code == EOF then l.record == None && l.next == p.next && drops + l.drops == drops + p.drops
      else if Completes(p, inFragmented) then
        && l.record == Some(if p.code == FULL as nat then p.payload else scratch + p.payload)
        && l.next == p.next && drops + l.drops == drops + p.drops + reported
      else
        var kept := Kept(p, inFragmented, scratch);
        var rest := Assemble(crc, file, p.next, kept.0, kept.1);
        l.record == rest.record && l.next == rest.next && drops + l.drops == drops + p.drops + reported + rest.drops
  {
    hide Scan, Kept, Reported;
  }

  // ----- The reader -----

  class Reader {
    const crc: Crc
    const file: Bytes
    /** How far the file was read: the position of the end of the buffer. */
    var endOfBuffer: nat
    var buffer: Bytes
    var eof: bool
    /** The sizes of the drops that were reported. */
    var drops: seq<nat>

    constructor (crc: Crc, file: Bytes)
      ensures Ok() && this.crc == crc && this.file == file && Pos() == 0 && drops == []
    {
      this.crc := crc;
      this.file := file;
      endOfBuffer := 0;
      buffer := [];
      eof := false;
      drops := [];
    }

    /** The buffer holds the end of what was read, and never bytes of two blocks. */
    ghost predicate Ok()
      reads `endOfBuffer, `buffer, `eof
    {
      && |buffer| <= endOfBuffer <= |file|
      && buffer == file[endOfBuffer - |buffer|..endOfBuffer]
      && (if eof then endOfBuffer == |file| && |buffer| <= |file| % BLOCK_SIZE
          else endOfBuffer % BLOCK_SIZE == 0 && |buffer| <= BLOCK_SIZE)
    }

    /** Where the next physical record is looked for. */
    ghost function Pos(): (p: nat)
      requires Ok()
      reads `endOfBuffer, `buffer, `eof
      ensures p <= |file|
    {
      endOfBuffer - |buffer|
    }

    /** Reads the next block, or what there is of it. */
    method Refill()
      requires Ok() && !eof
      modifies this
      ensures Ok() && Pos() == old(endOfBuffer) && drops == old(drops)
      ensures eof || endOfBuffer > old(endOfBuffer)
    {
      var n := if |file| - endOfBuffer < BLOCK_SIZE then |file| - endOfBuffer else BLOCK_SIZE;
      RefillEnd(|file|, endOfBuffer);
      buffer := file[endOfBuffer..endOfBuffer + n];
      endOfBuffer := endOfBuffer + |buffer|;
      if |buffer| < BLOCK_SIZE {
        eof := true;
      }
    }

    /** The physical record at the start of the buffer. */
    method ParseHeader() returns (code: nat, fragment: Bytes)
      requires Ok() && |buffer| >= HEADER_SIZE
      modifies this`buffer, this`drops
      ensures Ok()
      ensures var p := Parse(crc, old(buffer), old(Pos()), eof);
              code == p.code && fragment == p.payload && Pos() == p.next && drops == old(drops) + p.drops
    {
      hide DecodeFixed32;
      var length := LengthIn(buffer);
      if HEADER_SIZE + length > |buffer| {
        var dropSize := |buffer|;
        buffer := [];
        if !eof {
          drops := drops + [dropSize];
          return BAD_RECORD, [];
        }
        return EOF, [];
      }
      if buffer[6] == 0 && length == 0 {
        buffer := [];
        return BAD_RECORD, [];
      }
      var expected := DecodeFixed32(buffer[..4]);
      var actual := crc(buffer[6], buffer[HEADER_SIZE..HEADER_SIZE + length]) % TWO32;
      if actual != expected {
        var dropSize := |buffer|;
        buffer := [];
        drops := drops + [dropSize];
        return BAD_RECORD, [];
      }
      code, fragment := buffer[6] as nat, buffer[HEADER_SIZE..HEADER_SIZE + length];
      buffer := buffer[HEADER_SIZE + length..];
    }

    /** One physical record, exactly as `Scan` finds it in the file, whatever bytes the file has. */
    method ReadPhysicalRecord() returns (code: nat, fragment: Bytes)
      requires Ok()
      modifies this
      ensures Ok()
      ensures var p := Scan(crc, file, old(Pos()));
              code == p.code && fragment == p.payload && Pos() == p.next && drops == old(drops) + p.drops
    {
      hide Scan, Parse;
      while |buffer| < HEADER_SIZE
        invariant Ok() && drops == old(drops)
        invariant Scan(crc, file, Pos()) == Scan(crc, file, old(Pos()))
        decreases |file| - endOfBuffer, if eof then 0 else 1
      {
        ScanBuffered(crc, file, endOfBuffer, |buffer|, eof);
        if eof {
          buffer := [];
          return EOF, [];
        }
        Refill();
      }
      ScanBuffered(crc, file, endOfBuffer, |buffer|, eof);
      code, fragment := ParseHeader();
    }

    /** One record, put together from its fragments. */
    method ReadRecord() returns (record: Option<Bytes>)
      requires Ok()
      modifies this
      ensures Ok()
      ensures var l := Assemble(crc, file, old(Pos()), false, []);
              record == l.record && Pos() == l.next && drops == old(drops) + l.drops
    {
      var scratch: Bytes := [];
      var inFragmented := false;
      ghost var all := Assemble(crc, file, Pos(), false, []);
      ghost var total := drops + all.drops;
      while true
        invariant Ok() && (!inFragmented ==> scratch == [])
        invariant var l := Assemble(crc, file, Pos(), inFragmented, scratch);
                  all.record == l.record && all.next == l.next && total == drops + l.drops
        decreases |file| - Pos()
      {
        hide Scan, Assemble, Kept, Reported, Ok, Pos;
        ghost var p := Scan(crc, file, Pos());
        AssembleStep(crc, file, Pos(), inFragmented, scratch, drops);
        var code, fragment := ReadPhysicalRecord();
        if code == EOF {
          return None;
        } else if code == FULL as nat {
          if inFragmented && scratch != [] {
            drops := drops + [|scratch|];
          }
          return Some(fragment);
        } else if code == LAST as nat && inFragmented {
          return Some(scratch + fragment);
        }
        assert p == Physical(code, fragment, p.next, p.drops);
        inFragmented, scratch := Keep(code, fragment, inFragmented, scratch);
      }
    }

    /** What to do with a physical record that does not complete the logical one. */
    method Keep(code: nat, fragment: Bytes, inFragmented0: bool, scratch0: Bytes)
      returns (inFragmented: bool, scratch: Bytes)
      requires (!inFragmented0 ==> scratch0 == [])
      requires code != EOF && code != FULL as nat && (code == LAST as nat ==> !inFragmented0)
      modifies this`drops
      ensures forall next, reported ::
        var p := Physical(code, fragment, next, reported);
        && (inFragmented, scratch) == Kept(p, inFragmented0, scratch0)
        && drops == old(drops) + Reported(p, inFragmented0, scratch0)
    {
      inFragmented, scratch := inFragmented0, scratch0;
      if code == FIRST as nat {
        if inFragmented && scratch != [] {
          drops := drops + [|scratch|];
        }
        scratch := fragment;
        inFragmented := true;
      } else if code == MIDDLE as nat {
        if !inFragmented {
          drops := drops + [|fragment|];
        } else {
          scratch := scratch + fragment;
        }
      } else if code == LAST as nat {
        drops := drops + [|fragment|];
      } else if code == BAD_RECORD {
        if inFragmented {
          drops := drops + [|scratch|];
          inFragmented := false;
          scratch := [];
        }
      } else {
        drops := drops + [|fragment| + if inFragmented then |scratch| else 0];
        inFragmented := false;
        scratch := [];
      }
    }
  }

  /** Reading the log as recovery does, record after record until there is none. */
  method ReadLog(crc: Crc, file: Bytes) returns (records: seq<Bytes>, drops: seq<nat>)
    ensures (records, drops) == ReadFrom(crc, file, 0)
  {
    hide Assemble;
    var reader := new Reader(crc, file);
    records := [];
    ghost var pos := 0;
    ghost var reported: seq<nat> := [];
    EmptyFirst(ReadFrom(crc, file, 0));
    var record := reader.ReadRecord();
    while record.Some?
      invariant reader.Ok() && fresh(reader) && reader.crc == crc && reader.file == file && pos <= |file|
      invariant var l := Assemble(crc, file, pos, false, []);
                record == l.record && reader.Pos() == l.next && reader.drops == reported + l.drops
      invariant var rest := ReadFrom(crc, file, pos);
                ReadFrom(crc, file, 0) == (records + rest.0, reported + rest.1)
      decreases |file| - pos
    {
      ReadFromStep(crc, file, pos, records, reported);
      records := records + [record.value];
      pos := reader.Pos();
      reported := reader.drops;
      record := reader.ReadRecord();
    }
    assert ReadFrom(crc, file, pos).0 == [];
    assert records + [] == records;
    drops := reader.drops;
  }

  lemma EmptyFirst(r: (seq<Bytes>, seq<nat>))
    ensures r == ([] + r.0, [] + r.1)
  {
    assert [] + r.0 == r.0 && [] + r.1 == r.1;
  }

  lemma ReadFromStep(crc: Crc, file: Bytes, pos: nat, records: seq<Bytes>, reported: seq<nat>)
    requires pos <= |file| && Assemble(crc, file, pos, false, []).record.Some?
    ensures
      var l := Assemble(crc, file, pos, false, []);
      var all, rest := ReadFrom(crc, file, pos), ReadFrom(crc, file, l.next);
      && records + all.0 == records + [l.record.value] + rest.0
      && reported + all.1 == reported + l.drops + rest.1
  {
    hide Assemble;
  }
}
