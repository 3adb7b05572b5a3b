/** The write-ahead log as it is written: records are cut into fragments that never cross a block
    boundary, each behind a header with its checksum, length and type.  What a file holds depends
    on the records alone, and a writer that reopens it goes on in the same way. */
module LogFormat {
  import opened Keys
  import opened Coding

  const BLOCK_SIZE: nat := 32768
  const HEADER_SIZE: nat := 7

  const FULL: Byte := 1
  const FIRST: Byte := 2
  const MIDDLE: Byte := 3
  const LAST: Byte := 4

  type Crc = (Byte, Bytes) -> nat

  function Header(crc: Crc, t: Byte, payload: Bytes): (h: Bytes)
    requires |payload| <= 0xffff
    ensures |h| == HEADER_SIZE
  {
    EncodeFixed32(crc(t, payload) % TWO32) + [(|payload| % 256) as Byte, (|payload| / 256) as Byte, t]
  }

  /** The type of a fragment that begins and ends a record, or not. */
  function FragmentType(begin: bool, end: bool): Byte {
    if begin && end then FULL else if begin then FIRST else if end then LAST else MIDDLE
  }

  /** Zero bytes that fill a block in which no header fits any more. */
  function Trailer(offset: nat): (t: Bytes)
    requires offset <= BLOCK_SIZE
    ensures |t| < HEADER_SIZE
    ensures t != [] ==> offset + |t| == BLOCK_SIZE
  {
    if BLOCK_SIZE - offset < HEADER_SIZE then seq(BLOCK_SIZE - offset, _ => 0) else []
  }

  function Start(offset: nat): (s: nat)
    requires offset <= BLOCK_SIZE
    ensures s + HEADER_SIZE <= BLOCK_SIZE
  {
    if BLOCK_SIZE - offset < HEADER_SIZE then 0 else offset
  }

  /** How much of the data fits into the fragment written at `offset`. */
  function FragmentLength(offset: nat, data: Bytes): (n: nat)
    requires offset <= BLOCK_SIZE
    ensures n <= |data|
  {
    var avail := BLOCK_SIZE - Start(offset) - HEADER_SIZE;
    if |data| < avail then |data| else avail
  }

  function Fragment(crc: Crc, offset: nat, data: Bytes, begin: bool): Bytes
    requires offset <= BLOCK_SIZE
  {
    var payload := data[..FragmentLength(offset, data)];
    Trailer(offset) + Header(crc, FragmentType(begin, payload == data), payload) + payload
  }

  function FragmentEnd(offset: nat, data: Bytes): (e: nat)
    requires offset <= BLOCK_SIZE
    ensures e <= BLOCK_SIZE
  {
    Start(offset) + HEADER_SIZE + FragmentLength(offset, data)
  }

  /** The bytes that writing (the rest of) a record appends. */
  function Emit(crc: Crc, offset: nat, data: Bytes, begin: bool): Bytes
    requires offset <= BLOCK_SIZE
    decreases |data|, if offset + HEADER_SIZE <= BLOCK_SIZE then 1 else 0
  {
    var n := FragmentLength(offset, data);
    if n == |data| then Fragment(crc, offset, data, begin)
    else Fragment(crc, offset, data, begin) + Emit(crc, FragmentEnd(offset, data), data[n..], false)
  }

  /** The offset in its block at which a writer stands after that. */
  function OffsetAfter(offset: nat, data: Bytes): (e: nat)
    requires offset <= BLOCK_SIZE
    ensures e <= BLOCK_SIZE
    decreases |data|, if offset + HEADER_SIZE <= BLOCK_SIZE then 1 else 0
  {
    var n := FragmentLength(offset, data);
    if n == |data| then FragmentEnd(offset, data)
    else OffsetAfter(FragmentEnd(offset, data), data[n..])
  }

  lemma FragmentSize(crc: Crc, offset: nat, data: Bytes, begin: bool)
    requires offset <= BLOCK_SIZE
    ensures |Fragment(crc, offset, data, begin)| == |Trailer(offset)| + HEADER_SIZE + FragmentLength(offset, data)
    ensures (offset + |Fragment(crc, offset, data, begin)|) % BLOCK_SIZE == FragmentEnd(offset, data) % BLOCK_SIZE
  {
    if BLOCK_SIZE - offset < HEADER_SIZE {
      assert offset + |Fragment(crc, offset, data, begin)| == BLOCK_SIZE + FragmentEnd(offset, data);
    }
  }

  /** A block offset at the end of a block works like one at the start of the next. */
  lemma EmitAtBlockEnd(crc: Crc, data: Bytes, begin: bool)
    ensures Emit(crc, BLOCK_SIZE, data, begin) == Emit(crc, 0, data, begin)
    ensures OffsetAfter(BLOCK_SIZE, data) == OffsetAfter(0, data)
  {
    assert Trailer(BLOCK_SIZE) == Trailer(0);
  }

  lemma {:induction false} OffsetTracksLength(crc: Crc, offset: nat, data: Bytes, begin: bool)
    requires offset <= BLOCK_SIZE
    ensures (offset + |Emit(crc, offset, data, begin)|) % BLOCK_SIZE == OffsetAfter(offset, data) % BLOCK_SIZE
    decreases |data|, if offset + HEADER_SIZE <= BLOCK_SIZE then 1 else 0
  {
    FragmentSize(crc, offset, data, begin);
    var n := FragmentLength(offset, data);
    if n != |data| {
      var e := FragmentEnd(offset, data);
      OffsetTracksLength(crc, e, data[n..], false);
      ModAdd(offset + |Fragment(crc, offset, data, begin)|, e, |Emit(crc, e, data[n..], false)|);
    }
  }

  lemma ModAdd(a: nat, b: nat, c: nat)
    requires a % BLOCK_SIZE == b % BLOCK_SIZE
    ensures (a + c) % BLOCK_SIZE == (b + c) % BLOCK_SIZE
  {
    var p, q := a / BLOCK_SIZE, b / BLOCK_SIZE;
    assert a + c == (b + c) + BLOCK_SIZE * (p - q);
    ModShift(b + c, p - q);
  }

  lemma ModShift(x: int, k: int)
    ensures (x + BLOCK_SIZE * k) % BLOCK_SIZE == x % BLOCK_SIZE
  {
  }

  /** A fragment is what filling up the block, if it must be, and writing a header and the payload add. */
  lemma FragmentIs(crc: Crc, offset: nat, data: Bytes, begin: bool)
    requires offset <= BLOCK_SIZE
    ensures
      var n := FragmentLength(offset, data);
      var leftover := BLOCK_SIZE - offset;
      forall dest: Bytes ::
        (if 0 < leftover < HEADER_SIZE then dest + seq(leftover, _ => 0) else dest)
        + Header(crc, FragmentType(begin, n == |data|), data[..n]) + data[..n]
        == dest + Fragment(crc, offset, data, begin)
  {
    var n := FragmentLength(offset, data);
    assert (data[..n] == data) == (n == |data|) by {
      if n == |data| {
        assert data[..n] == data;
      }
    }
  }

  lemma EmitSplits(crc: Crc, offset: nat, data: Bytes, begin: bool)
    requires offset <= BLOCK_SIZE
    ensures
      var n := FragmentLength(offset, data);
      forall written: Bytes ::
        written + Emit(crc, offset, data, begin)
        == written + Fragment(crc, offset, data, begin)
           + (if n == |data| then [] else Emit(crc, FragmentEnd(offset, data), data[n..], false))
  {
    hide Fragment, FragmentLength, FragmentEnd;
  }

  /** The bytes that appending a record to a file of the given length adds. */
  function Appended(crc: Crc, length: nat, record: Bytes): Bytes {
    Emit(crc, length % BLOCK_SIZE, record, true)
  }

  /** The file that holds a list of records. */
  function FileOf(crc: Crc, records: seq<Bytes>): Bytes {
    if records == [] then []
    else
      var before := FileOf(crc, records[..|records| - 1]);
      before + Appended(crc, |before|, records[|records| - 1])
  }

  // ----- The writer -----

  class Writer {
    const crc: Crc
    var dest: Bytes
    var blockOffset: nat

    /** A writer for a file that exists, of any length. */
    constructor (crc: Crc, dest: Bytes)
      ensures Ok() && this.crc == crc && this.dest == dest
    {
      this.crc := crc;
      this.dest := dest;
      blockOffset := |dest| % BLOCK_SIZE;
    }

    ghost predicate Ok()
      reads this
    {
      blockOffset <= BLOCK_SIZE && blockOffset % BLOCK_SIZE == |dest| % BLOCK_SIZE
    }

    method EmitPhysicalRecord(t: Byte, payload: Bytes)
      requires blockOffset + HEADER_SIZE + |payload| <= BLOCK_SIZE
      modifies this
      ensures dest == old(dest) + Header(crc, t, payload) + payload
      ensures blockOffset == old(blockOffset) + HEADER_SIZE + |payload|
    {
      var length := [(|payload| % 256) as Byte, (|payload| / 256) as Byte];
      var buf := EncodeFixed32(crc(t, payload) % TWO32) + length + [t];
      dest := dest + buf;
      dest := dest + payload;
      blockOffset := blockOffset + HEADER_SIZE + |payload|;
    }

    /** However the file was opened and wherever its length stands in a block, the bytes added
        depend on that length and the record alone. */
    method AddRecord(record: Bytes)
      requires Ok()
      modifies this
      ensures Ok()
      ensures dest == old(dest) + Appended(crc, |old(dest)|, record)
    {
      hide Emit, Fragment, Header, Trailer, Appended;
      ghost var first := blockOffset;
      ghost var written: Bytes := [];
      var left := record;
      var begin := true;
      var more := true;
      while more
        invariant blockOffset <= BLOCK_SIZE && dest == old(dest) + written
        invariant more ==> written + Emit(crc, blockOffset, left, begin) == Emit(crc, first, record, true)
        invariant more ==> OffsetAfter(first, record) == OffsetAfter(blockOffset, left)
        invariant !more ==> written == Emit(crc, first, record, true) && OffsetAfter(first, record) == blockOffset
        decreases if more then |left| + 1 else 0, if blockOffset + HEADER_SIZE <= BLOCK_SIZE then 1 else 0
      {
        ghost var offset0 := blockOffset;
        ghost var dest0 := dest;
        var leftover := BLOCK_SIZE - blockOffset;
        FragmentIs(crc, blockOffset, left, begin);
        if leftover < HEADER_SIZE {
          if leftover > 0 {
            dest := dest + seq(leftover, _ => 0);
          }
          blockOffset := 0;
        }
        var avail := BLOCK_SIZE - blockOffset - HEADER_SIZE;
        var fragmentLength := if |left| < avail then |left| else avail;
        var end := |left| == fragmentLength;
        var t;
        if begin && end {
          t := FULL;
        } else if begin {
          t := FIRST;
        } else if end {
          t := LAST;
        } else {
          t := MIDDLE;
        }
        EmitPhysicalRecord(t, left[..fragmentLength]);
        EmitSplits(crc, offset0, left, begin);
        assert dest == dest0 + Fragment(crc, offset0, left, begin);
        assert dest == old(dest) + (written + Fragment(crc, offset0, left, begin));
        written := written + Fragment(crc, offset0, left, begin);
        left := left[fragmentLength..];
        begin := false;
        more := |left| > 0;
      }
      OffsetTracksLength(crc, first, record, true);
      SameOffset(crc, first, |old(dest)|, record);
      ModAdd(first, |old(dest)|, |written|);
    }
  }

  lemma SameOffset(crc: Crc, offset: nat, length: nat, record: Bytes)
    requires offset <= BLOCK_SIZE && offset % BLOCK_SIZE == length % BLOCK_SIZE
    ensures Emit(crc, offset, record, true) == Appended(crc, length, record)
  {
    if offset == BLOCK_SIZE {
      EmitAtBlockEnd(crc, record, true);
    } else {
      assert offset == length % BLOCK_SIZE;
    }
  }
}
