/** The bytes of a block: entries whose keys share prefixes with their predecessors, and restart
    points at which a key is written out in full. */
module BlockFormat {
  import opened Keys
  import opened Coding

  /** Any strict order on byte strings. */
  type Order = (Bytes, Bytes) -> bool

  ghost predicate IsOrder(less: Order) {
    && (forall a :: !less(a, a))
    && (forall a, b, c {:trigger less(a, b), less(b, c)} :: less(a, b) && less(b, c) ==> less(a, c))
  }

  function EntryHeader(shared: nat, unshared: nat, valueLength: nat): (h: Bytes)
    ensures |h| >= 3
  {
    EncodeVarint(shared) + EncodeVarint(unshared) + EncodeVarint(valueLength)
  }

  function EntryBytes(shared: nat, key: Bytes, value: Bytes): (b: Bytes)
    requires shared <= |key|
    ensures |b| >= 3 + |key| - shared + |value|
  {
    EntryHeader(shared, |key| - shared, |value|) + key[shared..] + value
  }

  datatype Decoded = Decoded(shared: nat, unshared: nat, valueLength: nat, length: nat)

  /** The three numbers at the start of an entry, read one by one. */
  function ReadHeader(b: Bytes): (r: Option<Decoded>)
    ensures r.Some? ==> r.value.length <= |b|
  {
    var shared := GetVarint32(b);
    if shared.None? then None
    else
      var n := shared.value.length;
      var unshared := GetVarint32(b[n..]);
      if unshared.None? then None
      else
        var m := n + unshared.value.length;
        var valueLength := GetVarint32(b[m..]);
        if valueLength.None? then None
        else
          Some(Decoded(shared.value.value, unshared.value.value, valueLength.value.value, m + valueLength.value.length))
  }

  /** Nothing if the bytes that the numbers announce are not there. */
  function Checked(r: Option<Decoded>, available: nat): Option<Decoded>
    requires r.Some? ==> r.value.length <= available
  {
    if r.None? || (available - r.value.length) % TWO32 < (r.value.unshared + r.value.valueLength) % TWO32 then None
    else r
  }

  /** The three numbers at the start of an entry, with a short cut when each is in one byte. */
  function DecodeEntry(b: Bytes): (r: Option<Decoded>)
    ensures r.Some? ==> r.value.length <= |b|
  {
    if |b| < 3 then None
    else if b[0] < 128 && b[1] < 128 && b[2] < 128 then
      Checked(Some(Decoded(b[0] as nat, b[1] as nat, b[2] as nat, 3)), |b|)
    else Checked(ReadHeader(b), |b|)
  }

  /** The short cut changes nothing. */
  lemma ShortCutAgrees(b: Bytes)
    ensures DecodeEntry(b) == if |b| < 3 then None else Checked(ReadHeader(b), |b|)
  {
    if |b| >= 3 && b[0] < 128 && b[1] < 128 && b[2] < 128 {
      assert b[1..][0] == b[1] && b[2..][0] == b[2];
    }
  }

  lemma ReadHeaderOf(shared: nat, unshared: nat, valueLength: nat, rest: Bytes)
    requires shared < TWO32 && unshared < TWO32 && valueLength < TWO32
    ensures ReadHeader(EntryHeader(shared, unshared, valueLength) + rest)
         == Some(Decoded(shared, unshared, valueLength, |EntryHeader(shared, unshared, valueLength)|))
  {
    hide EncodeVarint, GetVarint32;
    var s, u, v := EncodeVarint(shared), EncodeVarint(unshared), EncodeVarint(valueLength);
    var b := EntryHeader(shared, unshared, valueLength) + rest;
    Varint32RoundTrip(shared, u + v + rest);
    Varint32RoundTrip(unshared, v + rest);
    Varint32RoundTrip(valueLength, rest);
    assert b == s + (u + v + rest);
    assert b[|s|..] == u + (v + rest);
    assert b[|s| + |u|..] == v + rest;
    assert u + v + rest == u + (v + rest);
  }

  /** An entry that was written is read back, whichever way it is read. */
  lemma DecodeEntryOf(shared: nat, key: Bytes, value: Bytes, rest: Bytes)
    requires shared <= |key|
    requires |EntryBytes(shared, key, value) + rest| < TWO32 && shared < TWO32
    ensures DecodeEntry(EntryBytes(shared, key, value) + rest)
         == Some(Decoded(shared, |key| - shared, |value|, |EntryHeader(shared, |key| - shared, |value|)|))
  {
    hide EntryHeader, ReadHeader;
    var h := EntryHeader(shared, |key| - shared, |value|);
    var b := EntryBytes(shared, key, value) + rest;
    assert b == h + (key[shared..] + value + rest);
    ReadHeaderOf(shared, |key| - shared, |value|, key[shared..] + value + rest);
    ShortCutAgrees(b);
  }
}
