/** Little-endian fixed-width integers, and base-128 varints. */
module Coding {
  import opened Keys

  const TWO32: nat := 0x1_0000_0000

  function EncodeFixed32(v: nat): (b: Bytes)
    ensures |b| == 4
  {
    [(v % 256) as Byte, (v / 256 % 256) as Byte, (v / 65536 % 256) as Byte, (v / 16777216 % 256) as Byte]
  }

  function DecodeFixed32(b: Bytes): nat
    requires |b| == 4
  {
    b[0] as nat + 256 * (b[1] as nat) + 65536 * (b[2] as nat) + 16777216 * (b[3] as nat)
  }

  lemma Fixed32RoundTrip(v: nat)
    requires v < TWO32
    ensures DecodeFixed32(EncodeFixed32(v)) == v
  {
    var a, b, c := v / 256, v / 65536, v / 16777216;
    assert v == 256 * a + v % 256;
    assert a == 256 * b + a % 256 by {
      assert b == a / 256;
    }
    assert b == 256 * c + b % 256 by {
      assert c == b / 256;
    }
    assert c < 256;
  }

  function EncodeFixed64(v: nat): (b: Bytes)
    ensures |b| == 8
  {
    EncodeFixed32(v % TWO32) + EncodeFixed32(v / TWO32 % TWO32)
  }

  function DecodeFixed64(b: Bytes): nat
    requires |b| == 8
  {
    DecodeFixed32(b[..4]) + TWO32 * DecodeFixed32(b[4..])
  }

  lemma Fixed64RoundTrip(v: nat)
    requires v < TWO32 * TWO32
    ensures DecodeFixed64(EncodeFixed64(v)) == v
  {
    hide EncodeFixed32, DecodeFixed32;
    Fixed32RoundTrip(v % TWO32);
    Fixed32RoundTrip(v / TWO32);
    var b := EncodeFixed64(v);
    assert b[..4] == EncodeFixed32(v % TWO32) && b[4..] == EncodeFixed32(v / TWO32);
  }

  /** The number that bytes stand for, the lowest first. */
  function LittleEndian(b: Bytes): nat {
    if b == [] then 0 else b[0] as nat + 256 * LittleEndian(b[1..])
  }

  lemma LittleEndianNext(b: Bytes, i: nat)
    requires i < |b|
    ensures LittleEndian(b[i..]) == b[i] as nat + 256 * LittleEndian(b[i + 1..])
  {
    assert b[i..][1..] == b[i + 1..];
  }

  lemma FirstFour(b: Bytes)
    requires |b| >= 4
    ensures LittleEndian(b) == DecodeFixed32(b[..4]) + TWO32 * LittleEndian(b[4..])
  {
    assert b[0..] == b;
    LittleEndianNext(b, 0);
    LittleEndianNext(b, 1);
    LittleEndianNext(b, 2);
    LittleEndianNext(b, 3);
    hide LittleEndian;
    assert b[..4][0] == b[0] && b[..4][1] == b[1] && b[..4][2] == b[2] && b[..4][3] == b[3];
  }

  /** Integers of fixed width stand in little-endian order. */
  lemma Fixed32Bytes(v: nat)
    requires v < TWO32
    ensures LittleEndian(EncodeFixed32(v)) == v
  {
    hide EncodeFixed32, DecodeFixed32;
    var b := EncodeFixed32(v);
    Fixed32RoundTrip(v);
    FirstFour(b);
    assert b[..4] == b && b[4..] == [];
  }

  lemma Fixed64Bytes(v: nat)
    requires v < TWO32 * TWO32
    ensures LittleEndian(EncodeFixed64(v)) == v
  {
    hide EncodeFixed32, DecodeFixed32;
    var b := EncodeFixed64(v);
    Fixed64RoundTrip(v);
    FirstFour(b);
    FirstFour(b[4..]);
    assert b[4..][..4] == b[4..] && b[4..][4..] == [];
  }

  // ----- Varints -----

  const MAX_VARINT32: nat := 5
  const MAX_VARINT64: nat := 10

  /** Seven bits to a byte, the lowest first; the top bit says that more follow. */
  function EncodeVarint(v: nat): (b: Bytes)
    ensures b != []
  {
    if v < 128 then [v as Byte] else [(v % 128 + 128) as Byte] + EncodeVarint(v / 128)
  }

  datatype Read = Read(value: nat, length: nat)

  /** At most `n` bytes are looked at. */
  function DecodeVarint(b: Bytes, n: nat): (r: Option<Read>)
    ensures r.Some? ==> 1 <= r.value.length <= |b| && r.value.length <= n
    decreases n
  {
    if n == 0 || b == [] then None
    else if b[0] < 128 then Some(Read(b[0] as nat, 1))
    else
      var rest := DecodeVarint(b[1..], n - 1);
      if rest.None? then None
      else Some(Read(b[0] as nat - 128 + 128 * rest.value.value, 1 + rest.value.length))
  }

  /** The result is kept in 32 bits. */
  function GetVarint32(b: Bytes): (r: Option<Read>)
    ensures r.Some? ==> r.value.value < TWO32 && 1 <= r.value.length <= |b|
  {
    var r := DecodeVarint(b, MAX_VARINT32);
    if r.None? then None else Some(Read(r.value.value % TWO32, r.value.length))
  }

  function Power128(n: nat): (p: nat)
    ensures p >= 1
  {
    if n == 0 then 1 else 128 * Power128(n - 1)
  }

  lemma {:induction false} VarintRoundTrip(v: nat, n: nat, rest: Bytes)
    requires n > 0 && v < Power128(n)
    ensures DecodeVarint(EncodeVarint(v) + rest, n) == Some(Read(v, |EncodeVarint(v)|))
    ensures |EncodeVarint(v)| <= n
    decreases n
  {
    var b := EncodeVarint(v) + rest;
    if v >= 128 {
      assert v / 128 < Power128(n - 1);
      VarintRoundTrip(v / 128, n - 1, rest);
      assert b[1..] == EncodeVarint(v / 128) + rest;
      assert v == v % 128 + 128 * (v / 128);
    }
  }

  lemma Varint32RoundTrip(v: nat, rest: Bytes)
    requires v < TWO32
    ensures GetVarint32(EncodeVarint(v) + rest) == Some(Read(v, |EncodeVarint(v)|))
  {
    assert Power128(MAX_VARINT32) == 128 * 128 * 128 * 128 * 128 by {
      assert Power128(1) == 128 && Power128(2) == 128 * 128 && Power128(3) == 128 * 128 * 128;
      assert Power128(4) == 128 * 128 * 128 * 128;
    }
    VarintRoundTrip(v, MAX_VARINT32, rest);
  }

  /** The number that seven-bit digits stand for, the lowest first. */
  function DigitSum(b: Bytes): nat {
    if b == [] then 0 else b[0] as nat % 128 + 128 * DigitSum(b[1..])
  }

  /** A varint stands for its number, says on every byte but the last that more follow, and has no
      more bytes than it needs. */
  lemma {:induction false} VarintDigits(v: nat)
    ensures
      var b := EncodeVarint(v);
      && DigitSum(b) == v
      && (forall i :: 0 <= i < |b| - 1 ==> b[i] >= 128)
      && b[|b| - 1] < 128 && (|b| > 1 ==> b[|b| - 1] != 0)
  {
    var b := EncodeVarint(v);
    if v >= 128 {
      VarintDigits(v / 128);
      assert b[1..] == EncodeVarint(v / 128);
    } else {
      assert b[1..] == [];
    }
  }

  /** On any bytes: the first byte that says that no more follow ends the number, if it comes in time. */
  lemma {:induction false} VarintEnds(b: Bytes, n: nat, i: nat)
    requires i < n && i < |b| && b[i] < 128 && forall j :: 0 <= j < i ==> b[j] >= 128
    ensures DecodeVarint(b, n) == Some(Read(DigitSum(b[..i + 1]), i + 1))
    decreases i
  {
    if i > 0 {
      VarintEnds(b[1..], n - 1, i - 1);
      assert b[..i + 1][1..] == b[1..][..i];
    } else {
      assert b[..1][1..] == [];
    }
  }

  /** And without one there is no number. */
  lemma {:induction false} VarintNeverEnds(b: Bytes, n: nat)
    requires forall j :: 0 <= j < n && j < |b| ==> b[j] >= 128
    ensures DecodeVarint(b, n) == None
    decreases n
  {
    if n > 0 && b != [] {
      VarintNeverEnds(b[1..], n - 1);
    }
  }

  /** A number of 32 bits has no more than five bytes, and one of 64 bits no more than ten. */
  lemma VarintWidths(b: Bytes, i: nat)
    requires i < |b| && b[i] < 128 && forall j :: 0 <= j < i ==> b[j] >= 128
    ensures DecodeVarint(b, MAX_VARINT32) == if i < 5 then Some(Read(DigitSum(b[..i + 1]), i + 1)) else None
    ensures DecodeVarint(b, MAX_VARINT64) == if i < 10 then Some(Read(DigitSum(b[..i + 1]), i + 1)) else None
  {
    hide DecodeVarint, DigitSum;
    if i < MAX_VARINT32 {
      VarintEnds(b, MAX_VARINT32, i);
    } else {
      VarintNeverEnds(b, MAX_VARINT32);
    }
    if i < MAX_VARINT64 {
      VarintEnds(b, MAX_VARINT64, i);
    } else {
      VarintNeverEnds(b, MAX_VARINT64);
    }
  }

  const TWO64: nat := 0x1_0000_0000_0000_0000

  /** The result is kept in 64 bits. */
  function GetVarint64(b: Bytes): (r: Option<Read>)
    ensures r.Some? ==> r.value.value < TWO64 && 1 <= r.value.length <= |b|
  {
    var r := DecodeVarint(b, MAX_VARINT64);
    if r.None? then None else Some(Read(r.value.value % TWO64, r.value.length))
  }

  lemma Varint64RoundTrip(v: nat, rest: Bytes)
    requires v < TWO64
    ensures GetVarint64(EncodeVarint(v) + rest) == Some(Read(v, |EncodeVarint(v)|))
  {
    assert Power128(MAX_VARINT64) >= TWO64 by {
      assert Power128(2) == 128 * 128 && Power128(4) == 0x1000_0000;
      assert Power128(6) == 0x400_0000_0000 && Power128(8) == 0x100_0000_0000_0000;
    }
    VarintRoundTrip(v, MAX_VARINT64, rest);
  }

  // ----- Byte strings with their lengths -----

  function LengthPrefixed(s: Bytes): Bytes {
    EncodeVarint(|s|) + s
  }

  datatype Piece = Piece(data: Bytes, rest: Bytes)

  /** A length, as many bytes, and what is left after them. */
  function GetLengthPrefixed(b: Bytes): (r: Option<Piece>)
    ensures r.Some? ==> |r.value.rest| < |b|
  {
    var n := GetVarint32(b);
    if n.None? then None
    else
      var left := b[n.value.length..];
      if |left| < n.value.value then None
      else Some(Piece(left[..n.value.value], left[n.value.value..]))
  }

  lemma LengthPrefixedRoundTrip(s: Bytes, rest: Bytes)
    requires |s| < TWO32
    ensures GetLengthPrefixed(LengthPrefixed(s) + rest) == Some(Piece(s, rest))
  {
    hide EncodeVarint, GetVarint32;
    var b := LengthPrefixed(s) + rest;
    assert b == EncodeVarint(|s|) + (s + rest);
    Varint32RoundTrip(|s|, s + rest);
  }

  lemma VarintCut(v: nat, n: nat, i: nat)
    requires i < |EncodeVarint(v)|
    ensures DecodeVarint(EncodeVarint(v)[..i], n) == None
  {
    VarintDigits(v);
    VarintNeverEnds(EncodeVarint(v)[..i], n);
  }

  /** Part of a byte string with its length is not taken for one. */
  lemma PrefixedCut(s: Bytes, i: nat)
    requires |s| < TWO32 && i < |LengthPrefixed(s)|
    ensures GetLengthPrefixed(LengthPrefixed(s)[..i]) == None
  {
    hide EncodeVarint;
    var n := EncodeVarint(|s|);
    var b := LengthPrefixed(s)[..i];
    if i < |n| {
      assert b == n[..i];
      VarintCut(|s|, MAX_VARINT32, i);
    } else {
      assert b == n + s[..i - |n|];
      Varint32RoundTrip(|s|, s[..i - |n|]);
    }
  }

  // ----- Runs of fixed-width integers -----

  function Fixed32s(values: seq<nat>): (b: Bytes)
    ensures |b| == 4 * |values|
  {
    if values == [] then [] else Fixed32s(values[..|values| - 1]) + EncodeFixed32(values[|values| - 1])
  }

  /** The index-th integer of those that begin at `from`. */
  function WordAt(b: Bytes, from: nat, index: nat): nat
    requires from + 4 * index + 4 <= |b|
  {
    DecodeFixed32(b[from + 4 * index..from + 4 * index + 4])
  }

  lemma {:induction false} Fixed32sAt(values: seq<nat>, i: nat)
    requires i < |values|
    ensures Fixed32s(values)[4 * i..4 * i + 4] == EncodeFixed32(values[i])
  {
    hide EncodeFixed32;
    var n := |values| - 1;
    var before := Fixed32s(values[..n]);
    if i < n {
      Fixed32sAt(values[..n], i);
      assert Fixed32s(values)[4 * i..4 * i + 4] == before[4 * i..4 * i + 4];
    }
  }

  lemma WordReads(block: Bytes, data: Bytes, b: Bytes, rest: Bytes, index: nat, v: nat)
    requires block == data + b + rest && 4 * index + 4 <= |b| && v < TWO32
    requires b[4 * index..4 * index + 4] == EncodeFixed32(v)
    ensures WordAt(block, |data|, index) == v
  {
    hide EncodeFixed32, DecodeFixed32, WordAt;
    Fixed32RoundTrip(v);
    MiddleSlice(data, b, rest, 4 * index, 4 * index + 4);
    WordIs(block, |data|, index, EncodeFixed32(v));
  }

  lemma WordIs(block: Bytes, limit: nat, index: nat, four: Bytes)
    requires limit + 4 * index + 4 <= |block| && |four| == 4
    requires block[limit + 4 * index..limit + (4 * index + 4)] == four
    ensures WordAt(block, limit, index) == DecodeFixed32(four)
  {
    hide DecodeFixed32;
  }

  lemma MiddleSlice(a: Bytes, b: Bytes, c: Bytes, i: nat, j: nat)
    requires i <= j <= |b|
    ensures (a + b + c)[|a| + i..|a| + j] == b[i..j]
  {
  }

  lemma SubSlice(b: Bytes, at: nat, end: nat, i: nat, j: nat)
    requires at <= end <= |b| && i <= j <= end - at
    ensures b[at..end][i..j] == b[at + i..at + j]
  {
    var l, r := b[at..end][i..j], b[at + i..at + j];
    forall k | 0 <= k < |l| ensures l[k] == r[k] {
      assert l[k] == b[at..end][i + k];
    }
  }

  lemma Assoc(a: Bytes, b: Bytes, c: Bytes)
    ensures (a + b) + c == a + (b + c)
  {
  }
}
