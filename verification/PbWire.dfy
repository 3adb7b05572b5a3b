/** The wire format as other programs see it: which bytes stand behind which tag, what numbers of other
    widths come to, and which varints the decoder takes. */
module PbWire {
  import opened Keys
  import opened Coding
  import opened PbMessage
  import opened PbDecode

  // ----- Tags and what they delimit -----

  /** One varint: all bytes but the last say that more follow. */
  ghost predicate IsVarint(b: Bytes) {
    b != [] && b[|b| - 1] < 128 && forall i :: 0 <= i < |b| - 1 ==> b[i] >= 128
  }

  /** What may stand behind a tag of a wire type, by section "Message Structure" of the encoding. */
  ghost predicate Delimited(wireType: nat, b: Bytes) {
    match wireType
    case 0 => IsVarint(b)
    case 1 => |b| == 8
    case 2 => exists n: nat :: n <= |b| && IsVarint(b[..n]) && DigitSum(b[..n]) == |b| - n
    case 5 => |b| == 4
    case _ => false
  }

  function StandardWireType(k: FieldType): nat {
    match k
    case Fixed32 => 5
    case Fixed64 => 1
    case Bool => 0
    case Int(_) => 0
    case UInt(_) => 0
    case SInt(_) => 0
    case BytesOf(_) => 2
    case StringOf(_) => 2
    case FixedBytes(_) => 2
    case Message(_) => 2
  }

  lemma VarintIs(n: nat)
    ensures IsVarint(EncodeVarint(n)) && DigitSum(EncodeVarint(n)) == n
  {
    VarintDigits(n);
  }

  lemma PrefixedIs(data: Bytes)
    ensures Delimited(2, LengthPrefixed(data))
  {
    var b, n := LengthPrefixed(data), |EncodeVarint(|data|)|;
    VarintIs(|data|);
    assert b[..n] == EncodeVarint(|data|);
    assert n <= |b| && IsVarint(b[..n]) && DigitSum(b[..n]) == |b| - n;
  }

  lemma ValueIsDelimited(k: FieldType, v: Value)
    requires Typed(k, v)
    ensures Delimited(StandardWireType(k), EncodeValue(k, v))
  {
    hide EncodeVarint, LengthPrefixed, EncodeFixed32, EncodeFixed64, EncodeFields, IsVarint;
    match k {
      case Bool => VarintIs(if v.b then 1 else 0);
      case Int(_) => VarintIs(v.i % TWO64);
      case UInt(_) => VarintIs(v.i % TWO64);
      case SInt(_) => VarintIs(ZigZag(v.i));
      case Fixed32 =>
      case Fixed64 =>
      case Message(fields) => PrefixedIs(EncodeFields(fields, v.slots, |fields|));
      case _ => PrefixedIs(v.bytes);
    }
  }

  /** A field is written as one varint, eight times its number and the wire type of its kind, and then
      exactly the bytes that this wire type delimits. */
  lemma OneIsDelimited(f: Field, v: Value)
    requires Typed(f.kind, v)
    ensures exists n: nat ::
      && n <= |EncodeOne(f, v)| && IsVarint(EncodeOne(f, v)[..n])
      && DigitSum(EncodeOne(f, v)[..n]) == 8 * f.tag + StandardWireType(f.kind)
      && EncodeOne(f, v)[n..] == EncodeValue(f.kind, v)
      && Delimited(StandardWireType(f.kind), EncodeOne(f, v)[n..])
  {
    hide EncodeValue, Delimited, IsVarint, EncodeVarint, Typed;
    var w := StandardWireType(f.kind);
    assert WireType(f.kind) == w;
    var b, n := EncodeOne(f, v), |EncodeVarint(8 * f.tag + w)|;
    VarintIs(8 * f.tag + w);
    ValueIsDelimited(f.kind, v);
    assert b[..n] == EncodeVarint(8 * f.tag + w) && b[n..] == EncodeValue(f.kind, v);
  }

  /** Numbers of fixed width are little-endian. */
  lemma FixedValues(k: FieldType, v: Value)
    requires Typed(k, v) && (k.Fixed32? || k.Fixed64?)
    ensures LittleEndian(EncodeValue(k, v)) == v.i
  {
    hide EncodeFixed32, EncodeFixed64, LittleEndian;
    if k.Fixed32? {
      Fixed32Bytes(v.i);
    } else {
      Fixed64Bytes(v.i);
    }
  }

  /** Negative numbers are written in two's complement of 64 bits, or with their sign in the lowest
      bit. */
  lemma VarintValues(k: FieldType, v: Value)
    requires Typed(k, v) && (k.Int? || k.UInt? || k.SInt?)
    ensures
      DigitSum(EncodeValue(k, v)) ==
        if k.SInt? then if v.i < 0 then 2 * (-v.i - 1) + 1 else 2 * v.i
        else if v.i < 0 then v.i + TWO64 else v.i
  {
    VarintIs(if k.SInt? then ZigZag(v.i) else v.i % TWO64);
    hide EncodeVarint, DigitSum;
    if k.Int? && v.i < 0 {
      assert v.i % TWO64 == v.i + TWO64;
    } else if !k.SInt? {
      assert v.i % TWO64 == v.i;
    }
  }

  // ----- Which fields are written -----

  /** A value that is zero can be left out: everything but a byte string of fixed length, and a message
      with a field that is always written. */
  ghost predicate CanBeLeftOut(k: FieldType)
    decreases k
  {
    match k
    case FixedBytes(size) => size == 0
    case Message(fields) => forall i :: 0 <= i < |fields| ==> FieldCanBeLeftOut(fields[i])
    case _ => true
  }

  ghost predicate FieldCanBeLeftOut(f: Field)
    decreases f
  {
    match f.rule
    case Required => false
    case FixedCount(_) => false
    case Singular => CanBeLeftOut(f.kind)
    case _ => true
  }

  lemma {:induction false} ZeroIff(k: FieldType, v: Value)
    requires Typed(k, v)
    ensures IsZero(k, v) <==> v == ZeroOf(k) && CanBeLeftOut(k)
    decreases k, 0
  {
    if k.Message? {
      forall i | 0 <= i < |k.fields|
        ensures IsDefault(k.fields[i], v.slots[i])
            <==> v.slots[i] == Default(k.fields[i]) && FieldCanBeLeftOut(k.fields[i])
      {
        assert TypedSlot(k.fields[i], v.slots[i]);
        DefaultIff(k.fields[i], v.slots[i]);
      }
      assert v == ZeroOf(k) <==> v.slots == Defaults(k.fields);
      assert v.slots == Defaults(k.fields) <==>
        forall i :: 0 <= i < |k.fields| ==> v.slots[i] == Default(k.fields[i]);
    }
  }

  lemma {:induction false} DefaultIff(f: Field, s: Slot)
    requires TypedSlot(f, s)
    ensures IsDefault(f, s) <==> s == Default(f) && FieldCanBeLeftOut(f)
    decreases f, 0
  {
    if f.rule.Singular? {
      ZeroIff(f.kind, s.value);
    }
  }

  /** A field without a presence flag is left out if and only if it is zero and can be; any other field
      is left out if and only if nothing is there. */
  lemma WrittenIff(f: Field, s: Slot)
    requires TypedSlot(f, s)
    ensures EncodeField(f, s) == [] <==>
      match f.rule
      case Required => false
      case Singular => s == One(ZeroOf(f.kind)) && CanBeLeftOut(f.kind)
      case Repeated(_) => s == Many([])
      case FixedCount(_) => s == Many([])
      case _ => s == Maybe(None)
  {
    hide EncodeValue, EncodeValues, EncodeVarint, IsZero, ZeroOf, CanBeLeftOut, Typed;
    if f.rule.Singular? {
      ZeroIff(f.kind, s.value);
    }
    var tag := TagBytes(f.tag, WireType(f.kind));
    match s {
      case One(v) => assert |EncodeOne(f, v)| > 0;
      case Maybe(o) =>
        if o.Some? {
          assert |EncodeOne(f, o.value)| > 0;
        }
      case Many(vs) =>
        if vs != [] {
          var n := |vs|;
          assert |TagBytes(f.tag, STRING) + LengthPrefixed(EncodeValues(f.kind, vs, n))| > 0;
          assert EncodeTagged(f, vs, n) == EncodeTagged(f, vs, n - 1) + (tag + EncodeValue(f.kind, vs[n - 1]));
        }
    }
  }

  // ----- The examples of the specification -----

  lemma SmallVarint(n: nat)
    requires n < 0x4000
    ensures EncodeVarint(n) == if n < 128 then [n as Byte] else [(n % 128 + 128) as Byte, (n / 128) as Byte]
  {
    if n >= 128 {
      assert EncodeVarint(n / 128) == [(n / 128) as Byte];
    }
  }

  /** "Base 128 Varints": the number 150 in field 1. */
  lemma Example150()
    ensures EncodeOne(Field(1, Required, Int(W32)), IntV(150)) == [0x08, 0x96, 0x01]
  {
    SmallVarint(8);
    SmallVarint(150);
  }

  /** "Signed Integers": -2 with its sign in the lowest bit. */
  lemma ExampleZigZag()
    ensures EncodeOne(Field(1, Required, SInt(W32)), IntV(-2)) == [0x08, 0x03]
  {
    SmallVarint(8);
    SmallVarint(3);
  }

  /** "Length-Delimited Records": the string "testing" in field 2, and a message with 150 in field 3. */
  lemma ExampleDelimited()
    ensures EncodeOne(Field(2, Required, StringOf(10)), BytesV([0x74, 0x65, 0x73, 0x74, 0x69, 0x6e, 0x67]))
         == [0x12, 0x07, 0x74, 0x65, 0x73, 0x74, 0x69, 0x6e, 0x67]
    ensures EncodeOne(Field(3, Required, Message([Field(1, Required, Int(W32))])), MessageV([One(IntV(150))]))
         == [0x1a, 0x03, 0x08, 0x96, 0x01]
  {
    SmallVarint(0x12);
    SmallVarint(0x1a);
    SmallVarint(7);
    SmallVarint(3);
    Example150();
    var f, s := Field(1, Required, Int(W32)), One(IntV(150));
    assert EncodeFields([f], [s], 0) == [];
    assert EncodeFields([f], [s], 1) == EncodeField(f, s);
  }

  /** "Packed Repeated Fields": 3, 270 and 86942 in field 4. */
  lemma ExamplePacked()
    ensures EncodeField(Field(4, Repeated(3), Int(W32)), Many([IntV(3), IntV(270), IntV(86942)]))
         == [0x22, 0x06, 0x03, 0x8e, 0x02, 0x9e, 0xa7, 0x05]
  {
    var k, vs := Int(W32), [IntV(3), IntV(270), IntV(86942)];
    SmallVarint(0x22);
    SmallVarint(6);
    SmallVarint(3);
    SmallVarint(270);
    SmallVarint(679);
    assert EncodeVarint(86942) == [0x9e] + EncodeVarint(679);
    assert EncodeValues(k, vs, 0) == [];
    assert EncodeValues(k, vs, 1) == [0x03];
    assert EncodeValues(k, vs, 2) == [0x03, 0x8e, 0x02];
    assert EncodeValues(k, vs, 3) == [0x03, 0x8e, 0x02, 0x9e, 0xa7, 0x05];
  }

  /** "Message Structure": the number 7 in 32 and in 64 bits. */
  lemma ExampleFixed()
    ensures EncodeOne(Field(1, Required, Fixed32), IntV(7)) == [0x0d, 7, 0, 0, 0]
    ensures EncodeOne(Field(1, Required, Fixed64), IntV(7)) == [0x09, 7, 0, 0, 0, 0, 0, 0, 0]
  {
    SmallVarint(0x0d);
    SmallVarint(0x09);
    assert EncodeFixed32(7) == [7, 0, 0, 0];
    assert EncodeFixed64(7) == [7, 0, 0, 0] + [0, 0, 0, 0];
  }

  /** A message is its fields in the order of the description, and nothing between them. */
  lemma ExampleOrder()
    ensures
      var fields := [Field(2, Required, Bool), Field(1, Required, Bool)];
      EncodeFields(fields, [One(BoolV(true)), One(BoolV(false))], 2) == [0x10, 0x01, 0x08, 0x00]
  {
    var fields, slots := [Field(2, Required, Bool), Field(1, Required, Bool)], [One(BoolV(true)), One(BoolV(false))];
    SmallVarint(0x10);
    SmallVarint(0x08);
    SmallVarint(1);
    SmallVarint(0);
    assert EncodeFields(fields, slots, 0) == [];
    assert EncodeFields(fields, slots, 1) == [0x10, 0x01];
  }

  // ----- Numbers that may not fit -----

  const TWO31: nat := 0x8000_0000
  const TWO35: nat := 0x8_0000_0000

  /** What is left of a number from bit 35 on is zero, or, below a set sign bit, digits that are each all
      ones or zero, up to bit 63. */
  predicate SignDigits(u: nat, digit: nat, result: nat) {
    if u < 128 then u == 0 || (result >= TWO31 && digit >= 9 && u == 1)
    else (u % 128 == 0 || (result >= TWO31 && digit < 9 && u % 128 == 127)) && SignDigits(u / 128, digit + 1, result)
  }

  /** Which numbers the decoder for 32 bits takes. */
  predicate Taken(v: nat) {
    v < TWO32 || (v >= TWO35 && SignDigits(v / TWO35, 5, v % TWO32))
  }

  lemma MoreUnfolds(byte: Byte, tail: Bytes, digit: nat, result: nat)
    requires digit >= 5
    ensures Varint32More([byte] + tail, digit, result) ==
      if byte % 128 != 0 && (result < TWO31 || byte != if digit < 9 then 0xff else 0x01) then None
      else if byte >= 128 then
        var rest := Varint32More(tail, digit + 1, result);
        if rest.None? then None else Some(Read(rest.value.value, 1 + rest.value.length))
      else Some(Read(result, 1))
  {
    assert ([byte] + tail)[1..] == tail;
  }

  lemma {:induction false} SignsDecide(u: nat, digit: nat, result: nat, rest: Bytes)
    requires digit >= 5
    ensures Varint32More(EncodeVarint(u) + rest, digit, result) ==
      if SignDigits(u, digit, result) then Some(Read(result, |EncodeVarint(u)|)) else None
    decreases u
  {
    hide Varint32More;
    if u >= 128 {
      var byte := (u % 128 + 128) as Byte;
      assert EncodeVarint(u) + rest == [byte] + (EncodeVarint(u / 128) + rest);
      MoreUnfolds(byte, EncodeVarint(u / 128) + rest, digit, result);
      SignsDecide(u / 128, digit + 1, result, rest);
    } else {
      assert EncodeVarint(u) + rest == [u as Byte] + rest;
      MoreUnfolds(u as Byte, rest, digit, result);
    }
  }

  /** The fifth digit, of which only four bits fit. */
  lemma FifthDigit(v: nat, result: nat, rest: Bytes)
    requires result < 0x1000_0000
    ensures
      var t := result + v * 0x1000_0000;
      Varint32More(EncodeVarint(v) + rest, 4, result) ==
        if Taken(t) then Some(Read(t % TWO32, |EncodeVarint(v)|)) else None
  {
    hide Varint32More, Taken;
    if v >= 128 {
      FifthOfMany(v, result, rest);
    } else {
      assert EncodeVarint(v) + rest == [v as Byte] + rest;
      LastUnfolds(v as Byte, rest, result);
      LastFits(result, v);
    }
  }

  lemma LastFits(result: nat, v: nat)
    requires result < 0x1000_0000 && v < 128
    ensures Taken(result + v * 0x1000_0000) <==> v < 16
  {
    assert result + v * 0x1000_0000 < TWO35;
  }

  lemma FifthOfMany(v: nat, result: nat, rest: Bytes)
    requires result < 0x1000_0000 && v >= 128
    ensures
      var t := result + v * 0x1000_0000;
      Varint32More(EncodeVarint(v) + rest, 4, result) ==
        if Taken(t) then Some(Read(t % TWO32, |EncodeVarint(v)|)) else None
  {
    hide Varint32More, SignDigits;
    var t, low := result + v * 0x1000_0000, result + v % 128 * 0x1000_0000;
    var byte := (v % 128 + 128) as Byte;
    var tail := EncodeVarint(v / 128) + rest;
    assert EncodeVarint(v) + rest == [byte] + tail;
    LongUnfolds(byte, tail, result);
    HighBits(result, v);
    SignsDecide(v / 128, 5, low % TWO32, rest);
  }

  lemma HighBits(result: nat, v: nat)
    requires result < 0x1000_0000 && v >= 128
    ensures
      var t, low := result + v * 0x1000_0000, result + v % 128 * 0x1000_0000;
      t >= TWO35 && t / TWO35 == v / 128 && t % TWO32 == low % TWO32
  {
    var low, high := result + v % 128 * 0x1000_0000, v / 128;
    assert result + v * 0x1000_0000 == low + high * TWO35 && low < TWO35;
    AddMultiple(low, 8 * high);
    assert low + (8 * high) * TWO32 == low + high * TWO35;
  }

  lemma AddMultiple(a: nat, k: nat)
    ensures (a + k * TWO32) % TWO32 == a % TWO32
  {
    var q, r := a / TWO32, a % TWO32;
    assert a + k * TWO32 == r + TWO32 * (q + k);
  }

  lemma LongUnfolds(byte: Byte, tail: Bytes, result: nat)
    requires byte >= 128
    ensures Varint32More([byte] + tail, 4, result) ==
      var rest := Varint32More(tail, 5, (result + byte as nat % 128 * 0x1000_0000) % TWO32);
      if rest.None? then None else Some(Read(rest.value.value, 1 + rest.value.length))
  {
    PowerSteps(1);
    hide Power128;
    assert ([byte] + tail)[1..] == tail;
  }

  lemma LastUnfolds(byte: Byte, tail: Bytes, result: nat)
    requires byte < 128 && result < 0x1000_0000
    ensures Varint32More([byte] + tail, 4, result) ==
      if byte >= 16 then None else Some(Read(result + byte as nat * 0x1000_0000, 1))
  {
    PowerSteps(1);
    hide Power128;
  }

  lemma {:induction false} DigitsDecide(v: nat, digit: nat, result: nat, rest: Bytes)
    requires 1 <= digit <= 4 && result < Power128(digit)
    ensures
      var t := result + v * Power128(digit);
      Varint32More(EncodeVarint(v) + rest, digit, result) ==
        if Taken(t) then Some(Read(t % TWO32, |EncodeVarint(v)|)) else None
    decreases 4 - digit
  {
    PowerSteps(digit);
    hide Power128, Varint32More, Taken;
    var p := Power128(digit);
    if digit == 4 {
      FifthDigit(v, result, rest);
    } else if v >= 128 {
      var byte := (v % 128 + 128) as Byte;
      var tail := EncodeVarint(v / 128) + rest;
      assert EncodeVarint(v) + rest == [byte] + tail;
      SmallDigit(v, digit, result);
      MoreGoesOn(byte, tail, digit, result);
      DigitsDecide(v / 128, digit + 1, result + v % 128 * p, rest);
    } else {
      assert EncodeVarint(v) + rest == [v as Byte] + rest;
      SmallDigit(v, digit, result);
      MoreEnds(v as Byte, rest, digit, result);
      SmallIsTaken(result + v * p);
    }
  }

  lemma SmallIsTaken(v: nat)
    requires v < TWO32
    ensures Taken(v)
  {
  }

  lemma SmallDigit(v: nat, digit: nat, result: nat)
    requires 1 <= digit <= 3 && result < Power128(digit)
    ensures
      var p := Power128(digit);
      && result + v % 128 * p < Power128(digit + 1) <= 0x1000_0000
      && result + v % 128 * p + v / 128 * Power128(digit + 1) == result + v * p
  {
    PowerSteps(digit);
    hide Power128;
    var p := Power128(digit);
    MulMono(v % 128, 127, p);
    Distribute(v % 128, v / 128, p);
    assert v == v % 128 + 128 * (v / 128);
  }

  lemma MoreFollows(byte: Byte, tail: Bytes)
    requires byte >= 128
    ensures Varint32([byte] + tail) ==
      var rest := Varint32More(tail, 1, byte as nat - 128);
      if rest.None? then None else Some(Read(rest.value.value, 1 + rest.value.length))
  {
    hide Varint32More;
    assert ([byte] + tail)[1..] == tail;
  }

  /** A number of up to 64 bits where one of 32 is read: it is taken if it fits, and also if it looks
      like a negative one extended to 64 bits, of which bits 32 to 34 are not looked at. */
  lemma Varint32Decides(v: nat, rest: Bytes)
    ensures Varint32(EncodeVarint(v) + rest) ==
      if Taken(v) then Some(Read(v % TWO32, |EncodeVarint(v)|)) else None
  {
    hide Taken, Varint32;
    if v >= 128 {
      LongDecides(v, rest);
    } else {
      Varint32Back(v, rest);
      SmallIsTaken(v);
    }
  }

  lemma LongDecides(v: nat, rest: Bytes)
    requires v >= 128
    ensures Varint32(EncodeVarint(v) + rest) ==
      if Taken(v) then Some(Read(v % TWO32, |EncodeVarint(v)|)) else None
  {
    PowerSteps(1);
    hide Power128, Varint32More, Taken, Varint32;
    var byte, tail := (v % 128 + 128) as Byte, EncodeVarint(v / 128) + rest;
    var low := v % 128;
    assert EncodeVarint(v) == [byte] + EncodeVarint(v / 128);
    hide EncodeVarint;
    assert EncodeVarint(v) + rest == [byte] + tail;
    assert v == low + v / 128 * 128;
    DigitsDecide(v / 128, 1, low, rest);
    MoreFollows(byte, tail);
  }

  lemma {:induction false} NoSign(u: nat, digit: nat, result: nat)
    requires 5 <= digit <= 9 && 1 <= u < Power128(9 - digit)
    ensures !SignDigits(u, digit, result)
    decreases 9 - digit
  {
    if u >= 128 {
      assert u / 128 < Power128(9 - (digit + 1));
      NoSign(u / 128, digit + 1, result);
    }
  }

  /** So every number that fits is taken, every negative one of 32 bits as well, and no positive one
      that does not fit; but some numbers are that are neither. */
  lemma WhatIsTaken(v: nat)
    requires v < TWO64
    ensures v < TWO32 || v >= TWO64 - TWO31 ==> Taken(v)
    ensures TWO32 <= v < TWO64 / 2 ==> !Taken(v)
    ensures Taken(0xffff_fff8_8000_0000)
  {
    hide Power128;
    if TWO35 <= v < TWO64 / 2 {
      PowerSteps(1);
      NoSign(v / TWO35, 5, v % TWO32);
    }
    AllOnes(TWO31);
    if v >= TWO64 - TWO31 {
      assert v / TWO35 == 0x1fff_ffff;
      assert v % TWO32 >= TWO31 by {
        assert v == (v - (TWO64 - TWO32)) + TWO32 * (TWO32 - 1);
      }
      AllOnes(v % TWO32);
    }
    assert 0xffff_fff8_8000_0000 / TWO35 == 0x1fff_ffff && 0xffff_fff8_8000_0000 % TWO32 == TWO31;
  }

  lemma AllOnes(result: nat)
    requires result >= TWO31
    ensures SignDigits(0x1fff_ffff, 5, result)
  {
    assert SignDigits(1, 9, result);
    assert SignDigits(0xff, 8, result);
    assert SignDigits(0x7fff, 7, result);
    assert SignDigits(0x3f_ffff, 6, result);
  }

  // ----- Values that were written with another description -----

  /** An unsigned number, written with any width. */
  lemma UnsignedRead(w: Width, n: nat, rest: Bytes)
    requires n < TWO64
    ensures DecodeScalar(UInt(w), EncodeVarint(n) + rest) ==
      if n < 2 * w.Half() then Some(Got(IntV(n), |EncodeVarint(n)|)) else None
  {
    hide EncodeVarint, GetVarint64;
    Varint64RoundTrip(n, rest);
  }

  /** A number with its sign in the lowest bit, written with any width. */
  lemma ZigZagRead(w: Width, i: int, rest: Bytes)
    requires InWidth(i, W64)
    ensures DecodeScalar(SInt(w), EncodeVarint(ZigZag(i)) + rest) ==
      if InWidth(i, w) then Some(Got(IntV(i), |EncodeVarint(ZigZag(i))|)) else None
  {
    hide EncodeVarint, GetVarint64;
    Varint64RoundTrip(ZigZag(i), rest);
    ZigZagBack(i);
  }

  /** A plain number, written with any width: all of it is read into 64 bits; into fewer, only its
      lowest 32 bits are looked at, and what they come to must fit. */
  lemma PlainRead(w: Width, i: int, j: int, rest: Bytes)
    requires InWidth(i, W64) && if w == W64 then j == i else InWidth(j, W32) && exists q: int :: i == j + q * TWO32
    ensures DecodeScalar(Int(w), EncodeVarint(i % TWO64) + rest) ==
      if InWidth(j, w) then Some(Got(IntV(j), |EncodeVarint(i % TWO64)|)) else None
  {
    hide EncodeVarint, GetVarint64;
    Varint64RoundTrip(i % TWO64, rest);
    if w == W64 {
      SignedBack(i, W64);
    } else {
      var q: int :| i == j + q * TWO32;
      SameLowBits(i, j, q);
      SignedBack(j, W32);
    }
  }

  lemma SameLowBits(i: int, j: int, q: int)
    requires i == j + q * TWO32 && InWidth(i, W64)
    ensures i % TWO64 % TWO32 == j % TWO64 % TWO32
  {
    LowOf64(i);
    LowOf64(j);
    var p, r := j / TWO32, j % TWO32;
    assert i == r + TWO32 * (p + q);
  }

  lemma LowOf64(i: int)
    ensures i % TWO64 % TWO32 == i % TWO32
  {
    var q, r := i / TWO64, i % TWO64;
    var p, s := r / TWO32, r % TWO32;
    assert i == s + TWO32 * (p + q * TWO32);
  }

  /** A truth value is whether a number is not zero. */
  lemma BoolRead(n: nat, rest: Bytes)
    ensures DecodeScalar(Bool, EncodeVarint(n) + rest) ==
      if Taken(n) then Some(Got(BoolV(n % TWO32 != 0), |EncodeVarint(n)|)) else None
  {
    hide EncodeVarint, Varint32, Taken;
    Varint32Decides(n, rest);
  }

  /** A byte string that is longer than there is room for is refused; of fixed length, any other length
      but zero. */
  lemma BytesRead(k: FieldType, data: Bytes, rest: Bytes)
    requires |data| < TWO32 && (k.BytesOf? || k.StringOf? || k.FixedBytes?)
    ensures DecodeScalar(k, LengthPrefixed(data) + rest) ==
      match k
      case BytesOf(max) => if |data| <= max then Some(Got(BytesV(data), |LengthPrefixed(data)|)) else None
      case StringOf(max) => if |data| <= max then Some(Got(BytesV(data), |LengthPrefixed(data)|)) else None
      case FixedBytes(size) =>
        if data == [] then Some(Got(BytesV(seq(size, _ => 0)), |LengthPrefixed(data)|))
        else if |data| == size then Some(Got(BytesV(data), |LengthPrefixed(data)|)) else None
      case _ => None
  {
    hide EncodeVarint, Varint32, Prefixed, LengthPrefixed;
    BytesBack(data, rest);
  }
}
