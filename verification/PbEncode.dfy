/** The encoder.  A stream either writes, into a buffer of limited size, or only counts; a nested
    message is encoded twice, once to learn its length and once to write it. */
module PbEncode {
  import opened Keys
  import opened Coding
  import opened PbMessage

  /** What a loop over the digits of `v` has put into its buffer when `value` is left of it: the
      top bit is set on every byte, and stays so on all but the last. */
  ghost predicate Digits(v: nat, buffer: Bytes, value: nat) {
    if value != 0 then EncodeVarint(v) == buffer + EncodeVarint(value)
    else
      && buffer != [] && buffer[|buffer| - 1] >= 128
      && EncodeVarint(v) == buffer[..|buffer| - 1] + [buffer[|buffer| - 1] - 128]
  }

  lemma NextDigit(v: nat, buffer: Bytes, value: nat)
    requires value != 0 && Digits(v, buffer, value)
    ensures Digits(v, buffer + [(value % 128 + 128) as Byte], value / 128)
  {
    var digit := (value % 128 + 128) as Byte;
    var buffer' := buffer + [digit];
    assert buffer'[..|buffer'| - 1] == buffer;
    if value >= 128 {
      assert EncodeVarint(value) == [digit] + EncodeVarint(value / 128);
      assert buffer + ([digit] + EncodeVarint(value / 128)) == buffer' + EncodeVarint(value / 128);
    } else {
      assert EncodeVarint(value) == [digit - 128];
    }
  }

  method VarintBytes(v: nat) returns (b: Bytes)
    requires v > 0x7f
    ensures b == EncodeVarint(v)
  {
    b := [];
    var value := v;
    while value != 0
      invariant Digits(v, b, value)
    {
      NextDigit(v, b, value);
      b := b + [(value % 128 + 128) as Byte];
      value := value / 128;
    }
    b := b[..|b| - 1] + [b[|b| - 1] - 128];
  }

  /** What the buffer holds once `b` is taken. */
  ghost function Appended(writing: bool, out: Bytes, b: Bytes): Bytes {
    if writing then out + b else out
  }

  class OStream {
    /** Whether there is anywhere to write to. */
    const writing: bool
    const maxSize: nat
    var bytesWritten: nat
    /** All that the buffer holds. */
    var out: Bytes

    constructor Sizing()
      ensures Ok() && !writing && bytesWritten == 0
    {
      writing, maxSize, bytesWritten, out := false, 0, 0, [];
    }

    constructor Writing(out: Bytes, maxSize: nat)
      ensures Ok() && writing && this.maxSize == maxSize && bytesWritten == 0 && this.out == out
    {
      this.writing, this.maxSize, this.bytesWritten, this.out := true, maxSize, 0, out;
    }

    ghost predicate Ok()
      reads this
    {
      writing ==> bytesWritten <= maxSize
    }

    /** Whether `n` more bytes can be taken. */
    ghost predicate Fits(n: nat)
      reads this
    {
      writing ==> bytesWritten + n <= maxSize
    }

    /** From a state of the stream that is told, the bytes `b` were taken. */
    ghost predicate Took(bytesWritten0: nat, out0: Bytes, b: Bytes)
      reads this
    {
      bytesWritten == bytesWritten0 + |b| && out == Appended(writing, out0, b)
    }

    lemma TookMore(bytesWritten0: nat, out0: Bytes, a: Bytes, bytesWritten1: nat, out1: Bytes, b: Bytes)
      requires bytesWritten1 == bytesWritten0 + |a| && out1 == Appended(writing, out0, a)
      requires Took(bytesWritten1, out1, b)
      ensures Took(bytesWritten0, out0, a + b)
    {
    }

    lemma TookNothing()
      ensures Took(bytesWritten, out, [])
    {
    }

    method Write(b: Bytes) returns (ok: bool)
      requires Ok()
      modifies this
      ensures Ok() && ok == old(Fits(|b|))
      ensures ok ==> Took(old(bytesWritten), old(out), b)
    {
      if |b| > 0 && writing {
        if bytesWritten + |b| > maxSize {
          return false;
        }
        out := out + b;
      }
      bytesWritten := bytesWritten + |b|;
      ok := true;
    }

    /** Counts bytes that are not at hand. */
    method Skip(n: nat, ghost b: Bytes)
      requires Ok() && !writing && n == |b|
      modifies this
      ensures Ok() && Took(old(bytesWritten), old(out), b)
    {
      bytesWritten := bytesWritten + n;
    }

    /** A base-128 varint, seven bits at a time. */
    method WriteVarint(v: nat) returns (ok: bool)
      requires Ok() && v < TWO64
      modifies this
      ensures Ok() && ok == old(Fits(|EncodeVarint(v)|))
      ensures ok ==> Took(old(bytesWritten), old(out), EncodeVarint(v))
    {
      if v <= 0x7f {
        ok := Write([v as Byte]);
        return;
      }
      var buffer := VarintBytes(v);
      ok := Write(buffer);
    }

    method WriteString(b: Bytes) returns (ok: bool)
      requires Ok() && |b| < TWO64
      modifies this
      ensures Ok() && ok == old(Fits(|LengthPrefixed(b)|))
      ensures ok ==> Took(old(bytesWritten), old(out), LengthPrefixed(b))
    {
      hide EncodeVarint;
      ok := WriteVarint(|b|);
      if ok {
        ok := Write(b);
      }
    }

    method WriteTag(tag: nat, wireType: nat) returns (ok: bool)
      requires Ok() && tag <= MAX_TAG && wireType < 8
      modifies this
      ensures Ok() && ok == old(Fits(|TagBytes(tag, wireType)|))
      ensures ok ==> Took(old(bytesWritten), old(out), TagBytes(tag, wireType))
    {
      ok := WriteVarint(8 * tag + wireType);
    }

    /** Everything but nested messages. */
    method WriteScalar(k: FieldType, v: Value) returns (ok: bool)
      requires Ok() && !k.Message? && SoundType(k) && Typed(k, v)
      modifies this
      ensures Ok() && ok == old(Fits(|EncodeValue(k, v)|))
      ensures ok ==> Took(old(bytesWritten), old(out), EncodeValue(k, v))
    {
      hide EncodeVarint, LengthPrefixed, EncodeFixed32, EncodeFixed64;
      match k
      case Bool => ok := WriteVarint(if v.b then 1 else 0);
      case Int(_) => ok := WriteVarint(v.i % TWO64);
      case UInt(_) => ok := WriteVarint(v.i % TWO64);
      case SInt(_) => ok := WriteVarint(ZigZag(v.i));
      case Fixed32 => ok := Write(EncodeFixed32(v.i % TWO32));
      case Fixed64 => ok := Write(EncodeFixed64(v.i % TWO64));
      case BytesOf(_) => ok := WriteString(v.bytes);
      case StringOf(_) => ok := WriteString(v.bytes);
      case FixedBytes(_) => ok := WriteString(v.bytes);
    }
  }

  // ----- Fields and messages -----

  lemma {:induction false} FieldsGrow(fields: seq<Field>, slots: seq<Slot>, n: nat, m: nat)
    requires n <= m <= |fields| == |slots|
    ensures |EncodeFields(fields, slots, n)| <= |EncodeFields(fields, slots, m)|
  {
    hide EncodeField;
    if n < m {
      FieldsGrow(fields, slots, n, m - 1);
    }
  }

  lemma NoFields(fields: seq<Field>, slots: seq<Slot>)
    requires |fields| == |slots|
    ensures EncodeFields(fields, slots, 0) == []
  {
  }

  lemma FieldsStep(fields: seq<Field>, slots: seq<Slot>, i: nat)
    requires SoundFields(fields) && TypedSlots(fields, slots) && i < |fields|
    ensures EncodeFields(fields, slots, i + 1) == EncodeFields(fields, slots, i) + EncodeField(fields[i], slots[i])
    ensures SoundField(fields[i]) && TypedSlot(fields[i], slots[i])
  {
  }

  lemma NoValues(k: FieldType, vs: seq<Value>)
    ensures EncodeValues(k, vs, 0) == []
  {
  }

  lemma ValuesStep(k: FieldType, vs: seq<Value>, i: nat)
    requires i < |vs|
    ensures EncodeValues(k, vs, i + 1) == EncodeValues(k, vs, i) + EncodeValue(k, vs[i])
  {
  }

  lemma NoTagged(f: Field, vs: seq<Value>)
    ensures EncodeTagged(f, vs, 0) == []
  {
  }

  lemma TaggedStep(f: Field, vs: seq<Value>, i: nat)
    requires i < |vs|
    ensures EncodeTagged(f, vs, i + 1)
         == EncodeTagged(f, vs, i) + TagBytes(f.tag, WireType(f.kind)) + EncodeValue(f.kind, vs[i])
  {
    hide EncodeValue, TagBytes;
    var a, b, c := EncodeTagged(f, vs, i), TagBytes(f.tag, WireType(f.kind)), EncodeValue(f.kind, vs[i]);
    assert a + (b + c) == a + b + c;
  }

  lemma {:induction false} ValuesGrow(k: FieldType, vs: seq<Value>, n: nat, m: nat)
    requires n <= m <= |vs|
    ensures |EncodeValues(k, vs, n)| <= |EncodeValues(k, vs, m)|
  {
    hide EncodeValue;
    if n < m {
      ValuesGrow(k, vs, n, m - 1);
    }
  }

  lemma {:induction false} TaggedGrow(f: Field, vs: seq<Value>, n: nat, m: nat)
    requires n <= m <= |vs|
    ensures |EncodeTagged(f, vs, n)| <= |EncodeTagged(f, vs, m)|
  {
    hide EncodeValue, TagBytes;
    if n < m {
      TaggedGrow(f, vs, n, m - 1);
    }
  }

  /** Values of fixed width are counted without being looked at. */
  lemma {:induction false} FixedSizes(k: FieldType, vs: seq<Value>, n: nat)
    requires n <= |vs| && (k.Fixed32? || k.Fixed64?) && forall j :: 0 <= j < |vs| ==> Typed(k, vs[j])
    ensures |EncodeValues(k, vs, n)| == (if k.Fixed32? then 4 else 8) * n
  {
    if n > 0 {
      FixedSizes(k, vs, n - 1);
    }
  }

  method WriteValue(s: OStream, k: FieldType, v: Value) returns (ok: bool)
    requires s.Ok() && SoundType(k) && Typed(k, v) && |EncodeValue(k, v)| < TWO64
    modifies s
    ensures s.Ok() && ok == old(s.Fits(|EncodeValue(k, v)|))
    ensures ok ==> s.Took(old(s.bytesWritten), old(s.out), EncodeValue(k, v))
    decreases k, 0
  {
    if k.Message? {
      ok := WriteSubmessage(s, k.fields, v.slots);
    } else {
      ok := s.WriteScalar(k, v);
    }
  }

  /** The size that the first pass counts is the size that the second pass writes. */
  method WriteSubmessage(s: OStream, fields: seq<Field>, slots: seq<Slot>) returns (ok: bool)
    requires s.Ok() && SoundFields(fields) && TypedSlots(fields, slots)
    requires |LengthPrefixed(EncodeFields(fields, slots, |fields|))| < TWO64
    modifies s
    ensures s.Ok() && ok == old(s.Fits(|LengthPrefixed(EncodeFields(fields, slots, |fields|))|))
    ensures ok ==> s.Took(old(s.bytesWritten), old(s.out), LengthPrefixed(EncodeFields(fields, slots, |fields|)))
    decreases fields, 1
  {
    assert |fields| == |slots|;
    hide EncodeFields, SoundFields, TypedSlots, EncodeVarint;
    ghost var bytes := EncodeFields(fields, slots, |fields|);
    var sizing := new OStream.Sizing();
    ok := WriteMessage(sizing, fields, slots);
    if !ok {
      assert false;
    }
    var size := sizing.bytesWritten;
    ok := s.WriteVarint(size);
    if !ok {
      return;
    }
    if !s.writing {
      s.Skip(size, bytes);
      return;
    }
    if s.bytesWritten + size > s.maxSize {
      return false;
    }
    var substream := new OStream.Writing(s.out, size);
    ok := WriteMessage(substream, fields, slots);
    s.bytesWritten := s.bytesWritten + substream.bytesWritten;
    s.out := substream.out;
    if substream.bytesWritten != size {
      // "submsg size changed": never, without callbacks
      assert false;
    }
  }

  method WriteArray(s: OStream, f: Field, vs: seq<Value>) returns (ok: bool)
    requires s.Ok() && SoundField(f) && TypedSlot(f, Many(vs)) && |EncodeField(f, Many(vs))| < TWO64
    modifies s
    ensures s.Ok() && ok == old(s.Fits(|EncodeField(f, Many(vs))|))
    ensures ok ==> s.Took(old(s.bytesWritten), old(s.out), EncodeField(f, Many(vs)))
    decreases f, 1
  {
    if vs == [] {
      return true;
    }
    if Packable(f.kind) {
      ok := WritePacked(s, f.tag, f.kind, vs);
    } else {
      ok := WriteTagged(s, f, vs);
    }
  }

  method WritePacked(s: OStream, tag: nat, k: FieldType, vs: seq<Value>) returns (ok: bool)
    requires s.Ok() && tag <= MAX_TAG && SoundType(k) && Packable(k) && forall i :: 0 <= i < |vs| ==> Typed(k, vs[i])
    requires |EncodeValues(k, vs, |vs|)| < TWO64
    modifies s
    ensures s.Ok() && ok == old(s.Fits(|TagBytes(tag, STRING) + LengthPrefixed(EncodeValues(k, vs, |vs|))|))
    ensures ok ==>
      s.Took(old(s.bytesWritten), old(s.out), TagBytes(tag, STRING) + LengthPrefixed(EncodeValues(k, vs, |vs|)))
    decreases k, 3
  {
    hide EncodeVarint, EncodeValue, EncodeValues, SoundType, Typed, Packable, TagBytes, Appended;
    ok := s.WriteTag(tag, STRING);
    if !ok {
      return;
    }
    var size := PackedSize(k, vs);
    ghost var first, length, all := TagBytes(tag, STRING), EncodeVarint(size), EncodeValues(k, vs, |vs|);
    ghost var bytesWritten1, out1 := s.bytesWritten, s.out;
    ok := s.WriteVarint(size);
    if !ok {
      return;
    }
    s.TookMore(old(s.bytesWritten), old(s.out), first, bytesWritten1, out1, length);
    assert first + LengthPrefixed(all) == (first + length) + all;
    ghost var bytesWritten2, out2 := s.bytesWritten, s.out;
    if !s.writing {
      s.Skip(size, all);
    } else {
      ok := WriteValues(s, k, vs);
    }
    if ok {
      s.TookMore(old(s.bytesWritten), old(s.out), first + length, bytesWritten2, out2, all);
    }
  }

  /** The length that goes in front of packed elements. */
  method PackedSize(k: FieldType, vs: seq<Value>) returns (size: nat)
    requires SoundType(k) && Packable(k) && forall i :: 0 <= i < |vs| ==> Typed(k, vs[i])
    requires |EncodeValues(k, vs, |vs|)| < TWO64
    ensures size == |EncodeValues(k, vs, |vs|)|
    decreases k, 2
  {
    hide EncodeValue, SoundType, Typed;
    if k.Fixed32? {
      FixedSizes(k, vs, |vs|);
      size := 4 * |vs|;
    } else if k.Fixed64? {
      FixedSizes(k, vs, |vs|);
      size := 8 * |vs|;
    } else {
      var sizing := new OStream.Sizing();
      var ok := WriteValues(sizing, k, vs);
      size := sizing.bytesWritten;
    }
  }

  method WriteValues(s: OStream, k: FieldType, vs: seq<Value>) returns (ok: bool)
    requires s.Ok() && SoundType(k) && forall i :: 0 <= i < |vs| ==> Typed(k, vs[i])
    requires |EncodeValues(k, vs, |vs|)| < TWO64
    modifies s
    ensures s.Ok() && ok == old(s.Fits(|EncodeValues(k, vs, |vs|)|))
    ensures ok ==> s.Took(old(s.bytesWritten), old(s.out), EncodeValues(k, vs, |vs|))
    decreases k, 1
  {
    hide EncodeValue, SoundType, EncodeValues, Typed, Appended;
    NoValues(k, vs);
    s.TookNothing();
    var i: nat := 0;
    while i < |vs|
      invariant i <= |vs| && s.Ok() && s.Took(old(s.bytesWritten), old(s.out), EncodeValues(k, vs, i))
    {
      ValuesStep(k, vs, i);
      ValuesGrow(k, vs, i + 1, |vs|);
      ghost var bytesWritten1, out1 := s.bytesWritten, s.out;
      ok := WriteValue(s, k, vs[i]);
      if !ok {
        return;
      }
      s.TookMore(old(s.bytesWritten), old(s.out), EncodeValues(k, vs, i), bytesWritten1, out1, EncodeValue(k, vs[i]));
      i := i + 1;
    }
    ok := true;
  }

  method WriteTagged(s: OStream, f: Field, vs: seq<Value>) returns (ok: bool)
    requires s.Ok() && SoundField(f) && TypedSlot(f, Many(vs)) && |EncodeTagged(f, vs, |vs|)| < TWO64
    modifies s
    ensures s.Ok() && ok == old(s.Fits(|EncodeTagged(f, vs, |vs|)|))
    ensures ok ==> s.Took(old(s.bytesWritten), old(s.out), EncodeTagged(f, vs, |vs|))
    decreases f, 0
  {
    hide EncodeValue, SoundType, TagBytes, WireType, EncodeTagged, Typed, Appended;
    NoTagged(f, vs);
    s.TookNothing();
    ghost var tag := TagBytes(f.tag, WireType(f.kind));
    var i: nat := 0;
    while i < |vs|
      invariant i <= |vs| && s.Ok() && s.Took(old(s.bytesWritten), old(s.out), EncodeTagged(f, vs, i))
    {
      TaggedStep(f, vs, i);
      WireTypeSmall(f.kind);
      TaggedGrow(f, vs, i + 1, |vs|);
      ghost var bytesWritten1, out1 := s.bytesWritten, s.out;
      ok := s.WriteTag(f.tag, WireType(f.kind));
      if !ok {
        return;
      }
      s.TookMore(old(s.bytesWritten), old(s.out), EncodeTagged(f, vs, i), bytesWritten1, out1, tag);
      ghost var bytesWritten2, out2 := s.bytesWritten, s.out;
      ok := WriteValue(s, f.kind, vs[i]);
      if !ok {
        return;
      }
      s.TookMore(old(s.bytesWritten), old(s.out), EncodeTagged(f, vs, i) + tag, bytesWritten2, out2,
                 EncodeValue(f.kind, vs[i]));
      i := i + 1;
    }
    ok := true;
    assert old(s.Fits(|EncodeTagged(f, vs, |vs|)|));
  }

  method WriteOne(s: OStream, f: Field, v: Value) returns (ok: bool)
    requires s.Ok() && SoundField(f) && Typed(f.kind, v) && |EncodeOne(f, v)| < TWO64
    modifies s
    ensures s.Ok() && ok == old(s.Fits(|EncodeOne(f, v)|))
    ensures ok ==> s.Took(old(s.bytesWritten), old(s.out), EncodeOne(f, v))
    decreases f, 0
  {
    hide EncodeValue, SoundType, TagBytes;
    ok := s.WriteTag(f.tag, WireType(f.kind));
    if ok {
      ok := WriteValue(s, f.kind, v);
    }
  }

  method WriteField(s: OStream, f: Field, slot: Slot) returns (ok: bool)
    requires s.Ok() && SoundField(f) && TypedSlot(f, slot) && |EncodeField(f, slot)| < TWO64
    modifies s
    ensures s.Ok() && ok == old(s.Fits(|EncodeField(f, slot)|))
    ensures ok ==> s.Took(old(s.bytesWritten), old(s.out), EncodeField(f, slot))
    decreases f, 2
  {
    hide EncodeOne, EncodeTagged, EncodeValues, SoundType, Typed, IsZero;
    ok := true;
    match f.rule
    case Required => ok := WriteOne(s, f, slot.value);
    case Singular =>
      if !IsZero(f.kind, slot.value) {
        ok := WriteOne(s, f, slot.value);
      }
    case Optional =>
      if slot.option.Some? {
        ok := WriteOne(s, f, slot.option.value);
      }
    case OneOf(_) =>
      if slot.option.Some? {
        ok := WriteOne(s, f, slot.option.value);
      }
    case Repeated(_) => ok := WriteArray(s, f, slot.values);
    case FixedCount(_) => ok := WriteArray(s, f, slot.values);
  }

  /** A message is written if and only if all of it fits; and a stream that counts counts exactly
      the bytes that another would write. */
  method WriteMessage(s: OStream, fields: seq<Field>, slots: seq<Slot>) returns (ok: bool)
    requires s.Ok() && SoundFields(fields) && TypedSlots(fields, slots)
    requires |EncodeFields(fields, slots, |fields|)| < TWO64
    modifies s
    ensures s.Ok() && ok == old(s.Fits(|EncodeFields(fields, slots, |fields|)|))
    ensures ok ==> s.Took(old(s.bytesWritten), old(s.out), EncodeFields(fields, slots, |fields|))
    decreases fields, 0
  {
    assert |fields| == |slots|;
    hide EncodeField, EncodeFields, SoundFields, SoundField, TypedSlots, TypedSlot, Appended;
    NoFields(fields, slots);
    s.TookNothing();
    var i: nat := 0;
    while i < |fields|
      invariant i <= |fields| && s.Ok() && s.Took(old(s.bytesWritten), old(s.out), EncodeFields(fields, slots, i))
    {
      FieldsStep(fields, slots, i);
      FieldsGrow(fields, slots, i + 1, |fields|);
      ghost var bytesWritten1, out1 := s.bytesWritten, s.out;
      ok := WriteField(s, fields[i], slots[i]);
      if !ok {
        return;
      }
      s.TookMore(old(s.bytesWritten), old(s.out), EncodeFields(fields, slots, i), bytesWritten1, out1,
                 EncodeField(fields[i], slots[i]));
      i := i + 1;
    }
    ok := true;
  }

  /** The size of a message is the length of its bytes. */
  method EncodedSize(fields: seq<Field>, slots: seq<Slot>) returns (size: nat)
    requires SoundFields(fields) && TypedSlots(fields, slots)
    requires |EncodeFields(fields, slots, |fields|)| < TWO64
    ensures size == |EncodeFields(fields, slots, |fields|)|
  {
    assert |fields| == |slots|;
    hide EncodeFields, SoundFields, TypedSlots;
    var sizing := new OStream.Sizing();
    var ok := WriteMessage(sizing, fields, slots);
    size := sizing.bytesWritten;
  }

  /** Encoding into a buffer: the message's bytes, or nothing if they do not fit. */
  method Encode(bufferSize: nat, fields: seq<Field>, slots: seq<Slot>) returns (bytes: Option<Bytes>)
    requires SoundFields(fields) && TypedSlots(fields, slots)
    requires |EncodeFields(fields, slots, |fields|)| < TWO64
    ensures bytes == if |EncodeFields(fields, slots, |fields|)| <= bufferSize
                     then Some(EncodeFields(fields, slots, |fields|)) else None
  {
    assert |fields| == |slots|;
    hide EncodeFields, SoundFields, TypedSlots;
    var s := new OStream.Writing([], bufferSize);
    var ok := WriteMessage(s, fields, slots);
    if !ok {
      return None;
    }
    assert [] + EncodeFields(fields, slots, |fields|) == EncodeFields(fields, slots, |fields|);
    bytes := Some(s.out);
  }
}
