/** Fields that a reader's description does not have: each is skipped by what the wire type in its tag
    says, and what is skipped is exactly the bytes that a writer with another description wrote. */
module PbSkip {
  import opened Keys
  import opened Coding
  import opened PbMessage
  import opened PbDecode

  lemma {:induction false} VarintSkipped(n: nat, rest: Bytes)
    ensures SkipVarint(EncodeVarint(n) + rest) == Some(|EncodeVarint(n)|)
  {
    var b := EncodeVarint(n) + rest;
    if n >= 128 {
      assert b[1..] == EncodeVarint(n / 128) + rest;
      VarintSkipped(n / 128, rest);
    }
  }

  lemma PrefixedSkipped(data: Bytes, rest: Bytes)
    requires |data| < TWO32
    ensures SkipLength(STRING, LengthPrefixed(data) + rest) == Some(|LengthPrefixed(data)|)
  {
    hide Prefixed;
    PrefixedBack(data, rest);
  }

  /** The wire type of a value's kind tells how long the value is. */
  lemma ValueSkipped(k: FieldType, v: Value, rest: Bytes)
    requires SoundType(k) && Typed(k, v) && |EncodeValue(k, v)| < TWO32
    ensures SkipLength(WireType(k), EncodeValue(k, v) + rest) == Some(|EncodeValue(k, v)|)
  {
    hide EncodeVarint, SkipVarint, Prefixed, EncodeFixed32, EncodeFixed64, EncodeFields;
    match k {
      case Bool => VarintSkipped(if v.b then 1 else 0, rest);
      case Int(_) => VarintSkipped(v.i % TWO64, rest);
      case UInt(_) => VarintSkipped(v.i % TWO64, rest);
      case SInt(_) => VarintSkipped(ZigZag(v.i), rest);
      case Fixed32 =>
      case Fixed64 =>
      case Message(fields) => PrefixedSkipped(EncodeFields(fields, v.slots, |fields|), rest);
      case _ => PrefixedSkipped(v.bytes, rest);
    }
  }

  /** A tag that no field of the description has. */
  lemma UnknownTag(fields: seq<Field>, st: State, tag: nat, wireType: nat, more: Bytes)
    requires |st.slots| == |fields| && 1 <= tag <= MAX_TAG && wireType < 8
    requires forall j :: 0 <= j < |fields| ==> fields[j].tag != tag
    ensures
      var n := SkipLength(wireType, more);
      DecodeFields(fields, st, TagBytes(tag, wireType) + more) ==
        if n.None? then None else DecodeFields(fields, st, more[n.value..])
  {
    hide EncodeVarint, Varint32, DecodeField, Find, SkipLength;
    var b := TagBytes(tag, wireType) + more;
    Varint32Back(8 * tag + wireType, more);
    assert b[|TagBytes(tag, wireType)|..] == more;
    assert (8 * tag + wireType) / 8 == tag && (8 * tag + wireType) % 8 == wireType;
  }

  ghost predicate Unknown(fields: seq<Field>, f: Field) {
    SoundField(f) && forall j :: 0 <= j < |fields| ==> fields[j].tag != f.tag
  }

  lemma OneSkipped(fields: seq<Field>, st: State, f: Field, v: Value, more: Bytes)
    requires |st.slots| == |fields| && Unknown(fields, f) && Typed(f.kind, v) && |EncodeOne(f, v)| < TWO32
    ensures DecodeFields(fields, st, EncodeOne(f, v) + more) == DecodeFields(fields, st, more)
  {
    hide EncodeValue, DecodeFields, TagBytes, SkipLength, Typed, SoundType, WireType;
    var bytes := EncodeValue(f.kind, v);
    assert EncodeOne(f, v) + more == TagBytes(f.tag, WireType(f.kind)) + (bytes + more);
    WireTypeSmall(f.kind);
    UnknownTag(fields, st, f.tag, WireType(f.kind), bytes + more);
    ValueSkipped(f.kind, v, more);
    assert (bytes + more)[|bytes|..] == more;
  }

  lemma PackedSkipped(fields: seq<Field>, st: State, f: Field, data: Bytes, more: Bytes)
    requires |st.slots| == |fields| && Unknown(fields, f) && |data| < TWO32
    ensures DecodeFields(fields, st, TagBytes(f.tag, STRING) + LengthPrefixed(data) + more)
         == DecodeFields(fields, st, more)
  {
    hide DecodeFields, TagBytes, SkipLength, SoundType, LengthPrefixed;
    var bytes := LengthPrefixed(data);
    assert TagBytes(f.tag, STRING) + bytes + more == TagBytes(f.tag, STRING) + (bytes + more);
    UnknownTag(fields, st, f.tag, STRING, bytes + more);
    PrefixedSkipped(data, more);
    assert (bytes + more)[|bytes|..] == more;
  }

  lemma {:induction false} TaggedSkipped(fields: seq<Field>, st: State, f: Field, vs: seq<Value>, j: nat, more: Bytes)
    requires |st.slots| == |fields| && Unknown(fields, f) && j <= |vs|
    requires forall i :: 0 <= i < |vs| ==> Typed(f.kind, vs[i]) && |EncodeOne(f, vs[i])| < TWO32
    ensures DecodeFields(fields, st, TaggedFrom(f, vs, j) + more) == DecodeFields(fields, st, more)
    decreases |vs| - j
  {
    hide EncodeValue, DecodeFields, TagBytes, Typed, Unknown, WireType;
    if j == |vs| {
      assert [] + more == more;
    } else {
      var rest := TaggedFrom(f, vs, j + 1) + more;
      assert TaggedFrom(f, vs, j) + more == EncodeOne(f, vs[j]) + rest;
      OneSkipped(fields, st, f, vs[j], rest);
      TaggedSkipped(fields, st, f, vs, j + 1, more);
    }
  }

  lemma OneWithin(f: Field, vs: seq<Value>, i: nat)
    requires i < |vs|
    ensures |EncodeOne(f, vs[i])| <= |EncodeTagged(f, vs, |vs|)|
  {
    hide EncodeValue, TagBytes;
    TaggedSplit(f, vs, i);
  }

  /** Whatever a writer puts into a field that the reader does not know, single values, messages,
      packed arrays and arrays of tagged elements: reading goes on behind it as if it were not there. */
  lemma FieldSkipped(fields: seq<Field>, st: State, f: Field, s: Slot, more: Bytes)
    requires |st.slots| == |fields| && Unknown(fields, f) && TypedSlot(f, s) && |EncodeField(f, s)| < TWO32
    ensures DecodeFields(fields, st, EncodeField(f, s) + more) == DecodeFields(fields, st, more)
  {
    hide EncodeOne, EncodeValues, DecodeFields, TagBytes, EncodeVarint, Typed, Unknown, IsZero, EncodeTagged;
    var none: Bytes := [];
    assert none + more == more;
    match s {
      case One(v) =>
        if EncodeField(f, s) != [] {
          OneSkipped(fields, st, f, v, more);
        }
      case Maybe(o) =>
        if o.Some? {
          OneSkipped(fields, st, f, o.value, more);
        }
      case Many(vs) =>
        if vs != [] && Packable(f.kind) {
          PackedSkipped(fields, st, f, EncodeValues(f.kind, vs, |vs|), more);
        } else if vs != [] {
          forall i | 0 <= i < |vs| ensures |EncodeOne(f, vs[i])| < TWO32 {
            OneWithin(f, vs, i);
          }
          TaggedSplit(f, vs, 0);
          NoTags(f, vs);
          TaggedSkipped(fields, st, f, vs, 0, more);
        }
    }
  }

  lemma NoTags(f: Field, vs: seq<Value>)
    ensures EncodeTagged(f, vs, 0) + TaggedFrom(f, vs, 0) == TaggedFrom(f, vs, 0)
  {
  }
}
