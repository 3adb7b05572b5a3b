/** Protocol-buffer messages: their descriptions, their values, and the bytes that stand for them. */
module PbMessage {
  import opened Keys
  import opened Coding

  datatype Width = W8 | W16 | W32 | W64 {
    /** Half the number of values of an integer of this width. */
    function Half(): nat {
      match this
      case W8 => 0x80
      case W16 => 0x8000
      case W32 => 0x8000_0000
      case W64 => 0x8000_0000_0000_0000
    }
  }

  datatype FieldType =
    | Bool
    | Int(width: Width)
    | UInt(width: Width)
    | SInt(width: Width)
    | Fixed32
    | Fixed64
    | BytesOf(max: nat)
    | StringOf(max: nat)
    | FixedBytes(size: nat)
    | Message(fields: seq<Field>)

  /** Which of several fields share a union is said by the number of the union. */
  datatype Rule = Required | Optional | Singular | Repeated(max: nat) | FixedCount(count: nat) | OneOf(union: nat)

  datatype Field = Field(tag: nat, rule: Rule, kind: FieldType)

  datatype Value = BoolV(b: bool) | IntV(i: int) | BytesV(bytes: Bytes) | MessageV(slots: seq<Slot>)

  /** What a message holds for one field. */
  datatype Slot = One(value: Value) | Maybe(option: Option<Value>) | Many(values: seq<Value>)

  const MAX_TAG: nat := 0x1fff_ffff

  // ----- Descriptions and values that fit together -----

  ghost predicate SoundType(k: FieldType)
    decreases k
  {
    match k
    case Message(fields) => SoundFields(fields)
    case BytesOf(max) => max < TWO32
    case StringOf(max) => max + 1 < TWO32
    case FixedBytes(size) => size < TWO32
    case _ => true
  }

  ghost predicate SoundFields(fields: seq<Field>)
    decreases fields
  {
    && (forall i :: 0 <= i < |fields| ==> SoundField(fields[i]))
    && (forall i, j :: 0 <= i < j < |fields| ==> fields[i].tag != fields[j].tag)
  }

  ghost predicate SoundField(f: Field)
    decreases f
  {
    && 1 <= f.tag <= MAX_TAG
    && (f.rule.FixedCount? ==> f.rule.count > 0)
    && SoundType(f.kind)
  }

  ghost predicate Typed(k: FieldType, v: Value)
    decreases k
  {
    match k
    case Bool => v.BoolV?
    case Int(w) => v.IntV? && 0 <= v.i + w.Half() < 2 * w.Half()
    case UInt(w) => v.IntV? && 0 <= v.i < 2 * w.Half()
    case SInt(w) => v.IntV? && 0 <= v.i + w.Half() < 2 * w.Half()
    case Fixed32 => v.IntV? && 0 <= v.i < TWO32
    case Fixed64 => v.IntV? && 0 <= v.i < TWO64
    case BytesOf(max) => v.BytesV? && |v.bytes| <= max
    case StringOf(max) => v.BytesV? && |v.bytes| <= max && 0 !in v.bytes
    case FixedBytes(size) => v.BytesV? && |v.bytes| == size
    case Message(fields) => v.MessageV? && TypedSlots(fields, v.slots)
  }

  ghost predicate TypedSlot(f: Field, s: Slot)
    decreases f
  {
    match f.rule
    case Required => s.One? && Typed(f.kind, s.value)
    case Singular => s.One? && Typed(f.kind, s.value)
    case Optional => s.Maybe? && (s.option.Some? ==> Typed(f.kind, s.option.value))
    case OneOf(_) => s.Maybe? && (s.option.Some? ==> Typed(f.kind, s.option.value))
    case Repeated(max) => s.Many? && |s.values| <= max && forall j :: 0 <= j < |s.values| ==> Typed(f.kind, s.values[j])
    case FixedCount(n) => s.Many? && |s.values| == n && forall j :: 0 <= j < |s.values| ==> Typed(f.kind, s.values[j])
  }

  ghost predicate Exclusive(fields: seq<Field>, slots: seq<Slot>)
    requires |fields| == |slots|
  {
    forall i, j :: 0 <= i < j < |fields| && fields[i].rule.OneOf? && fields[i].rule == fields[j].rule ==>
      !(slots[i].Maybe? && slots[i].option.Some? && slots[j].Maybe? && slots[j].option.Some?)
  }

  ghost predicate TypedSlots(fields: seq<Field>, slots: seq<Slot>)
    decreases fields
  {
    && |fields| == |slots|
    && (forall i :: 0 <= i < |fields| ==> TypedSlot(fields[i], slots[i]))
    && Exclusive(fields, slots)
  }

  // ----- Bytes -----

  const VARINT: nat := 0
  const BIT64: nat := 1
  const STRING: nat := 2
  const BIT32: nat := 5

  function WireType(k: FieldType): nat {
    match k
    case Bool => VARINT
    case Int(_) => VARINT
    case UInt(_) => VARINT
    case SInt(_) => VARINT
    case Fixed32 => BIT32
    case Fixed64 => BIT64
    case _ => STRING
  }

  predicate Packable(k: FieldType) {
    WireType(k) != STRING
  }

  /** Small magnitudes of both signs to small numbers. */
  function ZigZag(i: int): nat {
    if i < 0 then -2 * i - 1 else 2 * i
  }

  function TagBytes(tag: nat, wireType: nat): Bytes {
    EncodeVarint(8 * tag + wireType)
  }

  function EncodeValue(k: FieldType, v: Value): Bytes
    decreases k, 0
  {
    match (k, v)
    case (Bool, BoolV(b)) => EncodeVarint(if b then 1 else 0)
    case (Int(_), IntV(i)) => EncodeVarint(i % TWO64)
    case (UInt(_), IntV(i)) => EncodeVarint(i % TWO64)
    case (SInt(_), IntV(i)) => EncodeVarint(ZigZag(i))
    case (Fixed32, IntV(i)) => EncodeFixed32(i % TWO32)
    case (Fixed64, IntV(i)) => EncodeFixed64(i % TWO64)
    case (BytesOf(_), BytesV(b)) => LengthPrefixed(b)
    case (StringOf(_), BytesV(b)) => LengthPrefixed(b)
    case (FixedBytes(_), BytesV(b)) => LengthPrefixed(b)
    case (Message(fields), MessageV(slots)) =>
      if |fields| == |slots| then LengthPrefixed(EncodeFields(fields, slots, |fields|)) else []
    case _ => []
  }

  /** The first `n` values, one after the other. */
  function EncodeValues(k: FieldType, vs: seq<Value>, n: nat): Bytes
    requires n <= |vs|
    decreases k, 1, n
  {
    if n == 0 then [] else EncodeValues(k, vs, n - 1) + EncodeValue(k, vs[n - 1])
  }

  /** The first `n` values, each after a tag. */
  function EncodeTagged(f: Field, vs: seq<Value>, n: nat): Bytes
    requires n <= |vs|
    decreases f, 0, n
  {
    if n == 0 then []
    else EncodeTagged(f, vs, n - 1) + (TagBytes(f.tag, WireType(f.kind)) + EncodeValue(f.kind, vs[n - 1]))
  }

  function EncodeOne(f: Field, v: Value): Bytes
    decreases f, 0, 0
  {
    TagBytes(f.tag, WireType(f.kind)) + EncodeValue(f.kind, v)
  }

  function EncodeField(f: Field, s: Slot): Bytes
    decreases f, 1
  {
    match s
    case One(v) => if f.rule.Singular? && IsZero(f.kind, v) then [] else EncodeOne(f, v)
    case Maybe(o) => if o.None? then [] else EncodeOne(f, o.value)
    case Many(vs) =>
      if vs == [] then []
      else if Packable(f.kind) then TagBytes(f.tag, STRING) + LengthPrefixed(EncodeValues(f.kind, vs, |vs|))
      else EncodeTagged(f, vs, |vs|)
  }

  /** The first `n` fields of a message. */
  function EncodeFields(fields: seq<Field>, slots: seq<Slot>, n: nat): Bytes
    requires n <= |fields| == |slots|
    decreases fields, n
  {
    if n == 0 then [] else EncodeFields(fields, slots, n - 1) + EncodeField(fields[n - 1], slots[n - 1])
  }

  /** The value that a field without a presence flag is not written for. */
  predicate IsZero(k: FieldType, v: Value)
    decreases k
  {
    match (k, v)
    case (Bool, BoolV(b)) => !b
    case (BytesOf(_), BytesV(b)) => b == []
    case (StringOf(_), BytesV(b)) => b == []
    case (FixedBytes(size), _) => size == 0
    case (Message(fields), MessageV(slots)) =>
      |fields| == |slots| && forall i :: 0 <= i < |fields| ==> IsDefault(fields[i], slots[i])
    case (_, IntV(i)) => i == 0
    case _ => false
  }

  predicate IsDefault(f: Field, s: Slot)
    decreases f
  {
    match f.rule
    case Required => false
    case Repeated(_) => s == Many([])
    case FixedCount(_) => false
    case OneOf(_) => s == Maybe(None)
    case Optional => s == Maybe(None)
    case Singular => s.One? && IsZero(f.kind, s.value)
  }

  // ----- What a message holds before it is decoded -----

  function ZeroOf(k: FieldType): Value
    decreases k
  {
    match k
    case Bool => BoolV(false)
    case Message(fields) => MessageV(Defaults(fields))
    case BytesOf(_) => BytesV([])
    case StringOf(_) => BytesV([])
    case FixedBytes(size) => BytesV(seq(size, _ => 0))
    case _ => IntV(0)
  }

  function Default(f: Field): Slot
    decreases f
  {
    match f.rule
    case Required => One(ZeroOf(f.kind))
    case Singular => One(ZeroOf(f.kind))
    case Optional => Maybe(None)
    case OneOf(_) => Maybe(None)
    case Repeated(_) => Many([])
    case FixedCount(_) => Many([])
  }

  function Defaults(fields: seq<Field>): (slots: seq<Slot>)
    ensures |slots| == |fields|
    decreases fields
  {
    seq(|fields|, i requires 0 <= i < |fields| => Default(fields[i]))
  }

  /** A field that is left out as zero is zero. */
  lemma ZeroIsZero(k: FieldType, v: Value)
    requires Typed(k, v) && IsZero(k, v)
    ensures v == ZeroOf(k)
    decreases k
  {
    match k
    case Message(fields) =>
      forall i | 0 <= i < |fields| ensures v.slots[i] == Default(fields[i]) {
        var f := fields[i];
        assert TypedSlot(f, v.slots[i]) && IsDefault(f, v.slots[i]);
        if f.rule.Singular? {
          ZeroIsZero(f.kind, v.slots[i].value);
        }
      }
      assert v.slots == Defaults(fields);
    case _ =>
  }

  lemma WireTypeSmall(k: FieldType)
    ensures WireType(k) < 8
  {
  }
}
