/** Decoding a message, as functions of the bytes that are left; and the proof that it undoes
    encoding.  The decoder proper, in PbDecoder, computes these functions on any bytes. */
module PbDecode {
  import opened Keys
  import opened Coding
  import opened PbMessage

  const MAX_REQUIRED_FIELDS: nat := 64

  // ----- Numbers -----

  /** The digits after the first of a varint that has to fit into 32 bits.  What does not fit is
      refused, except that a negative number may have been written with 64 bits. */
  function Varint32More(b: Bytes, digit: nat, result: nat): (r: Option<Read>)
    ensures r.Some? ==> 1 <= r.value.length <= |b|
    decreases |b|
  {
    if b == [] then None
    else
      var byte := b[0] as nat;
      var signExtension := if digit < 9 then 0xff else 0x01;
      if digit >= 5 && byte % 128 != 0 && (result < 0x8000_0000 || byte != signExtension) then None
      else
        var result' := if digit >= 5 then result else (result + byte % 128 * Power128(digit)) % TWO32;
        if byte >= 128 then
          var rest := Varint32More(b[1..], digit + 1, result');
          if rest.None? then None else Some(Read(rest.value.value, 1 + rest.value.length))
        else if digit == 4 && byte >= 16 then None
        else Some(Read(result', 1))
  }

  function Varint32(b: Bytes): (r: Option<Read>)
    ensures r.Some? ==> 1 <= r.value.length <= |b|
  {
    if b == [] then None
    else if b[0] < 128 then Some(Read(b[0] as nat, 1))
    else
      var rest := Varint32More(b[1..], 1, b[0] as nat - 128);
      if rest.None? then None else Some(Read(rest.value.value, 1 + rest.value.length))
  }

  lemma PowerSteps(n: nat)
    ensures Power128(n + 1) == 128 * Power128(n)
    ensures Power128(1) == 128 && Power128(2) == 0x4000 && Power128(3) == 0x20_0000 && Power128(4) == 0x1000_0000
  {
    assert Power128(2) == 128 * Power128(1);
    assert Power128(3) == 128 * Power128(2);
    assert Power128(4) == 128 * Power128(3);
  }

  /** Taking one digit off a number, and putting it in its place. */
  lemma DigitPlaced(v: nat, p: nat, result: nat)
    requires p > 0 && result < p && result + v * p < TWO32
    ensures v % 128 * p + result < 128 * p
    ensures result + v % 128 * p + v / 128 * (128 * p) == result + v * p
    ensures result + v % 128 * p < TWO32
  {
    var low, high := v % 128, v / 128;
    assert v == low + 128 * high;
    Distribute(low, high, p);
    MulMono(low, 127, p);
    assert high * (128 * p) >= 0;
  }

  lemma Distribute(low: nat, high: nat, p: nat)
    ensures (low + 128 * high) * p == low * p + high * (128 * p)
  {
  }

  lemma MulMono(a: nat, b: nat, p: nat)
    requires a <= b
    ensures a * p <= b * p
  {
  }

  lemma {:induction false} MoreBack(v: nat, digit: nat, result: nat, rest: Bytes)
    requires 1 <= digit <= 4 && result < Power128(digit) && result + v * Power128(digit) < TWO32
    ensures Varint32More(EncodeVarint(v) + rest, digit, result)
         == Some(Read(result + v * Power128(digit), |EncodeVarint(v)|))
    decreases 5 - digit
  {
    PowerSteps(digit);
    hide Power128, Varint32More;
    var p := Power128(digit);
    DigitPlaced(v, p, result);
    assert digit == 4 ==> v < 16;
    if v >= 128 {
      var byte := (v % 128 + 128) as Byte;
      var tail := EncodeVarint(v / 128) + rest;
      assert EncodeVarint(v) + rest == [byte] + tail;
      MoreGoesOn(byte, tail, digit, result);
      MoreBack(v / 128, digit + 1, result + v % 128 * p, rest);
    } else {
      assert EncodeVarint(v) + rest == [v as Byte] + rest;
      MoreEnds(v as Byte, rest, digit, result);
    }
  }

  lemma MoreGoesOn(byte: Byte, tail: Bytes, digit: nat, result: nat)
    requires byte >= 128 && digit <= 4
    ensures Varint32More([byte] + tail, digit, result) ==
      var rest := Varint32More(tail, digit + 1, (result + byte as nat % 128 * Power128(digit)) % TWO32);
      if rest.None? then None else Some(Read(rest.value.value, 1 + rest.value.length))
  {
    hide Power128;
    assert ([byte] + tail)[1..] == tail;
  }

  lemma MoreEnds(byte: Byte, tail: Bytes, digit: nat, result: nat)
    requires byte < 128 && digit <= 4 && (digit == 4 ==> byte < 16)
    ensures Varint32More([byte] + tail, digit, result)
         == Some(Read((result + byte as nat * Power128(digit)) % TWO32, 1))
  {
    hide Power128;
  }

  lemma Varint32Back(v: nat, rest: Bytes)
    requires v < TWO32
    ensures Varint32(EncodeVarint(v) + rest) == Some(Read(v, |EncodeVarint(v)|))
  {
    var b := EncodeVarint(v) + rest;
    if v >= 128 {
      PowerSteps(1);
      assert b[1..] == EncodeVarint(v / 128) + rest;
      MoreBack(v / 128, 1, v % 128, rest);
    }
  }

  // ----- Values -----

  datatype Got = Got(value: Value, length: nat)

  /** Two's complement: the upper half of the numbers stands for the negative ones. */
  function Signed(u: nat, half: nat): int {
    if u >= half then u - 2 * half else u
  }

  function UnZigZag(u: nat): int {
    if u % 2 == 1 then -(u / 2) - 1 else u / 2
  }

  predicate InWidth(i: int, w: Width) {
    0 <= i + w.Half() < 2 * w.Half()
  }

  /** As many bytes as a length says. */
  function Prefixed(b: Bytes): (r: Option<Piece>)
    ensures r.Some? ==> |r.value.data| + |r.value.rest| < |b|
  {
    var n := Varint32(b);
    if n.None? then None
    else
      var left := b[n.value.length..];
      if |left| < n.value.value then None else Some(Piece(left[..n.value.value], left[n.value.value..]))
  }

  function DecodeScalar(k: FieldType, b: Bytes): (r: Option<Got>)
    requires !k.Message?
    ensures r.Some? ==> 1 <= r.value.length <= |b|
  {
    match k
    case Bool =>
      var v := Varint32(b);
      if v.None? then None else Some(Got(BoolV(v.value.value != 0), v.value.length))
    case Int(w) =>
      var v := GetVarint64(b);
      if v.None? then None
      else
        // a negative number may have been written as one of 32 bits
        var i := if w == W64 then Signed(v.value.value, W64.Half()) else Signed(v.value.value % TWO32, W32.Half());
        if InWidth(i, w) then Some(Got(IntV(i), v.value.length)) else None
    case UInt(w) =>
      var v := GetVarint64(b);
      if v.None? || v.value.value >= 2 * w.Half() then None else Some(Got(IntV(v.value.value), v.value.length))
    case SInt(w) =>
      var v := GetVarint64(b);
      if v.None? || !InWidth(UnZigZag(v.value.value), w) then None
      else Some(Got(IntV(UnZigZag(v.value.value)), v.value.length))
    case Fixed32 => if |b| < 4 then None else Some(Got(IntV(DecodeFixed32(b[..4])), 4))
    case Fixed64 => if |b| < 8 then None else Some(Got(IntV(DecodeFixed64(b[..8])), 8))
    case BytesOf(max) => DecodeBytes(b, max)
    case StringOf(max) => DecodeBytes(b, max)
    case FixedBytes(size) =>
      var n := Varint32(b);
      if n.None? then None
      else if n.value.value == 0 then Some(Got(BytesV(seq(size, _ => 0)), n.value.length))
      else if n.value.value != size then None
      else
        var p := Prefixed(b);
        if p.None? then None else Some(Got(BytesV(p.value.data), |b| - |p.value.rest|))
  }

  function DecodeBytes(b: Bytes, max: nat): (r: Option<Got>)
    ensures r.Some? ==> 1 <= r.value.length <= |b|
  {
    var n := Varint32(b);
    if n.None? || n.value.value > max then None
    else
      var p := Prefixed(b);
      if p.None? then None else Some(Got(BytesV(p.value.data), |b| - |p.value.rest|))
  }

  // ----- Messages -----

  /** What has been read of a message: its slots, which required fields were seen, and how far the
      last field of a fixed number of elements has got. */
  datatype State = State(slots: seq<Slot>, seen: set<nat>, fixedField: Option<nat>, fixedCount: nat)

  datatype Progress = Progress(state: State, length: nat)

  /** How many of the first `n` fields are required ones. */
  function RequiredBefore(fields: seq<Field>, n: nat): nat
    requires n <= |fields|
  {
    if n == 0 then 0 else RequiredBefore(fields, n - 1) + if fields[n - 1].rule.Required? then 1 else 0
  }

  function Find(fields: seq<Field>, tag: nat, i: nat := 0): (r: Option<nat>)
    requires i <= |fields|
    ensures r.Some? ==> r.value < |fields| && fields[r.value].tag == tag
    ensures r.None? ==> forall j :: i <= j < |fields| ==> fields[j].tag != tag
    decreases |fields| - i
  {
    if i == |fields| then None
    else if fields[i].tag == tag then Some(i)
    else Find(fields, tag, i + 1)
  }

  /** The bytes of a field that is not known. */
  function SkipLength(wireType: nat, b: Bytes): (r: Option<nat>)
    ensures r.Some? ==> r.value <= |b|
  {
    if wireType == VARINT then SkipVarint(b)
    else if wireType == BIT64 then if |b| < 8 then None else Some(8)
    else if wireType == STRING then
      var p := Prefixed(b);
      if p.None? then None else Some(|b| - |p.value.rest|)
    else if wireType == BIT32 then if |b| < 4 then None else Some(4)
    else None
  }

  function SkipVarint(b: Bytes): (r: Option<nat>)
    ensures r.Some? ==> r.value <= |b|
  {
    if b == [] then None
    else if b[0] < 128 then Some(1)
    else
      var rest := SkipVarint(b[1..]);
      if rest.None? then None else Some(rest.value + 1)
  }

  /** Elements up to the end of a packed array, or up to as many as there is room for. */
  function DecodePacked(k: FieldType, vs: seq<Value>, max: nat, b: Bytes): Option<seq<Value>>
    requires !k.Message?
    decreases |b|
  {
    if b == [] then Some(vs)
    else if |vs| >= max then None
    else
      var got := DecodeScalar(k, b);
      if got.None? then None else DecodePacked(k, vs + [got.value.value], max, b[got.value.length..])
  }

  /** The slots that a nested message starts from. */
  function Prior(fields: seq<Field>, before: Value): (slots: seq<Slot>)
    ensures |slots| == |fields|
  {
    if before.MessageV? && |before.slots| == |fields| then before.slots else Defaults(fields)
  }

  function DecodeValue(k: FieldType, before: Value, b: Bytes): (r: Option<Got>)
    ensures r.Some? ==> 1 <= r.value.length <= |b|
    decreases k, 0
  {
    match k
    case Message(fields) =>
      var p := Prefixed(b);
      if p.None? then None
      else
        var slots := DecodeMessage(fields, Prior(fields, before), p.value.data);
        if slots.None? then None else Some(Got(MessageV(slots.value), |b| - |p.value.rest|))
    case _ => DecodeScalar(k, b)
  }

  /** In a union, the last member that came in is the one there is. */
  function PutInUnion(fields: seq<Field>, slots: seq<Slot>, i: nat, v: Value): (r: seq<Slot>)
    requires i < |fields| == |slots|
    ensures |r| == |slots|
  {
    seq(|slots|, j requires 0 <= j < |slots| =>
      if j == i then Maybe(Some(v)) else if fields[j].rule == fields[i].rule then Maybe(None) else slots[j])
  }

  function SlotValue(s: Slot, k: FieldType): Value {
    match s
    case One(v) => v
    case Maybe(Some(v)) => v
    case _ => ZeroOf(k)
  }

  function SlotValues(s: Slot): seq<Value> {
    if s.Many? then s.values else []
  }

  function WithSlot(st: State, i: nat, s: Slot): State
    requires i < |st.slots|
  {
    st.(slots := st.slots[i := s])
  }

  function DecodeFor(f: Field, s: Slot, b: Bytes): (r: Option<Got>)
    ensures r.Some? ==> 1 <= r.value.length <= |b|
    decreases f
  {
    DecodeValue(f.kind, SlotValue(s, f.kind), b)
  }

  /** A field of a single value. */
  function DecodeSingle(fields: seq<Field>, st: State, i: nat, b: Bytes): (r: Option<Progress>)
    requires i < |fields| == |st.slots|
    ensures r.Some? ==> |r.value.state.slots| == |fields| && 1 <= r.value.length <= |b|
    decreases fields, 0
  {
    var f := fields[i];
    var got := DecodeFor(f, st.slots[i], b);
    if got.None? then None
    else
      var v := got.value.value;
      var st' :=
        match f.rule
        case Optional => WithSlot(st, i, Maybe(Some(v)))
        case OneOf(_) => st.(slots := PutInUnion(fields, st.slots, i, v))
        case _ => WithSlot(st, i, One(v));
      var index := RequiredBefore(fields, i);
      Some(Progress(if f.rule.Required? && index < MAX_REQUIRED_FIELDS then st'.(seen := st'.seen + {index}) else st',
                    got.value.length))
  }

  /** One element, or a packed run of elements, of a field of many values. */
  function DecodeElements(f: Field, wireType: nat, vs: seq<Value>, max: nat, b: Bytes): (r: Option<(seq<Value>, nat)>)
    ensures r.Some? ==> 1 <= r.value.1 <= |b|
    decreases f
  {
    if wireType == STRING && Packable(f.kind) then
      var p := Prefixed(b);
      if p.None? then None
      else
        var all := DecodePacked(f.kind, vs, max, p.value.data);
        if all.None? then None else Some((all.value, |b| - |p.value.rest|))
    else if |vs| >= max then None
    else
      var got := DecodeValue(f.kind, ZeroOf(f.kind), b);
      if got.None? then None else Some((vs + [got.value.value], got.value.length))
  }

  function DecodeMany(fields: seq<Field>, st: State, i: nat, wireType: nat, b: Bytes): (r: Option<Progress>)
    requires i < |fields| == |st.slots|
    ensures r.Some? ==> |r.value.state.slots| == |fields| && 1 <= r.value.length <= |b|
    decreases fields, 0
  {
    var f := fields[i];
    if f.rule.FixedCount? then
      if st.fixedField != Some(i) && !FixedComplete(fields, st) then None
      else
        var vs := if st.fixedField == Some(i) then SlotValues(st.slots[i]) else [];
        var got := DecodeElements(f, wireType, vs, f.rule.count, b);
        if got.None? then None
        else
          Some(Progress(State(st.slots[i := Many(got.value.0)], st.seen, Some(i), |got.value.0|), got.value.1))
    else if f.rule.Repeated? then
      var got := DecodeElements(f, wireType, SlotValues(st.slots[i]), f.rule.max, b);
      if got.None? then None else Some(Progress(WithSlot(st, i, Many(got.value.0)), got.value.1))
    else None
  }

  /** The last field of a fixed number of elements has all of them. */
  predicate FixedComplete(fields: seq<Field>, st: State) {
    st.fixedField.Some? && st.fixedField.value < |fields| && fields[st.fixedField.value].rule.FixedCount? ==>
      st.fixedCount == fields[st.fixedField.value].rule.count
  }

  function DecodeField(fields: seq<Field>, st: State, i: nat, wireType: nat, b: Bytes): (r: Option<Progress>)
    requires i < |fields| == |st.slots|
    ensures r.Some? ==> |r.value.state.slots| == |fields| && 1 <= r.value.length <= |b|
    decreases fields, 1
  {
    var f := fields[i];
    if f.rule.Repeated? || f.rule.FixedCount? then DecodeMany(fields, st, i, wireType, b)
    else DecodeSingle(fields, st, i, b)
  }

  /** Fields up to the end, or up to a zero; and how many bytes were left. */
  function DecodeFields(fields: seq<Field>, st: State, b: Bytes): (r: Option<Progress>)
    requires |st.slots| == |fields|
    ensures r.Some? ==> |r.value.state.slots| == |fields|
    decreases fields, 2, |b|
  {
    if b == [] then Some(Progress(st, 0))
    else
      var tag := Varint32(b);
      if tag.None? then None
      else if tag.value.value == 0 then Some(Progress(st, |b| - tag.value.length))
      else
        var i := Find(fields, tag.value.value / 8);
        var wireType := tag.value.value % 8;
        var left := b[tag.value.length..];
        if i.None? then
          var n := SkipLength(wireType, left);
          if n.None? then None else DecodeFields(fields, st, left[n.value..])
        else
          var p := DecodeField(fields, st, i.value, wireType, left);
          if p.None? then None else DecodeFields(fields, p.value.state, left[p.value.length..])
  }

  /** Every required field was seen, of the first ones that are kept account of. */
  predicate RequiredSeen(fields: seq<Field>, seen: set<nat>) {
    forall r: nat :: r < RequiredBefore(fields, |fields|) && r < MAX_REQUIRED_FIELDS ==> r in seen
  }

  function Started(slots: seq<Slot>): State {
    State(slots, {}, None, 0)
  }

  function DecodeMessage(fields: seq<Field>, slots: seq<Slot>, b: Bytes): (r: Option<seq<Slot>>)
    requires |slots| == |fields|
    ensures r.Some? ==> |r.value| == |fields|
    decreases fields, 3
  {
    var p := DecodeFields(fields, Started(slots), b);
    if p.None? || !FixedComplete(fields, p.value.state) || !RequiredSeen(fields, p.value.state.seen) then None
    else Some(p.value.state.slots)
  }

  // ----- Decoding undoes encoding: values -----

  lemma PrefixedBack(data: Bytes, rest: Bytes)
    requires |data| < TWO32
    ensures Prefixed(LengthPrefixed(data) + rest) == Some(Piece(data, rest))
  {
    hide EncodeVarint, Varint32;
    assert LengthPrefixed(data) + rest == EncodeVarint(|data|) + (data + rest);
    Varint32Back(|data|, data + rest);
  }

  lemma LengthBack(data: Bytes, rest: Bytes)
    requires |data| < TWO32
    ensures Varint32(LengthPrefixed(data) + rest).Some? && Varint32(LengthPrefixed(data) + rest).value.value == |data|
    ensures data == [] ==> Varint32(LengthPrefixed(data) + rest).value.length == |LengthPrefixed(data)|
  {
    hide EncodeVarint, Varint32;
    assert LengthPrefixed(data) + rest == EncodeVarint(|data|) + (data + rest);
    Varint32Back(|data|, data + rest);
  }

  lemma SignedBack(i: int, w: Width)
    requires InWidth(i, w)
    ensures w == W64 ==> Signed(i % TWO64, W64.Half()) == i
    ensures w != W64 ==> Signed(i % TWO64 % TWO32, W32.Half()) == i
  {
    if i >= 0 {
      assert i % TWO64 == i && i % TWO64 % TWO32 == i % TWO32;
    } else {
      assert i % TWO64 == i + TWO64;
      assert w != W64 ==> (i + TWO64) % TWO32 == i + TWO32 by {
        assert i + TWO64 == (i + TWO32) + TWO32 * (TWO32 - 1);
      }
    }
  }

  lemma ZigZagBack(i: int)
    ensures UnZigZag(ZigZag(i)) == i
  {
  }

  lemma ScalarBack(k: FieldType, v: Value, rest: Bytes)
    requires !k.Message? && SoundType(k) && Typed(k, v)
    ensures DecodeScalar(k, EncodeValue(k, v) + rest) == Some(Got(v, |EncodeValue(k, v)|))
  {
    hide EncodeVarint, Varint32, GetVarint64, EncodeFixed32, DecodeFixed32, EncodeFixed64, DecodeFixed64,
         LengthPrefixed, Prefixed;
    match k {
      case Bool => Varint32Back(if v.b then 1 else 0, rest);
      case Int(w) =>
        Varint64RoundTrip(v.i % TWO64, rest);
        SignedBack(v.i, w);
      case UInt(w) => Varint64RoundTrip(v.i % TWO64, rest);
      case SInt(w) =>
        Varint64RoundTrip(ZigZag(v.i), rest);
        ZigZagBack(v.i);
      case Fixed32 =>
        Fixed32RoundTrip(v.i);
        assert (EncodeFixed32(v.i % TWO32) + rest)[..4] == EncodeFixed32(v.i % TWO32);
      case Fixed64 =>
        Fixed64RoundTrip(v.i);
        assert (EncodeFixed64(v.i % TWO64) + rest)[..8] == EncodeFixed64(v.i % TWO64);
      case BytesOf(_) => BytesBack(v.bytes, rest);
      case StringOf(_) => BytesBack(v.bytes, rest);
      case FixedBytes(size) =>
        assert size == 0 ==> v.bytes == seq(size, _ => 0);
        BytesBack(v.bytes, rest);
    }
  }

  lemma BytesBack(data: Bytes, rest: Bytes)
    requires |data| < TWO32
    ensures
      var b := LengthPrefixed(data) + rest;
      && Prefixed(b) == Some(Piece(data, rest))
      && Varint32(b).Some? && Varint32(b).value.value == |data|
      && (data == [] ==> Varint32(b).value.length == |LengthPrefixed(data)|)
  {
    PrefixedBack(data, rest);
    LengthBack(data, rest);
  }

  // ----- Decoding undoes encoding: messages -----

  /** The bytes of the fields from the n-th on. */
  function RestOf(fields: seq<Field>, slots: seq<Slot>, n: nat): Bytes
    requires n <= |fields| == |slots|
    decreases |fields| - n
  {
    if n == |fields| then [] else EncodeField(fields[n], slots[n]) + RestOf(fields, slots, n + 1)
  }

  lemma {:induction false} FieldsSplit(fields: seq<Field>, slots: seq<Slot>, n: nat)
    requires n <= |fields| == |slots|
    ensures EncodeFields(fields, slots, |fields|) == EncodeFields(fields, slots, n) + RestOf(fields, slots, n)
    decreases |fields| - n
  {
    hide EncodeField;
    if n < |fields| {
      FieldsSplit(fields, slots, n + 1);
      var a, b, c := EncodeFields(fields, slots, n), EncodeField(fields[n], slots[n]), RestOf(fields, slots, n + 1);
      assert (a + b) + c == a + (b + c);
    }
  }

  lemma {:induction false} FindTag(fields: seq<Field>, n: nat, i: nat)
    requires SoundFields(fields) && i <= n < |fields|
    ensures Find(fields, fields[n].tag, i) == Some(n)
    decreases n - i
  {
    if i < n {
      FindTag(fields, n, i + 1);
    }
  }

  /** A tag that was written is followed by its field. */
  lemma TagReads(fields: seq<Field>, st: State, n: nat, wireType: nat, more: Bytes)
    requires SoundFields(fields) && n < |fields| == |st.slots| && wireType < 8
    ensures
      var p := DecodeField(fields, st, n, wireType, more);
      DecodeFields(fields, st, TagBytes(fields[n].tag, wireType) + more)
      == if p.None? then None else DecodeFields(fields, p.value.state, more[p.value.length..])
  {
    hide EncodeVarint, Varint32, DecodeField, Find;
    var tag := fields[n].tag;
    assert SoundField(fields[n]);
    var b := TagBytes(tag, wireType) + more;
    Varint32Back(8 * tag + wireType, more);
    FindTag(fields, n, 0);
    assert b[|TagBytes(tag, wireType)|..] == more;
    assert (8 * tag + wireType) / 8 == tag && (8 * tag + wireType) % 8 == wireType;
  }

  // ----- Decoding undoes encoding: fields of many values -----

  function ValuesFrom(k: FieldType, vs: seq<Value>, j: nat): Bytes
    requires j <= |vs|
    decreases |vs| - j
  {
    if j == |vs| then [] else EncodeValue(k, vs[j]) + ValuesFrom(k, vs, j + 1)
  }

  lemma {:induction false} ValuesSplit(k: FieldType, vs: seq<Value>, j: nat)
    requires j <= |vs|
    ensures EncodeValues(k, vs, |vs|) == EncodeValues(k, vs, j) + ValuesFrom(k, vs, j)
    decreases |vs| - j
  {
    hide EncodeValue;
    if j < |vs| {
      ValuesSplit(k, vs, j + 1);
      var a, b, c := EncodeValues(k, vs, j), EncodeValue(k, vs[j]), ValuesFrom(k, vs, j + 1);
      assert (a + b) + c == a + (b + c);
    }
  }

  function TaggedFrom(f: Field, vs: seq<Value>, j: nat): Bytes
    requires j <= |vs|
    decreases |vs| - j
  {
    if j == |vs| then []
    else TagBytes(f.tag, WireType(f.kind)) + EncodeValue(f.kind, vs[j]) + TaggedFrom(f, vs, j + 1)
  }

  lemma {:induction false} TaggedSplit(f: Field, vs: seq<Value>, j: nat)
    requires j <= |vs|
    ensures EncodeTagged(f, vs, |vs|) == EncodeTagged(f, vs, j) + TaggedFrom(f, vs, j)
    decreases |vs| - j
  {
    hide EncodeValue, TagBytes;
    if j < |vs| {
      TaggedSplit(f, vs, j + 1);
      var a, c := EncodeTagged(f, vs, j), TaggedFrom(f, vs, j + 1);
      var b := TagBytes(f.tag, WireType(f.kind)) + EncodeValue(f.kind, vs[j]);
      assert (a + b) + c == a + (b + c);
    }
  }

  lemma TaggedWithin(f: Field, vs: seq<Value>, i: nat)
    requires i < |vs|
    ensures |EncodeValue(f.kind, vs[i])| <= |EncodeTagged(f, vs, |vs|)|
  {
    hide EncodeValue, TagBytes;
    TaggedSplit(f, vs, i);
  }
}
