/** The decoder: a stream that is read from front to back, and a message that is filled in place.
    On any bytes it computes what the functions of PbDecode say. */
module PbDecoder {
  import opened Keys
  import opened Coding
  import opened PbMessage
  import opened PbDecode

  class IStream {
    const data: Bytes
    var pos: nat
    var bytesLeft: nat

    constructor (data: Bytes)
      ensures Ok() && Rest() == data
    {
      this.data, pos, bytesLeft := data, 0, |data|;
    }

    /** The bytes that a length in front of them announces. */
    constructor Sub(data: Bytes, pos: nat, bytesLeft: nat)
      requires pos + bytesLeft <= |data|
      ensures Ok() && this.data == data && this.pos == pos && this.bytesLeft == bytesLeft
    {
      this.data, this.pos, this.bytesLeft := data, pos, bytesLeft;
    }

    ghost predicate Ok()
      reads this
    {
      pos + bytesLeft <= |data|
    }

    ghost function Rest(): (b: Bytes)
      requires Ok()
      reads this
      ensures |b| == bytesLeft
    {
      data[pos..pos + bytesLeft]
    }

    /** From a state of the stream that is told, `n` bytes were taken. */
    ghost predicate Took(pos0: nat, left0: nat, n: nat)
      reads this
    {
      n <= left0 && pos == pos0 + n && bytesLeft == left0 - n
    }

    method ReadByte() returns (b: Option<Byte>)
      requires Ok()
      modifies this
      ensures Ok()
      ensures b == if old(bytesLeft) == 0 then None else Some(old(Rest())[0])
      ensures b.Some? ==> Took(old(pos), old(bytesLeft), 1) && Rest() == old(Rest())[1..]
    {
      if bytesLeft == 0 {
        return None;
      }
      b := Some(data[pos]);
      pos, bytesLeft := pos + 1, bytesLeft - 1;
    }

    method ReadBytes(n: nat) returns (b: Option<Bytes>)
      requires Ok()
      modifies this
      ensures Ok()
      ensures b == if old(bytesLeft) < n then None else Some(old(Rest())[..n])
      ensures b.Some? ==> Took(old(pos), old(bytesLeft), n) && Rest() == old(Rest())[n..]
    {
      if bytesLeft < n {
        return None;
      }
      assert data[pos..pos + n] == Rest()[..n];
      b := Some(data[pos..pos + n]);
      pos, bytesLeft := pos + n, bytesLeft - n;
    }

    method DecodeVarint32() returns (v: Option<nat>)
      requires Ok()
      modifies this
      ensures Ok() && v.Some? == Varint32(old(Rest())).Some?
      ensures v.Some? ==> v.value == Varint32(old(Rest())).value.value
                          && Took(old(pos), old(bytesLeft), Varint32(old(Rest())).value.length)
    {
      hide Power128, Varint32More;
      var byte := ReadByte();
      if byte.None? {
        return None;
      }
      if byte.value < 128 {
        return Some(byte.value as nat);
      }
      var digit: nat := 1;
      var result: nat := byte.value as nat - 128;
      var power: nat := 128;
      PowerSteps(0);
      ghost var all := Varint32(old(Rest()));
      while true
        invariant Ok() && Took(old(pos), old(bytesLeft), digit) && power == Power128(digit)
        invariant var more := Varint32More(Rest(), digit, result);
                  all == if more.None? then None else Some(Read(more.value.value, digit + more.value.length))
        decreases bytesLeft
      {
        PowerSteps(digit);
        MoreUnfolds(Rest(), digit, result);
        byte := ReadByte();
        if byte.None? {
          return None;
        }
        if digit >= 5 {
          var signExtension := if digit < 9 then 0xff else 0x01;
          if byte.value % 128 != 0 && (result < 0x8000_0000 || byte.value != signExtension) {
            return None;
          }
        } else {
          result := (result + byte.value as nat % 128 * power) % TWO32;
        }
        digit := digit + 1;
        power := 128 * power;
        if byte.value < 128 {
          if digit == 5 && byte.value >= 16 {
            return None;
          }
          return Some(result);
        }
      }
    }

    method DecodeVarint() returns (v: Option<nat>)
      requires Ok()
      modifies this
      ensures Ok() && v.Some? == GetVarint64(old(Rest())).Some?
      ensures v.Some? ==> v.value == GetVarint64(old(Rest())).value.value
                          && Took(old(pos), old(bytesLeft), GetVarint64(old(Rest())).value.length)
    {
      hide Power128, DecodeVarintRest, Times, GetVarint64;
      var digit: nat := 0;
      var result: nat := 0;
      var power: nat := 1;
      AllIsRest(Rest());
      ghost var all := DecodeVarintRest(Rest(), 0);
      while digit < MAX_VARINT64
        invariant Ok() && digit <= MAX_VARINT64 && Took(old(pos), old(bytesLeft), digit) && power == Power128(digit)
        invariant var more := DecodeVarintRest(Rest(), digit);
                  all == if more.None? then None
                         else Some(Read(result + Times(power, more.value.value), digit + more.value.length))
        decreases MAX_VARINT64 - digit
      {
        PowerSteps(digit);
        RestUnfolds(Rest(), digit);
        var byte := ReadByte();
        if byte.None? {
          return None;
        }
        ghost var more := DecodeVarintRest(Rest(), digit + 1);
        if byte.value < 128 {
          return Some((result + Times(power, byte.value as nat)) % TWO64);
        }
        if more.Some? {
          TimesDigit(power, byte.value as nat - 128, more.value.value);
        }
        result := result + Times(power, byte.value as nat - 128);
        digit := digit + 1;
        power := 128 * power;
      }
      RestUnfolds(Rest(), digit);
      v := None;
    }

    method SkipVarint() returns (ok: bool)
      requires Ok()
      modifies this
      ensures Ok() && ok == PbDecode.SkipVarint(old(Rest())).Some?
      ensures ok ==> Took(old(pos), old(bytesLeft), PbDecode.SkipVarint(old(Rest())).value)
    {
      ghost var all := PbDecode.SkipVarint(Rest());
      ghost var n: nat := 0;
      while true
        invariant Ok() && Took(old(pos), old(bytesLeft), n)
        invariant var more := PbDecode.SkipVarint(Rest()); all == if more.None? then None else Some(n + more.value)
        decreases bytesLeft
      {
        var byte := ReadByte();
        if byte.None? {
          return false;
        }
        if byte.value < 128 {
          return true;
        }
        n := n + 1;
      }
    }

    /** Takes a length and as many bytes off the stream; they are to be read from the substream. */
    method MakeSubstream() returns (sub: Option<IStream>)
      requires Ok()
      modifies this
      ensures Ok() && sub.Some? == Prefixed(old(Rest())).Some?
      ensures sub.Some? ==>
        var p := Prefixed(old(Rest())).value;
        && fresh(sub.value) && sub.value.Ok() && sub.value.data == data && sub.value.Rest() == p.data
        && pos == sub.value.pos == old(pos) + (old(bytesLeft) - |p.rest| - |p.data|)
        && bytesLeft == |p.rest| && sub.value.bytesLeft == |p.data|
    {
      hide Varint32;
      var size := DecodeVarint32();
      if size.None? || bytesLeft < size.value {
        return None;
      }
      var stream := new IStream.Sub(data, pos, size.value);
      bytesLeft := bytesLeft - size.value;
      assert stream.Rest() == Prefixed(old(Rest())).value.data;
      return Some(stream);
    }

    /** Goes on behind the substream, whether all of it was read or not. */
    method CloseSubstream(sub: IStream)
      requires sub != this && sub.Ok() && sub.data == data && sub.pos + sub.bytesLeft + bytesLeft <= |data|
      modifies this, sub
      ensures Ok() && pos == old(sub.pos + sub.bytesLeft) && bytesLeft == old(bytesLeft)
    {
      var _ := sub.ReadBytes(sub.bytesLeft);
      pos := sub.pos;
    }

    method SkipField(wireType: nat) returns (ok: bool)
      requires Ok()
      modifies this
      ensures Ok() && ok == SkipLength(wireType, old(Rest())).Some?
      ensures ok ==> Took(old(pos), old(bytesLeft), SkipLength(wireType, old(Rest())).value)
    {
      hide Prefixed;
      if wireType == VARINT {
        ok := SkipVarint();
      } else if wireType == BIT64 {
        var b := ReadBytes(8);
        ok := b.Some?;
      } else if wireType == STRING {
        var sub := MakeSubstream();
        if sub.None? {
          return false;
        }
        CloseSubstream(sub.value);
        ok := true;
      } else if wireType == BIT32 {
        var b := ReadBytes(4);
        ok := b.Some?;
      } else {
        ok := false;
      }
    }
  }

  function Times(p: nat, x: nat): nat {
    p * x
  }

  lemma TimesDigit(p: nat, low: nat, high: nat)
    ensures Times(p, low + 128 * high) == Times(p, low) + Times(128 * p, high)
  {
    assert p * (128 * high) == 128 * p * high;
  }

  /** The digits of a varint after the first `digit`. */
  function DecodeVarintRest(b: Bytes, digit: nat): Option<Read>
    requires digit <= MAX_VARINT64
  {
    DecodeVarint(b, MAX_VARINT64 - digit)
  }

  lemma MoreUnfolds(b: Bytes, digit: nat, result: nat)
    ensures Varint32More(b, digit, result) ==
      if b == [] then None
      else
        var byte := b[0] as nat;
        if digit >= 5 && byte % 128 != 0 && (result < 0x8000_0000 || byte != if digit < 9 then 0xff else 0x01) then None
        else
          var result' := if digit >= 5 then result else (result + byte % 128 * Power128(digit)) % TWO32;
          if byte >= 128 then
            var rest := Varint32More(b[1..], digit + 1, result');
            if rest.None? then None else Some(Read(rest.value.value, 1 + rest.value.length))
          else if digit == 4 && byte >= 16 then None
          else Some(Read(result', 1))
  {
    hide Power128;
  }

  lemma AllIsRest(b: Bytes)
    ensures Power128(0) == 1
    ensures
      var all := DecodeVarintRest(b, 0);
      && (all.Some? ==> Times(1, all.value.value) == all.value.value)
      && GetVarint64(b) == if all.None? then None else Some(Read(all.value.value % TWO64, all.value.length))
  {
  }

  lemma RestUnfolds(b: Bytes, digit: nat)
    requires digit <= MAX_VARINT64
    ensures digit == MAX_VARINT64 || b == [] ==> DecodeVarintRest(b, digit) == None
    ensures digit < MAX_VARINT64 && b != [] && b[0] < 128 ==> DecodeVarintRest(b, digit) == Some(Read(b[0] as nat, 1))
    ensures digit < MAX_VARINT64 && b != [] && b[0] >= 128 ==>
      var more := DecodeVarintRest(b[1..], digit + 1);
      DecodeVarintRest(b, digit) == if more.None? then None
                                    else Some(Read(b[0] as nat - 128 + 128 * more.value.value, 1 + more.value.length))
  {
  }

  // ----- Going around the fields of a message -----

  class FieldIter {
    const fields: seq<Field>
    var pos: nat
    /** How many required fields come before this one. */
    var requiredIndex: nat

    constructor (fields: seq<Field>)
      ensures Ok() && this.fields == fields
    {
      this.fields, pos, requiredIndex := fields, 0, 0;
    }

    ghost predicate Ok()
      reads this
    {
      (pos < |fields| || pos == |fields| == 0) && requiredIndex == RequiredBefore(fields, pos)
    }

    /** On to the next field; from the last one back to the first, and then it says no. */
    method Next() returns (more: bool)
      requires Ok()
      modifies this
      ensures Ok() && more == (old(pos) + 1 < |fields|)
      ensures fields != [] ==> pos == if more then old(pos) + 1 else 0
    {
      if fields == [] {
        return false;
      }
      if pos + 1 == |fields| {
        pos, requiredIndex := 0, 0;
        return false;
      }
      if fields[pos].rule.Required? {
        requiredIndex := requiredIndex + 1;
      }
      pos := pos + 1;
      more := true;
    }

    /** Whether a search that began at `start`, and has moved on, has been at field `j`. */
    ghost predicate Visited(start: nat, j: nat)
      reads this
    {
      if pos > start then start <= j < pos else start <= j || j < pos
    }

    /** Goes on from wherever it is, once around, until it is at the field with the tag. */
    method Find(tag: nat) returns (found: bool)
      requires Ok() && SoundFields(fields)
      modifies this
      ensures Ok() && found == PbDecode.Find(fields, tag).Some?
      ensures found ==> pos < |fields| && PbDecode.Find(fields, tag) == Some(pos)
    {
      hide SoundFields;
      if fields == [] {
        return false;
      }
      var start := pos;
      if fields[pos].tag == tag {
        FindIs(fields, tag, pos);
        return true;
      }
      var _ := Next();
      while pos != start
        invariant Ok() && start < |fields| && fields[start].tag != tag
        invariant forall j :: 0 <= j < |fields| && Visited(start, j) ==> fields[j].tag != tag
        decreases if pos > start then |fields| - pos + |fields| else if pos < start then start - pos else 0
      {
        if fields[pos].tag == tag {
          FindIs(fields, tag, pos);
          return true;
        }
        var _ := Next();
      }
      found := false;
    }
  }

  lemma FindIs(fields: seq<Field>, tag: nat, i: nat)
    requires SoundFields(fields) && i < |fields| && fields[i].tag == tag
    ensures PbDecode.Find(fields, tag) == Some(i)
  {
    FindTag(fields, i, 0);
  }

  // ----- Fields and messages -----

  method ReadPrefixed(s: IStream, max: nat) returns (b: Option<Bytes>)
    requires s.Ok()
    modifies s
    ensures s.Ok() && b.Some? == DecodeBytes(old(s.Rest()), max).Some?
    ensures b.Some? ==>
      var got := DecodeBytes(old(s.Rest()), max).value;
      BytesV(b.value) == got.value && s.Took(old(s.pos), old(s.bytesLeft), got.length)
  {
    hide Varint32;
    var size := s.DecodeVarint32();
    if size.None? || size.value > max {
      return None;
    }
    b := s.ReadBytes(size.value);
  }

  /** Everything but nested messages. */
  method ReadScalar(s: IStream, k: FieldType) returns (v: Option<Value>)
    requires s.Ok() && !k.Message?
    modifies s
    ensures s.Ok() && v.Some? == DecodeScalar(k, old(s.Rest())).Some?
    ensures v.Some? ==>
      var got := DecodeScalar(k, old(s.Rest())).value;
      v.value == got.value && s.Took(old(s.pos), old(s.bytesLeft), got.length)
  {
    hide Varint32, GetVarint64, Prefixed, DecodeFixed32, DecodeFixed64, DecodeBytes;
    match k
    case Bool =>
      var n := s.DecodeVarint32();
      v := if n.None? then None else Some(BoolV(n.value != 0));
    case Int(w) =>
      var n := s.DecodeVarint();
      if n.None? {
        return None;
      }
      var i := if w == W64 then Signed(n.value, W64.Half()) else Signed(n.value % TWO32, W32.Half());
      v := if InWidth(i, w) then Some(IntV(i)) else None;
    case UInt(w) =>
      var n := s.DecodeVarint();
      v := if n.None? || n.value >= 2 * w.Half() then None else Some(IntV(n.value));
    case SInt(w) =>
      var n := s.DecodeVarint();
      v := if n.None? || !InWidth(UnZigZag(n.value), w) then None else Some(IntV(UnZigZag(n.value)));
    case Fixed32 =>
      var b := s.ReadBytes(4);
      v := if b.None? then None else Some(IntV(DecodeFixed32(b.value)));
    case Fixed64 =>
      var b := s.ReadBytes(8);
      v := if b.None? then None else Some(IntV(DecodeFixed64(b.value)));
    case BytesOf(max) =>
      var b := ReadPrefixed(s, max);
      v := if b.None? then None else Some(BytesV(b.value));
    case StringOf(max) =>
      var b := ReadPrefixed(s, max);
      v := if b.None? then None else Some(BytesV(b.value));
    case FixedBytes(size) => v := ReadFixedBytes(s, size);
  }

  method ReadFixedBytes(s: IStream, size: nat) returns (v: Option<Value>)
    requires s.Ok()
    modifies s
    ensures s.Ok() && v.Some? == DecodeScalar(FixedBytes(size), old(s.Rest())).Some?
    ensures v.Some? ==>
      var got := DecodeScalar(FixedBytes(size), old(s.Rest())).value;
      v.value == got.value && s.Took(old(s.pos), old(s.bytesLeft), got.length)
  {
    hide Varint32;
    var n := s.DecodeVarint32();
    if n.None? {
      return None;
    }
    if n.value == 0 {
      return Some(BytesV(seq(size, _ => 0)));
    }
    if n.value != size {
      return None;
    }
    var b := s.ReadBytes(size);
    v := if b.None? then None else Some(BytesV(b.value));
  }

  method ReadValue(s: IStream, k: FieldType, before: Value) returns (v: Option<Value>)
    requires s.Ok() && SoundType(k)
    modifies s
    ensures s.Ok() && v.Some? == DecodeValue(k, before, old(s.Rest())).Some?
    ensures v.Some? ==>
      var got := DecodeValue(k, before, old(s.Rest())).value;
      v.value == got.value && s.Took(old(s.pos), old(s.bytesLeft), got.length)
    decreases k, 0
  {
    hide DecodeMessage, DecodeScalar, Prefixed;
    if !k.Message? {
      v := ReadScalar(s, k);
      return;
    }
    var sub := s.MakeSubstream();
    if sub.None? {
      return None;
    }
    ghost var end := sub.value.pos + sub.value.bytesLeft;
    var slots := ReadMessage(sub.value, k.fields, Prior(k.fields, before));
    if slots.None? {
      return None;
    }
    s.CloseSubstream(sub.value);
    v := Some(MessageV(slots.value));
  }

  method ReadPacked(s: IStream, k: FieldType, vs0: seq<Value>, max: nat) returns (vs: Option<seq<Value>>)
    requires s.Ok() && !k.Message?
    modifies s
    ensures s.Ok() && vs == DecodePacked(k, vs0, max, old(s.Rest()))
    ensures vs.Some? ==> s.pos + s.bytesLeft == old(s.pos + s.bytesLeft)
  {
    hide DecodeScalar;
    var got := vs0;
    while s.bytesLeft > 0 && |got| < max
      invariant s.Ok() && s.pos + s.bytesLeft == old(s.pos + s.bytesLeft)
      invariant DecodePacked(k, got, max, s.Rest()) == DecodePacked(k, vs0, max, old(s.Rest()))
      decreases s.bytesLeft
    {
      var v := ReadScalar(s, k);
      if v.None? {
        return None;
      }
      got := got + [v.value];
    }
    vs := if s.bytesLeft != 0 then None else Some(got);
  }

  /** One element, or a packed run of them. */
  method ReadElements(s: IStream, f: Field, wireType: nat, vs0: seq<Value>, max: nat) returns (vs: Option<seq<Value>>)
    requires s.Ok() && SoundField(f)
    modifies s
    ensures s.Ok() && vs.Some? == DecodeElements(f, wireType, vs0, max, old(s.Rest())).Some?
    ensures vs.Some? ==>
      var got := DecodeElements(f, wireType, vs0, max, old(s.Rest())).value;
      vs.value == got.0 && s.Took(old(s.pos), old(s.bytesLeft), got.1)
    decreases f
  {
    hide DecodeValue, DecodePacked, Prefixed, SoundType;
    if wireType == STRING && Packable(f.kind) {
      var sub := s.MakeSubstream();
      if sub.None? {
        return None;
      }
      vs := ReadPacked(sub.value, f.kind, vs0, max);
      if vs.None? {
        return;
      }
      s.CloseSubstream(sub.value);
    } else {
      if |vs0| >= max {
        return None;
      }
      var v := ReadValue(s, f.kind, ZeroOf(f.kind));
      vs := if v.None? then None else Some(vs0 + [v.value]);
    }
  }

  method ReadFor(s: IStream, f: Field, slot: Slot) returns (v: Option<Value>)
    requires s.Ok() && SoundField(f)
    modifies s
    ensures s.Ok() && v.Some? == DecodeFor(f, slot, old(s.Rest())).Some?
    ensures v.Some? ==>
      var got := DecodeFor(f, slot, old(s.Rest())).value;
      v.value == got.value && s.Took(old(s.pos), old(s.bytesLeft), got.length)
    decreases f
  {
    hide DecodeValue, SoundType;
    v := ReadValue(s, f.kind, SlotValue(slot, f.kind));
  }

  /** Reads a field's value or elements, and puts them where they belong. */
  method ReadField(s: IStream, fields: seq<Field>, st0: State, i: nat, requiredIndex: nat, wireType: nat)
    returns (st: Option<State>)
    requires s.Ok() && SoundFields(fields) && i < |fields| == |st0.slots| && requiredIndex == RequiredBefore(fields, i)
    modifies s
    ensures s.Ok() && st.Some? == DecodeField(fields, st0, i, wireType, old(s.Rest())).Some?
    ensures st.Some? ==>
      var p := DecodeField(fields, st0, i, wireType, old(s.Rest())).value;
      st.value == p.state && s.Took(old(s.pos), old(s.bytesLeft), p.length)
    decreases fields, 1
  {
    assert SoundField(fields[i]);
    hide DecodeFor, DecodeElements, SoundFields, SoundField, RequiredBefore;
    var f := fields[i];
    match f.rule
    case FixedCount(count) =>
      if st0.fixedField != Some(i) && !FixedComplete(fields, st0) {
        return None;
      }
      var vs0 := if st0.fixedField == Some(i) then SlotValues(st0.slots[i]) else [];
      var vs := ReadElements(s, f, wireType, vs0, count);
      st := if vs.None? then None
            else Some(State(st0.slots[i := Many(vs.value)], st0.seen, Some(i), |vs.value|));
    case Repeated(max) =>
      var vs := ReadElements(s, f, wireType, SlotValues(st0.slots[i]), max);
      st := if vs.None? then None else Some(WithSlot(st0, i, Many(vs.value)));
    case Optional =>
      var v := ReadFor(s, f, st0.slots[i]);
      st := if v.None? then None else Some(WithSlot(st0, i, Maybe(v)));
    case OneOf(_) =>
      var v := ReadFor(s, f, st0.slots[i]);
      st := if v.None? then None else Some(st0.(slots := PutInUnion(fields, st0.slots, i, v.value)));
    case Singular =>
      var v := ReadFor(s, f, st0.slots[i]);
      st := if v.None? then None else Some(WithSlot(st0, i, One(v.value)));
    case Required =>
      var v := ReadFor(s, f, st0.slots[i]);
      if v.None? {
        return None;
      }
      var st' := WithSlot(st0, i, One(v.value));
      st := Some(if requiredIndex < MAX_REQUIRED_FIELDS then st'.(seen := st'.seen + {requiredIndex}) else st');
  }

  /** The loop over the fields that come in, in whatever order. */
  method ReadFields(s: IStream, iter: FieldIter, fields: seq<Field>, st0: State) returns (st: Option<State>)
    requires s.Ok() && SoundFields(fields) && |st0.slots| == |fields| && iter.Ok() && iter.fields == fields
    modifies s, iter
    ensures s.Ok() && iter.Ok() && st.Some? == DecodeFields(fields, st0, old(s.Rest())).Some?
    ensures st.Some? ==>
      var p := DecodeFields(fields, st0, old(s.Rest())).value;
      st.value == p.state && s.bytesLeft == p.length && s.pos + s.bytesLeft == old(s.pos + s.bytesLeft)
    decreases fields, 2
  {
    hide DecodeField, SoundFields, Varint32, PbDecode.Find, SkipLength;
    var state := st0;
    while s.bytesLeft > 0
      invariant s.Ok() && iter.Ok() && s.pos + s.bytesLeft == old(s.pos + s.bytesLeft) && |state.slots| == |fields|
      invariant DecodeFields(fields, state, s.Rest()) == DecodeFields(fields, st0, old(s.Rest()))
      decreases s.bytesLeft
    {
      var tag := s.DecodeVarint32();
      if tag.None? {
        return None;
      }
      if tag.value == 0 {
        return Some(state);
      }
      var found := iter.Find(tag.value / 8);
      if found {
        var next := ReadField(s, fields, state, iter.pos, iter.requiredIndex, tag.value % 8);
        if next.None? {
          return None;
        }
        state := next.value;
      } else {
        var ok := s.SkipField(tag.value % 8);
        if !ok {
          return None;
        }
      }
    }
    st := Some(state);
  }

  /** Decoding into slots that hold something: nothing, or what `DecodeMessage` makes of the bytes. */
  method ReadMessage(s: IStream, fields: seq<Field>, slots0: seq<Slot>) returns (slots: Option<seq<Slot>>)
    requires s.Ok() && SoundFields(fields) && |slots0| == |fields|
    modifies s
    ensures s.Ok() && slots == DecodeMessage(fields, slots0, old(s.Rest()))
    ensures slots.Some? ==> s.pos + s.bytesLeft == old(s.pos + s.bytesLeft)
    decreases fields, 3
  {
    hide DecodeFields, SoundFields;
    var iter := new FieldIter(fields);
    var st := ReadFields(s, iter, fields, Started(slots0));
    if st.None? || !FixedComplete(fields, st.value) {
      return None;
    }
    var count := CountRequired(iter);
    var r: nat := 0;
    while r < count && r < MAX_REQUIRED_FIELDS
      invariant forall q: nat :: q < r ==> q in st.value.seen
    {
      if r !in st.value.seen {
        return None;
      }
      r := r + 1;
    }
    slots := Some(st.value.slots);
  }

  /** How many required fields there are: the iterator goes on to the last field and counts. */
  method CountRequired(iter: FieldIter) returns (n: nat)
    requires iter.Ok()
    modifies iter
    ensures iter.Ok() && n == RequiredBefore(iter.fields, |iter.fields|)
  {
    n := iter.requiredIndex;
    if iter.fields == [] {
      return;
    }
    var last := iter.pos;
    var more := iter.Next();
    while more
      invariant iter.Ok() && last < |iter.fields| && n == RequiredBefore(iter.fields, last)
      invariant if more then iter.pos == last + 1 else last + 1 == |iter.fields|
      decreases |iter.fields| - last
    {
      n, last := iter.requiredIndex, iter.pos;
      more := iter.Next();
    }
    if iter.fields[last].rule.Required? {
      n := n + 1;
    }
  }

  /** A whole buffer. */
  method Decode(fields: seq<Field>, bytes: Bytes) returns (slots: Option<seq<Slot>>)
    requires SoundFields(fields)
    ensures slots == DecodeMessage(fields, Defaults(fields), bytes)
  {
    hide DecodeMessage, SoundFields, Defaults;
    var s := new IStream(bytes);
    slots := ReadMessage(s, fields, Defaults(fields));
  }
}
