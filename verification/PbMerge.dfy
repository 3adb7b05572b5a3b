/** What comes out when the fields of a message come in.  They may come in any order; some may be left
    out; fields that the reader does not know may stand between them; and what they are decoded into
    may hold something already, with which nested messages and arrays are merged.  That a message's
    own bytes give it back is one case of this. */
module PbMerge {
  import opened Keys
  import opened Coding
  import opened PbMessage
  import opened PbDecode
  import opened PbSkip

  // ----- Merging -----

  /** Whether a field is written at all. */
  predicate Present(f: Field, s: Slot) {
    match s
    case One(v) => !f.rule.Singular? || !IsZero(f.kind, v)
    case Maybe(o) => o.Some?
    case Many(vs) => vs != []
  }

  /** A message that comes in where there is one is merged with it; any other value replaces what was
      there. */
  ghost function MergedValue(k: FieldType, before: Value, v: Value): Value
    decreases k
  {
    if k.Message? && v.MessageV? && |v.slots| == |k.fields| then
      MessageV(Merged(k.fields, Prior(k.fields, before), v.slots))
    else v
  }

  /** Elements that come in follow those that are there, except in an array of fixed length, which
      comes as a whole. */
  ghost function MergedSlot(f: Field, before: Slot, s: Slot): Slot
    decreases f
  {
    match s
    case One(v) => One(MergedValue(f.kind, SlotValue(before, f.kind), v))
    case Maybe(None) => before
    case Maybe(Some(v)) => Maybe(Some(MergedValue(f.kind, SlotValue(before, f.kind), v)))
    case Many(vs) => Many(if f.rule.FixedCount? then vs else SlotValues(before) + vs)
  }

  /** Another member of the field's union came in. */
  ghost predicate Ousted(fields: seq<Field>, slots: seq<Slot>, came: set<nat>, i: nat)
    requires i < |fields| == |slots|
  {
    && fields[i].rule.OneOf?
    && exists m: nat :: m in came && m < |fields| && m != i && fields[m].rule == fields[i].rule
                        && Present(fields[m], slots[m])
  }

  /** One slot, after the fields in `came` have come in. */
  ghost function SlotAfter(fields: seq<Field>, before: seq<Slot>, slots: seq<Slot>, came: set<nat>, i: nat): Slot
    requires i < |fields| == |slots| == |before|
    decreases fields, 0
  {
    if i in came && Present(fields[i], slots[i]) then MergedSlot(fields[i], before[i], slots[i])
    else if Ousted(fields, slots, came, i) then Maybe(None)
    else before[i]
  }

  ghost function MergedSome(fields: seq<Field>, before: seq<Slot>, slots: seq<Slot>, came: set<nat>): (r: seq<Slot>)
    requires |fields| == |slots| == |before|
    ensures |r| == |fields|
    decreases fields, 1
  {
    seq(|fields|, i requires 0 <= i < |fields| => SlotAfter(fields, before, slots, came, i))
  }

  function All(n: nat): (all: set<nat>)
    ensures forall i: nat :: i in all <==> i < n
  {
    if n == 0 then {} else All(n - 1) + {n - 1}
  }

  ghost function Merged(fields: seq<Field>, before: seq<Slot>, slots: seq<Slot>): (r: seq<Slot>)
    requires |fields| == |slots| == |before|
    ensures |r| == |fields|
    decreases fields, 2
  {
    MergedSome(fields, before, slots, All(|fields|))
  }

  /** The arrays have room for what comes in, on every level. */
  ghost predicate ValueFits(k: FieldType, before: Value, v: Value)
    decreases k
  {
    k.Message? && v.MessageV? && |v.slots| == |k.fields| ==> AllFit(k.fields, Prior(k.fields, before), v.slots)
  }

  ghost predicate SlotFits(f: Field, before: Slot, s: Slot)
    decreases f
  {
    match s
    case One(v) => ValueFits(f.kind, SlotValue(before, f.kind), v)
    case Maybe(None) => true
    case Maybe(Some(v)) => ValueFits(f.kind, SlotValue(before, f.kind), v)
    case Many(vs) => f.rule.Repeated? ==> |SlotValues(before)| + |vs| <= f.rule.max
  }

  ghost predicate FieldFits(fields: seq<Field>, before: seq<Slot>, slots: seq<Slot>, i: nat)
    requires i < |fields| == |slots| == |before|
    decreases fields, 0
  {
    Present(fields[i], slots[i]) ==> SlotFits(fields[i], before[i], slots[i])
  }

  ghost predicate AllFit(fields: seq<Field>, before: seq<Slot>, slots: seq<Slot>)
    requires |fields| == |slots| == |before|
    decreases fields, 1
  {
    forall i: nat :: i < |fields| ==> FieldFits(fields, before, slots, i)
  }

  /** What merging comes to: the elements that come in follow those that are there; messages are merged
      field by field, with a fresh one if there is none; and of any other two values the new one stays. */
  lemma MergedIs(f: Field, before: Slot, s: Slot)
    ensures before.Many? && s.Many? && !f.rule.FixedCount? ==>
      MergedSlot(f, before, s) == Many(before.values + s.values)
    ensures before.Many? && s.Many? && f.rule.Repeated? ==>
      (SlotFits(f, before, s) <==> |before.values| + |s.values| <= f.rule.max)
    ensures s.Many? && f.rule.FixedCount? ==> MergedSlot(f, before, s) == s
    ensures !f.kind.Message? && !s.Many? && s != Maybe(None) ==> MergedSlot(f, before, s) == s
    ensures s == Maybe(None) ==> MergedSlot(f, before, s) == before
  {
  }

  /** A message where there is one. */
  lemma MessagesMerge(f: Field, fields: seq<Field>, there: seq<Slot>, came: seq<Slot>)
    requires f.kind == Message(fields) && |fields| == |there| == |came|
    ensures MergedSlot(f, One(MessageV(there)), One(MessageV(came))) == One(MessageV(Merged(fields, there, came)))
    ensures MergedSlot(f, Maybe(Some(MessageV(there))), Maybe(Some(MessageV(came))))
         == Maybe(Some(MessageV(Merged(fields, there, came))))
    ensures MergedSlot(f, Maybe(None), Maybe(Some(MessageV(came))))
         == Maybe(Some(MessageV(Merged(fields, Defaults(fields), came))))
    ensures SlotFits(f, One(MessageV(there)), One(MessageV(came))) <==> AllFit(fields, there, came)
  {
    hide Merged, AllFit;
  }

  // ----- Into a fresh message, merging changes nothing -----

  lemma {:induction false} MergedFresh(k: FieldType, v: Value)
    requires SoundType(k) && Typed(k, v)
    ensures MergedValue(k, ZeroOf(k), v) == v && ValueFits(k, ZeroOf(k), v)
    decreases k, 0
  {
    hide Merged, AllFit;
    if k.Message? {
      MergedDefaults(k.fields, v.slots);
    }
  }

  lemma {:induction false} MergedSlotFresh(f: Field, s: Slot)
    requires SoundField(f) && TypedSlot(f, s)
    ensures Present(f, s) ==> MergedSlot(f, Default(f), s) == s && SlotFits(f, Default(f), s)
    ensures !Present(f, s) ==> Default(f) == s
    decreases f, 0
  {
    hide MergedValue, ValueFits, IsZero, ZeroOf;
    match s {
      case One(v) =>
        MergedFresh(f.kind, v);
        if !Present(f, s) {
          ZeroIsZero(f.kind, v);
        }
      case Maybe(None) =>
      case Maybe(Some(v)) => MergedFresh(f.kind, v);
      case Many(vs) => assert [] + vs == vs;
    }
  }

  lemma {:induction false} MergedDefaults(fields: seq<Field>, slots: seq<Slot>)
    requires SoundFields(fields) && TypedSlots(fields, slots)
    ensures Merged(fields, Defaults(fields), slots) == slots && AllFit(fields, Defaults(fields), slots)
    decreases fields, 0
  {
    assert |fields| == |slots|;
    hide MergedSlot, SlotFits, Default, Present;
    var before := Defaults(fields);
    forall i: nat | i < |fields|
      ensures SlotAfter(fields, before, slots, All(|fields|), i) == slots[i] && FieldFits(fields, before, slots, i)
    {
      assert SoundField(fields[i]) && TypedSlot(fields[i], slots[i]);
      assert before[i] == Default(fields[i]);
      MergedSlotFresh(fields[i], slots[i]);
      AbsentMember(fields[i], slots[i]);
    }
    assert Merged(fields, before, slots) == slots;
  }

  lemma AbsentMember(f: Field, s: Slot)
    requires TypedSlot(f, s)
    ensures f.rule.OneOf? && !Present(f, s) ==> s == Maybe(None)
  {
  }

  // ----- What comes in -----

  /** A field of the message, or one that its description does not have. */
  datatype Part = Known(index: nat) | Foreign(field: Field, slot: Slot)

  ghost predicate PartOk(fields: seq<Field>, slots: seq<Slot>, p: Part)
    requires |fields| == |slots|
  {
    match p
    case Known(i) => i < |fields|
    case Foreign(f, s) => Unknown(fields, f) && TypedSlot(f, s)
  }

  function PartBytes(fields: seq<Field>, slots: seq<Slot>, p: Part): Bytes
    requires |fields| == |slots|
  {
    match p
    case Known(i) => if i < |fields| then EncodeField(fields[i], slots[i]) else []
    case Foreign(f, s) => EncodeField(f, s)
  }

  /** The bytes of the parts from the n-th on. */
  function BytesFrom(fields: seq<Field>, slots: seq<Slot>, parts: seq<Part>, n: nat): Bytes
    requires n <= |parts| && |fields| == |slots|
    decreases |parts| - n
  {
    if n == |parts| then [] else PartBytes(fields, slots, parts[n]) + BytesFrom(fields, slots, parts, n + 1)
  }

  /** The known fields among the first `n` parts. */
  function Came(parts: seq<Part>, n: nat): set<nat>
    requires n <= |parts|
  {
    if n == 0 then {}
    else if parts[n - 1].Known? then Came(parts, n - 1) + {parts[n - 1].index}
    else Came(parts, n - 1)
  }

  /** Parts that may come in: no known field twice. */
  ghost predicate PartsOk(fields: seq<Field>, slots: seq<Slot>, parts: seq<Part>)
    requires |fields| == |slots|
  {
    && (forall n :: 0 <= n < |parts| ==> PartOk(fields, slots, parts[n]))
    && (forall n :: 0 <= n < |parts| && parts[n].Known? ==> parts[n].index !in Came(parts, n))
  }

  lemma {:induction false} CameIs(parts: seq<Part>, n: nat)
    requires n <= |parts|
    ensures forall i :: i in Came(parts, n) <==> exists m :: 0 <= m < n && parts[m] == Known(i)
  {
    if n > 0 {
      CameIs(parts, n - 1);
    }
  }

  // ----- What has been read -----

  /** The last array of fixed length among the first `n` parts. */
  function LastFixed(fields: seq<Field>, parts: seq<Part>, n: nat): (r: Option<nat>)
    requires n <= |parts|
    ensures r.Some? ==> r.value < |fields| && fields[r.value].rule.FixedCount? && r.value in Came(parts, n)
  {
    if n == 0 then None
    else
      var p := parts[n - 1];
      if p.Known? && p.index < |fields| && fields[p.index].rule.FixedCount? then Some(p.index)
      else LastFixed(fields, parts, n - 1)
  }

  ghost function SeenAmong(fields: seq<Field>, came: set<nat>): set<nat> {
    set i | i in came && i < |fields| && fields[i].rule.Required? && RequiredBefore(fields, i) < MAX_REQUIRED_FIELDS
      :: RequiredBefore(fields, i)
  }

  /** The state after the first `n` parts have come into another. */
  ghost function StateAfter(fields: seq<Field>, start: State, slots: seq<Slot>, parts: seq<Part>, n: nat): (st: State)
    requires n <= |parts| && |fields| == |slots| == |start.slots|
    ensures |st.slots| == |fields|
  {
    var last := LastFixed(fields, parts, n);
    State(MergedSome(fields, start.slots, slots, Came(parts, n)),
          start.seen + SeenAmong(fields, Came(parts, n)),
          if last.Some? then last else start.fixedField,
          if last.Some? then fields[last.value].rule.count else start.fixedCount)
  }

  // ----- One field comes in -----

  lemma PresentIff(f: Field, s: Slot)
    requires TypedSlot(f, s)
    ensures EncodeField(f, s) == [] <==> !Present(f, s)
  {
    hide EncodeValue, EncodeValues, IsZero, EncodeVarint, Typed;
    var tag := TagBytes(f.tag, WireType(f.kind));
    assert |tag| > 0;
    match s {
      case One(v) => assert |EncodeOne(f, v)| > 0;
      case Maybe(o) =>
        if o.Some? {
          assert |EncodeOne(f, o.value)| > 0;
        }
      case Many(vs) =>
        if vs != [] {
          var n := |vs|;
          assert |TagBytes(f.tag, STRING) + LengthPrefixed(EncodeValues(f.kind, vs, n))| > 0;
          assert EncodeTagged(f, vs, n) == EncodeTagged(f, vs, n - 1) + (tag + EncodeValue(f.kind, vs[n - 1]));
          assert |EncodeTagged(f, vs, n)| > 0;
        }
    }
  }

  /** Of the members of a union, one at most is there. */
  lemma OnlyMember(fields: seq<Field>, slots: seq<Slot>, i: nat, m: nat)
    requires TypedSlots(fields, slots) && i < |fields| && m < |fields| && m != i
    requires fields[i].rule.OneOf? && fields[m].rule == fields[i].rule && Present(fields[i], slots[i])
    ensures !Present(fields[m], slots[m])
  {
    hide Typed;
    assert TypedSlot(fields[m], slots[m]) && TypedSlot(fields[i], slots[i]);
  }

  /** What is in a slot before its field comes in: another member of its union cannot have come. */
  lemma StillBefore(fields: seq<Field>, before: seq<Slot>, slots: seq<Slot>, came: set<nat>, i: nat)
    requires TypedSlots(fields, slots) && |fields| == |before| && i < |fields| && i !in came
    requires Present(fields[i], slots[i])
    ensures SlotAfter(fields, before, slots, came, i) == before[i]
  {
    assert |fields| == |slots|;
    hide MergedSlot, Typed, Present, TypedSlots;
    forall m: nat | m < |fields| && m != i && fields[i].rule.OneOf? && fields[m].rule == fields[i].rule
      ensures !Present(fields[m], slots[m])
    {
      OnlyMember(fields, slots, i, m);
    }
  }

  /** A field that is not written changes nothing. */
  lemma AbsentCame(fields: seq<Field>, before: seq<Slot>, slots: seq<Slot>, came: set<nat>, i: nat)
    requires |fields| == |slots| == |before| && i < |fields| && !Present(fields[i], slots[i])
    ensures MergedSome(fields, before, slots, came + {i}) == MergedSome(fields, before, slots, came)
  {
    hide MergedSlot, Present;
    forall j | 0 <= j < |fields|
      ensures SlotAfter(fields, before, slots, came + {i}, j) == SlotAfter(fields, before, slots, came, j)
    {
      assert Ousted(fields, slots, came + {i}, j) <==> Ousted(fields, slots, came, j);
    }
  }

  /** A field that is not a member of a union changes its own slot only. */
  lemma SlotCame(fields: seq<Field>, before: seq<Slot>, slots: seq<Slot>, came: set<nat>, i: nat)
    requires |fields| == |slots| == |before| && i < |fields| && Present(fields[i], slots[i])
    requires !fields[i].rule.OneOf?
    ensures MergedSome(fields, before, slots, came + {i})
         == MergedSome(fields, before, slots, came)[i := MergedSlot(fields[i], before[i], slots[i])]
  {
    hide MergedSlot, Present;
    forall j | 0 <= j < |fields| && j != i
      ensures SlotAfter(fields, before, slots, came + {i}, j) == SlotAfter(fields, before, slots, came, j)
    {
      assert Ousted(fields, slots, came + {i}, j) <==> Ousted(fields, slots, came, j);
    }
  }

  /** A member of a union that comes in is the only one there is. */
  lemma UnionCame(fields: seq<Field>, before: seq<Slot>, slots: seq<Slot>, came: set<nat>, i: nat, v: Value)
    requires TypedSlots(fields, slots) && |fields| == |before| && i < |fields| && Present(fields[i], slots[i])
    requires fields[i].rule.OneOf? && MergedSlot(fields[i], before[i], slots[i]) == Maybe(Some(v))
    ensures MergedSome(fields, before, slots, came + {i})
         == PutInUnion(fields, MergedSome(fields, before, slots, came), i, v)
  {
    assert |fields| == |slots|;
    hide MergedSlot, SlotAfter, TypedSlots, Present;
    var now, earlier := MergedSome(fields, before, slots, came + {i}), MergedSome(fields, before, slots, came);
    forall j | 0 <= j < |fields| ensures now[j] == PutInUnion(fields, earlier, i, v)[j] {
      UnionSlot(fields, before, slots, came, i, j);
    }
  }

  lemma UnionSlot(fields: seq<Field>, before: seq<Slot>, slots: seq<Slot>, came: set<nat>, i: nat, j: nat)
    requires TypedSlots(fields, slots) && |fields| == |before| && i < |fields| && j < |fields|
    requires fields[i].rule.OneOf? && Present(fields[i], slots[i])
    ensures SlotAfter(fields, before, slots, came + {i}, j) ==
      if j == i then MergedSlot(fields[i], before[i], slots[i])
      else if fields[j].rule == fields[i].rule then Maybe(None)
      else SlotAfter(fields, before, slots, came, j)
  {
    assert |fields| == |slots|;
    hide MergedSlot, TypedSlots, Present;
    if j != i {
      if fields[j].rule == fields[i].rule {
        OnlyMember(fields, slots, i, j);
        assert i in came + {i};
      } else {
        assert Ousted(fields, slots, came + {i}, j) <==> Ousted(fields, slots, came, j);
      }
    }
  }

  lemma SeenMore(fields: seq<Field>, came: set<nat>, i: nat)
    requires i < |fields|
    ensures SeenAmong(fields, came + {i}) ==
      if fields[i].rule.Required? && RequiredBefore(fields, i) < MAX_REQUIRED_FIELDS
      then SeenAmong(fields, came) + {RequiredBefore(fields, i)} else SeenAmong(fields, came)
  {
    hide RequiredBefore;
    var a, b := SeenAmong(fields, came + {i}), SeenAmong(fields, came);
    forall r ensures r in a <==>
        r in b || (fields[i].rule.Required? && RequiredBefore(fields, i) < MAX_REQUIRED_FIELDS
                   && r == RequiredBefore(fields, i))
    {
      if r in b {
        var j :| j in came && j < |fields| && fields[j].rule.Required?
                 && RequiredBefore(fields, j) < MAX_REQUIRED_FIELDS && r == RequiredBefore(fields, j);
        assert j in came + {i};
      }
    }
  }

  /** A single value that comes in. */
  lemma SingleCame(
      fields: seq<Field>, start: State, slots: seq<Slot>, parts: seq<Part>, n: nat, i: nat, v: Value,
      wireType: nat, b: Bytes, length: nat)
    requires TypedSlots(fields, slots) && |fields| == |start.slots| && i < |fields|
    requires n < |parts| && parts[n] == Known(i) && i !in Came(parts, n) && Present(fields[i], slots[i])
    requires MergedSlot(fields[i], start.slots[i], slots[i]) == One(v)
          || MergedSlot(fields[i], start.slots[i], slots[i]) == Maybe(Some(v))
    requires slots[i].One? || slots[i].Maybe?
    requires DecodeFor(fields[i], start.slots[i], b) == Some(Got(v, length))
    ensures DecodeField(fields, StateAfter(fields, start, slots, parts, n), i, wireType, b)
         == Some(Progress(StateAfter(fields, start, slots, parts, n + 1), length))
  {
    assert |fields| == |slots| && TypedSlot(fields[i], slots[i]);
    hide DecodeFor, MergedSlot, TypedSlots, Present, SlotAfter, SeenAmong, RequiredBefore, Typed, PutInUnion;
    var came := Came(parts, n);
    StillBefore(fields, start.slots, slots, came, i);
    SeenMore(fields, came, i);
    var seen, r := SeenAmong(fields, came), {RequiredBefore(fields, i)};
    assert start.seen + seen + r == start.seen + (seen + r);
    if fields[i].rule.OneOf? {
      UnionCame(fields, start.slots, slots, came, i, v);
    } else {
      SlotCame(fields, start.slots, slots, came, i);
    }
  }

  /** A single value that cannot be decoded into what is there. */
  lemma SingleRefused(
      fields: seq<Field>, start: State, slots: seq<Slot>, parts: seq<Part>, n: nat, i: nat, wireType: nat,
      b: Bytes)
    requires TypedSlots(fields, slots) && |fields| == |start.slots| && i < |fields|
    requires n <= |parts| && i !in Came(parts, n) && Present(fields[i], slots[i])
    requires slots[i].One? || slots[i].Maybe?
    requires DecodeFor(fields[i], start.slots[i], b) == None
    ensures DecodeField(fields, StateAfter(fields, start, slots, parts, n), i, wireType, b) == None
  {
    assert |fields| == |slots| && TypedSlot(fields[i], slots[i]);
    hide DecodeFor, TypedSlots, Present, SlotAfter, SeenAmong, RequiredBefore, Typed;
    StillBefore(fields, start.slots, slots, Came(parts, n), i);
  }

  // ----- The elements of an array come in -----

  function Room(f: Field): nat {
    match f.rule
    case Repeated(max) => max
    case FixedCount(count) => count
    case _ => 0
  }

  predicate IsArray(f: Field) {
    f.rule.Repeated? || f.rule.FixedCount?
  }

  /** The elements that those which come in are to follow. */
  function Leading(f: Field, s: Slot): seq<Value> {
    if f.rule.FixedCount? then [] else SlotValues(s)
  }

  function Taken(fields: seq<Field>, st: State, i: nat, all: seq<Value>): (r: State)
    requires i < |fields| == |st.slots|
    ensures |r.slots| == |fields|
  {
    if fields[i].rule.FixedCount? then State(st.slots[i := Many(all)], st.seen, Some(i), |all|)
    else WithSlot(st, i, Many(all))
  }

  /** The state after `j` elements. */
  function Midway(fields: seq<Field>, st: State, i: nat, vs: seq<Value>, j: nat): (r: State)
    requires i < |fields| == |st.slots| && j <= |vs|
    ensures |r.slots| == |fields|
  {
    if j == 0 then st else Taken(fields, st, i, Leading(fields[i], st.slots[i]) + vs[..j])
  }

  /** If the array is of fixed length, it is not under way, and no other one is. */
  ghost predicate Untouched(fields: seq<Field>, st: State, i: nat)
    requires i < |fields|
  {
    fields[i].rule.FixedCount? ==> st.fixedField != Some(i) && FixedComplete(fields, st)
  }

  lemma ElementsCome(fields: seq<Field>, st: State, i: nat, vs: seq<Value>, j: nat, wireType: nat, b: Bytes)
    requires i < |fields| == |st.slots| && IsArray(fields[i]) && Untouched(fields, st, i) && j <= |vs|
    ensures
      var all := Leading(fields[i], st.slots[i]) + vs[..j];
      var r := DecodeElements(fields[i], wireType, all, Room(fields[i]), b);
      DecodeField(fields, Midway(fields, st, i, vs, j), i, wireType, b) ==
        if r.None? then None else Some(Progress(Taken(fields, st, i, r.value.0), r.value.1))
  {
    hide DecodeElements;
    var all := Leading(fields[i], st.slots[i]) + vs[..j];
    assert j == 0 ==> all == Leading(fields[i], st.slots[i]);
    var r := DecodeElements(fields[i], wireType, all, Room(fields[i]), b);
    if r.Some? {
      assert st.slots[i := Many(all)][i := Many(r.value.0)] == st.slots[i := Many(r.value.0)];
    }
  }

  lemma ArrayCame(fields: seq<Field>, start: State, slots: seq<Slot>, parts: seq<Part>, n: nat, i: nat)
    requires TypedSlots(fields, slots) && |fields| == |start.slots| && i < |fields| && IsArray(fields[i])
    requires n < |parts| && parts[n] == Known(i) && i !in Came(parts, n) && Present(fields[i], slots[i])
    requires Untouched(fields, StateAfter(fields, start, slots, parts, n), i)
    ensures
      var st := StateAfter(fields, start, slots, parts, n);
      && slots[i].Many? && st.slots[i] == start.slots[i] && Untouched(fields, st, i)
      && Taken(fields, st, i, Leading(fields[i], start.slots[i]) + slots[i].values)
         == StateAfter(fields, start, slots, parts, n + 1)
  {
    assert |fields| == |slots| && TypedSlot(fields[i], slots[i]);
    hide TypedSlots, Present, SlotAfter, SeenAmong, RequiredBefore, Typed;
    var came := Came(parts, n);
    StillBefore(fields, start.slots, slots, came, i);
    SeenMore(fields, came, i);
    SlotCame(fields, start.slots, slots, came, i);
    assert [] + slots[i].values == slots[i].values;
  }

  lemma NoValues(k: FieldType, vs: seq<Value>)
    ensures EncodeValues(k, vs, 0) == [] && EncodeValues(k, vs, 0) + ValuesFrom(k, vs, 0) == ValuesFrom(k, vs, 0)
  {
  }

  /** A packed array is taken as long as there is room for its elements. */
  lemma {:induction false} PackedMerges(k: FieldType, lead: seq<Value>, vs: seq<Value>, max: nat, j: nat)
    requires Packable(k) && SoundType(k) && forall i :: 0 <= i < |vs| ==> Typed(k, vs[i])
    requires j < |vs| || (j == |vs| && |lead| + |vs| <= max)
    ensures DecodePacked(k, lead + vs[..j], max, ValuesFrom(k, vs, j)) ==
      if |lead| + |vs| <= max then Some(lead + vs) else None
    decreases |vs| - j
  {
    hide EncodeValue, DecodeScalar;
    if j == |vs| {
      assert vs[..j] == vs;
    } else {
      var bytes, rest := EncodeValue(k, vs[j]), ValuesFrom(k, vs, j + 1);
      ScalarBack(k, vs[j], rest);
      assert |bytes| >= 1;
      assert (bytes + rest)[|bytes|..] == rest;
      assert lead + vs[..j] + [vs[j]] == lead + vs[..j + 1];
      if |lead| + j < max && (j + 1 < |vs| || |lead| + |vs| <= max) {
        PackedMerges(k, lead, vs, max, j + 1);
      }
    }
  }

  /** A packed array, into an array that is not under way. */
  lemma PackedTaken(fields: seq<Field>, st: State, i: nat, vs: seq<Value>, more: Bytes)
    requires SoundFields(fields) && i < |fields| == |st.slots| && IsArray(fields[i]) && Untouched(fields, st, i)
    requires Packable(fields[i].kind) && vs != [] && forall j :: 0 <= j < |vs| ==> Typed(fields[i].kind, vs[j])
    requires |EncodeField(fields[i], Many(vs))| < TWO32
    ensures
      var lead := Leading(fields[i], st.slots[i]);
      DecodeFields(fields, st, EncodeField(fields[i], Many(vs)) + more) ==
        if |lead| + |vs| <= Room(fields[i]) then DecodeFields(fields, Taken(fields, st, i, lead + vs), more) else None
  {
    assert SoundField(fields[i]);
    hide EncodeValue, EncodeValues, DecodeFields, TagBytes, EncodeVarint, Prefixed, DecodePacked, Typed, SoundType,
         ValuesFrom, Taken, IsArray, Untouched, SoundFields;
    var f := fields[i];
    var lead := Leading(f, st.slots[i]);
    var data := EncodeValues(f.kind, vs, |vs|);
    var bytes := LengthPrefixed(data);
    assert EncodeField(f, Many(vs)) + more == TagBytes(f.tag, STRING) + (bytes + more);
    TagReads(fields, st, i, STRING, bytes + more);
    PrefixedBack(data, more);
    ValuesSplit(f.kind, vs, 0);
    NoValues(f.kind, vs);
    PackedMerges(f.kind, lead, vs, Room(f), 0);
    assert vs[..0] == [] && lead + [] == lead;
    ElementsCome(fields, st, i, vs, 0, STRING, bytes + more);
    assert (bytes + more)[|bytes|..] == more;
  }

  lemma PackedField(
      fields: seq<Field>, start: State, slots: seq<Slot>, parts: seq<Part>, n: nat, i: nat, more: Bytes)
    requires SoundFields(fields) && TypedSlots(fields, slots) && |fields| == |start.slots| && i < |fields|
    requires n < |parts| && parts[n] == Known(i) && i !in Came(parts, n) && Present(fields[i], slots[i])
    requires IsArray(fields[i]) && Packable(fields[i].kind) && |EncodeField(fields[i], slots[i])| < TWO32
    requires Untouched(fields, StateAfter(fields, start, slots, parts, n), i)
    ensures
      DecodeFields(fields, StateAfter(fields, start, slots, parts, n), EncodeField(fields[i], slots[i]) + more) ==
        if SlotFits(fields[i], start.slots[i], slots[i])
        then DecodeFields(fields, StateAfter(fields, start, slots, parts, n + 1), more) else None
  {
    assert |fields| == |slots| && SoundField(fields[i]) && TypedSlot(fields[i], slots[i]);
    ArrayCame(fields, start, slots, parts, n, i);
    hide EncodeField, DecodeFields, Typed, SoundFields, TypedSlots, StateAfter, MergedSlot, ValueFits, Taken;
    PackedTaken(fields, StateAfter(fields, start, slots, parts, n), i, slots[i].values, more);
  }

  /** One element that comes by itself. */
  lemma TaggedStep(fields: seq<Field>, st: State, i: nat, vs: seq<Value>, j: nat, bytes: Bytes, rest: Bytes)
    requires SoundFields(fields) && i < |fields| == |st.slots| && IsArray(fields[i]) && Untouched(fields, st, i)
    requires j < |vs|
    requires DecodeValue(fields[i].kind, ZeroOf(fields[i].kind), bytes + rest) == Some(Got(vs[j], |bytes|))
    ensures
      DecodeFields(fields, Midway(fields, st, i, vs, j),
                   TagBytes(fields[i].tag, WireType(fields[i].kind)) + (bytes + rest)) ==
        if |Leading(fields[i], st.slots[i])| + j < Room(fields[i])
        then DecodeFields(fields, Midway(fields, st, i, vs, j + 1), rest) else None
  {
    hide DecodeValue, DecodeFields, TagBytes, SoundFields, ZeroOf, Midway, Taken;
    var f := fields[i];
    var lead := Leading(f, st.slots[i]);
    WireTypeSmall(f.kind);
    TagReads(fields, Midway(fields, st, i, vs, j), i, WireType(f.kind), bytes + rest);
    ElementsCome(fields, st, i, vs, j, WireType(f.kind), bytes + rest);
    assert lead + vs[..j] + [vs[j]] == lead + vs[..j + 1];
    NextMidway(fields, st, i, vs, j);
    assert (bytes + rest)[|bytes|..] == rest;
  }

  /** Elements that come one by one follow those that are there, as long as there is room. */
  lemma {:induction false} TaggedMerges(fields: seq<Field>, st: State, i: nat, vs: seq<Value>, j: nat, more: Bytes)
    requires SoundFields(fields) && i < |fields| == |st.slots| && IsArray(fields[i]) && Untouched(fields, st, i)
    requires var n := |Leading(fields[i], st.slots[i])| + |vs|; j < |vs| || (j == |vs| && n <= Room(fields[i]))
    requires forall l, rest {:trigger EncodeValue(fields[i].kind, vs[l]) + rest} :: 0 <= l < |vs| ==>
      DecodeValue(fields[i].kind, ZeroOf(fields[i].kind), EncodeValue(fields[i].kind, vs[l]) + rest)
      == Some(Got(vs[l], |EncodeValue(fields[i].kind, vs[l])|))
    ensures DecodeFields(fields, Midway(fields, st, i, vs, j), TaggedFrom(fields[i], vs, j) + more) ==
      if |Leading(fields[i], st.slots[i])| + |vs| <= Room(fields[i])
      then DecodeFields(fields, Midway(fields, st, i, vs, |vs|), more) else None
    decreases |vs| - j
  {
    hide EncodeValue, DecodeValue, DecodeFields, TagBytes, SoundFields, ZeroOf, Midway, Leading, Room, IsArray,
         Untouched, WireType;
    var f := fields[i];
    if j == |vs| {
      assert [] + more == more;
    } else {
      var bytes, rest := EncodeValue(f.kind, vs[j]), TaggedFrom(f, vs, j + 1) + more;
      assert TaggedFrom(f, vs, j) + more == TagBytes(f.tag, WireType(f.kind)) + (bytes + rest);
      TaggedStep(fields, st, i, vs, j, bytes, rest);
      if |Leading(f, st.slots[i])| + j < Room(f) {
        TaggedMerges(fields, st, i, vs, j + 1, more);
      }
    }
  }

  lemma NextMidway(fields: seq<Field>, st: State, i: nat, vs: seq<Value>, j: nat)
    requires i < |fields| == |st.slots| && j < |vs|
    ensures Midway(fields, st, i, vs, j + 1) == Taken(fields, st, i, Leading(fields[i], st.slots[i]) + vs[..j + 1])
  {
  }

  // ----- All together -----

  lemma ElementFresh(k: FieldType, v: Value, rest: Bytes)
    requires SoundType(k) && Typed(k, v)
    requires DecodeValue(k, ZeroOf(k), EncodeValue(k, v) + rest) ==
      if ValueFits(k, ZeroOf(k), v) then Some(Got(MergedValue(k, ZeroOf(k), v), |EncodeValue(k, v)|)) else None
    ensures DecodeValue(k, ZeroOf(k), EncodeValue(k, v) + rest) == Some(Got(v, |EncodeValue(k, v)|))
  {
    hide EncodeValue, DecodeValue;
    MergedFresh(k, v);
  }

  lemma {:induction false} ValueMerges(k: FieldType, before: Value, v: Value, rest: Bytes)
    requires SoundType(k) && Typed(k, v) && |EncodeValue(k, v)| < TWO32
    ensures DecodeValue(k, before, EncodeValue(k, v) + rest) ==
      if ValueFits(k, before, v) then Some(Got(MergedValue(k, before, v), |EncodeValue(k, v)|)) else None
    decreases k, 0
  {
    hide EncodeFields, DecodeMessage, DecodeScalar, EncodeVarint, Prefixed, Merged, AllFit;
    if k.Message? {
      MessageMerges(k.fields, Prior(k.fields, before), v.slots);
      PrefixedBack(EncodeFields(k.fields, v.slots, |k.fields|), rest);
    } else {
      ScalarBack(k, v, rest);
    }
  }

  lemma {:induction false} FieldValueMerges(f: Field, before: Value, v: Value, rest: Bytes)
    requires SoundField(f) && Typed(f.kind, v) && |EncodeValue(f.kind, v)| < TWO32
    ensures DecodeValue(f.kind, before, EncodeValue(f.kind, v) + rest) ==
      if ValueFits(f.kind, before, v) then Some(Got(MergedValue(f.kind, before, v), |EncodeValue(f.kind, v)|))
      else None
    decreases f
  {
    hide EncodeValue, DecodeValue, SoundType, Typed, ValueFits, MergedValue;
    assert SoundType(f.kind);
    ValueMerges(f.kind, before, v, rest);
  }

  lemma {:induction false} OneFieldMerges(
      fields: seq<Field>, start: State, slots: seq<Slot>, parts: seq<Part>, n: nat, i: nat, v: Value, more: Bytes)
    requires SoundFields(fields) && TypedSlots(fields, slots) && |fields| == |start.slots| && i < |fields|
    requires n < |parts| && parts[n] == Known(i) && i !in Came(parts, n) && Present(fields[i], slots[i])
    requires (slots[i] == One(v) || slots[i] == Maybe(Some(v))) && |EncodeOne(fields[i], v)| < TWO32
    ensures
      DecodeFields(fields, StateAfter(fields, start, slots, parts, n), EncodeOne(fields[i], v) + more) ==
        if SlotFits(fields[i], start.slots[i], slots[i])
        then DecodeFields(fields, StateAfter(fields, start, slots, parts, n + 1), more) else None
    decreases fields, 0
  {
    assert |fields| == |slots| && SoundField(fields[i]) && TypedSlot(fields[i], slots[i]);
    hide EncodeValue, DecodeValue, DecodeFields, StateAfter, Typed, TagBytes, SoundType, ValueFits, MergedValue,
         Present, Came;
    var f, st := fields[i], StateAfter(fields, start, slots, parts, n);
    var bytes, prior := EncodeValue(f.kind, v), SlotValue(start.slots[i], f.kind);
    FieldValueMerges(f, prior, v, more);
    OneReads(fields, st, i, v, more);
    hide SoundFields, TypedSlots, DecodeField, SoundField, EncodeOne, TypedSlot;
    if ValueFits(f.kind, prior, v) {
      SingleCame(fields, start, slots, parts, n, i, MergedValue(f.kind, prior, v), WireType(f.kind), bytes + more,
                 |bytes|);
      assert (bytes + more)[|bytes|..] == more;
    } else {
      SingleRefused(fields, start, slots, parts, n, i, WireType(f.kind), bytes + more);
    }
  }

  lemma OneReads(fields: seq<Field>, st: State, i: nat, v: Value, more: Bytes)
    requires SoundFields(fields) && i < |fields| == |st.slots|
    ensures
      var left := EncodeValue(fields[i].kind, v) + more;
      var p := DecodeField(fields, st, i, WireType(fields[i].kind), left);
      DecodeFields(fields, st, EncodeOne(fields[i], v) + more) ==
        if p.None? then None else DecodeFields(fields, p.value.state, left[p.value.length..])
  {
    hide EncodeValue, DecodeField, DecodeFields, TagBytes, SoundFields;
    var f := fields[i];
    WireTypeSmall(f.kind);
    assert EncodeOne(f, v) + more == TagBytes(f.tag, WireType(f.kind)) + (EncodeValue(f.kind, v) + more);
    TagReads(fields, st, i, WireType(f.kind), EncodeValue(f.kind, v) + more);
  }

  /** An array whose elements come one by one, also one of a kind that could have been packed. */
  lemma {:induction false} TaggedFieldMerges(
      fields: seq<Field>, start: State, slots: seq<Slot>, parts: seq<Part>, n: nat, i: nat, more: Bytes)
    requires SoundFields(fields) && TypedSlots(fields, slots) && |fields| == |start.slots| && i < |fields|
    requires n < |parts| && parts[n] == Known(i) && i !in Came(parts, n) && Present(fields[i], slots[i])
    requires IsArray(fields[i]) && slots[i].Many?
    requires |EncodeTagged(fields[i], slots[i].values, |slots[i].values|)| < TWO32
    requires Untouched(fields, StateAfter(fields, start, slots, parts, n), i)
    ensures
      var bytes := EncodeTagged(fields[i], slots[i].values, |slots[i].values|);
      DecodeFields(fields, StateAfter(fields, start, slots, parts, n), bytes + more) ==
        if SlotFits(fields[i], start.slots[i], slots[i])
        then DecodeFields(fields, StateAfter(fields, start, slots, parts, n + 1), more) else None
    decreases fields, 0
  {
    assert |fields| == |slots| && SoundField(fields[i]) && TypedSlot(fields[i], slots[i]);
    ArrayCame(fields, start, slots, parts, n, i);
    hide EncodeValue, DecodeValue, DecodeFields, StateAfter, Typed, ZeroOf, TagBytes, SoundType, TaggedFrom, ValueFits,
         MergedValue, Came, TypedSlots, Taken;
    var f, st, vs := fields[i], StateAfter(fields, start, slots, parts, n), slots[i].values;
    forall l, rest | 0 <= l < |vs|
      ensures DecodeValue(f.kind, ZeroOf(f.kind), EncodeValue(f.kind, vs[l]) + rest)
           == Some(Got(vs[l], |EncodeValue(f.kind, vs[l])|))
    {
      TaggedWithin(f, vs, l);
      FieldValueMerges(f, ZeroOf(f.kind), vs[l], rest);
      ElementFresh(f.kind, vs[l], rest);
    }
    NoTags(f, vs);
    TaggedSplit(f, vs, 0);
    TaggedMerges(fields, st, i, vs, 0, more);
    assert vs[..|vs|] == vs;
  }

  /** One field of the message comes in. */
  lemma {:induction false} FieldMerges(
      fields: seq<Field>, start: State, slots: seq<Slot>, parts: seq<Part>, n: nat, i: nat, more: Bytes)
    requires SoundFields(fields) && TypedSlots(fields, slots) && |fields| == |start.slots| && i < |fields|
    requires n < |parts| && parts[n] == Known(i) && i !in Came(parts, n) && Present(fields[i], slots[i])
    requires |EncodeField(fields[i], slots[i])| < TWO32
    requires Untouched(fields, StateAfter(fields, start, slots, parts, n), i)
    ensures
      DecodeFields(fields, StateAfter(fields, start, slots, parts, n), EncodeField(fields[i], slots[i]) + more) ==
        if SlotFits(fields[i], start.slots[i], slots[i])
        then DecodeFields(fields, StateAfter(fields, start, slots, parts, n + 1), more) else None
    decreases fields, 1
  {
    assert |fields| == |slots| && SoundField(fields[i]) && TypedSlot(fields[i], slots[i]);
    hide EncodeValue, DecodeFields, StateAfter, Typed, TagBytes, EncodeValues, EncodeTagged, SlotFits, TypedSlots,
         SoundFields, EncodeOne, Came, IsZero, SoundType;
    match slots[i] {
      case One(v) => OneFieldMerges(fields, start, slots, parts, n, i, v, more);
      case Maybe(o) => OneFieldMerges(fields, start, slots, parts, n, i, o.value, more);
      case Many(vs) =>
        if Packable(fields[i].kind) {
          PackedField(fields, start, slots, parts, n, i, more);
        } else {
          TaggedFieldMerges(fields, start, slots, parts, n, i, more);
        }
    }
  }

  /** All known fields from the n-th part on find room. */
  ghost predicate FitFrom(fields: seq<Field>, before: seq<Slot>, slots: seq<Slot>, parts: seq<Part>, n: nat)
    requires |fields| == |slots| == |before|
  {
    forall m :: n <= m < |parts| && parts[m].Known? && parts[m].index < |fields| ==>
      FieldFits(fields, before, slots, parts[m].index)
  }

  /** A field that is not written leaves the state as it is. */
  lemma AbsentPart(fields: seq<Field>, start: State, slots: seq<Slot>, parts: seq<Part>, n: nat, i: nat)
    requires SoundFields(fields) && TypedSlots(fields, slots) && |fields| == |start.slots| && i < |fields|
    requires n < |parts| && parts[n] == Known(i) && !Present(fields[i], slots[i])
    ensures StateAfter(fields, start, slots, parts, n + 1) == StateAfter(fields, start, slots, parts, n)
  {
    assert |fields| == |slots| && SoundField(fields[i]) && TypedSlot(fields[i], slots[i]);
    AbsentCame(fields, start.slots, slots, Came(parts, n), i);
    SeenMore(fields, Came(parts, n), i);
    hide SeenAmong, SlotAfter, RequiredBefore, TypedSlots, SoundFields, Typed, SoundType;
  }

  lemma {:induction false} PartMerges(
      fields: seq<Field>, start: State, slots: seq<Slot>, parts: seq<Part>, n: nat, more: Bytes)
    requires SoundFields(fields) && TypedSlots(fields, slots) && |fields| == |start.slots|
    requires n < |parts| && PartOk(fields, slots, parts[n]) && (parts[n].Known? ==> parts[n].index !in Came(parts, n))
    requires |PartBytes(fields, slots, parts[n])| < TWO32
    requires parts[n].Known? ==> Untouched(fields, StateAfter(fields, start, slots, parts, n), parts[n].index)
    ensures
      DecodeFields(fields, StateAfter(fields, start, slots, parts, n), PartBytes(fields, slots, parts[n]) + more) ==
        if parts[n].Known? ==> FieldFits(fields, start.slots, slots, parts[n].index)
        then DecodeFields(fields, StateAfter(fields, start, slots, parts, n + 1), more) else None
    decreases fields, 2
  {
    assert |fields| == |slots|;
    hide EncodeField, DecodeFields, SlotFits, Present, MergedSome, SeenAmong, Unknown;
    match parts[n] {
      case Known(i) =>
        if Present(fields[i], slots[i]) {
          FieldMerges(fields, start, slots, parts, n, i, more);
        } else {
          assert TypedSlot(fields[i], slots[i]);
          PresentIff(fields[i], slots[i]);
          AbsentPart(fields, start, slots, parts, n, i);
          assert [] + more == more;
        }
      case Foreign(f, s) =>
        FieldSkipped(fields, StateAfter(fields, start, slots, parts, n), f, s, more);
    }
  }

  /** No array of fixed length that comes in is under way already: none is when the parts begin, or one
      that is complete, and another comes before it comes again. */
  ghost predicate Ready(fields: seq<Field>, start: State, parts: seq<Part>) {
    && FixedComplete(fields, start)
    && forall n :: 0 <= n < |parts| && parts[n].Known? && start.fixedField == Some(parts[n].index) ==>
         LastFixed(fields, parts, n).Some?
  }

  lemma NotUnderWay(fields: seq<Field>, start: State, slots: seq<Slot>, parts: seq<Part>, n: nat)
    requires |fields| == |slots| == |start.slots| && n < |parts| && PartOk(fields, slots, parts[n])
    requires parts[n].Known? && parts[n].index !in Came(parts, n) && Ready(fields, start, parts)
    ensures Untouched(fields, StateAfter(fields, start, slots, parts, n), parts[n].index)
  {
    hide SlotAfter, SeenAmong;
  }

  lemma PartAt(fields: seq<Field>, before: seq<Slot>, slots: seq<Slot>, parts: seq<Part>, n: nat)
    requires |fields| == |slots| == |before| && PartsOk(fields, slots, parts) && n < |parts|
    ensures PartOk(fields, slots, parts[n])
    ensures parts[n].Known? ==> parts[n].index < |fields| && parts[n].index !in Came(parts, n)
    ensures FitFrom(fields, before, slots, parts, n) <==>
      (parts[n].Known? ==> FieldFits(fields, before, slots, parts[n].index))
      && FitFrom(fields, before, slots, parts, n + 1)
  {
    hide FieldFits;
    assert PartOk(fields, slots, parts[n]);
  }

  lemma BytesAt(fields: seq<Field>, slots: seq<Slot>, parts: seq<Part>, n: nat, more: Bytes)
    requires n < |parts| && |fields| == |slots|
    ensures
      var part, rest := PartBytes(fields, slots, parts[n]), BytesFrom(fields, slots, parts, n + 1);
      BytesFrom(fields, slots, parts, n) + more == part + (rest + more)
    ensures
      |BytesFrom(fields, slots, parts, n)|
      == |PartBytes(fields, slots, parts[n])| + |BytesFrom(fields, slots, parts, n + 1)|
  {
    hide PartBytes;
    var part, rest := PartBytes(fields, slots, parts[n]), BytesFrom(fields, slots, parts, n + 1);
    assert (part + rest) + more == part + (rest + more);
  }

  lemma AtTheEnd(fields: seq<Field>, before: seq<Slot>, slots: seq<Slot>, parts: seq<Part>, more: Bytes)
    requires |fields| == |slots| == |before|
    ensures FitFrom(fields, before, slots, parts, |parts|)
    ensures BytesFrom(fields, slots, parts, |parts|) + more == more
  {
  }

  lemma {:induction false} PartsMerge(
      fields: seq<Field>, start: State, slots: seq<Slot>, parts: seq<Part>, n: nat, more: Bytes)
    requires SoundFields(fields) && TypedSlots(fields, slots) && |fields| == |start.slots| && n <= |parts|
    requires PartsOk(fields, slots, parts) && Ready(fields, start, parts)
    requires |BytesFrom(fields, slots, parts, n)| < TWO32
    ensures
      DecodeFields(fields, StateAfter(fields, start, slots, parts, n), BytesFrom(fields, slots, parts, n) + more) ==
        if FitFrom(fields, start.slots, slots, parts, n)
        then DecodeFields(fields, StateAfter(fields, start, slots, parts, |parts|), more) else None
    decreases fields, 3, |parts| - n
  {
    assert |fields| == |slots|;
    hide PartBytes, StateAfter, SoundFields, TypedSlots, PartOk, PartsOk, FieldFits, FitFrom, BytesFrom, DecodeFields,
         Untouched, Ready, Came;
    if n == |parts| {
      AtTheEnd(fields, start.slots, slots, parts, more);
    } else {
      PartAt(fields, start.slots, slots, parts, n);
      if parts[n].Known? {
        NotUnderWay(fields, start, slots, parts, n);
      }
      BytesAt(fields, slots, parts, n, more);
      PartMerges(fields, start, slots, parts, n, BytesFrom(fields, slots, parts, n + 1) + more);
      PartsMerge(fields, start, slots, parts, n + 1, more);
    }
  }

  // ----- Required fields -----

  /** Every required field of those that are kept account of has come in. */
  ghost predicate RequiredCame(fields: seq<Field>, came: set<nat>) {
    forall i: nat :: i < |fields| && fields[i].rule.Required? && RequiredBefore(fields, i) < 64 ==> i in came
  }

  lemma {:induction false} RequiredGrows(fields: seq<Field>, i: nat, n: nat)
    requires i < n <= |fields| && fields[i].rule.Required?
    ensures RequiredBefore(fields, i) < RequiredBefore(fields, n)
  {
    if i + 1 < n {
      RequiredGrows(fields, i, n - 1);
    }
  }

  lemma {:induction false} RequiredAt(fields: seq<Field>, n: nat, r: nat) returns (i: nat)
    requires n <= |fields| && r < RequiredBefore(fields, n)
    ensures i < n && fields[i].rule.Required? && RequiredBefore(fields, i) == r
  {
    if r < RequiredBefore(fields, n - 1) {
      i := RequiredAt(fields, n - 1, r);
    } else {
      i := n - 1;
    }
  }

  lemma SeenIsCame(fields: seq<Field>, came: set<nat>)
    ensures RequiredSeen(fields, SeenAmong(fields, came)) <==> RequiredCame(fields, came)
  {
    hide RequiredBefore;
    var seen := SeenAmong(fields, came);
    if RequiredCame(fields, came) {
      forall r: nat | r < RequiredBefore(fields, |fields|) && r < MAX_REQUIRED_FIELDS ensures r in seen {
        var i := RequiredAt(fields, |fields|, r);
      }
    }
    if RequiredSeen(fields, seen) {
      forall i: nat | i < |fields| && fields[i].rule.Required? && RequiredBefore(fields, i) < MAX_REQUIRED_FIELDS
        ensures i in came
      {
        RequiredGrows(fields, i, |fields|);
        assert RequiredBefore(fields, i) in seen;
        var j :| j in came && j < |fields| && fields[j].rule.Required?
                 && RequiredBefore(fields, j) == RequiredBefore(fields, i);
        if i < j {
          RequiredGrows(fields, i, j);
        } else if j < i {
          RequiredGrows(fields, j, i);
        }
      }
    }
  }

  // ----- Main results -----

  lemma NothingCame(fields: seq<Field>, start: State, slots: seq<Slot>, parts: seq<Part>)
    requires |fields| == |slots| == |start.slots|
    ensures StateAfter(fields, start, slots, parts, 0) == start
  {
    assert SeenAmong(fields, {}) == {} && start.seen + {} == start.seen;
    assert MergedSome(fields, start.slots, slots, {}) == start.slots;
  }

  /** Fields of a message in any order, each at most once, with fields between them that the reader
      does not know, decoded into anything: this succeeds if and only if no required field is missing
      and every array has room; and then each field that came is merged with what was there, a member
      of a union has displaced the others, and the rest is as it was. */
  lemma {:induction false} AnyOrder(fields: seq<Field>, before: seq<Slot>, slots: seq<Slot>, parts: seq<Part>)
    requires SoundFields(fields) && TypedSlots(fields, slots) && |fields| == |before|
    requires PartsOk(fields, slots, parts) && |BytesFrom(fields, slots, parts, 0)| < TWO32
    ensures
      var came := Came(parts, |parts|);
      DecodeMessage(fields, before, BytesFrom(fields, slots, parts, 0)) ==
        if RequiredCame(fields, came) && FitFrom(fields, before, slots, parts, 0)
        then Some(MergedSome(fields, before, slots, came)) else None
    ensures
      var p := DecodeFields(fields, Started(before), BytesFrom(fields, slots, parts, 0));
      p.Some? ==> p.value.length == 0
    decreases fields, 4
  {
    assert |fields| == |slots|;
    hide DecodeFields, SoundFields, TypedSlots, MergedSome, SeenAmong, RequiredSeen, RequiredCame, PartsOk,
         BytesFrom, FitFrom, Came;
    var start, bytes := Started(before), BytesFrom(fields, slots, parts, 0);
    assert bytes + [] == bytes;
    NothingCame(fields, start, slots, parts);
    PartsMerge(fields, start, slots, parts, 0, []);
    NoBytesLeft(fields, StateAfter(fields, start, slots, parts, |parts|));
    SeenIsCame(fields, Came(parts, |parts|));
    assert {} + SeenAmong(fields, Came(parts, |parts|)) == SeenAmong(fields, Came(parts, |parts|));
  }

  /** All fields in the order of the description, which is how a message is written. */
  function InOrder(n: nat): (parts: seq<Part>)
    ensures |parts| == n && forall i :: 0 <= i < n ==> parts[i] == Known(i)
  {
    seq(n, i requires 0 <= i < n => Known(i))
  }

  lemma {:induction false} InOrderCame(n: nat, m: nat)
    requires m <= n
    ensures Came(InOrder(n), m) == All(m)
  {
    if m > 0 {
      InOrderCame(n, m - 1);
    }
  }

  lemma {:induction false} InOrderBytes(fields: seq<Field>, slots: seq<Slot>, n: nat)
    requires |fields| == |slots| && n <= |fields|
    ensures BytesFrom(fields, slots, InOrder(|fields|), n) == RestOf(fields, slots, n)
    decreases |fields| - n
  {
    hide EncodeField;
    if n < |fields| {
      InOrderBytes(fields, slots, n + 1);
    }
  }

  lemma InOrderOk(fields: seq<Field>, before: seq<Slot>, slots: seq<Slot>)
    requires |fields| == |slots| == |before|
    ensures PartsOk(fields, slots, InOrder(|fields|))
    ensures FitFrom(fields, before, slots, InOrder(|fields|), 0) <==> AllFit(fields, before, slots)
    ensures RequiredCame(fields, All(|fields|))
  {
    hide FieldFits;
    var parts := InOrder(|fields|);
    forall n | 0 <= n < |parts| ensures PartOk(fields, slots, parts[n]) && parts[n].index !in Came(parts, n) {
      InOrderCame(|fields|, n);
    }
    if FitFrom(fields, before, slots, parts, 0) {
      forall i: nat | i < |fields| ensures FieldFits(fields, before, slots, i) {
        assert parts[i] == Known(i);
      }
    }
  }

  /** A whole message, decoded into one: the two are merged, if and only if the arrays have room. */
  lemma {:induction false} MessageMerges(fields: seq<Field>, before: seq<Slot>, slots: seq<Slot>)
    requires SoundFields(fields) && TypedSlots(fields, slots) && |fields| == |before|
    requires |EncodeFields(fields, slots, |fields|)| < TWO32
    ensures DecodeMessage(fields, before, EncodeFields(fields, slots, |fields|)) ==
      if AllFit(fields, before, slots) then Some(Merged(fields, before, slots)) else None
    ensures
      var p := DecodeFields(fields, Started(before), EncodeFields(fields, slots, |fields|));
      p.Some? ==> p.value.length == 0
    decreases fields, 5
  {
    assert |fields| == |slots|;
    hide DecodeMessage, DecodeFields, SoundFields, TypedSlots, MergedSome, EncodeField, FitFrom, AllFit, PartsOk,
         RequiredCame;
    FieldsSplit(fields, slots, 0);
    assert [] + RestOf(fields, slots, 0) == RestOf(fields, slots, 0);
    InOrderBytes(fields, slots, 0);
    InOrderOk(fields, before, slots);
    InOrderCame(|fields|, |fields|);
    AnyOrder(fields, before, slots, InOrder(|fields|));
  }

  /** Every message, of any nesting depth: decoding its bytes succeeds, takes all of them, and gives
      the message back. */
  lemma MessageBack(fields: seq<Field>, slots: seq<Slot>)
    requires SoundFields(fields) && TypedSlots(fields, slots) && |EncodeFields(fields, slots, |fields|)| < TWO32
    ensures DecodeMessage(fields, Defaults(fields), EncodeFields(fields, slots, |fields|)) == Some(slots)
    ensures
      var p := DecodeFields(fields, Started(Defaults(fields)), EncodeFields(fields, slots, |fields|));
      p.Some? && p.value.length == 0
  {
    assert |fields| == |slots|;
    hide DecodeFields, SoundFields, TypedSlots, Merged, EncodeFields, AllFit;
    MessageMerges(fields, Defaults(fields), slots);
    MergedDefaults(fields, slots);
  }

  // ----- What is refused, and what ends a message -----

  /** An array of fixed length that comes with another number of elements makes the message invalid, with
      fewer as well as with more. */
  lemma WrongCount(fields: seq<Field>, before: seq<Slot>, i: nat, vs: seq<Value>)
    requires SoundFields(fields) && |fields| == |before| && i < |fields| && fields[i].rule.FixedCount?
    requires (forall j :: 0 <= j < |vs| ==> Typed(fields[i].kind, vs[j])) && |EncodeField(fields[i], Many(vs))| < TWO32
    requires vs != [] && |vs| != fields[i].rule.count
    ensures DecodeMessage(fields, before, EncodeField(fields[i], Many(vs))) == None
  {
    assert SoundField(fields[i]);
    hide EncodeField, DecodeFields, SoundFields, Typed, SoundType, RequiredSeen;
    var f, st := fields[i], Started(before);
    assert EncodeField(f, Many(vs)) + [] == EncodeField(f, Many(vs));
    ArrayTaken(fields, before, i, vs);
    assert Midway(fields, st, i, vs, |vs|) == Taken(fields, st, i, vs) by {
      assert vs[..|vs|] == vs && [] + vs == vs;
    }
    NoBytesLeft(fields, Taken(fields, st, i, vs));
  }

  lemma NoBytesLeft(fields: seq<Field>, st: State)
    requires |st.slots| == |fields|
    ensures DecodeFields(fields, st, []) == Some(Progress(st, 0))
  {
  }

  lemma ArrayTaken(fields: seq<Field>, before: seq<Slot>, i: nat, vs: seq<Value>)
    requires SoundFields(fields) && |fields| == |before| && i < |fields| && fields[i].rule.FixedCount?
    requires (forall j :: 0 <= j < |vs| ==> Typed(fields[i].kind, vs[j])) && |EncodeField(fields[i], Many(vs))| < TWO32
    requires vs != []
    ensures DecodeFields(fields, Started(before), EncodeField(fields[i], Many(vs)) + []) ==
      if |vs| <= fields[i].rule.count then DecodeFields(fields, Midway(fields, Started(before), i, vs, |vs|), [])
      else None
  {
    assert SoundField(fields[i]);
    hide EncodeValue, EncodeValues, DecodeFields, TagBytes, Typed, SoundType, DecodeValue, TaggedFrom, ZeroOf,
         EncodeVarint;
    var f, st := fields[i], Started(before);
    if Packable(f.kind) {
      PackedTaken(fields, st, i, vs, []);
      assert vs[..|vs|] == vs;
    } else {
      TaggedTaken(fields, before, i, vs);
    }
  }

  lemma TaggedTaken(fields: seq<Field>, before: seq<Slot>, i: nat, vs: seq<Value>)
    requires SoundFields(fields) && |fields| == |before| && i < |fields| && fields[i].rule.FixedCount?
    requires (forall j :: 0 <= j < |vs| ==> Typed(fields[i].kind, vs[j])) && |EncodeTagged(fields[i], vs, |vs|)| < TWO32
    requires vs != [] && !Packable(fields[i].kind)
    ensures DecodeFields(fields, Started(before), EncodeTagged(fields[i], vs, |vs|) + []) ==
      if |vs| <= fields[i].rule.count then DecodeFields(fields, Midway(fields, Started(before), i, vs, |vs|), [])
      else None
  {
    assert SoundField(fields[i]);
    hide EncodeValue, DecodeFields, TagBytes, Typed, SoundType, DecodeValue, TaggedFrom, ZeroOf, Midway;
    var f, st := fields[i], Started(before);
    forall l, rest | 0 <= l < |vs|
      ensures DecodeValue(f.kind, ZeroOf(f.kind), EncodeValue(f.kind, vs[l]) + rest)
           == Some(Got(vs[l], |EncodeValue(f.kind, vs[l])|))
    {
      TaggedWithin(f, vs, l);
      FieldValueMerges(f, ZeroOf(f.kind), vs[l], rest);
      ElementFresh(f.kind, vs[l], rest);
    }
    NoTags(f, vs);
    TaggedSplit(f, vs, 0);
    TaggedMerges(fields, st, i, vs, 0, []);
    MidwayStarts(fields, st, i, vs);
  }

  lemma MidwayStarts(fields: seq<Field>, st: State, i: nat, vs: seq<Value>)
    requires i < |fields| == |st.slots|
    ensures Midway(fields, st, i, vs, 0) == st
  {
  }

  /** A zero byte where a tag would be ends the message, and what is behind it is left. */
  lemma ZeroEnds(fields: seq<Field>, st: State, rest: Bytes)
    requires |st.slots| == |fields|
    ensures DecodeFields(fields, st, [0] + rest) == Some(Progress(st, |rest|))
  {
  }

  /** A wire type that there is not cannot be skipped. */
  lemma UnknownWireType(fields: seq<Field>, st: State, tag: nat, wireType: nat, more: Bytes)
    requires |st.slots| == |fields| && 1 <= tag <= MAX_TAG && wireType < 8
    requires forall j :: 0 <= j < |fields| ==> fields[j].tag != tag
    requires wireType == 3 || wireType == 4 || wireType == 6 || wireType == 7
    ensures DecodeFields(fields, st, TagBytes(tag, wireType) + more) == None
  {
    hide DecodeFields, TagBytes;
    UnknownTag(fields, st, tag, wireType, more);
  }

  // ----- One message behind another -----

  /** The description has one array of fixed length, and no other. */
  ghost predicate OnlyFixed(fields: seq<Field>, i: nat) {
    && i < |fields| && fields[i].rule.FixedCount?
    && forall j :: 0 <= j < |fields| && fields[j].rule.FixedCount? ==> j == i
  }

  lemma {:induction false} LastIs(fields: seq<Field>, n: nat, m: nat)
    requires m <= n <= |fields|
    ensures
      var r := LastFixed(fields, InOrder(n), m);
      if r.None? then forall j :: 0 <= j < m ==> !fields[j].rule.FixedCount?
      else r.value < m && fields[r.value].rule.FixedCount?
           && forall j :: r.value < j < m ==> !fields[j].rule.FixedCount?
  {
    if m > 0 {
      LastIs(fields, n, m - 1);
    }
  }

  /** After a whole message, the fields of another find no array under way, if the description has more
      than one of fixed length, or none. */
  lemma ReadyAgain(fields: seq<Field>, start: State, slots: seq<Slot>)
    requires |fields| == |slots| == |start.slots| && forall i :: !OnlyFixed(fields, i)
    requires start.fixedField == None
    ensures
      var parts := InOrder(|fields|);
      Ready(fields, start, parts) && Ready(fields, StateAfter(fields, start, slots, parts, |fields|), parts)
  {
    hide SlotAfter, SeenAmong, LastFixed;
    var n, parts := |fields|, InOrder(|fields|);
    LastIs(fields, n, n);
    var next := StateAfter(fields, start, slots, parts, n);
    forall m | 0 <= m < n && next.fixedField == Some(m) ensures LastFixed(fields, parts, m).Some? {
      LastIs(fields, n, m);
      assert !OnlyFixed(fields, m);
    }
  }

  /** The fields of a message, read on from any state. */
  lemma FieldsMerge(fields: seq<Field>, start: State, slots: seq<Slot>, more: Bytes)
    requires SoundFields(fields) && TypedSlots(fields, slots) && |fields| == |start.slots|
    requires Ready(fields, start, InOrder(|fields|)) && |EncodeFields(fields, slots, |fields|)| < TWO32
    ensures
      var r := DecodeFields(fields, start, EncodeFields(fields, slots, |fields|) + more);
      if AllFit(fields, start.slots, slots) then
        r == DecodeFields(fields, StateAfter(fields, start, slots, InOrder(|fields|), |fields|), more)
      else r == None
  {
    assert |fields| == |slots|;
    hide DecodeFields, SoundFields, TypedSlots, MergedSome, EncodeField, FitFrom, AllFit, PartsOk, RequiredCame,
         Ready, SeenAmong;
    var parts := InOrder(|fields|);
    FieldsSplit(fields, slots, 0);
    assert [] + RestOf(fields, slots, 0) == RestOf(fields, slots, 0);
    InOrderBytes(fields, slots, 0);
    InOrderOk(fields, start.slots, slots);
    NothingCame(fields, start, slots, parts);
    PartsMerge(fields, start, slots, parts, 0, more);
  }

  /** An array that is complete takes no more elements. */
  lemma FullArray(fields: seq<Field>, st: State, i: nat, wireType: nat, b: Bytes)
    requires i < |fields| == |st.slots| && fields[i].rule.FixedCount?
    requires st.fixedField == Some(i) && |SlotValues(st.slots[i])| >= fields[i].rule.count
    requires wireType == STRING && Packable(fields[i].kind) ==> Prefixed(b).Some? && Prefixed(b).value.data != []
    ensures DecodeField(fields, st, i, wireType, b) == None
  {
    hide DecodeValue, DecodeScalar, Prefixed, Packable;
    var f, vs := fields[i], SlotValues(st.slots[i]);
    assert DecodeElements(f, wireType, vs, f.rule.count, b) == None;
  }

  lemma FullPackedRefuses(fields: seq<Field>, st: State, i: nat, vs: seq<Value>, more: Bytes)
    requires SoundFields(fields) && i < |fields| == |st.slots| && fields[i].rule.FixedCount?
    requires st.fixedField == Some(i) && |SlotValues(st.slots[i])| >= fields[i].rule.count
    requires vs != [] && Typed(fields[i].kind, vs[0]) && Packable(fields[i].kind)
    requires |EncodeField(fields[i], Many(vs))| < TWO32
    ensures DecodeFields(fields, st, EncodeField(fields[i], Many(vs)) + more) == None
  {
    assert SoundField(fields[i]);
    hide EncodeValues, EncodeValue, DecodeFields, DecodeField, TagBytes, EncodeVarint, Prefixed, SlotValues, Typed,
         SoundFields;
    var f := fields[i];
    SomeBytes(f.kind, vs);
    hide SoundType, Packable;
    var data := EncodeValues(f.kind, vs, |vs|);
    var bytes := LengthPrefixed(data);
    assert EncodeField(f, Many(vs)) + more == TagBytes(f.tag, STRING) + (bytes + more);
    PrefixedBack(data, more);
    hide EncodeField, LengthPrefixed;
    TagReads(fields, st, i, STRING, bytes + more);
    FullArray(fields, st, i, STRING, bytes + more);
  }

  lemma FullRefuses(fields: seq<Field>, st: State, i: nat, vs: seq<Value>, more: Bytes)
    requires SoundFields(fields) && i < |fields| == |st.slots| && fields[i].rule.FixedCount?
    requires st.fixedField == Some(i) && |SlotValues(st.slots[i])| >= fields[i].rule.count
    requires vs != [] && Typed(fields[i].kind, vs[0]) && |EncodeField(fields[i], Many(vs))| < TWO32
    ensures DecodeFields(fields, st, EncodeField(fields[i], Many(vs)) + more) == None
  {
    var f := fields[i];
    hide EncodeValues, EncodeValue, DecodeFields, DecodeField, TagBytes, EncodeVarint, SlotValues, Typed,
         SoundFields, EncodeOne, EncodeTagged, Packable, WireType, LengthPrefixed;
    if Packable(f.kind) {
      FullPackedRefuses(fields, st, i, vs, more);
    } else {
      TaggedSplit(f, vs, 0);
      NoTags(f, vs);
      var rest := TaggedFrom(f, vs, 1) + more;
      assert TaggedFrom(f, vs, 0) + more == EncodeOne(f, vs[0]) + rest;
      OneReads(fields, st, i, vs[0], rest);
      FullArray(fields, st, i, WireType(f.kind), EncodeValue(f.kind, vs[0]) + rest);
    }
  }

  lemma SomeBytes(k: FieldType, vs: seq<Value>)
    requires vs != [] && SoundType(k) && Packable(k) && Typed(k, vs[0])
    ensures EncodeValues(k, vs, |vs|) != []
  {
    hide EncodeValue, DecodeScalar;
    ValuesSplit(k, vs, 0);
    NoValues(k, vs);
    ScalarBack(k, vs[0], []);
    assert |EncodeValue(k, vs[0])| >= 1;
    assert ValuesFrom(k, vs, 0) == EncodeValue(k, vs[0]) + ValuesFrom(k, vs, 1);
  }

  /** Up to the only array of fixed length, a second message is read, and there it is refused. */
  lemma SecondRefused(fields: seq<Field>, start: State, slots: seq<Slot>, i: nat)
    requires SoundFields(fields) && TypedSlots(fields, slots) && |fields| == |start.slots| && OnlyFixed(fields, i)
    requires start.fixedField == Some(i) && |SlotValues(start.slots[i])| == start.fixedCount == fields[i].rule.count
    requires |EncodeFields(fields, slots, |fields|)| < TWO32
    ensures DecodeFields(fields, start, EncodeFields(fields, slots, |fields|)) == None
  {
    assert |fields| == |slots| && SoundField(fields[i]) && TypedSlot(fields[i], slots[i]);
    hide DecodeFields, SoundFields, TypedSlots, MergedSome, EncodeField, FitFrom, PartsOk, SeenAmong, Typed, SoundType;
    var front := InOrder(i);
    FieldsSplit(fields, slots, 0);
    FrontBytes(fields, slots, i);
    FrontOk(fields, start, slots, i);
    NothingCame(fields, start, slots, front);
    var bytes, rest := EncodeField(fields[i], slots[i]), RestOf(fields, slots, i + 1);
    PartsMerge(fields, start, slots, front, 0, bytes + rest);
    ArrayStays(fields, start, slots, i);
    FullRefuses(fields, StateAfter(fields, start, slots, front, i), i, slots[i].values, rest);
    assert EncodeFields(fields, slots, |fields|) == BytesFrom(fields, slots, front, 0) + (bytes + rest);
  }

  lemma FrontBytes(fields: seq<Field>, slots: seq<Slot>, i: nat)
    requires i < |fields| == |slots|
    ensures RestOf(fields, slots, 0)
         == BytesFrom(fields, slots, InOrder(i), 0) + (EncodeField(fields[i], slots[i]) + RestOf(fields, slots, i + 1))
    ensures |EncodeField(fields[i], slots[i])| <= |RestOf(fields, slots, 0)|
  {
    FrontBytesFrom(fields, slots, i, 0);
  }

  lemma {:induction false} FrontBytesFrom(fields: seq<Field>, slots: seq<Slot>, i: nat, n: nat)
    requires n <= i < |fields| == |slots|
    ensures RestOf(fields, slots, n)
         == BytesFrom(fields, slots, InOrder(i), n) + (EncodeField(fields[i], slots[i]) + RestOf(fields, slots, i + 1))
    decreases i - n
  {
    hide EncodeField;
    if n < i {
      FrontBytesFrom(fields, slots, i, n + 1);
    }
  }

  lemma FrontOk(fields: seq<Field>, start: State, slots: seq<Slot>, i: nat)
    requires |fields| == |slots| == |start.slots| && i < |fields| && start.fixedField == Some(i)
    requires FixedComplete(fields, start)
    ensures PartsOk(fields, slots, InOrder(i)) && Ready(fields, start, InOrder(i))
  {
    forall n | 0 <= n < i ensures PartOk(fields, slots, InOrder(i)[n]) && InOrder(i)[n].index !in Came(InOrder(i), n) {
      InOrderCame(i, n);
    }
  }

  lemma ArrayStays(fields: seq<Field>, start: State, slots: seq<Slot>, i: nat)
    requires |fields| == |slots| == |start.slots| && OnlyFixed(fields, i) && start.fixedField == Some(i)
    ensures
      var st := StateAfter(fields, start, slots, InOrder(i), i);
      st.fixedField == Some(i) && st.slots[i] == start.slots[i]
  {
    hide SeenAmong, Present, MergedSlot;
    LastFixedWithin(fields, i, i);
    InOrderCame(i, i);
    assert SlotAfter(fields, start.slots, slots, Came(InOrder(i), i), i) == start.slots[i];
  }

  lemma {:induction false} LastFixedWithin(fields: seq<Field>, i: nat, n: nat)
    requires OnlyFixed(fields, i) && n <= i
    ensures LastFixed(fields, InOrder(i), n) == None
  {
    if n > 0 {
      LastFixedWithin(fields, i, n - 1);
    }
  }

  /** Two messages one behind the other read as the two merged: of a field that comes twice the last value
      stays, arrays follow each other, and nested messages are merged.  So it is if and only if the arrays
      have room, and the description does not have just one array of fixed length. */
  lemma Concatenated(fields: seq<Field>, before: seq<Slot>, a: seq<Slot>, b: seq<Slot>)
    requires SoundFields(fields) && TypedSlots(fields, a) && TypedSlots(fields, b) && |fields| == |before|
    requires |EncodeFields(fields, a, |fields|)| < TWO32 && |EncodeFields(fields, b, |fields|)| < TWO32
    ensures
      var merged := Merged(fields, before, a);
      DecodeMessage(fields, before, EncodeFields(fields, a, |fields|) + EncodeFields(fields, b, |fields|)) ==
        if AllFit(fields, before, a) && AllFit(fields, merged, b) && !exists i :: OnlyFixed(fields, i)
        then Some(Merged(fields, merged, b)) else None
  {
    assert |fields| == |a| == |b|;
    hide DecodeFields, SoundFields, TypedSlots, MergedSome, EncodeFields, AllFit, SeenAmong, RequiredSeen, OnlyFixed,
         Ready, LastFixed;
    var start, bytes := Started(before), EncodeFields(fields, b, |fields|);
    var parts, n := InOrder(|fields|), |fields|;
    FreshReady(fields, start);
    FieldsMerge(fields, start, a, bytes);
    if AllFit(fields, before, a) {
      InOrderCame(n, n);
      var next := StateAfter(fields, start, a, parts, n);
      assert next.slots == Merged(fields, before, a);
      assert bytes + [] == bytes;
      if i: nat :| OnlyFixed(fields, i) {
        FixedAfter(fields, start, a, i);
        SecondRefused(fields, next, b, i);
      } else {
        ReadyAgain(fields, start, a);
        FieldsMerge(fields, next, b, []);
        if AllFit(fields, next.slots, b) {
          var last := StateAfter(fields, next, b, parts, n);
          NoBytesLeft(fields, last);
          AllRequired(fields, next.seen, All(n));
          StillComplete(fields, next, b);
        }
      }
    }
  }

  lemma FreshReady(fields: seq<Field>, start: State)
    requires start.fixedField == None
    ensures Ready(fields, start, InOrder(|fields|))
  {
  }

  lemma StillComplete(fields: seq<Field>, start: State, slots: seq<Slot>)
    requires |fields| == |slots| == |start.slots| && Ready(fields, start, InOrder(|fields|))
    ensures FixedComplete(fields, StateAfter(fields, start, slots, InOrder(|fields|), |fields|))
  {
    hide SeenAmong, SlotAfter;
  }

  /** After a message, the only array of fixed length is complete, and was the last. */
  lemma FixedAfter(fields: seq<Field>, start: State, slots: seq<Slot>, i: nat)
    requires SoundFields(fields) && TypedSlots(fields, slots) && |fields| == |start.slots| && OnlyFixed(fields, i)
    ensures
      var st := StateAfter(fields, start, slots, InOrder(|fields|), |fields|);
      st.fixedField == Some(i) && |SlotValues(st.slots[i])| == st.fixedCount == fields[i].rule.count
  {
    assert |fields| == |slots| && SoundField(fields[i]) && TypedSlot(fields[i], slots[i]);
    LastIs(fields, |fields|, |fields|);
    InOrderCame(|fields|, |fields|);
    hide LastFixed, SeenAmong, Typed, SoundType, SoundFields, TypedSlots;
    assert i in Came(InOrder(|fields|), |fields|) && Present(fields[i], slots[i]);
    assert SlotAfter(fields, start.slots, slots, Came(InOrder(|fields|), |fields|), i) == slots[i];
  }

  lemma AllRequired(fields: seq<Field>, seen: set<nat>, came: set<nat>)
    requires came == All(|fields|)
    ensures RequiredSeen(fields, seen + SeenAmong(fields, came))
  {
    hide SeenAmong, RequiredBefore;
    SeenIsCame(fields, came);
  }
}
