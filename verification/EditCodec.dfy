/** Version edits as bytes: a tag for each field, then the field.  Keys are opaque byte strings. */
module EditCodec {
  import opened Keys
  import opened Coding
  import opened Store

  const COMPARATOR: nat := 1
  const LOG_NUMBER: nat := 2
  const NEXT_FILE_NUMBER: nat := 3
  const LAST_SEQUENCE: nat := 4
  const COMPACT_POINTER: nat := 5
  const DELETED_FILE: nat := 6
  const NEW_FILE: nat := 7
  const PREV_LOG_NUMBER: nat := 9

  datatype CompactPointer = CompactPointer(level: nat, key: Bytes)
  datatype DeletedFile = DeletedFile(level: nat, number: nat)
  datatype NewFile = NewFile(level: nat, number: nat, size: nat, smallest: Bytes, largest: Bytes)

  datatype Edit = Edit(
    comparator: Option<Bytes>, logNumber: Option<nat>, prevLogNumber: Option<nat>, nextFileNumber: Option<nat>,
    lastSequence: Option<nat>, compactPointers: seq<CompactPointer>, deletedFiles: set<DeletedFile>,
    newFiles: seq<NewFile>)

  const FRESH: Edit := Edit(None, None, None, None, None, [], {}, [])

  /** Clearing an edit leaves its compaction pointers. */
  function Cleared(e: Edit): Edit {
    FRESH.(compactPointers := e.compactPointers)
  }

  datatype Field =
    | Comparator(name: Bytes)
    | LogNumber(n: nat)
    | PrevLogNumber(n: nat)
    | NextFileNumber(n: nat)
    | LastSequence(n: nat)
    | Pointer(pointer: CompactPointer)
    | Deleted(deleted: DeletedFile)
    | New(file: NewFile)

  function Apply(e: Edit, f: Field): Edit {
    match f
    case Comparator(name) => e.(comparator := Some(name))
    case LogNumber(n) => e.(logNumber := Some(n))
    case PrevLogNumber(n) => e.(prevLogNumber := Some(n))
    case NextFileNumber(n) => e.(nextFileNumber := Some(n))
    case LastSequence(n) => e.(lastSequence := Some(n))
    case Pointer(p) => e.(compactPointers := e.compactPointers + [p])
    case Deleted(d) => e.(deletedFiles := e.deletedFiles + {d})
    case New(f) => e.(newFiles := e.newFiles + [f])
  }

  function ApplyAll(e: Edit, fs: seq<Field>): Edit
    decreases |fs|
  {
    if fs == [] then e else ApplyAll(Apply(e, fs[0]), fs[1..])
  }

  // ----- Bytes -----

  function Tag(f: Field): nat {
    match f
    case Comparator(_) => COMPARATOR
    case LogNumber(_) => LOG_NUMBER
    case PrevLogNumber(_) => PREV_LOG_NUMBER
    case NextFileNumber(_) => NEXT_FILE_NUMBER
    case LastSequence(_) => LAST_SEQUENCE
    case Pointer(_) => COMPACT_POINTER
    case Deleted(_) => DELETED_FILE
    case New(_) => NEW_FILE
  }

  function Body(f: Field): Bytes {
    match f
    case Comparator(name) => LengthPrefixed(name)
    case LogNumber(n) => EncodeVarint(n)
    case PrevLogNumber(n) => EncodeVarint(n)
    case NextFileNumber(n) => EncodeVarint(n)
    case LastSequence(n) => EncodeVarint(n)
    case Pointer(p) => EncodeVarint(p.level) + LengthPrefixed(p.key)
    case Deleted(d) => EncodeVarint(d.level) + EncodeVarint(d.number)
    case New(f) =>
      EncodeVarint(f.level)
      + (EncodeVarint(f.number) + (EncodeVarint(f.size) + (LengthPrefixed(f.smallest) + LengthPrefixed(f.largest))))
  }

  function FieldBytes(f: Field): Bytes {
    EncodeVarint(Tag(f)) + Body(f)
  }

  function FieldsBytes(fs: seq<Field>): Bytes {
    if fs == [] then [] else FieldBytes(fs[0]) + FieldsBytes(fs[1..])
  }

  ghost predicate FieldFits(f: Field) {
    match f
    case Comparator(name) => |name| < TWO32
    case LogNumber(n) => n < TWO64
    case PrevLogNumber(n) => n < TWO64
    case NextFileNumber(n) => n < TWO64
    case LastSequence(n) => n < TWO64
    case Pointer(p) => p.level < NUM_LEVELS && |p.key| < TWO32
    case Deleted(d) => d.level < NUM_LEVELS && d.number < TWO64
    case New(f) =>
      f.level < NUM_LEVELS && f.number < TWO64 && f.size < TWO64 && |f.smallest| < TWO32 && |f.largest| < TWO32
  }

  datatype Number = Number(value: nat, rest: Bytes)

  function TakeNumber(b: Bytes): (r: Option<Number>)
    ensures r.Some? ==> |r.value.rest| < |b|
  {
    var n := GetVarint64(b);
    if n.None? then None else Some(Number(n.value.value, b[n.value.length..]))
  }

  function TakeLevel(b: Bytes): (r: Option<Number>)
    ensures r.Some? ==> |r.value.rest| < |b|
  {
    var n := GetVarint32(b);
    if n.None? || n.value.value >= NUM_LEVELS then None else Some(Number(n.value.value, b[n.value.length..]))
  }

  datatype Next = Next(field: Field, rest: Bytes)

  function TakeNumberField(b: Bytes, make: nat -> Field): (r: Option<Next>)
    ensures r.Some? ==> |r.value.rest| < |b|
  {
    var n := TakeNumber(b);
    if n.None? then None else Some(Next(make(n.value.value), n.value.rest))
  }

  function TakePointer(b: Bytes): (r: Option<Next>)
    ensures r.Some? ==> |r.value.rest| < |b|
  {
    var level := TakeLevel(b);
    if level.None? then None
    else
      var key := GetLengthPrefixed(level.value.rest);
      if key.None? then None else Some(Next(Pointer(CompactPointer(level.value.value, key.value.data)), key.value.rest))
  }

  function TakeDeleted(b: Bytes): (r: Option<Next>)
    ensures r.Some? ==> |r.value.rest| < |b|
  {
    var level := TakeLevel(b);
    if level.None? then None
    else
      var n := TakeNumber(level.value.rest);
      if n.None? then None else Some(Next(Deleted(DeletedFile(level.value.value, n.value.value)), n.value.rest))
  }

  function TakeNew(b: Bytes): (r: Option<Next>)
    ensures r.Some? ==> |r.value.rest| < |b|
  {
    var level := TakeLevel(b);
    if level.None? then None
    else
      var n := TakeNumber(level.value.rest);
      if n.None? then None
      else
        var size := TakeNumber(n.value.rest);
        if size.None? then None
        else
          var smallest := GetLengthPrefixed(size.value.rest);
          if smallest.None? then None
          else
            var largest := GetLengthPrefixed(smallest.value.rest);
            if largest.None? then None
            else
              var file := NewFile(
                level.value.value, n.value.value, size.value.value, smallest.value.data, largest.value.data);
              Some(Next(New(file), largest.value.rest))
  }

  /** The field that follows a tag; nothing for an unknown tag. */
  function TakeField(tag: nat, b: Bytes): (r: Option<Next>)
    ensures r.Some? ==> |r.value.rest| < |b|
  {
    if tag == COMPARATOR then
      var name := GetLengthPrefixed(b);
      if name.None? then None else Some(Next(Comparator(name.value.data), name.value.rest))
    else if tag == LOG_NUMBER then TakeNumberField(b, (n: nat) => LogNumber(n))
    else if tag == PREV_LOG_NUMBER then TakeNumberField(b, (n: nat) => PrevLogNumber(n))
    else if tag == NEXT_FILE_NUMBER then TakeNumberField(b, (n: nat) => NextFileNumber(n))
    else if tag == LAST_SEQUENCE then TakeNumberField(b, (n: nat) => LastSequence(n))
    else if tag == COMPACT_POINTER then TakePointer(b)
    else if tag == DELETED_FILE then TakeDeleted(b)
    else if tag == NEW_FILE then TakeNew(b)
    else None
  }

  /** All fields up to the end or to something that is none; and whether it was the end. */
  function ReadFields(input: Bytes): (r: (seq<Field>, bool))
    decreases |input|
  {
    var tag := GetVarint32(input);
    if tag.None? then ([], input == [])
    else
      var next := TakeField(tag.value.value, input[tag.value.length..]);
      if next.None? then ([], false)
      else
        var rest := ReadFields(next.value.rest);
        ([next.value.field] + rest.0, rest.1)
  }

  // ----- A field is read back -----

  lemma NumberBack(n: nat, rest: Bytes)
    requires n < TWO64
    ensures TakeNumber(EncodeVarint(n) + rest) == Some(Number(n, rest))
  {
    hide EncodeVarint, GetVarint64;
    Varint64RoundTrip(n, rest);
  }

  lemma LevelBack(n: nat, rest: Bytes)
    requires n < NUM_LEVELS
    ensures TakeLevel(EncodeVarint(n) + rest) == Some(Number(n, rest))
  {
    hide EncodeVarint, GetVarint32;
    Varint32RoundTrip(n, rest);
  }

  lemma PointerBack(p: CompactPointer, rest: Bytes)
    requires FieldFits(Pointer(p))
    ensures TakePointer(Body(Pointer(p)) + rest) == Some(Next(Pointer(p), rest))
  {
    hide EncodeVarint, LengthPrefixed, GetLengthPrefixed, TakeLevel;
    Assoc(EncodeVarint(p.level), LengthPrefixed(p.key), rest);
    LevelBack(p.level, LengthPrefixed(p.key) + rest);
    LengthPrefixedRoundTrip(p.key, rest);
  }

  lemma DeletedBack(d: DeletedFile, rest: Bytes)
    requires FieldFits(Deleted(d))
    ensures TakeDeleted(Body(Deleted(d)) + rest) == Some(Next(Deleted(d), rest))
  {
    hide EncodeVarint, TakeNumber, TakeLevel;
    Assoc(EncodeVarint(d.level), EncodeVarint(d.number), rest);
    LevelBack(d.level, EncodeVarint(d.number) + rest);
    NumberBack(d.number, rest);
  }

  lemma NewBack(f: NewFile, rest: Bytes)
    requires FieldFits(New(f))
    ensures TakeNew(Body(New(f)) + rest) == Some(Next(New(f), rest))
  {
    hide EncodeVarint, LengthPrefixed, GetLengthPrefixed, TakeNumber, TakeLevel;
    var largest := LengthPrefixed(f.largest) + rest;
    var smallest := LengthPrefixed(f.smallest) + largest;
    var size := EncodeVarint(f.size) + smallest;
    var number := EncodeVarint(f.number) + size;
    assert Body(New(f)) + rest == EncodeVarint(f.level) + number;
    LevelBack(f.level, number);
    NumberBack(f.number, size);
    NumberBack(f.size, smallest);
    LengthPrefixedRoundTrip(f.smallest, largest);
    LengthPrefixedRoundTrip(f.largest, rest);
  }

  lemma FieldBack(f: Field, rest: Bytes)
    requires FieldFits(f)
    ensures TakeField(Tag(f), Body(f) + rest) == Some(Next(f, rest))
  {
    hide EncodeVarint, LengthPrefixed, GetLengthPrefixed, TakeNumber, TakePointer, TakeDeleted, TakeNew;
    match f {
      case Comparator(name) => LengthPrefixedRoundTrip(name, rest);
      case LogNumber(n) => NumberBack(n, rest);
      case PrevLogNumber(n) => NumberBack(n, rest);
      case NextFileNumber(n) => NumberBack(n, rest);
      case LastSequence(n) => NumberBack(n, rest);
      case Pointer(p) => PointerBack(p, rest);
      case Deleted(d) => DeletedBack(d, rest);
      case New(n) => NewBack(n, rest);
    }
  }

  lemma {:induction false} FieldsBack(fs: seq<Field>)
    requires forall f :: f in fs ==> FieldFits(f)
    ensures ReadFields(FieldsBytes(fs)) == (fs, true)
  {
    hide EncodeVarint, GetVarint32, TakeField, Body, FieldFits;
    if fs != [] {
      var f, rest := fs[0], FieldsBytes(fs[1..]);
      FieldsBack(fs[1..]);
      assert FieldFits(f);
      FieldSplits(f, rest);
      Varint32RoundTrip(Tag(f), Body(f) + rest);
      FieldBack(f, rest);
      assert fs == [f] + fs[1..];
    }
  }

  lemma FieldSplits(f: Field, rest: Bytes)
    ensures FieldBytes(f) + rest == EncodeVarint(Tag(f)) + (Body(f) + rest)
  {
    hide EncodeVarint, Body;
  }

  // ----- What is malformed is refused -----

  /** Fields with anything behind them. */
  lemma {:induction false} ReadsOn(fs: seq<Field>, more: Bytes)
    requires forall f :: f in fs ==> FieldFits(f)
    ensures ReadFields(FieldsBytes(fs) + more) == (fs + ReadFields(more).0, ReadFields(more).1)
  {
    hide EncodeVarint, GetVarint32, TakeField, Body, FieldFits;
    if fs == [] {
      assert FieldsBytes(fs) + more == more && fs + ReadFields(more).0 == ReadFields(more).0;
    } else {
      var f, rest := fs[0], FieldsBytes(fs[1..]) + more;
      ReadsOn(fs[1..], more);
      assert FieldFits(f);
      assert FieldsBytes(fs) + more == FieldBytes(f) + rest;
      FieldSplits(f, rest);
      Varint32RoundTrip(Tag(f), Body(f) + rest);
      FieldBack(f, rest);
      assert [f] + (fs[1..] + ReadFields(more).0) == fs + ReadFields(more).0;
    }
  }

  predicate IsTag(tag: nat) {
    1 <= tag <= 7 || tag == 9
  }

  /** A tag that none of the fields has makes the edit malformed. */
  lemma UnknownTag(fs: seq<Field>, tag: nat, more: Bytes)
    requires (forall f :: f in fs ==> FieldFits(f)) && tag < TWO32 && !IsTag(tag)
    ensures ReadFields(FieldsBytes(fs) + (EncodeVarint(tag) + more)) == (fs, false)
  {
    hide EncodeVarint, GetVarint32, FieldFits, FieldsBytes;
    Varint32RoundTrip(tag, more);
    ReadsOn(fs, EncodeVarint(tag) + more);
    assert fs + [] == fs;
  }

  /** So does a level that there is not. */
  lemma UnknownLevel(fs: seq<Field>, tag: nat, level: nat, more: Bytes)
    requires (forall f :: f in fs ==> FieldFits(f)) && NUM_LEVELS <= level < TWO32
    requires tag == COMPACT_POINTER || tag == DELETED_FILE || tag == NEW_FILE
    ensures ReadFields(FieldsBytes(fs) + (EncodeVarint(tag) + (EncodeVarint(level) + more))) == (fs, false)
  {
    hide EncodeVarint, GetVarint32, FieldFits, FieldsBytes, GetLengthPrefixed, TakeNumber;
    var rest := EncodeVarint(level) + more;
    Varint32RoundTrip(level, more);
    Varint32RoundTrip(tag, rest);
    assert TakeLevel(rest) == None;
    assert (EncodeVarint(tag) + rest)[|EncodeVarint(tag)|..] == rest;
    assert TakeField(tag, rest) == None;
    ReadsOn(fs, EncodeVarint(tag) + rest);
    assert fs + [] == fs;
  }

  lemma NumberCut(n: nat, i: nat)
    requires i < |EncodeVarint(n)|
    ensures TakeNumber(EncodeVarint(n)[..i]) == None && TakeLevel(EncodeVarint(n)[..i]) == None
  {
    VarintCut(n, MAX_VARINT64, i);
    VarintCut(n, MAX_VARINT32, i);
  }

  /** Where the front of two pieces is cut. */
  lemma CutOfTwo(a: Bytes, b: Bytes, i: nat)
    requires i < |a + b|
    ensures if i < |a| then (a + b)[..i] == a[..i] else (a + b)[..i] == a + b[..i - |a|]
  {
  }

  lemma DeletedCut(d: DeletedFile, i: nat)
    requires FieldFits(Deleted(d)) && i < |Body(Deleted(d))|
    ensures TakeDeleted(Body(Deleted(d))[..i]) == None
  {
    hide EncodeVarint, TakeNumber, TakeLevel;
    var level, number := EncodeVarint(d.level), EncodeVarint(d.number);
    CutOfTwo(level, number, i);
    if i < |level| {
      NumberCut(d.level, i);
    } else {
      LevelBack(d.level, number[..i - |level|]);
      NumberCut(d.number, i - |level|);
    }
  }

  lemma PointerCut(p: CompactPointer, i: nat)
    requires FieldFits(Pointer(p)) && i < |Body(Pointer(p))|
    ensures TakePointer(Body(Pointer(p))[..i]) == None
  {
    hide EncodeVarint, LengthPrefixed, GetLengthPrefixed, TakeLevel;
    var level, key := EncodeVarint(p.level), LengthPrefixed(p.key);
    CutOfTwo(level, key, i);
    if i < |level| {
      NumberCut(p.level, i);
    } else {
      LevelBack(p.level, key[..i - |level|]);
      PrefixedCut(p.key, i - |level|);
    }
  }

  /** The two keys of a file, cut. */
  lemma KeysCut(f: NewFile, i: nat)
    requires FieldFits(New(f)) && i < |LengthPrefixed(f.smallest) + LengthPrefixed(f.largest)|
    ensures
      var smallest := GetLengthPrefixed((LengthPrefixed(f.smallest) + LengthPrefixed(f.largest))[..i]);
      smallest.None? || GetLengthPrefixed(smallest.value.rest).None?
  {
    hide LengthPrefixed, GetLengthPrefixed;
    var smallest, largest := LengthPrefixed(f.smallest), LengthPrefixed(f.largest);
    CutOfTwo(smallest, largest, i);
    if i < |smallest| {
      PrefixedCut(f.smallest, i);
    } else {
      LengthPrefixedRoundTrip(f.smallest, largest[..i - |smallest|]);
      PrefixedCut(f.largest, i - |smallest|);
    }
  }

  lemma NewCut(f: NewFile, i: nat)
    requires FieldFits(New(f)) && i < |Body(New(f))|
    ensures TakeNew(Body(New(f))[..i]) == None
  {
    hide EncodeVarint, LengthPrefixed, GetLengthPrefixed, TakeNumber, TakeLevel;
    var keys := LengthPrefixed(f.smallest) + LengthPrefixed(f.largest);
    var level, number, size := EncodeVarint(f.level), EncodeVarint(f.number), EncodeVarint(f.size);
    CutOfTwo(level, number + (size + keys), i);
    if i < |level| {
      NumberCut(f.level, i);
    } else {
      var j := i - |level|;
      LevelBack(f.level, (number + (size + keys))[..j]);
      CutOfTwo(number, size + keys, j);
      if j < |number| {
        NumberCut(f.number, j);
      } else {
        var k := j - |number|;
        NumberBack(f.number, (size + keys)[..k]);
        CutOfTwo(size, keys, k);
        if k < |size| {
          NumberCut(f.size, k);
        } else {
          NumberBack(f.size, keys[..k - |size|]);
          KeysCut(f, k - |size|);
        }
      }
    }
  }

  lemma BodyCut(f: Field, i: nat)
    requires FieldFits(f) && i < |Body(f)|
    ensures TakeField(Tag(f), Body(f)[..i]) == None
  {
    hide EncodeVarint, LengthPrefixed, GetLengthPrefixed, TakeNumber, TakePointer, TakeDeleted, TakeNew;
    match f {
      case Comparator(name) => PrefixedCut(name, i);
      case LogNumber(n) => NumberCut(n, i);
      case PrevLogNumber(n) => NumberCut(n, i);
      case NextFileNumber(n) => NumberCut(n, i);
      case LastSequence(n) => NumberCut(n, i);
      case Pointer(p) => PointerCut(p, i);
      case Deleted(d) => DeletedCut(d, i);
      case New(n) => NewCut(n, i);
    }
  }

  /** An edit that is cut off within a field is malformed: the fields before it are read, and no part
      of it. */
  lemma FieldCut(fs: seq<Field>, f: Field, i: nat)
    requires (forall g :: g in fs ==> FieldFits(g)) && FieldFits(f) && 0 < i < |FieldBytes(f)|
    ensures ReadFields(FieldsBytes(fs) + FieldBytes(f)[..i]) == (fs, false)
  {
    hide EncodeVarint, GetVarint32, TakeField, Body, FieldFits, FieldsBytes;
    var tag, body, b := EncodeVarint(Tag(f)), Body(f), FieldBytes(f)[..i];
    TagIsOne(f);
    CutOfTwo(tag, body, i);
    Varint32RoundTrip(Tag(f), body[..i - 1]);
    BodyCut(f, i - 1);
    assert b[1..] == body[..i - 1];
    assert ReadFields(b) == ([], false);
    ReadsOn(fs, b);
    assert fs + [] == fs;
  }

  lemma TagIsOne(f: Field)
    ensures |EncodeVarint(Tag(f))| == 1 && IsTag(Tag(f))
  {
  }

  // ----- A whole edit -----

  function Comparators(o: Option<Bytes>): seq<Field> {
    if o.None? then [] else [Comparator(o.value)]
  }

  function LogNumbers(o: Option<nat>): seq<Field> {
    if o.None? then [] else [LogNumber(o.value)]
  }

  function PrevLogNumbers(o: Option<nat>): seq<Field> {
    if o.None? then [] else [PrevLogNumber(o.value)]
  }

  function NextFileNumbers(o: Option<nat>): seq<Field> {
    if o.None? then [] else [NextFileNumber(o.value)]
  }

  function LastSequences(o: Option<nat>): seq<Field> {
    if o.None? then [] else [LastSequence(o.value)]
  }

  function Scalars(e: Edit): seq<Field> {
    Comparators(e.comparator) + LogNumbers(e.logNumber) + PrevLogNumbers(e.prevLogNumber)
    + NextFileNumbers(e.nextFileNumber) + LastSequences(e.lastSequence)
  }

  function Pointers(ps: seq<CompactPointer>): seq<Field> {
    if ps == [] then [] else Pointers(ps[..|ps| - 1]) + [Pointer(ps[|ps| - 1])]
  }

  function Deletions(ds: seq<DeletedFile>): seq<Field> {
    if ds == [] then [] else Deletions(ds[..|ds| - 1]) + [Deleted(ds[|ds| - 1])]
  }

  function News(fs: seq<NewFile>): seq<Field> {
    if fs == [] then [] else News(fs[..|fs| - 1]) + [New(fs[|fs| - 1])]
  }

  /** The fields of an edit, its deleted files in the order in which the set is gone through. */
  function FieldsOf(e: Edit, order: seq<DeletedFile>): seq<Field> {
    Scalars(e) + Pointers(e.compactPointers) + Deletions(order) + News(e.newFiles)
  }

  function Elements(order: seq<DeletedFile>): set<DeletedFile> {
    set d | d in order
  }

  ghost predicate Fits(e: Edit) {
    && (e.comparator.Some? ==> |e.comparator.value| < TWO32)
    && (e.logNumber.Some? ==> e.logNumber.value < TWO64)
    && (e.prevLogNumber.Some? ==> e.prevLogNumber.value < TWO64)
    && (e.nextFileNumber.Some? ==> e.nextFileNumber.value < TWO64)
    && (e.lastSequence.Some? ==> e.lastSequence.value < TWO64)
    && (forall p :: p in e.compactPointers ==> FieldFits(Pointer(p)))
    && (forall d :: d in e.deletedFiles ==> FieldFits(Deleted(d)))
    && (forall f :: f in e.newFiles ==> FieldFits(New(f)))
  }

  lemma {:induction false} ApplyAppend(e: Edit, a: seq<Field>, b: seq<Field>)
    ensures ApplyAll(e, a + b) == ApplyAll(ApplyAll(e, a), b)
    decreases |a|
  {
    hide Apply;
    if a == [] {
      assert a + b == b;
    } else {
      assert (a + b)[1..] == a[1..] + b;
      ApplyAppend(Apply(e, a[0]), a[1..], b);
    }
  }

  lemma ApplyOne(e: Edit, f: Field)
    ensures ApplyAll(e, [f]) == Apply(e, f)
  {
    hide Apply;
    assert [f][1..] == [];
  }

  lemma {:induction false} ApplyPointers(e: Edit, ps: seq<CompactPointer>)
    ensures ApplyAll(e, Pointers(ps)) == e.(compactPointers := e.compactPointers + ps)
    ensures forall f :: f in Pointers(ps) ==> f.Pointer? && f.pointer in ps
  {
    if ps == [] {
      assert e.compactPointers + [] == e.compactPointers;
    } else {
      var front, last := ps[..|ps| - 1], ps[|ps| - 1];
      ApplyPointers(e, front);
      ApplyAppend(e, Pointers(front), [Pointer(last)]);
      ApplyOne(ApplyAll(e, Pointers(front)), Pointer(last));
      assert e.compactPointers + front + [last] == e.compactPointers + ps;
    }
  }

  lemma {:induction false} ApplyDeletions(e: Edit, ds: seq<DeletedFile>)
    ensures ApplyAll(e, Deletions(ds)) == e.(deletedFiles := e.deletedFiles + Elements(ds))
    ensures forall f :: f in Deletions(ds) ==> f.Deleted? && f.deleted in ds
  {
    if ds == [] {
      assert e.deletedFiles + Elements(ds) == e.deletedFiles;
    } else {
      var front, last := ds[..|ds| - 1], ds[|ds| - 1];
      ApplyDeletions(e, front);
      ApplyAppend(e, Deletions(front), [Deleted(last)]);
      ApplyOne(ApplyAll(e, Deletions(front)), Deleted(last));
      assert ds == front + [last];
      assert e.deletedFiles + Elements(front) + {last} == e.deletedFiles + Elements(ds);
    }
  }

  lemma {:induction false} ApplyNews(e: Edit, fs: seq<NewFile>)
    ensures ApplyAll(e, News(fs)) == e.(newFiles := e.newFiles + fs)
    ensures forall f :: f in News(fs) ==> f.New? && f.file in fs
  {
    if fs == [] {
      assert e.newFiles + [] == e.newFiles;
    } else {
      var front, last := fs[..|fs| - 1], fs[|fs| - 1];
      ApplyNews(e, front);
      ApplyAppend(e, News(front), [New(last)]);
      ApplyOne(ApplyAll(e, News(front)), New(last));
      assert e.newFiles + front + [last] == e.newFiles + fs;
    }
  }

  /** Of a number that comes more than once, the last is the one there is; deleted and new files and
      pointers add up, in order. */
  lemma LastFieldCounts(e: Edit, fs: seq<Field>, f: Field)
    ensures
      var e0, e1 := ApplyAll(e, fs), ApplyAll(e, fs + [f]);
      match f
      case Comparator(name) => e1 == e0.(comparator := Some(name))
      case LogNumber(n) => e1 == e0.(logNumber := Some(n))
      case PrevLogNumber(n) => e1 == e0.(prevLogNumber := Some(n))
      case NextFileNumber(n) => e1 == e0.(nextFileNumber := Some(n))
      case LastSequence(n) => e1 == e0.(lastSequence := Some(n))
      case Pointer(p) => e1 == e0.(compactPointers := e0.compactPointers + [p])
      case Deleted(d) => e1 == e0.(deletedFiles := e0.deletedFiles + {d})
      case New(n) => e1 == e0.(newFiles := e0.newFiles + [n])
  {
    ApplyAppend(e, fs, [f]);
    ApplyOne(ApplyAll(e, fs), f);
  }

  /** The optional fields of an edit, put into one that has none of them. */
  lemma ApplyScalars(start: Edit, e: Edit)
    requires start == Cleared(start)
    ensures ApplyAll(start, Scalars(e)) ==
            e.(compactPointers := start.compactPointers, deletedFiles := {}, newFiles := [])
  {
    var a, b, c := Comparators(e.comparator), LogNumbers(e.logNumber), PrevLogNumbers(e.prevLogNumber);
    var d, f := NextFileNumbers(e.nextFileNumber), LastSequences(e.lastSequence);
    var e1 := ApplyAll(start, a);
    ApplyComparators(start, e.comparator);
    var e2 := ApplyAll(e1, b);
    ApplyLogNumbers(e1, e.logNumber);
    var e3 := ApplyAll(e2, c);
    ApplyPrevLogNumbers(e2, e.prevLogNumber);
    var e4 := ApplyAll(e3, d);
    ApplyNextFileNumbers(e3, e.nextFileNumber);
    ApplyLastSequences(e4, e.lastSequence);
    hide ApplyAll, Comparators, LogNumbers, PrevLogNumbers, NextFileNumbers, LastSequences;
    ApplyAppend(start, a + b + c + d, f);
    ApplyAppend(start, a + b + c, d);
    ApplyAppend(start, a + b, c);
    ApplyAppend(start, a, b);
  }

  lemma ApplyComparators(e: Edit, o: Option<Bytes>)
    requires e.comparator.None?
    ensures ApplyAll(e, Comparators(o)) == e.(comparator := o)
  {
    hide ApplyAll;
    AtMostOne(e, Comparators(o));
  }

  lemma ApplyLogNumbers(e: Edit, o: Option<nat>)
    requires e.logNumber.None?
    ensures ApplyAll(e, LogNumbers(o)) == e.(logNumber := o)
  {
    hide ApplyAll;
    AtMostOne(e, LogNumbers(o));
  }

  lemma ApplyPrevLogNumbers(e: Edit, o: Option<nat>)
    requires e.prevLogNumber.None?
    ensures ApplyAll(e, PrevLogNumbers(o)) == e.(prevLogNumber := o)
  {
    hide ApplyAll;
    AtMostOne(e, PrevLogNumbers(o));
  }

  lemma ApplyNextFileNumbers(e: Edit, o: Option<nat>)
    requires e.nextFileNumber.None?
    ensures ApplyAll(e, NextFileNumbers(o)) == e.(nextFileNumber := o)
  {
    hide ApplyAll;
    AtMostOne(e, NextFileNumbers(o));
  }

  lemma ApplyLastSequences(e: Edit, o: Option<nat>)
    requires e.lastSequence.None?
    ensures ApplyAll(e, LastSequences(o)) == e.(lastSequence := o)
  {
    hide ApplyAll;
    AtMostOne(e, LastSequences(o));
  }

  lemma ScalarsFit(e: Edit)
    requires Fits(e)
    ensures forall f :: f in Scalars(e) ==> FieldFits(f)
  {
  }

  lemma AtMostOne(e: Edit, fs: seq<Field>)
    requires |fs| <= 1
    ensures ApplyAll(e, fs) == if fs == [] then e else Apply(e, fs[0])
  {
    if |fs| == 1 {
      assert fs == [fs[0]];
      ApplyOne(e, fs[0]);
    }
  }

  /** What decoding makes of the bytes of an edit, whatever the edit decoded into held before. */
  lemma EditBack(start: Edit, e: Edit, order: seq<DeletedFile>)
    requires Fits(e) && Elements(order) == e.deletedFiles
    ensures
      var r := ReadFields(FieldsBytes(FieldsOf(e, order)));
      r.1 && ApplyAll(Cleared(start), r.0) == e.(compactPointers := start.compactPointers + e.compactPointers)
  {
    hide Apply, FieldsBytes, FieldFits;
    var a, b, c, d := Scalars(e), Pointers(e.compactPointers), Deletions(order), News(e.newFiles);
    var e0 := Cleared(start);
    ApplyScalars(e0, e);
    var e1 := ApplyAll(e0, a);
    ApplyPointers(e1, e.compactPointers);
    var e2 := ApplyAll(e1, b);
    ApplyDeletions(e2, order);
    var e3 := ApplyAll(e2, c);
    ApplyNews(e3, e.newFiles);
    ApplyAppend(e0, a + b + c, d);
    ApplyAppend(e0, a + b, c);
    ApplyAppend(e0, a, b);
    ScalarsFit(e);
    forall f | f in a + b + c + d ensures FieldFits(f) {
      if f in c {
        assert f.deleted in Elements(order);
      }
    }
    FieldsBack(a + b + c + d);
    assert [] + e.newFiles == e.newFiles;
  }

  /** Encoding and decoding is the identity exactly on edits that start without compaction pointers. */
  lemma RoundTripIffNoPointers(start: Edit, e: Edit, order: seq<DeletedFile>)
    requires Fits(e) && Elements(order) == e.deletedFiles
    ensures
      var r := ReadFields(FieldsBytes(FieldsOf(e, order)));
      r.1 && (ApplyAll(Cleared(start), r.0) == e <==> start.compactPointers == [])
  {
    hide ReadFields, ApplyAll, FieldsBytes;
    EditBack(start, e, order);
    assert |start.compactPointers + e.compactPointers| == |start.compactPointers| + |e.compactPointers|;
    assert [] + e.compactPointers == e.compactPointers;
  }

  lemma {:induction false} BytesAppend(a: seq<Field>, b: seq<Field>)
    ensures FieldsBytes(a + b) == FieldsBytes(a) + FieldsBytes(b)
    decreases |a|
  {
    hide FieldBytes;
    if a == [] {
      assert a + b == b;
    } else {
      assert (a + b)[1..] == a[1..] + b;
      BytesAppend(a[1..], b);
    }
  }

  /** One more field in a buffer. */
  lemma OneMore(dst: Bytes, fs: seq<Field>, f: Field)
    ensures dst + FieldsBytes(fs) + EncodeVarint(Tag(f)) + Body(f) == dst + FieldsBytes(fs + [f])
  {
    hide EncodeVarint, Body;
    BytesAppend(fs, [f]);
    assert [f][1..] == [];
    assert FieldsBytes([f]) == FieldBytes(f) + FieldsBytes([]) == FieldBytes(f);
  }

  class VersionEdit {
    var comparator: Option<Bytes>
    var logNumber: Option<nat>
    var prevLogNumber: Option<nat>
    var nextFileNumber: Option<nat>
    var lastSequence: Option<nat>
    var compactPointers: seq<CompactPointer>
    var deletedFiles: set<DeletedFile>
    var newFiles: seq<NewFile>

    constructor ()
      ensures Value() == FRESH
    {
      comparator, logNumber, prevLogNumber, nextFileNumber, lastSequence := None, None, None, None, None;
      compactPointers, deletedFiles, newFiles := [], {}, [];
    }

    ghost function Value(): Edit
      reads this
    {
      Edit(comparator, logNumber, prevLogNumber, nextFileNumber, lastSequence, compactPointers, deletedFiles, newFiles)
    }

    method Clear()
      modifies this
      ensures Value() == Cleared(old(Value()))
    {
      comparator, logNumber, prevLogNumber, nextFileNumber, lastSequence := None, None, None, None, None;
      deletedFiles, newFiles := {}, [];
    }

    method EncodeScalars(dst0: Bytes) returns (dst: Bytes)
      ensures dst == dst0 + FieldsBytes(Scalars(Value()))
    {
      hide EncodeVarint, LengthPrefixed, FieldsBytes;
      dst := dst0;
      NoField(dst0);
      if comparator.Some? {
        OneMore(dst0, [], Comparator(comparator.value));
        dst := dst + EncodeVarint(COMPARATOR);
        dst := dst + LengthPrefixed(comparator.value);
        assert [] + [Comparator(comparator.value)] == Comparators(comparator);
      }
      ghost var fs := Comparators(comparator);
      assert dst == dst0 + FieldsBytes(fs);
      dst := PutNumber(dst0, fs, dst, LOG_NUMBER, logNumber, LogNumbers(logNumber));
      fs := fs + LogNumbers(logNumber);
      dst := PutNumber(dst0, fs, dst, PREV_LOG_NUMBER, prevLogNumber, PrevLogNumbers(prevLogNumber));
      fs := fs + PrevLogNumbers(prevLogNumber);
      dst := PutNumber(dst0, fs, dst, NEXT_FILE_NUMBER, nextFileNumber, NextFileNumbers(nextFileNumber));
      fs := fs + NextFileNumbers(nextFileNumber);
      dst := PutNumber(dst0, fs, dst, LAST_SEQUENCE, lastSequence, LastSequences(lastSequence));
    }

    /** An optional number after its tag; `fs` were put before, and `more` are what it adds. */
    static method PutNumber(
        ghost dst0: Bytes, ghost fs: seq<Field>, dst: Bytes, tag: nat, o: Option<nat>, ghost more: seq<Field>)
      returns (r: Bytes)
      requires dst == dst0 + FieldsBytes(fs)
      requires |more| == (if o.None? then 0 else 1)
      requires o.Some? ==> Tag(more[0]) == tag && Body(more[0]) == EncodeVarint(o.value)
      ensures r == dst0 + FieldsBytes(fs + more)
    {
      hide EncodeVarint, FieldsBytes, Tag, Body;
      r := dst;
      if o.Some? {
        OneMore(dst0, fs, more[0]);
        assert more == [more[0]];
        r := r + EncodeVarint(tag);
        r := r + EncodeVarint(o.value);
      } else {
        assert fs + more == fs;
      }
    }

    /** `order` is the order in which the set of deleted files is gone through. */
    method EncodeTo(dst0: Bytes, order: seq<DeletedFile>) returns (dst: Bytes)
      requires Elements(order) == deletedFiles
      ensures dst == dst0 + FieldsBytes(FieldsOf(Value(), order))
    {
      hide EncodeVarint, LengthPrefixed, FieldsBytes, Scalars, Pointers, Deletions, News;
      dst := EncodeScalars(dst0);
      ghost var fs := Scalars(Value());
      NoneYet(fs);
      var i: nat := 0;
      while i < |compactPointers|
        invariant i <= |compactPointers|
        invariant dst == dst0 + FieldsBytes(fs + Pointers(compactPointers[..i]))
      {
        var p := compactPointers[i];
        OneMore(dst0, fs + Pointers(compactPointers[..i]), Pointer(p));
        NextPointer(fs, compactPointers, i);
        dst := dst + EncodeVarint(COMPACT_POINTER);
        dst := dst + (EncodeVarint(p.level) + LengthPrefixed(p.key));
        i := i + 1;
      }
      assert compactPointers[..i] == compactPointers;
      fs := fs + Pointers(compactPointers);
      NoneYet(fs);
      i := 0;
      while i < |order|
        invariant i <= |order|
        invariant dst == dst0 + FieldsBytes(fs + Deletions(order[..i]))
      {
        var d := order[i];
        OneMore(dst0, fs + Deletions(order[..i]), Deleted(d));
        NextDeletion(fs, order, i);
        dst := dst + EncodeVarint(DELETED_FILE);
        dst := dst + (EncodeVarint(d.level) + EncodeVarint(d.number));
        i := i + 1;
      }
      assert order[..i] == order;
      fs := fs + Deletions(order);
      NoneYet(fs);
      i := 0;
      while i < |newFiles|
        invariant i <= |newFiles|
        invariant dst == dst0 + FieldsBytes(fs + News(newFiles[..i]))
      {
        var f := newFiles[i];
        OneMore(dst0, fs + News(newFiles[..i]), New(f));
        NextNew(fs, newFiles, i);
        dst := dst + EncodeVarint(NEW_FILE);
        dst := dst + (EncodeVarint(f.level)
                      + (EncodeVarint(f.number)
                         + (EncodeVarint(f.size) + (LengthPrefixed(f.smallest) + LengthPrefixed(f.largest)))));
        i := i + 1;
      }
      assert newFiles[..i] == newFiles;
    }

    method SetField(f: Field)
      modifies this
      ensures Value() == Apply(old(Value()), f)
    {
      match f
      case Comparator(name) => comparator := Some(name);
      case LogNumber(n) => logNumber := Some(n);
      case PrevLogNumber(n) => prevLogNumber := Some(n);
      case NextFileNumber(n) => nextFileNumber := Some(n);
      case LastSequence(n) => lastSequence := Some(n);
      case Pointer(p) => compactPointers := compactPointers + [p];
      case Deleted(d) => deletedFiles := deletedFiles + {d};
      case New(file) => newFiles := newFiles + [file];
    }

    /** Bytes of any kind: either all of them are fields, which are then applied, or it says no. */
    method DecodeFrom(src: Bytes) returns (ok: bool)
      modifies this
      ensures ok == ReadFields(src).1
      ensures ok ==> Value() == ApplyAll(Cleared(old(Value())), ReadFields(src).0)
    {
      hide GetVarint32, TakeField, Apply, ApplyAll;
      Clear();
      ghost var start := Value();
      ghost var done: seq<Field> := [];
      var input := src;
      NothingDone(start, src);
      while true
        invariant var r := ReadFields(input); ReadFields(src) == (done + r.0, r.1)
        invariant Value() == ApplyAll(start, done)
        decreases |input|
      {
        var tag := GetVarint32(input);
        if tag.None? {
          assert done + [] == done;
          return input == [];
        }
        var next := TakeField(tag.value.value, input[tag.value.length..]);
        if next.None? {
          return false;
        }
        OneDone(start, done, next.value.field, ReadFields(next.value.rest).0);
        SetField(next.value.field);
        done := done + [next.value.field];
        input := next.value.rest;
      }
    }
  }

  lemma NoField(dst: Bytes)
    ensures dst + FieldsBytes([]) == dst
  {
  }

  lemma NoneYet(fs: seq<Field>)
    ensures forall ps: seq<CompactPointer> :: fs + Pointers(ps[..0]) == fs
    ensures forall ds: seq<DeletedFile> :: fs + Deletions(ds[..0]) == fs
    ensures forall ns: seq<NewFile> :: fs + News(ns[..0]) == fs
  {
  }

  lemma NextPointer(fs: seq<Field>, ps: seq<CompactPointer>, i: nat)
    requires i < |ps|
    ensures fs + Pointers(ps[..i]) + [Pointer(ps[i])] == fs + Pointers(ps[..i + 1])
  {
    assert ps[..i + 1][..i] == ps[..i];
  }

  lemma NextDeletion(fs: seq<Field>, ds: seq<DeletedFile>, i: nat)
    requires i < |ds|
    ensures fs + Deletions(ds[..i]) + [Deleted(ds[i])] == fs + Deletions(ds[..i + 1])
  {
    assert ds[..i + 1][..i] == ds[..i];
  }

  lemma NextNew(fs: seq<Field>, ns: seq<NewFile>, i: nat)
    requires i < |ns|
    ensures fs + News(ns[..i]) + [New(ns[i])] == fs + News(ns[..i + 1])
  {
    assert ns[..i + 1][..i] == ns[..i];
  }

  lemma NothingDone(start: Edit, src: Bytes)
    ensures ApplyAll(start, []) == start && [] + ReadFields(src).0 == ReadFields(src).0
  {
  }

  lemma OneDone(start: Edit, done: seq<Field>, f: Field, rest: seq<Field>)
    ensures ApplyAll(start, done + [f]) == Apply(ApplyAll(start, done), f)
    ensures done + ([f] + rest) == done + [f] + rest
  {
    hide Apply;
    ApplyAppend(start, done, [f]);
    ApplyOne(ApplyAll(start, done), f);
  }
}
