/** Internal keys as bytes: a user key, and behind it eight bytes with its sequence number and type. */
module InternalKeys {
  import opened Keys
  import opened Coding
  import opened BlockFormat

  const TAG_SIZE: nat := 8

  /** The place of a user key in the user comparator's order. */
  type Rank = Bytes -> UserKey

  function AppendInternalKey(user: Bytes, sequence: nat, kind: Kind): Bytes {
    user + EncodeFixed64(PackSequenceAndType(sequence, kind))
  }

  function UserPart(key: Bytes): Bytes {
    if |key| < TAG_SIZE then key else key[..|key| - TAG_SIZE]
  }

  function Tag(key: Bytes): nat {
    if |key| < TAG_SIZE then 0 else DecodeFixed64(key[|key| - TAG_SIZE..])
  }

  function KindOf(code: nat): Option<Kind> {
    if code == 0 then Some(Deletion) else if code == 1 then Some(Value) else None
  }

  function ParseInternalKey(rank: Rank, key: Bytes): Option<InternalKey> {
    if |key| < TAG_SIZE then None
    else
      var kind := KindOf(Tag(key) % 256);
      if kind.None? then None else Some(InternalKey(rank(UserPart(key)), Tag(key) / 256, kind.value))
  }

  /** The internal key comparator: by user key, and from the highest tag down. */
  function InternalLess(rank: Rank): Order {
    (a, b) =>
      if rank(UserPart(a)) == rank(UserPart(b)) then Tag(a) > Tag(b) else rank(UserPart(a)) < rank(UserPart(b))
  }

  lemma KeyBack(rank: Rank, user: Bytes, sequence: nat, kind: Kind)
    requires sequence <= MAX_SEQUENCE
    ensures ParseInternalKey(rank, AppendInternalKey(user, sequence, kind)) ==
            Some(InternalKey(rank(user), sequence, kind))
  {
    hide EncodeFixed64, DecodeFixed64;
    var tag := PackSequenceAndType(sequence, kind);
    var key := AppendInternalKey(user, sequence, kind);
    assert UserPart(key) == user && key[|key| - TAG_SIZE..] == EncodeFixed64(tag);
    Fixed64RoundTrip(tag);
  }

  /** Eight bytes behind a user key are a tag if its type is one of the two there are; fewer bytes are no
      key at all. */
  lemma TagDecides(rank: Rank, user: Bytes, tag: nat)
    requires tag < TWO32 * TWO32
    ensures ParseInternalKey(rank, user + EncodeFixed64(tag)) ==
      if tag % 256 == 0 then Some(InternalKey(rank(user), tag / 256, Deletion))
      else if tag % 256 == 1 then Some(InternalKey(rank(user), tag / 256, Value))
      else None
    ensures |user| < 8 ==> ParseInternalKey(rank, user) == None
  {
    hide EncodeFixed64, DecodeFixed64;
    var key := user + EncodeFixed64(tag);
    assert UserPart(key) == user && key[|key| - TAG_SIZE..] == EncodeFixed64(tag);
    Fixed64RoundTrip(tag);
  }

  /** The order of the bytes is the order of the keys that they stand for. */
  lemma LessAgrees(rank: Rank, a: Bytes, b: Bytes)
    requires ParseInternalKey(rank, a).Some? && ParseInternalKey(rank, b).Some?
    ensures InternalLess(rank)(a, b) <==> Less(ParseInternalKey(rank, a).value, ParseInternalKey(rank, b).value)
  {
    TagIsPacked(rank, a);
    TagIsPacked(rank, b);
  }

  lemma TagIsPacked(rank: Rank, key: Bytes)
    requires ParseInternalKey(rank, key).Some?
    ensures
      var k := ParseInternalKey(rank, key).value;
      PackSequenceAndType(k.sequence, k.kind) == Tag(key) && k.user == rank(UserPart(key))
  {
    hide DecodeFixed64;
  }

  lemma InternalLessIsOrder(rank: Rank)
    ensures IsOrder(InternalLess(rank))
  {
    hide DecodeFixed64;
  }
}
