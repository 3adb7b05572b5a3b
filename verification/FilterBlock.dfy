/** Filters of a table: one for the keys of every 2 KB of blocks.  A key that was added under a
    block is never denied for it. */
module FilterBlock {
  import opened Keys
  import opened Coding

  const BASE_LG: nat := 11
  const BASE: nat := 2048

  datatype Policy = Policy(create: seq<Bytes> -> Bytes, mayMatch: (Bytes, Bytes) -> bool)

  /** What is asked of a policy: a filter matches every key that it was made of. */
  ghost predicate Accepts(p: Policy) {
    forall ks: seq<Bytes>, k: Bytes {:trigger p.mayMatch(k, p.create(ks))} :: k in ks ==> p.mayMatch(k, p.create(ks))
  }

  function Joined(ks: seq<Bytes>): Bytes {
    if ks == [] then [] else Joined(ks[..|ks| - 1]) + ks[|ks| - 1]
  }

  function FilterOf(p: Policy, ks: seq<Bytes>): Bytes {
    if ks == [] then [] else p.create(ks)
  }

  /** The filters one after the other. */
  function Filters(p: Policy, sets: seq<seq<Bytes>>): Bytes {
    if sets == [] then [] else Filters(p, sets[..|sets| - 1]) + FilterOf(p, sets[|sets| - 1])
  }

  lemma {:induction false} JoinedAt(ks: seq<Bytes>, i: nat)
    requires i < |ks|
    ensures |Joined(ks[..i])| <= |Joined(ks[..i + 1])| <= |Joined(ks)|
    ensures Joined(ks)[|Joined(ks[..i])|..|Joined(ks[..i + 1])|] == ks[i]
  {
    var n := |ks| - 1;
    if i < n {
      assert ks[..n][..i] == ks[..i] && ks[..n][..i + 1] == ks[..i + 1];
      JoinedAt(ks[..n], i);
    } else {
      assert ks[..i + 1] == ks;
    }
  }

  lemma {:induction false} FiltersAt(p: Policy, sets: seq<seq<Bytes>>, i: nat)
    requires i < |sets|
    ensures |Filters(p, sets[..i])| <= |Filters(p, sets[..i + 1])| <= |Filters(p, sets)|
    ensures Filters(p, sets)[|Filters(p, sets[..i])|..|Filters(p, sets[..i + 1])|] == FilterOf(p, sets[i])
  {
    hide FilterOf;
    var n := |sets| - 1;
    if i < n {
      assert sets[..n][..i] == sets[..i] && sets[..n][..i + 1] == sets[..i + 1];
      FiltersAt(p, sets[..n], i);
    } else {
      assert sets[..i + 1] == sets;
    }
  }

  // ----- The builder -----

  /** Where each set's filter begins. */
  ghost predicate OffsetsOf(p: Policy, sets: seq<seq<Bytes>>, offsets: seq<nat>) {
    |offsets| == |sets| && forall i :: 0 <= i < |sets| ==> offsets[i] == |Filters(p, sets[..i])|
  }

  ghost predicate StartsOf(ks: seq<Bytes>, start: seq<nat>) {
    |start| == |ks| && forall i :: 0 <= i < |ks| ==> start[i] == |Joined(ks[..i])|
  }

  ghost predicate IsFilterBlock(p: Policy, block: Bytes, sets: seq<seq<Bytes>>) {
    exists offsets ::
      && OffsetsOf(p, sets, offsets)
      && block == Filters(p, sets) + Fixed32s(offsets) + EncodeFixed32(|Filters(p, sets)|) + [BASE_LG as Byte]
  }

  lemma FilterAdded(p: Policy, sets: seq<seq<Bytes>>, offsets: seq<nat>, ks: seq<Bytes>)
    requires OffsetsOf(p, sets, offsets)
    ensures Filters(p, sets + [ks]) == Filters(p, sets) + if ks == [] then [] else p.create(ks)
    ensures ks == [] ==> Filters(p, sets + [ks]) == Filters(p, sets)
    ensures OffsetsOf(p, sets + [ks], offsets + [|Filters(p, sets)|])
  {
    var sets' := sets + [ks];
    assert sets'[..|sets|] == sets;
    forall i | 0 <= i < |sets'| ensures (offsets + [|Filters(p, sets)|])[i] == |Filters(p, sets'[..i])| {
      assert sets'[..i] == sets[..i];
      assert sets[..|sets|] == sets;
    }
  }

  lemma KeyAdded(ks: seq<Bytes>, start: seq<nat>, k: Bytes)
    requires StartsOf(ks, start)
    ensures Joined(ks + [k]) == Joined(ks) + k
    ensures StartsOf(ks + [k], start + [|Joined(ks)|])
  {
    var ks' := ks + [k];
    assert ks'[..|ks|] == ks;
    forall i | 0 <= i < |ks'| ensures (start + [|Joined(ks)|])[i] == |Joined(ks'[..i])| {
      assert ks'[..i] == ks[..i];
      assert ks[..|ks|] == ks;
    }
  }

  /** With one more start at the end, every key stands between two starts. */
  lemma KeyBetween(ks: seq<Bytes>, start: seq<nat>, i: nat)
    requires |start| == |ks| + 1 && start[|ks|] == |Joined(ks)| && StartsOf(ks, start[..|ks|]) && i < |ks|
    ensures start[i] <= start[i + 1] <= |Joined(ks)| && Joined(ks)[start[i]..start[i + 1]] == ks[i]
  {
    hide Joined;
    JoinedAt(ks, i);
    assert start[i] == start[..|ks|][i];
    if i + 1 < |ks| {
      assert start[i + 1] == start[..|ks|][i + 1];
    } else {
      assert ks[..i + 1] == ks;
    }
  }

  datatype Added = Added(block: nat, key: Bytes)

  /** The key was added under a block of the range. */
  ghost predicate AddedIn(added: set<Added>, range: nat, key: Bytes) {
    exists a :: a in added && a.block / BASE == range && a.key == key
  }

  lemma AddedMore(added: set<Added>, a: Added)
    ensures forall i, k :: AddedIn(added + {a}, i, k) <==> AddedIn(added, i, k) || (a.block / BASE == i && a.key == k)
  {
    forall i, k | AddedIn(added, i, k) || (a.block / BASE == i && a.key == k) ensures AddedIn(added + {a}, i, k) {
      if AddedIn(added, i, k) {
        var b :| b in added && b.block / BASE == i && b.key == k;
        assert b in added + {a};
      } else {
        assert a in added + {a};
      }
    }
  }

  class Builder {
    const policy: Policy
    /** The keys since the last filter, one after the other, and where each begins. */
    var keys: Bytes
    var start: seq<nat>
    var result: Bytes
    var filterOffsets: seq<nat>
    ghost var pending: seq<Bytes>
    ghost var sets: seq<seq<Bytes>>
    /** The block that keys are added for, and all that were added. */
    ghost var block: nat
    ghost var added: set<Added>

    constructor (policy: Policy)
      ensures Ok() && added == {} && block == 0 && this.policy == policy
    {
      this.policy := policy;
      keys, start, result, filterOffsets := [], [], [], [];
      pending, sets, block, added := [], [], 0, {};
    }

    ghost predicate Open()
      reads this
    {
      && keys == Joined(pending) && StartsOf(pending, start)
      && result == Filters(policy, sets) && OffsetsOf(policy, sets, filterOffsets)
      && (forall a :: a in added ==> a.block / BASE <= |sets|)
      && (forall i, k :: 0 <= i < |sets| ==> (k in sets[i] <==> AddedIn(added, i, k)))
      && (forall k :: k in pending <==> AddedIn(added, |sets|, k))
    }

    ghost predicate Ok()
      reads this
    {
      Open() && |sets| == block / BASE
    }

    method GenerateFilter()
      requires Open()
      modifies this
      ensures Open() && pending == [] && sets == old(sets) + [old(pending)] && added == old(added)
      ensures block == old(block)
    {
      hide Joined, Filters, FilterOf;
      FilterAdded(policy, sets, filterOffsets, pending);
      NothingPending();
      filterOffsets := filterOffsets + [|result|];
      if |start| > 0 {
        var numKeys := |start|;
        start := start + [|keys|];
        var tmpKeys: seq<Bytes> := [];
        var i := 0;
        assert start[..numKeys] == old(start);
        while i < numKeys
          invariant start == old(start) + [|keys|] && keys == old(keys) && pending == old(pending)
          invariant 0 <= i <= numKeys == |pending| && tmpKeys == pending[..i]
          invariant result == old(result) && sets == old(sets) && added == old(added) && block == old(block)
          invariant filterOffsets == old(filterOffsets) + [|old(result)|]
        {
          KeyBetween(pending, start, i);
          tmpKeys := tmpKeys + [keys[start[i]..start[i + 1]]];
          i := i + 1;
        }
        assert tmpKeys == pending;
        result := result + policy.create(tmpKeys);
        keys := [];
        start := [];
      }
      sets := sets + [pending];
      pending := [];
    }

    /** Every filter up to the block's own is made; a block never starts before the one it follows. */
    method StartBlock(blockOffset: nat)
      requires Ok() && blockOffset >= block
      modifies this
      ensures Ok() && block == blockOffset && added == old(added)
    {
      var filterIndex := blockOffset / BASE;
      while filterIndex > |filterOffsets|
        invariant Open() && |filterOffsets| <= filterIndex && added == old(added)
      {
        GenerateFilter();
      }
      block := blockOffset;
    }

    method AddKey(key: Bytes)
      requires Ok()
      modifies this
      ensures Ok() && block == old(block) && added == old(added) + {Added(block, key)}
    {
      hide Joined, Filters, AddedIn;
      AddedMore(added, Added(block, key));
      KeyAdded(pending, start, key);
      start := start + [|keys|];
      keys := keys + key;
      pending := pending + [key];
      added := added + {Added(block, key)};
    }

    /** The block of filters, with one for everything that was added. */
    method Finish() returns (filters: Bytes, ghost made: seq<seq<Bytes>>)
      requires Ok()
      modifies this
      ensures IsFilterBlock(policy, filters, made)
      ensures forall a :: a in old(added) ==> a.block / BASE < |made|
      ensures forall i, k :: 0 <= i < |made| ==> (k in made[i] <==> AddedIn(old(added), i, k))
    {
      hide Joined, Filters, Fixed32s, EncodeFixed32;
      if start != [] {
        GenerateFilter();
      }
      made := sets;
      forall a | a in added ensures a.block / BASE < |made| {
        assert AddedIn(added, a.block / BASE, a.key);
        NothingPending();
      }
      var arrayOffset := |result|;
      ghost var offsets := filterOffsets;
      var i := 0;
      FixedNone(result, filterOffsets);
      while i < |filterOffsets|
        invariant i <= |filterOffsets| && filterOffsets == offsets
        invariant result == Filters(policy, made) + Fixed32s(filterOffsets[..i])
      {
        FixedNext(Filters(policy, made), filterOffsets, i);
        result := result + EncodeFixed32(filterOffsets[i]);
        i := i + 1;
      }
      assert filterOffsets[..i] == filterOffsets;
      result := result + EncodeFixed32(arrayOffset);
      result := result + [BASE_LG as Byte];
      filters := result;
    }

    lemma NothingPending()
      requires Open()
      ensures start == [] <==> pending == []
      ensures Joined([]) == [] && StartsOf([], [])
    {
    }
  }

  lemma FixedNone(a: Bytes, values: seq<nat>)
    ensures a == a + Fixed32s(values[..0])
  {
  }

  lemma FixedNext(a: Bytes, values: seq<nat>, i: nat)
    requires i < |values|
    ensures a + Fixed32s(values[..i]) + EncodeFixed32(values[i]) == a + Fixed32s(values[..i + 1])
  {
    hide EncodeFixed32;
    assert values[..i + 1][..i] == values[..i];
  }

  // ----- The reader -----

  /** Whether a block at the offset may hold the key; damage counts as maybe. */
  function KeyMayMatch(p: Policy, contents: Bytes, blockOffset: nat, key: Bytes): bool {
    var n := |contents|;
    if n < 5 then true
    else
      var arrayAt := DecodeFixed32(contents[n - 5..n - 1]);
      if arrayAt > n - 5 then true
      else
        var num := (n - 5 - arrayAt) / 4;
        var index := blockOffset / Power2(contents[n - 1] as nat);
        if index < num then
          var from := WordAt(contents, arrayAt, index);
          var limit := WordAt(contents, arrayAt, index + 1);
          if from <= limit && limit <= arrayAt then p.mayMatch(key, contents[from..limit]) else from != limit
        else true
  }

  function Power2(k: nat): (p: nat)
    ensures p >= 1
  {
    if k == 0 then 1 else 2 * Power2(k - 1)
  }

  /** What the words after the filters are. */
  lemma FilterWords(p: Policy, contents: Bytes, sets: seq<seq<Bytes>>, i: nat)
    requires IsFilterBlock(p, contents, sets) && |contents| < TWO32 && i < |sets|
    ensures
      var arrayAt := |Filters(p, sets)|;
      && |contents| == arrayAt + 4 * |sets| + 5
      && WordAt(contents, arrayAt, i) == |Filters(p, sets[..i])|
      && WordAt(contents, arrayAt, i + 1) == |Filters(p, sets[..i + 1])|
  {
    hide Filters, Fixed32s, EncodeFixed32, WordAt;
    var all := Filters(p, sets);
    var arrayAt := |all|;
    var offsets :| OffsetsOf(p, sets, offsets)
                && contents == all + Fixed32s(offsets) + EncodeFixed32(arrayAt) + [BASE_LG as Byte];
    var words := Fixed32s(offsets + [arrayAt]);
    assert words == Fixed32s(offsets) + EncodeFixed32(arrayAt) by {
      assert (offsets + [arrayAt])[..|offsets|] == offsets;
      LastFixed(offsets, arrayAt);
    }
    assert contents == all + words + [BASE_LG as Byte];
    FiltersAt(p, sets, i);
    assert (offsets + [arrayAt])[i] == offsets[i];
    Fixed32sAt(offsets + [arrayAt], i);
    WordReads(contents, all, words, [BASE_LG as Byte], i, offsets[i]);
    var next := (offsets + [arrayAt])[i + 1];
    if i + 1 < |sets| {
      FiltersAt(p, sets, i + 1);
    } else {
      assert sets[..i + 1] == sets;
    }
    Fixed32sAt(offsets + [arrayAt], i + 1);
    WordReads(contents, all, words, [BASE_LG as Byte], i + 1, next);
  }

  lemma LastFixed(values: seq<nat>, v: nat)
    ensures Fixed32s(values + [v]) == Fixed32s(values) + EncodeFixed32(v)
  {
    hide EncodeFixed32;
    assert (values + [v])[..|values|] == values;
  }

  /** On a finished block, the answer is what the policy says of the filter of the block's range, even
      of an empty one; beyond the last filter nothing is denied. */
  lemma AnswerIs(p: Policy, contents: Bytes, sets: seq<seq<Bytes>>, blockOffset: nat, key: Bytes)
    requires IsFilterBlock(p, contents, sets) && |contents| < TWO32
    ensures
      var i := blockOffset / BASE;
      KeyMayMatch(p, contents, blockOffset, key) ==
        if i < |sets| then p.mayMatch(key, FilterOf(p, sets[i])) else true
  {
    hide Filters, WordAt, DecodeFixed32, IsFilterBlock, Power2, FilterOf;
    var i := blockOffset / BASE;
    var all := Filters(p, sets);
    Ending(p, contents, sets);
    CountIs(p, contents, sets);
    PowerIs();
    if i < |sets| {
      FilterWords(p, contents, sets, i);
      FiltersAt(p, sets, i);
      assert contents[|Filters(p, sets[..i])|..|Filters(p, sets[..i + 1])|] == FilterOf(p, sets[i]) by {
        assert contents[..|all|] == all;
      }
    }
  }

  lemma CountIs(p: Policy, contents: Bytes, sets: seq<seq<Bytes>>)
    requires IsFilterBlock(p, contents, sets)
    ensures |contents| == |Filters(p, sets)| + 4 * |sets| + 5
  {
    hide Filters, Fixed32s, EncodeFixed32;
  }

  /** A key that was added under a block is never denied for it. */
  lemma NoFalseNegatives(p: Policy, contents: Bytes, sets: seq<seq<Bytes>>, blockOffset: nat, key: Bytes)
    requires Accepts(p) && IsFilterBlock(p, contents, sets) && |contents| < TWO32
    requires blockOffset / BASE < |sets| && key in sets[blockOffset / BASE]
    ensures KeyMayMatch(p, contents, blockOffset, key)
  {
    hide KeyMayMatch, IsFilterBlock;
    AnswerIs(p, contents, sets, blockOffset, key);
  }

  /** On any bytes at all: a key is denied only if the policy denies it for some piece of them, or if
      an entry says that a filter is empty and points behind the filters. */
  lemma DeniedBy(p: Policy, contents: Bytes, blockOffset: nat, key: Bytes)
    requires !KeyMayMatch(p, contents, blockOffset, key)
    ensures
      var n := |contents|;
      && n >= 5 && DecodeFixed32(contents[n - 5..n - 1]) <= n - 5
      && exists from: nat, limit: nat :: from <= limit && (
           || (limit <= DecodeFixed32(contents[n - 5..n - 1]) && !p.mayMatch(key, contents[from..limit]))
           || DecodeFixed32(contents[n - 5..n - 1]) < from == limit)
  {
    hide WordAt, DecodeFixed32, Power2;
    var n := |contents|;
    var arrayAt := DecodeFixed32(contents[n - 5..n - 1]);
    var index := blockOffset / Power2(contents[n - 1] as nat);
    var from, limit := WordAt(contents, arrayAt, index), WordAt(contents, arrayAt, index + 1);
    assert from <= limit;
  }

  lemma PowerIs()
    ensures Power2(BASE_LG) == BASE
  {
    assert Power2(4) == 16;
    assert Power2(8) == 256;
  }

  lemma Ending(p: Policy, contents: Bytes, sets: seq<seq<Bytes>>)
    requires IsFilterBlock(p, contents, sets) && |contents| < TWO32
    ensures
      var n := |contents|;
      && n >= 5 && contents[n - 1] == BASE_LG as Byte
      && DecodeFixed32(contents[n - 5..n - 1]) == |Filters(p, sets)|
      && Filters(p, sets) <= contents
  {
    hide Filters, Fixed32s, EncodeFixed32, DecodeFixed32;
    var all := Filters(p, sets);
    var offsets :| OffsetsOf(p, sets, offsets)
                && contents == all + Fixed32s(offsets) + EncodeFixed32(|all|) + [BASE_LG as Byte];
    Fixed32RoundTrip(|all|);
    assert contents[|contents| - 5..|contents| - 1] == EncodeFixed32(|all|);
    assert contents[..|all|] == all;
  }
}
