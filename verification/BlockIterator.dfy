/** Reading a block: a cursor over the entries that were added to it. */
module BlockIterator {
  import opened Keys
  import opened Coding
  import opened BlockFormat
  import opened BlockBuilder

  // ----- Opening a block -----

  function NumRestarts(block: Bytes): nat
    requires |block| >= 4
  {
    DecodeFixed32(block[|block| - 4..])
  }

  /** Where the restart points begin, if the block is long enough for their number. */
  function RestartOffset(block: Bytes): (r: Option<nat>)
    ensures r.Some? ==> r.value <= |block|
  {
    if |block| < 4 || NumRestarts(block) > (|block| - 4) / 4 then None
    else Some(|block| - (1 + NumRestarts(block)) * 4)
  }

  /** The block's restart points begin at `limit`; the entries before it and the restart points are these. */
  ghost predicate Opened(block: Bytes, limit: nat, lay: Layout, points: seq<nat>) {
    && limit + 4 * |points| <= |block| < TWO32
    && Encodes(block[..limit], lay) && RestartsOk(lay, points)
    && forall r :: 0 <= r < |points| ==> WordAt(block, limit, r) == points[r]
  }

  /** A block that was built is opened, and its restart points are read as they were written. */
  lemma BuiltOpens(block: Bytes, lay: Layout, points: seq<nat>)
    requires IsBlock(block, lay, points) && |block| < TWO32
    ensures |block| >= 4 && NumRestarts(block) == |points| > 0
    ensures RestartOffset(block).Some? && Opened(block, RestartOffset(block).value, lay, points)
  {
    var data: Bytes :| Encodes(data, lay) && RestartsOk(lay, points)
                    && block == data + Fixed32s(points) + EncodeFixed32(|points|);
    PointsAreSmall(data, lay, points);
    BytesOpen(block, data, points);
    assert block[..|data|] == data;
  }

  lemma PointsAreSmall(data: Bytes, lay: Layout, points: seq<nat>)
    requires Encodes(data, lay) && RestartsOk(lay, points)
    ensures forall r :: 0 <= r < |points| ==> points[r] <= |data|
  {
    hide EntryBytes;
    forall r | 0 <= r < |points| ensures points[r] <= |data| {
      OffsetOrder(data, lay, lay.restartAt[r], |lay.keys|);
    }
  }

  lemma BytesOpen(block: Bytes, data: Bytes, points: seq<nat>)
    requires block == data + Fixed32s(points) + EncodeFixed32(|points|) && |block| < TWO32
    requires forall r :: 0 <= r < |points| ==> points[r] <= |data|
    ensures RestartOffset(block) == Some(|data|) && NumRestarts(block) == |points|
    ensures forall r :: 0 <= r < |points| ==> WordAt(block, |data|, r) == points[r]
  {
    hide EncodeFixed32, DecodeFixed32, Fixed32s, WordAt;
    assert block[|block| - 4..] == EncodeFixed32(|points|);
    Fixed32RoundTrip(|points|);
    forall r | 0 <= r < |points| ensures WordAt(block, |data|, r) == points[r] {
      Fixed32sAt(points, r);
      WordReads(block, data, Fixed32s(points), EncodeFixed32(|points|), r, points[r]);
    }
  }

  // ----- Offsets -----

  lemma {:induction false} OffsetOrder(data: Bytes, lay: Layout, i: nat, j: nat)
    requires Encodes(data, lay) && i <= j <= |lay.keys|
    ensures lay.offsets[i] <= lay.offsets[j] <= |data|
    ensures i < j ==> lay.offsets[i] < lay.offsets[j]
    decreases j - i
  {
    hide EntryBytes;
    if i < j {
      assert EntryAt(data, lay, i);
      OffsetOrder(data, lay, i + 1, j);
    } else if i < |lay.keys| {
      assert EntryAt(data, lay, i);
    }
  }

  lemma OffsetsCompare(data: Bytes, lay: Layout, i: nat, j: nat)
    requires Encodes(data, lay) && i <= |lay.keys| && j <= |lay.keys|
    ensures lay.offsets[i] < lay.offsets[j] <==> i < j
    ensures lay.offsets[i] == lay.offsets[j] <==> i == j
  {
    if i < j {
      OffsetOrder(data, lay, i, j);
    } else if j < i {
      OffsetOrder(data, lay, j, i);
    }
  }

  /** No key is longer than the bytes up to its entry's end. */
  lemma {:induction false} KeyLength(data: Bytes, lay: Layout, i: nat)
    requires Encodes(data, lay) && i < |lay.keys|
    ensures |lay.keys[i]| <= lay.offsets[i + 1] <= |data|
  {
    assert EntryAt(data, lay, i);
    if i > 0 {
      KeyLength(data, lay, i - 1);
    }
  }

  /** What the bytes at an entry's offset decode to. */
  lemma EntryDecodes(block: Bytes, limit: nat, lay: Layout, points: seq<nat>, i: nat)
    requires Opened(block, limit, lay, points) && i < |lay.keys|
    ensures
      var at := lay.offsets[i];
      && at < limit
      && var d := DecodeEntry(block[at..limit]);
      && d.Some? && d.value.shared == lay.shared[i] && d.value.unshared == |lay.keys[i]| - lay.shared[i]
      && var p := at + d.value.length;
      && var q := p + d.value.unshared;
      && q + d.value.valueLength == lay.offsets[i + 1] <= limit
      && block[p..q] == lay.keys[i][lay.shared[i]..]
      && block[q..lay.offsets[i + 1]] == lay.values[i]
  {
    hide EncodeVarint, DecodeEntry, EntryHeader, EntryBytes;
    var data := block[..limit];
    assert EntryAt(data, lay, i);
    var at, end := lay.offsets[i], lay.offsets[i + 1];
    var shared, key, value := lay.shared[i], lay.keys[i], lay.values[i];
    var e := EntryBytes(shared, key, value);
    assert block[at..limit] == e + block[end..limit] by {
      assert block[at..end] == data[at..end];
    }
    KeyLength(data, lay, i);
    DecodeEntryOf(shared, key, value, block[end..limit]);
    var h := |EntryHeader(shared, |key| - shared, |value|)|;
    EntrySplits(shared, key, value);
    SubSlice(block, at, end, h, h + |key| - shared);
    SubSlice(block, at, end, h + |key| - shared, end - at);
    assert block[at..end] == e;
    assert e[h + |key| - shared..end - at] == e[h + |key| - shared..];
  }

  lemma EntrySplits(shared: nat, key: Bytes, value: Bytes)
    requires shared <= |key|
    ensures
      var e, h := EntryBytes(shared, key, value), |EntryHeader(shared, |key| - shared, |value|)|;
      && |e| == h + |key| - shared + |value|
      && e[h..h + |key| - shared] == key[shared..]
      && e[h + |key| - shared..] == value
  {
    hide EntryHeader;
    var h := EntryHeader(shared, |key| - shared, |value|);
    var e := h + key[shared..] + value;
    assert e == EntryBytes(shared, key, value);
    assert e[|h| + |key| - shared..] == value;
  }

  /** There is an entry at its offset exactly when there is such an entry, and it decodes to what it is. */
  lemma EntryFound(block: Bytes, limit: nat, lay: Layout, points: seq<nat>, p: nat)
    requires Opened(block, limit, lay, points) && p <= |lay.keys|
    ensures |lay.offsets| == |lay.keys| + 1 == |lay.shared| + 1 == |lay.values| + 1
    ensures lay.offsets[p] < limit <==> p < |lay.keys|
    ensures lay.offsets[p] <= limit
    ensures p < |lay.keys| ==>
      var at := lay.offsets[p];
      var d := DecodeEntry(block[at..limit]);
      && d.Some? && d.value.shared == lay.shared[p] && d.value.unshared == |lay.keys[p]| - lay.shared[p]
      && var s := at + d.value.length;
      && var q := s + d.value.unshared;
      && q + d.value.valueLength == lay.offsets[p + 1] <= limit
      && block[q..lay.offsets[p + 1]] == lay.values[p]
      && if d.value.shared == 0 then block[s..q] == lay.keys[p]
         else
           && p > 0 && d.value.shared <= |lay.keys[p - 1]|
           && lay.keys[p - 1][..d.value.shared] + block[s..q] == lay.keys[p]
  {
    hide DecodeEntry, EntryBytes;
    OffsetsCompare(block[..limit], lay, p, |lay.keys|);
    if p < |lay.keys| {
      EntryDecodes(block, limit, lay, points, p);
      assert lay.keys[p] == lay.keys[p][..lay.shared[p]] + lay.keys[p][lay.shared[p]..];
      assert lay.shared[p] == 0 ==> lay.keys[p][0..] == lay.keys[p];
    }
  }

  // ----- The iterator -----

  class Iter {
    const less: Order
    const data: Bytes
    /** Where the restart points begin: the end of the entries. */
    const limit: nat
    const numRestarts: nat
    var current: nat
    var restartIndex: nat
    var key: Bytes
    var valueStart: nat
    var valueEnd: nat
    /** What the block stands for, and the position among its entries. */
    ghost const lay: Layout
    ghost const points: seq<nat>
    ghost var pos: nat

    constructor (less: Order, block: Bytes, ghost lay: Layout, ghost points: seq<nat>)
      requires IsBlock(block, lay, points) && |block| < TWO32
      ensures Ok() && !Valid() && this.lay == lay && this.less == less
    {
      hide IsBlock, NumRestarts, Opened;
      BuiltOpens(block, lay, points);
      this.less := less;
      data := block;
      limit := RestartOffset(block).value;
      numRestarts := NumRestarts(block);
      current := RestartOffset(block).value;
      restartIndex := NumRestarts(block);
      key := [];
      valueStart := 0;
      valueEnd := 0;
      this.lay := lay;
      this.points := points;
      pos := |lay.keys|;
    }

    ghost predicate Block()
    {
      Opened(data, limit, lay, points) && numRestarts == |points|
    }

    /** The fields describe entry `pos`; at the number of entries the cursor is nowhere. */
    ghost predicate Ok()
      reads this
    {
      && Block() && pos <= |lay.keys|
      && if pos == |lay.keys| then current == limit && restartIndex == numRestarts
         else
           && current == lay.offsets[pos] && key == lay.keys[pos]
           && valueStart <= valueEnd == lay.offsets[pos + 1] <= |data| && data[valueStart..valueEnd] == lay.values[pos]
           && restartIndex < numRestarts && points[restartIndex] <= current
           && (restartIndex + 1 < numRestarts ==> current <= points[restartIndex + 1])
    }

    /** The next entry to be parsed is entry `p`, if there is one. */
    ghost predicate Ready(p: nat)
      reads this
    {
      && Block() && p <= |lay.keys| && valueEnd == lay.offsets[p]
      && restartIndex < numRestarts && points[restartIndex] <= lay.offsets[p]
      && (p < |lay.keys| && lay.shared[p] != 0 ==> key == lay.keys[p - 1])
    }

    predicate Valid()
      reads this
    {
      current < limit
    }

    lemma ValidIff()
      requires Ok()
      ensures Valid() <==> pos < |lay.keys|
    {
      if pos < |lay.keys| {
        EntryDecodes(data, limit, lay, points, pos);
      }
    }

    /** After an entry, the next one is ready to be parsed. */
    lemma OffsetsUp(p: nat)
      requires Ok() && pos == p < |lay.keys|
      ensures Ready(p + 1)
    {
      OffsetsCompare(data[..limit], lay, p, p + 1);
    }

    lemma EndsAtLimit(p: nat)
      requires Block() && p <= |lay.keys|
      ensures |lay.offsets| == |lay.keys| + 1
      ensures p < |lay.keys| ==> (lay.offsets[p + 1] < limit <==> p + 1 < |lay.keys|)
    {
      if p < |lay.keys| {
        OffsetsCompare(data[..limit], lay, p + 1, |lay.keys|);
      }
    }

    function GetRestartPoint(index: nat): nat
      requires Block() && index < numRestarts
      reads this
    {
      WordAt(data, limit, index)
    }

    method SeekToRestartPoint(index: nat)
      requires Block() && index < numRestarts
      modifies this
      ensures Ready(lay.restartAt[index])
    {
      key := [];
      restartIndex := index;
      valueStart := GetRestartPoint(index);
      valueEnd := valueStart;
    }

    /** Moves on to the entry that begins where the last one ended. */
    method ParseNextKey(ghost p: nat) returns (more: bool)
      requires Ready(p)
      modifies this
      ensures Ok() && pos == p && more == (p < |lay.keys|)
    {
      hide Encodes, RestartsOk, EntryBytes, DecodeEntry, WordAt;
      EntryFound(data, limit, lay, points, p);
      current := valueEnd;
      pos := p;
      if current >= limit {
        current := limit;
        restartIndex := numRestarts;
        return false;
      }
      var d := DecodeEntry(data[current..limit]);
      if d.None? || |key| < d.value.shared {
        // reported as corruption; no block that was built gets here
        assert false;
      }
      var start := current + d.value.length;
      key := key[..d.value.shared] + data[start..start + d.value.unshared];
      valueStart := start + d.value.unshared;
      valueEnd := valueStart + d.value.valueLength;
      assert key == lay.keys[p] by {
        assert d.value.shared == 0 ==> key == data[start..start + d.value.unshared];
      }
      while restartIndex + 1 < numRestarts && GetRestartPoint(restartIndex + 1) < current
        invariant restartIndex < numRestarts && points[restartIndex] <= current
        invariant Block() && pos == p && current == lay.offsets[p] && key == lay.keys[p]
        invariant valueStart <= valueEnd == lay.offsets[p + 1] <= |data| && data[valueStart..valueEnd] == lay.values[p]
      {
        restartIndex := restartIndex + 1;
      }
      return true;
    }

    method Next()
      requires Ok() && Valid()
      modifies this
      ensures Ok() && pos == old(pos) + 1
    {
      ValidIff();
      OffsetsUp(pos);
      var _ := ParseNextKey(pos + 1);
    }

    method Prev()
      requires Ok() && Valid()
      modifies this
      ensures Ok() && pos == if old(pos) == 0 then |lay.keys| else old(pos) - 1
    {
      hide Encodes, EntryBytes, WordAt, Ready;
      ValidIff();
      ghost var p := pos;
      var original := current;
      while GetRestartPoint(restartIndex) >= original
        invariant Block() && original == lay.offsets[p] && pos == p < |lay.keys| && restartIndex < numRestarts
        invariant restartIndex + 1 < numRestarts ==> points[restartIndex + 1] >= original
        decreases restartIndex
      {
        if restartIndex == 0 {
          assert lay.restartAt[0] == 0;
          OffsetsCompare(data[..limit], lay, 0, p);
          current := limit;
          restartIndex := numRestarts;
          pos := |lay.keys|;
          return;
        }
        restartIndex := restartIndex - 1;
      }
      ghost var q := lay.restartAt[restartIndex];
      OffsetsCompare(data[..limit], lay, q, p);
      SeekToRestartPoint(restartIndex);
      var more := true;
      while more
        invariant q < p && original == lay.offsets[p] && p < |lay.keys|
        invariant if more then Ready(q) else Ok() && pos == p - 1
        decreases if more then p - q else 0
      {
        more := ParseNextKey(q);
        ValidIff();
        OffsetsCompare(data[..limit], lay, q + 1, p);
        more := more && valueEnd < original;
        if more {
          OffsetsUp(q);
          q := q + 1;
        }
      }
    }

    method SeekToFirst()
      requires Ok()
      modifies this
      ensures Ok() && pos == 0
    {
      assert numRestarts > 0 && lay.restartAt[0] == 0;
      SeekToRestartPoint(0);
      var _ := ParseNextKey(0);
    }

    method SeekToLast()
      requires Ok()
      modifies this
      ensures Ok() && pos == if lay.keys == [] then 0 else |lay.keys| - 1
    {
      hide Encodes, EntryBytes, WordAt, Ready;
      assert numRestarts > 0;
      SeekToRestartPoint(numRestarts - 1);
      ghost var q := lay.restartAt[numRestarts - 1];
      var more := true;
      while more
        invariant q <= |lay.keys| && (lay.keys != [] ==> q < |lay.keys|)
        invariant if more then Ready(q) else Ok() && pos == if lay.keys == [] then 0 else |lay.keys| - 1
        decreases if more then |lay.keys| - q + 1 else 0
      {
        more := ParseNextKey(q);
        EndsAtLimit(q);
        more := more && valueEnd < limit;
        if more {
          OffsetsUp(q);
          q := q + 1;
        }
      }
    }

    /** The key at a restart point is whole. */
    method RestartKey(index: nat) returns (key: Bytes)
      requires Block() && index < numRestarts && lay.keys != []
      ensures key == lay.keys[lay.restartAt[index]]
    {
      hide Encodes, EntryBytes, DecodeEntry, WordAt;
      EntryFound(data, limit, lay, points, lay.restartAt[index]);
      var offset := GetRestartPoint(index);
      var d := DecodeEntry(data[offset..limit]);
      if d.None? || d.value.shared != 0 {
        // reported as corruption; no block that was built gets here
        assert false;
      }
      var start := offset + d.value.length;
      key := data[start..start + d.value.unshared];
    }

    /** A restart point before which every key is before the target. */
    method FindRestart(target: Bytes) returns (left: nat)
      requires Block() && numRestarts > 0
      ensures left < numRestarts && lay.restartAt[left] <= |lay.keys|
      ensures left > 0 ==> lay.restartAt[left] < |lay.keys| && less(lay.keys[lay.restartAt[left]], target)
      ensures left == 0 ==> lay.restartAt[left] == 0
    {
      hide Encodes, EntryBytes, WordAt;
      left := 0;
      var right := numRestarts - 1;
      while left < right
        invariant 0 <= left <= right < numRestarts
        invariant left > 0 ==> lay.restartAt[left] < |lay.keys| && less(lay.keys[lay.restartAt[left]], target)
      {
        var mid := (left + right + 1) / 2;
        assert lay.keys != [] by {
          assert lay.restartAt[0] < lay.restartAt[1];
        }
        var midKey := RestartKey(mid);
        if less(midKey, target) {
          left := mid;
        } else {
          right := mid - 1;
        }
      }
    }

    /** The first entry at or after the target: a binary search among the restart points, then a scan. */
    method Seek(target: Bytes)
      requires Ok() && IsOrder(less) && Increasing(less, lay.keys)
      modifies this
      ensures Ok()
      ensures forall i :: 0 <= i < pos ==> less(lay.keys[i], target)
      ensures forall i :: pos <= i < |lay.keys| ==> !less(lay.keys[i], target)
    {
      hide Encodes, EntryBytes, WordAt, Ready, IsOrder, Increasing;
      assert numRestarts > 0;
      var left := FindRestart(target);
      ghost var q := lay.restartAt[left];
      SeekToRestartPoint(left);
      assert forall i :: 0 <= i < q ==> less(lay.keys[i], target) by {
        if q > 0 {
          LessBelow(less, lay.keys, q, target);
        }
      }
      var more := true;
      while more
        invariant q <= |lay.keys| && (forall i :: 0 <= i < q ==> less(lay.keys[i], target))
        invariant if more then Ready(q) else Ok() && pos == q && (q < |lay.keys| ==> !less(lay.keys[q], target))
        decreases if more then |lay.keys| - q + 1 else 0
      {
        more := ParseNextKey(q);
        more := more && less(key, target);
        if more {
          OffsetsUp(q);
          q := q + 1;
        }
      }
      if q < |lay.keys| {
        NotLessAbove(less, lay.keys, q, target);
      }
    }
  }

  lemma LessBelow(less: Order, keys: seq<Bytes>, q: nat, target: Bytes)
    requires IsOrder(less) && Increasing(less, keys) && q < |keys| && less(keys[q], target)
    ensures forall i :: 0 <= i <= q ==> less(keys[i], target)
  {
    forall i | 0 <= i < q ensures less(keys[i], target) {
      assert less(keys[i], keys[q]);
    }
  }

  lemma NotLessAbove(less: Order, keys: seq<Bytes>, q: nat, target: Bytes)
    requires IsOrder(less) && Increasing(less, keys) && q < |keys| && !less(keys[q], target)
    ensures forall i :: q <= i < |keys| ==> !less(keys[i], target)
  {
    forall i | q <= i < |keys| ensures !less(keys[i], target) {
      assert i == q || less(keys[q], keys[i]);
    }
  }
}
