/** Building a block: each entry's key is cut down by what it shares with the key before, except
    at restart points. */
module BlockBuilder {
  import opened Keys
  import opened Coding
  import opened BlockFormat

  /** What a block's bytes stand for: its entries, where each begins (and the last ends), how much
      of each key is left out, and which entries are restart points. */
  datatype Layout = Layout(keys: seq<Bytes>, values: seq<Bytes>, offsets: seq<nat>, shared: seq<nat>,
    restartAt: seq<nat>)

  const EMPTY: Layout := Layout([], [], [0], [], [0])

  ghost predicate WellFormed(lay: Layout) {
    var n := |lay.keys|;
    && |lay.values| == n && |lay.shared| == n && |lay.offsets| == n + 1 && lay.offsets[0] == 0
    && (forall i :: 0 <= i < n ==> lay.shared[i] <= |lay.keys[i]|)
    && (forall i :: 0 <= i < n && lay.shared[i] != 0 ==>
          i > 0 && lay.shared[i] <= |lay.keys[i - 1]|
            && lay.keys[i][..lay.shared[i]] == lay.keys[i - 1][..lay.shared[i]])
  }

  ghost predicate Increasing(less: Order, keys: seq<Bytes>) {
    forall i, j :: 0 <= i < j < |keys| ==> less(keys[i], keys[j])
  }

  /** The bytes of entry `i` stand between its offset and the next one. */
  ghost predicate EntryAt(data: Bytes, lay: Layout, i: nat)
    requires WellFormed(lay) && i < |lay.keys|
  {
    && lay.offsets[i] < lay.offsets[i + 1] <= |data|
    && data[lay.offsets[i]..lay.offsets[i + 1]] == EntryBytes(lay.shared[i], lay.keys[i], lay.values[i])
  }

  ghost predicate Encodes(data: Bytes, lay: Layout) {
    && WellFormed(lay)
    && lay.offsets[|lay.keys|] == |data|
    && forall i :: 0 <= i < |lay.keys| ==> EntryAt(data, lay, i)
  }

  /** The restart points are entries with whole keys, the first entry among them. */
  ghost predicate RestartsOk(lay: Layout, restarts: seq<nat>) {
    && WellFormed(lay)
    && |restarts| == |lay.restartAt| >= 1 && lay.restartAt[0] == 0
    && (forall r :: 0 <= r < |restarts| ==>
          lay.restartAt[r] <= |lay.keys| && restarts[r] == lay.offsets[lay.restartAt[r]])
    && (forall r :: 0 <= r < |restarts| && lay.keys != [] ==>
          lay.restartAt[r] < |lay.keys| && lay.shared[lay.restartAt[r]] == 0)
    && (forall q, r :: 0 <= q < r < |restarts| ==> lay.restartAt[q] < lay.restartAt[r])
  }

  /** A whole block: the entries, the restart points and their number. */
  ghost predicate IsBlock(block: Bytes, lay: Layout, restarts: seq<nat>) {
    exists data: Bytes ::
      && Encodes(data, lay) && RestartsOk(lay, restarts)
      && block == data + Fixed32s(restarts) + EncodeFixed32(|restarts|)
  }

  /** How many bytes two keys begin with in common. */
  function CommonPrefix(a: Bytes, b: Bytes): (n: nat)
    ensures n <= |a| && n <= |b| && a[..n] == b[..n]
    ensures n < |a| && n < |b| ==> a[n] != b[n]
  {
    if a == [] || b == [] || a[0] != b[0] then 0 else 1 + CommonPrefix(a[1..], b[1..])
  }

  /** A key leaves out all that it shares with the key before, and at a restart point nothing. */
  ghost predicate CutDown(lay: Layout, i: nat)
    requires WellFormed(lay) && i < |lay.keys|
  {
    lay.shared[i] == if i in lay.restartAt || i == 0 then 0 else CommonPrefix(lay.keys[i - 1], lay.keys[i])
  }

  /** A restart point at every so many entries, and between them keys that are cut down by all that they
      share with the key before. */
  ghost predicate Compressed(lay: Layout, interval: nat) {
    && WellFormed(lay) && lay.restartAt != [] && lay.restartAt[0] == 0
    && (forall r :: 0 < r < |lay.restartAt| ==> lay.restartAt[r] == lay.restartAt[r - 1] + interval)
    && (forall r :: 0 < r < |lay.restartAt| ==> lay.restartAt[r] < |lay.keys|)
    && |lay.keys| <= lay.restartAt[|lay.restartAt| - 1] + interval
    && (forall i :: 0 <= i < |lay.keys| ==> CutDown(lay, i))
  }

  function Extended(lay: Layout, key: Bytes, value: Bytes, shared: nat, end: nat, restart: bool): Layout {
    Layout(lay.keys + [key], lay.values + [value], lay.offsets + [end], lay.shared + [shared],
           if restart then lay.restartAt + [|lay.keys|] else lay.restartAt)
  }

  lemma ExtendedEncodes(data: Bytes, lay: Layout, key: Bytes, value: Bytes, shared: nat, restart: bool)
    requires Encodes(data, lay) && shared <= |key|
    requires shared != 0 ==>
      lay.keys != [] && shared <= |lay.keys[|lay.keys| - 1]| && key[..shared] == lay.keys[|lay.keys| - 1][..shared]
    ensures
      var data' := data + EntryBytes(shared, key, value);
      Encodes(data', Extended(lay, key, value, shared, |data'|, restart))
  {
    hide EntryBytes;
    var data' := data + EntryBytes(shared, key, value);
    var lay' := Extended(lay, key, value, shared, |data'|, restart);
    var n := |lay.keys|;
    forall i | 0 <= i < n + 1 && lay'.shared[i] != 0
      ensures i > 0 && lay'.shared[i] <= |lay'.keys[i - 1]|
      ensures lay'.keys[i][..lay'.shared[i]] == lay'.keys[i - 1][..lay'.shared[i]]
    {
    }
    forall i | 0 <= i < n + 1 ensures EntryAt(data', lay', i) {
      if i < n {
        assert EntryAt(data, lay, i);
        assert data'[lay.offsets[i]..lay.offsets[i + 1]] == data[lay.offsets[i]..lay.offsets[i + 1]];
      } else {
        assert data'[|data|..] == EntryBytes(shared, key, value);
      }
    }
  }

  lemma ExtendedRestarts(
      lay: Layout, restarts: seq<nat>, key: Bytes, value: Bytes, shared: nat, end: nat, restart: bool)
    requires RestartsOk(lay, restarts) && shared <= |key|
    requires WellFormed(Extended(lay, key, value, shared, end, restart))
    requires restart ==> shared == 0 && lay.keys != []
    requires lay.keys == [] ==> shared == 0 && |restarts| == 1
    ensures RestartsOk(Extended(lay, key, value, shared, end, restart),
                       if restart then restarts + [lay.offsets[|lay.keys|]] else restarts)
  {
  }

  lemma EntryAdded(data: Bytes, lay: Layout, restarts: seq<nat>, key: Bytes, value: Bytes, shared: nat, restart: bool)
    requires Encodes(data, lay) && RestartsOk(lay, restarts) && shared <= |key|
    requires shared != 0 ==>
      lay.keys != [] && shared <= |lay.keys[|lay.keys| - 1]| && key[..shared] == lay.keys[|lay.keys| - 1][..shared]
    requires restart ==> shared == 0 && lay.keys != []
    requires lay.keys == [] ==> |restarts| == 1
    ensures
      var data' := data + EntryBytes(shared, key, value);
      var lay' := Extended(lay, key, value, shared, |data'|, restart);
      Encodes(data', lay') && RestartsOk(lay', if restart then restarts + [|data|] else restarts)
  {
    hide EntryBytes;
    ExtendedEncodes(data, lay, key, value, shared, restart);
    ExtendedRestarts(lay, restarts, key, value, shared, |data + EntryBytes(shared, key, value)|, restart);
  }

  lemma {:induction false} PrefixIs(a: Bytes, b: Bytes, n: nat)
    requires n <= |a| && n <= |b| && a[..n] == b[..n] && (n == |a| || n == |b| || a[n] != b[n])
    ensures CommonPrefix(a, b) == n
    decreases n
  {
    if n > 0 {
      assert a[0] == a[..n][0] == b[..n][0] == b[0];
      assert a[1..][..n - 1] == a[..n][1..] && b[1..][..n - 1] == b[..n][1..];
      PrefixIs(a[1..], b[1..], n - 1);
    }
  }

  method SharedWith(lastKey: Bytes, key: Bytes) returns (shared: nat)
    ensures shared == CommonPrefix(lastKey, key)
  {
    shared := 0;
    var minLength := if |lastKey| < |key| then |lastKey| else |key|;
    while shared < minLength && lastKey[shared] == key[shared]
      invariant 0 <= shared <= minLength && lastKey[..shared] == key[..shared]
    {
      shared := shared + 1;
    }
    PrefixIs(lastKey, key, shared);
  }

  lemma ExtendedCompressed(lay: Layout, interval: nat, key: Bytes, value: Bytes, shared: nat, end: nat, restart: bool)
    requires Compressed(lay, interval) && interval >= 1
    requires WellFormed(Extended(lay, key, value, shared, end, restart))
    requires restart <==> |lay.keys| == lay.restartAt[|lay.restartAt| - 1] + interval
    requires shared == if restart || lay.keys == [] then 0 else CommonPrefix(lay.keys[|lay.keys| - 1], key)
    ensures Compressed(Extended(lay, key, value, shared, end, restart), interval)
  {
    hide CommonPrefix;
    var lay', n := Extended(lay, key, value, shared, end, restart), |lay.keys|;
    assert n != 0 ==> n !in lay.restartAt by {
      RestartsBelow(lay, interval);
    }
    forall i | 0 <= i < n + 1 ensures CutDown(lay', i) {
      if i < n {
        assert CutDown(lay, i) && (i in lay'.restartAt <==> i in lay.restartAt);
      }
    }
  }

  /** One more entry, in all respects. */
  lemma LayoutAdded(
      data: Bytes, lay: Layout, restarts: seq<nat>, interval: nat, key: Bytes, value: Bytes, shared: nat, restart: bool)
    requires Encodes(data, lay) && RestartsOk(lay, restarts) && Compressed(lay, interval) && interval >= 1
    requires lay.keys == [] ==> |restarts| == 1
    requires restart <==> |lay.keys| == lay.restartAt[|lay.restartAt| - 1] + interval
    requires shared == if restart || lay.keys == [] then 0 else CommonPrefix(lay.keys[|lay.keys| - 1], key)
    ensures
      var data' := data + EntryBytes(shared, key, value);
      var lay' := Extended(lay, key, value, shared, |data'|, restart);
      && Encodes(data', lay') && RestartsOk(lay', if restart then restarts + [|data|] else restarts)
      && Compressed(lay', interval) && lay'.keys == lay.keys + [key] && lay'.values == lay.values + [value]
      && lay'.restartAt != []
      && lay'.restartAt[|lay'.restartAt| - 1] == if restart then |lay.keys| else lay.restartAt[|lay.restartAt| - 1]
  {
    hide EntryBytes, CommonPrefix;
    EntryAdded(data, lay, restarts, key, value, shared, restart);
    ExtendedCompressed(lay, interval, key, value, shared, |data + EntryBytes(shared, key, value)|, restart);
  }

  lemma HasRestart(lay: Layout, interval: nat)
    requires Compressed(lay, interval)
    ensures lay.restartAt != [] && |lay.keys| <= lay.restartAt[|lay.restartAt| - 1] + interval
    ensures WellFormed(lay)
  {
    hide CommonPrefix;
  }

  lemma RestartsBelow(lay: Layout, interval: nat)
    requires Compressed(lay, interval)
    ensures forall i :: i in lay.restartAt ==> i == 0 || i < |lay.keys|
  {
    hide CommonPrefix;
  }

  // ----- A block is determined by its entries -----

  lemma {:induction false} RestartAtIs(a: Layout, b: Layout, interval: nat, r: nat)
    requires Compressed(a, interval) && Compressed(b, interval) && r < |a.restartAt| && r < |b.restartAt|
    ensures a.restartAt[r] == b.restartAt[r]
  {
    hide CommonPrefix;
    if r > 0 {
      RestartAtIs(a, b, interval, r - 1);
    }
  }

  lemma SameRestarts(a: Layout, b: Layout, interval: nat)
    requires Compressed(a, interval) && Compressed(b, interval) && a.keys == b.keys
    ensures a.restartAt == b.restartAt && a.shared == b.shared
  {
    hide CommonPrefix;
    forall r: nat | r < |a.restartAt| && r < |b.restartAt| ensures a.restartAt[r] == b.restartAt[r] {
      RestartAtIs(a, b, interval, r);
    }
    NoMoreRestarts(a, b, interval);
    NoMoreRestarts(b, a, interval);
    assert a.restartAt == b.restartAt;
    forall i | 0 <= i < |a.keys| ensures a.shared[i] == b.shared[i] {
      assert CutDown(a, i) && CutDown(b, i);
    }
    assert a.shared == b.shared;
  }

  lemma NextRestart(lay: Layout, interval: nat, r: nat)
    requires Compressed(lay, interval) && 0 < r < |lay.restartAt|
    ensures lay.restartAt[r - 1] + interval < |lay.keys|
  {
    hide CommonPrefix;
    assert lay.restartAt[r] == lay.restartAt[r - 1] + interval;
  }

  lemma NoMoreRestarts(a: Layout, b: Layout, interval: nat)
    requires Compressed(a, interval) && Compressed(b, interval) && a.keys == b.keys
    ensures |a.restartAt| >= |b.restartAt|
  {
    hide CommonPrefix;
    var n := |a.restartAt|;
    if n < |b.restartAt| {
      RestartAtIs(a, b, interval, n - 1);
      NextRestart(b, interval, n);
    }
  }

  function EntriesBytes(lay: Layout, n: nat): Bytes
    requires |lay.keys| == |lay.values| == |lay.shared| && n <= |lay.keys|
    requires forall i :: 0 <= i < |lay.keys| ==> lay.shared[i] <= |lay.keys[i]|
  {
    if n == 0 then [] else EntriesBytes(lay, n - 1) + EntryBytes(lay.shared[n - 1], lay.keys[n - 1], lay.values[n - 1])
  }

  lemma {:induction false} DataIs(data: Bytes, lay: Layout, n: nat)
    requires Encodes(data, lay) && n <= |lay.keys|
    ensures lay.offsets[n] == |EntriesBytes(lay, n)| <= |data| && data[..lay.offsets[n]] == EntriesBytes(lay, n)
  {
    hide EntryBytes;
    if n > 0 {
      DataIs(data, lay, n - 1);
      assert EntryAt(data, lay, n - 1);
      var a, b := lay.offsets[n - 1], lay.offsets[n];
      assert data[..b] == data[..a] + data[a..b];
    } else {
      assert data[..0] == [];
    }
  }

  lemma {:induction false} SameEntries(a: Layout, b: Layout, n: nat)
    requires WellFormed(a) && WellFormed(b) && a.keys == b.keys && a.values == b.values && a.shared == b.shared
    requires n <= |a.keys|
    ensures EntriesBytes(a, n) == EntriesBytes(b, n)
  {
    hide EntryBytes;
    if n > 0 {
      SameEntries(a, b, n - 1);
    }
  }

  /** Two blocks with the same entries and restart interval have the same bytes. */
  lemma BlockIsDetermined(
      interval: nat, block: Bytes, lay: Layout, restarts: seq<nat>, block': Bytes, lay': Layout, restarts': seq<nat>)
    requires IsBlock(block, lay, restarts) && IsBlock(block', lay', restarts')
    requires Compressed(lay, interval) && Compressed(lay', interval)
    requires lay.keys == lay'.keys && lay.values == lay'.values
    ensures block == block'
  {
    hide CommonPrefix, EntryBytes, EncodeFixed32, Fixed32s;
    SameRestarts(lay, lay', interval);
    var n := |lay.keys|;
    var data: Bytes :| Encodes(data, lay) && RestartsOk(lay, restarts)
                       && block == data + Fixed32s(restarts) + EncodeFixed32(|restarts|);
    var data': Bytes :| Encodes(data', lay') && RestartsOk(lay', restarts')
                        && block' == data' + Fixed32s(restarts') + EncodeFixed32(|restarts'|);
    SameEntries(lay, lay', n);
    DataIs(data, lay, n);
    DataIs(data', lay', n);
    assert data == data[..|data|] && data' == data'[..|data'|];
    forall r | 0 <= r < |restarts| ensures restarts[r] == restarts'[r] {
      var i := lay.restartAt[r];
      SameEntries(lay, lay', i);
      DataIs(data, lay, i);
      DataIs(data', lay', i);
    }
    assert restarts == restarts';
  }

  class Builder {
    const interval: nat
    const less: Order
    var buffer: Bytes
    var restarts: seq<nat>
    var counter: nat
    var finished: bool
    var lastKey: Bytes
    /** What the buffer stands for. */
    ghost var layout: Layout

    constructor (interval: nat, less: Order)
      requires interval >= 1
      ensures Ok() && layout == EMPTY && !finished && this.less == less && this.interval == interval
    {
      this.interval := interval;
      this.less := less;
      buffer := [];
      restarts := [0];
      counter := 0;
      finished := false;
      lastKey := [];
      layout := EMPTY;
    }

    ghost predicate Ok()
      reads this
    {
      && interval >= 1 && Compressed(layout, interval)
      && if finished then IsBlock(buffer, layout, restarts)
         else
           && Encodes(buffer, layout) && RestartsOk(layout, restarts)
           && layout.restartAt[|layout.restartAt| - 1] + counter == |layout.keys|
           && (counter == 0 <==> layout.keys == [])
           && (if layout.keys == [] then lastKey == [] && |restarts| == 1
             else lastKey == layout.keys[|layout.keys| - 1])
    }

    method AppendEntry(shared: nat, key: Bytes, value: Bytes)
      requires shared <= |key|
      modifies this`buffer
      ensures buffer == old(buffer) + EntryBytes(shared, key, value)
    {
      hide EncodeVarint, EntryBytes;
      EntryBytesIs(buffer, shared, key, value);
      buffer := buffer + EncodeVarint(shared);
      buffer := buffer + EncodeVarint(|key| - shared);
      buffer := buffer + EncodeVarint(|value|);
      buffer := buffer + key[shared..];
      buffer := buffer + value;
    }

    /** Appends an entry, and changes nothing of those before it. */
    method Add(key: Bytes, value: Bytes)
      requires Ok() && !finished
      requires layout.keys != [] ==> less(layout.keys[|layout.keys| - 1], key)
      modifies this
      ensures Ok() && !finished
      ensures layout.keys == old(layout.keys) + [key] && layout.values == old(layout.values) + [value]
    {
      hide EntryBytes, EncodeVarint, Encodes, RestartsOk, CommonPrefix, Compressed, WellFormed, Extended;
      HasRestart(layout, interval);
      var shared := 0;
      var restart := false;
      if counter < interval {
        shared := SharedWith(lastKey, key);
      } else {
        restarts := restarts + [|buffer|];
        counter := 0;
        restart := true;
      }
      LayoutAdded(buffer, layout, old(restarts), interval, key, value, shared, restart);
      layout := Extended(layout, key, value, shared, |buffer + EntryBytes(shared, key, value)|, restart);
      AppendEntry(shared, key, value);
      lastKey := lastKey[..shared] + key[shared..];
      assert lastKey == key;
      counter := counter + 1;
    }

    method Finish() returns (block: Bytes)
      requires Ok() && !finished
      modifies this
      ensures Ok() && finished && block == buffer && layout == old(layout)
      ensures IsBlock(block, layout, restarts) && Compressed(layout, interval)
    {
      ghost var data := buffer;
      var i := 0;
      while i < |restarts|
        invariant i <= |restarts| && buffer == data + Fixed32s(restarts[..i])
        invariant layout == old(layout) && restarts == old(restarts) && !finished && Encodes(data, layout)
        invariant RestartsOk(layout, restarts)
      {
        assert restarts[..i + 1][..i] == restarts[..i];
        assert data + Fixed32s(restarts[..i]) + EncodeFixed32(restarts[i]) == data + Fixed32s(restarts[..i + 1]);
        buffer := buffer + EncodeFixed32(restarts[i]);
        i := i + 1;
      }
      assert restarts[..i] == restarts;
      buffer := buffer + EncodeFixed32(|restarts|);
      finished := true;
      block := buffer;
    }
  }

  lemma EntryBytesIs(buffer: Bytes, shared: nat, key: Bytes, value: Bytes)
    requires shared <= |key|
    ensures buffer + EncodeVarint(shared) + EncodeVarint(|key| - shared) + EncodeVarint(|value|) + key[shared..] + value
         == buffer + EntryBytes(shared, key, value)
  {
    hide EncodeVarint;
  }
}
