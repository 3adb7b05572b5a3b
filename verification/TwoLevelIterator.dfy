/** An index over blocks seen as one sequence: the two-level iterator is a cursor over the
    concatenation of the blocks, some of which may be empty. */
module TwoLevelIterator {
  import opened Keys
  import opened Cursors

  /** The entries of the first `n` blocks. */
  ghost function Flat(index: seq<Entry>, open: Bytes -> seq<Entry>, n: nat): seq<Entry>
    requires n <= |index|
  {
    if n == 0 then [] else Flat(index, open, n - 1) + open(index[n - 1].value)
  }

  /** Index keys separate the blocks: at or after every key of their own block, before every
      key of the next. */
  ghost predicate Separates(index: seq<Entry>, open: Bytes -> seq<Entry>) {
    && Sorted(index)
    && (forall i :: 0 <= i < |index| ==> Sorted(open(index[i].value)))
    && (forall i, x :: 0 <= i < |index| && x in open(index[i].value) ==> AtMost(x.key, index[i].key))
    && (forall i, j, x :: 0 <= i < j < |index| && x in open(index[j].value) ==> Less(index[i].key, x.key))
  }

  lemma {:induction false} FlatPrefix(index: seq<Entry>, open: Bytes -> seq<Entry>, m: nat, n: nat)
    requires m <= n <= |index|
    ensures Flat(index, open, m) <= Flat(index, open, n)
  {
    if m < n {
      FlatPrefix(index, open, m, n - 1);
    }
  }

  /** Where an entry of the concatenation comes from. */
  lemma {:induction false} FlatFrom(index: seq<Entry>, open: Bytes -> seq<Entry>, n: nat, x: Entry) returns (i: nat)
    requires n <= |index| && x in Flat(index, open, n)
    ensures i < n && x in open(index[i].value)
  {
    if x in open(index[n - 1].value) {
      i := n - 1;
    } else {
      i := FlatFrom(index, open, n - 1, x);
    }
  }

  lemma {:induction false} FlatSorted(index: seq<Entry>, open: Bytes -> seq<Entry>, n: nat)
    requires Separates(index, open) && n <= |index|
    ensures Sorted(Flat(index, open, n))
  {
    if n != 0 {
      FlatSorted(index, open, n - 1);
      var a, b := Flat(index, open, n - 1), open(index[n - 1].value);
      forall i, j | 0 <= i < |a| && 0 <= j < |b| ensures Less(a[i].key, b[j].key) {
        var k := FlatFrom(index, open, n - 1, a[i]);
        assert b[j] in b && AtMost(a[i].key, index[k].key);
      }
    }
  }

  class TwoLevel {
    const index: Cursor
    const open: Bytes -> seq<Entry>
    var data: Cursor?
    var handle: Bytes
    /** The position in the concatenation; its length when the iterator is invalid. */
    ghost var at: nat

    constructor (index: Cursor, open: Bytes -> seq<Entry>)
      requires index.Ok() && Separates(index.es, open)
      ensures Ok() && !Valid() && this.index == index && this.open == open && data == null
    {
      this.index := index;
      this.open := open;
      data := null;
      handle := [];
      at := |Flat(index.es, open, |index.es|)|;
    }

    ghost function All(): seq<Entry>
    {
      Flat(index.es, open, |index.es|)
    }

    /** The number of entries before block `i`. */
    ghost function Start(i: nat): nat
      requires i <= |index.es|
    {
      |Flat(index.es, open, i)|
    }

    /** The open block is the one its handle names. */
    ghost predicate Base()
      reads this, index, data
    {
      && index.Ok() && Separates(index.es, open)
      && (data != null ==> data.Ok() && data != index && data.es == open(handle))
    }

    ghost predicate Ok()
      reads this, index, data
    {
      && Base()
      && (data == null ==> at == |All()|)
      && (data != null ==>
            && index.Valid() && handle == index.Current().value && data.Valid()
            && at == Start(index.pos) + data.pos)
    }

    predicate Valid()
      reads this, data
    {
      data != null && data.Valid()
    }

    /** A valid iterator shows an entry of the concatenation. */
    lemma ShowsCurrent()
      requires Ok()
      ensures Valid() <==> at < |All()|
      ensures Valid() ==> data.Current() == All()[at]
    {
      if data != null {
        FlatPrefix(index.es, open, index.pos + 1, |index.es|);
      }
    }

    method InitDataBlock()
      requires Base()
      modifies this
      ensures Base() && (data != null ==> data == old(data) || fresh(data))
      ensures data != null <==> index.Valid()
      ensures data != null ==> handle == index.Current().value
      ensures at == old(at)
    {
      if !index.Valid() {
        data := null;
      } else {
        var h := index.Current().value;
        if data != null && h == handle {
          // the block is open already
        } else {
          assert open(h) == open(index.es[index.pos].value);
          data := new Cursor(open(h));
          handle := h;
        }
      }
    }

    /** On to the first entry of the next block that has one. */
    method SkipEmptyDataBlocksForward(ghost goal: nat)
      requires Base()
      requires data != null ==> index.Valid() && handle == index.Current().value
      requires data == null ==> !index.Valid()
      requires goal == if index.Valid() then Start(index.pos) + data.pos else |All()|
      modifies this, index, data
      ensures Ok() && at == goal
      ensures data != null ==> data == old(data) || fresh(data)
    {
      ghost var first := data;
      while data == null || !data.Valid()
        invariant Base()
        invariant data != null ==> data == first || fresh(data)
        invariant data != null ==> index.Valid() && handle == index.Current().value
        invariant data == null ==> !index.Valid()
        invariant goal == if index.Valid() then Start(index.pos) + data.pos else |All()|
        decreases |index.es| - index.pos
      {
        if !index.Valid() {
          data := null;
          at := goal;
          return;
        }
        index.Next();
        InitDataBlock();
        if data != null {
          data.SeekToFirst();
        }
      }
      at := goal;
    }

    /** Back to the last entry of the previous block that has one. */
    method SkipEmptyDataBlocksBackward(ghost goal: nat)
      requires Base()
      requires data != null ==> index.Valid() && handle == index.Current().value
      requires data == null ==> !index.Valid()
      requires index.Valid() && data.Valid() ==> goal == Start(index.pos) + data.pos + 1
      requires index.Valid() && !data.Valid() ==> goal == Start(index.pos)
      requires !index.Valid() ==> goal == 0
      modifies this, index, data
      ensures Ok() && at == if goal == 0 then |All()| else goal - 1
      ensures data != null ==> data == old(data) || fresh(data)
    {
      ghost var first := data;
      while data == null || !data.Valid()
        invariant Base()
        invariant data != null ==> data == first || fresh(data)
        invariant data != null ==> index.Valid() && handle == index.Current().value
        invariant data == null ==> !index.Valid()
        invariant index.Valid() && data.Valid() ==> goal == Start(index.pos) + data.pos + 1
        invariant index.Valid() && !data.Valid() ==> goal == Start(index.pos)
        invariant !index.Valid() ==> goal == 0
        decreases if index.Valid() then index.pos + 1 else 0
      {
        if !index.Valid() {
          data := null;
          at := |All()|;
          return;
        }
        index.Prev();
        InitDataBlock();
        if data != null {
          data.SeekToLast();
        }
      }
      at := goal - 1;
    }

    method SeekToFirst()
      requires Ok()
      modifies this, index, data
      ensures Ok() && at == 0 && (data != null ==> data == old(data) || fresh(data))
    {
      index.SeekToFirst();
      InitDataBlock();
      if data != null {
        data.SeekToFirst();
      }
      SkipEmptyDataBlocksForward(0);
    }

    method SeekToLast()
      requires Ok()
      modifies this, index, data
      ensures Ok() && at == (if All() == [] then 0 else |All()| - 1)
      ensures (data != null ==> data == old(data) || fresh(data))
    {
      index.SeekToLast();
      InitDataBlock();
      if data != null {
        data.SeekToLast();
      }
      SkipEmptyDataBlocksBackward(|All()|);
    }

    method Next()
      requires Ok() && Valid()
      modifies this, index, data
      ensures Ok() && at == old(at) + 1 && (data != null ==> data == old(data) || fresh(data))
    {
      data.Next();
      SkipEmptyDataBlocksForward(at + 1);
    }

    method Prev()
      requires Ok() && Valid()
      modifies this, index, data
      ensures Ok() && at == (if old(at) == 0 then |All()| else old(at) - 1)
      ensures (data != null ==> data == old(data) || fresh(data))
    {
      data.Prev();
      SkipEmptyDataBlocksBackward(at);
    }

    method Seek(target: InternalKey)
      requires Ok()
      modifies this, index, data
      ensures Ok() && IsSeek(All(), target, at) && (data != null ==> data == old(data) || fresh(data))
    {
      index.Seek(target);
      InitDataBlock();
      if data != null {
        data.Seek(target);
      }
      ghost var goal := if index.Valid() then Start(index.pos) + data.pos else |All()|;
      SeekGoal(target, index.pos, if data != null then data.pos else 0, goal);
      SkipEmptyDataBlocksForward(goal);
    }

    /** Searching the index and then one block finds the place in the concatenation. */
    lemma SeekGoal(target: InternalKey, i: nat, p: nat, goal: nat)
      requires Separates(index.es, open) && IsSeek(index.es, target, i)
      requires i < |index.es| ==> IsSeek(open(index.es[i].value), target, p) && goal == Start(i) + p
      requires i == |index.es| ==> goal == |All()|
      ensures IsSeek(All(), target, goal)
    {
      var all := All();
      FlatSorted(index.es, open, |index.es|);
      FlatPrefix(index.es, open, i, |index.es|);
      forall j | 0 <= j < Start(i) ensures Less(all[j].key, target) {
        assert all[j] == Flat(index.es, open, i)[j];
        var k := FlatFrom(index.es, open, i, all[j]);
      }
      if i < |index.es| {
        var block := open(index.es[i].value);
        FlatPrefix(index.es, open, i + 1, |index.es|);
        assert forall j :: 0 <= j < |block| ==> all[Start(i) + j] == block[j];
        forall j | goal <= j < |all| ensures AtMost(target, all[j].key) {
          if j >= Start(i + 1) {
            LaterBlock(i, j, target);
          }
        }
      }
    }

    lemma LaterBlock(i: nat, j: nat, target: InternalKey)
      requires Separates(index.es, open) && i < |index.es| && AtMost(target, index.es[i].key)
      requires Start(i + 1) <= j < |All()|
      ensures AtMost(target, All()[j].key)
    {
      var k := BlockOf(|index.es|, i + 1, j);
    }

    lemma {:induction false} BlockOf(n: nat, m: nat, j: nat) returns (k: nat)
      requires m <= n <= |index.es| && |Flat(index.es, open, m)| <= j < |Flat(index.es, open, n)|
      ensures m <= k < n && Flat(index.es, open, n)[j] in open(index.es[k].value)
    {
      if j >= |Flat(index.es, open, n - 1)| {
        k := n - 1;
        FlatPrefix(index.es, open, m, n - 1);
      } else {
        k := BlockOf(n - 1, m, j);
      }
    }
  }
}
