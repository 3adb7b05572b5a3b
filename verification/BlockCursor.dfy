/** A block of a table as a cursor over entries: the iterator over the block's bytes, with the
    contract that every iterator of the engine has (Cursors.Cursor). */
module BlockCursor {
  import opened Keys
  import opened Coding
  import opened BlockFormat
  import opened BlockBuilder
  import opened BlockIterator
  import opened InternalKeys
  import opened Cursors

  /** The keys and values of a block stand for these entries. */
  ghost predicate StandsFor(rank: Rank, lay: Layout, es: seq<Entry>) {
    && |es| == |lay.keys| == |lay.values|
    && forall i :: 0 <= i < |es| ==>
      ParseInternalKey(rank, lay.keys[i]) == Some(es[i].key) && lay.values[i] == es[i].value
  }

  /** Entries are in order exactly when the keys of their block are. */
  lemma OrderedKeys(rank: Rank, lay: Layout, es: seq<Entry>)
    requires StandsFor(rank, lay, es)
    ensures Sorted(es) <==> Increasing(InternalLess(rank), lay.keys)
  {
    hide InternalLess, ParseInternalKey, Less;
    forall i, j | 0 <= i < j < |es|
      ensures Less(es[i].key, es[j].key) <==> InternalLess(rank)(lay.keys[i], lay.keys[j])
    {
      LessAgrees(rank, lay.keys[i], lay.keys[j]);
    }
  }

  class Block {
    const rank: Rank
    const iter: Iter
    ghost const es: seq<Entry>

    constructor (rank: Rank, block: Bytes, ghost lay: Layout, ghost points: seq<nat>, ghost es: seq<Entry>)
      requires IsBlock(block, lay, points) && |block| < TWO32
      requires StandsFor(rank, lay, es) && Sorted(es)
      ensures Ok() && !Valid() && this.es == es && this.rank == rank && fresh(iter)
    {
      hide IsBlock, StandsFor, Sorted;
      this.rank := rank;
      this.es := es;
      iter := new Iter(InternalLess(rank), block, lay, points);
    }

    ghost predicate Ok()
      reads iter
    {
      && iter.Ok() && iter.less == InternalLess(rank) && StandsFor(rank, iter.lay, es) && Sorted(es)
    }

    ghost function Pos(): nat
      reads iter
    {
      iter.pos
    }

    predicate Valid()
      reads iter
    {
      iter.Valid()
    }

    lemma ValidIff()
      requires Ok()
      ensures Pos() <= |es| && (Valid() <==> Pos() < |es|)
    {
      iter.ValidIff();
    }

    method Current() returns (e: Entry)
      requires Ok() && Valid()
      ensures e == es[Pos()]
    {
      iter.ValidIff();
      var key := ParseInternalKey(rank, iter.key);
      if key.None? {
        assert false; // keys are written whole
      }
      e := Entry(key.value, iter.data[iter.valueStart..iter.valueEnd]);
    }

    method SeekToFirst()
      requires Ok()
      modifies iter
      ensures Ok() && Pos() == 0
    {
      iter.SeekToFirst();
    }

    method SeekToLast()
      requires Ok()
      modifies iter
      ensures Ok() && Pos() == if es == [] then 0 else |es| - 1
    {
      iter.SeekToLast();
    }

    /** The target comes as the bytes of an internal key. */
    method Seek(target: Bytes)
      requires Ok() && ParseInternalKey(rank, target).Some?
      modifies iter
      ensures Ok() && IsSeek(es, ParseInternalKey(rank, target).value, Pos())
    {
      hide InternalLess, ParseInternalKey, Less;
      InternalLessIsOrder(rank);
      OrderedKeys(rank, iter.lay, es);
      iter.Seek(target);
      forall i | 0 <= i < |es|
        ensures InternalLess(rank)(iter.lay.keys[i], target) <==> Less(es[i].key, ParseInternalKey(rank, target).value)
      {
        LessAgrees(rank, iter.lay.keys[i], target);
      }
    }

    method Next()
      requires Ok() && Valid()
      modifies iter
      ensures Ok() && Pos() == old(Pos()) + 1
    {
      iter.Next();
    }

    method Prev()
      requires Ok() && Valid()
      modifies iter
      ensures Ok() && Pos() == if old(Pos()) == 0 then |es| else old(Pos()) - 1
    {
      iter.Prev();
    }
  }
}
