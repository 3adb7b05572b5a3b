/** A cursor over entries in internal-key order: what every iterator of the engine looks like
    from above. */
module Cursors {
  import opened Keys

  /** The first position at or after `target`; the length if there is none. */
  ghost predicate IsSeek(es: seq<Entry>, target: InternalKey, p: nat) {
    && p <= |es|
    && (forall i :: 0 <= i < p ==> Less(es[i].key, target))
    && (forall i :: p <= i < |es| ==> AtMost(target, es[i].key))
  }

  class Cursor {
    const es: seq<Entry>
    var pos: nat

    constructor (es: seq<Entry>)
      requires Sorted(es)
      ensures Ok() && this.es == es && !Valid()
    {
      this.es := es;
      pos := |es|;
    }

    /** Any position past the end means that the cursor is nowhere. */
    ghost predicate Ok()
      reads this
    {
      Sorted(es) && pos <= |es|
    }

    predicate Valid()
      reads this
    {
      pos < |es|
    }

    function Current(): Entry
      requires Valid()
      reads this
    {
      es[pos]
    }

    method SeekToFirst()
      requires Ok()
      modifies this
      ensures Ok() && pos == 0
    {
      pos := 0;
    }

    method SeekToLast()
      requires Ok()
      modifies this
      ensures Ok() && pos == if es == [] then 0 else |es| - 1
    {
      pos := if es == [] then 0 else |es| - 1;
    }

    method Seek(target: InternalKey)
      requires Ok()
      modifies this
      ensures Ok() && IsSeek(es, target, pos)
    {
      pos := 0;
      while pos < |es| && Less(es[pos].key, target)
        invariant pos <= |es|
        invariant forall i :: 0 <= i < pos ==> Less(es[i].key, target)
      {
        pos := pos + 1;
      }
      forall i | pos <= i < |es| ensures AtMost(target, es[i].key) {
        assert i == pos || Less(es[pos].key, es[i].key);
      }
    }

    method Next()
      requires Ok() && Valid()
      modifies this
      ensures Ok() && pos == old(pos) + 1
    {
      pos := pos + 1;
    }

    method Prev()
      requires Ok() && Valid()
      modifies this
      ensures Ok() && pos == if old(pos) == 0 then |es| else old(pos) - 1
    {
      pos := if pos == 0 then |es| else pos - 1;
    }
  }
}
