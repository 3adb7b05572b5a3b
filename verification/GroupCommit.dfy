/** Writers queue up; the one at the front writes for as many of those behind it as it may take
    along.  Each request is written in exactly one turn, in the order of arrival. */
module GroupCommit {
  import opened Keys
  import opened WriteBatch
  import opened Coding

  /** A request in the queue: a batch, or nothing for one that only asks for a new memtable. */
  datatype Request = Request(updates: Option<seq<Update>>, size: nat, sync: bool)

  function Joined(rs: seq<Request>): seq<Update> {
    if rs == [] then []
    else
      var last := rs[|rs| - 1];
      Joined(rs[..|rs| - 1]) + if last.updates.Some? then last.updates.value else []
  }

  function Sizes(rs: seq<Request>): nat {
    if rs == [] then 0
    else
      var last := rs[|rs| - 1];
      Sizes(rs[..|rs| - 1]) + if last.updates.Some? then last.size else 0
  }

  /** A small first write does not wait for a big group. */
  function MaxSize(first: nat): nat {
    if first <= 0x2_0000 then first + 0x2_0000 else 0x10_0000
  }

  /** Request `j` may be written by the first one's thread, as far as those before it may. */
  predicate Joins(queue: seq<Request>, j: nat)
    requires 0 < j < |queue|
  {
    && (queue[j].sync ==> queue[0].sync)
    && (queue[j].updates.Some? ==> Sizes(queue[..j + 1]) <= MaxSize(queue[0].size))
  }

  /** The longest front part of the queue that may be written together. */
  ghost predicate IsGroup(queue: seq<Request>, m: nat) {
    && 1 <= m <= |queue|
    && (forall j :: 1 <= j < m ==> Joins(queue, j))
    && (m < |queue| ==> !Joins(queue, m))
  }

  lemma GroupIsUnique(queue: seq<Request>, m: nat, n: nat)
    requires IsGroup(queue, m) && IsGroup(queue, n)
    ensures m == n
  {
  }

  /** A group is no bigger than its first request alone, or 128 KB more than that if the first is small,
      or 1 MB. */
  lemma GroupIsBounded(queue: seq<Request>, m: nat)
    requires IsGroup(queue, m) && queue[0].updates.Some?
    ensures
      Sizes(queue[..m]) == queue[0].size
      || Sizes(queue[..m]) <= if queue[0].size <= 131072 then queue[0].size + 131072 else 1048576
  {
    FrontIsBounded(queue, m);
  }

  lemma {:induction false} FrontIsBounded(queue: seq<Request>, m: nat)
    requires 1 <= m <= |queue| && queue[0].updates.Some? && forall j :: 1 <= j < m ==> Joins(queue, j)
    ensures Sizes(queue[..m]) == queue[0].size || Sizes(queue[..m]) <= MaxSize(queue[0].size)
  {
    TakeNext(queue, m - 1);
    if m == 1 {
      NothingJoined(queue);
    } else {
      FrontIsBounded(queue, m - 1);
      assert Joins(queue, m - 1);
    }
  }

  /** A group ends where the queue does, or before a request that wants to be synced where the first
      does not, or before one that would make it too big. */
  lemma GroupEndsBecause(queue: seq<Request>, m: nat)
    requires IsGroup(queue, m) && m < |queue|
    ensures
      || (queue[m].sync && !queue[0].sync)
      || (queue[m].updates.Some?
          && Sizes(queue[..m]) + queue[m].size
             > if queue[0].size <= 131072 then queue[0].size + 131072 else 1048576)
  {
    TakeNext(queue, m);
  }

  lemma TakeNext(queue: seq<Request>, m: nat)
    requires m < |queue|
    ensures
      var next := queue[m];
      && Joined(queue[..m + 1]) == Joined(queue[..m]) + (if next.updates.Some? then next.updates.value else [])
      && Sizes(queue[..m + 1]) == Sizes(queue[..m]) + if next.updates.Some? then next.size else 0
  {
    assert queue[..m + 1][..m] == queue[..m];
  }

  // ----- Building the group -----

  class Writer {
    const batch: Batch?
    const sync: bool

    ghost predicate Ok()
      reads batch
    {
      batch != null ==> batch.Ok()
    }

    ghost function Asks(): Request
      reads batch
    {
      if batch == null then Request(None, 0, sync) else Request(Some(batch.updates), |batch.rep|, sync)
    }
  }

  ghost predicate AllOk(writers: seq<Writer>)
    reads set w | w in writers && w.batch != null :: w.batch
  {
    forall w :: w in writers ==> w.Ok()
  }

  ghost function Queue(writers: seq<Writer>): (q: seq<Request>)
    reads set w | w in writers && w.batch != null :: w.batch
    ensures |q| == |writers| && forall i :: 0 <= i < |q| ==> q[i] == writers[i].Asks()
  {
    seq(|writers|, i requires 0 <= i < |writers|
      reads set w | w in writers && w.batch != null :: w.batch => writers[i].Asks())
  }

  /** The batch to write for the front of the queue, and how many of the writers it serves.  No
      caller's batch is changed: a group of several is put together in `tmp`. */
  method BuildBatchGroup(writers: seq<Writer>, tmp: Batch) returns (result: Batch, m: nat)
    requires AllOk(writers) && writers != [] && writers[0].batch != null
    requires forall w :: w in writers ==> w.batch != tmp
    requires tmp.Ok() && tmp.updates == []
    modifies tmp
    ensures AllOk(writers) && Queue(writers) == old(Queue(writers))
    ensures IsGroup(Queue(writers), m)
    ensures result.Ok() && result.updates == Joined(Queue(writers)[..m])
    ensures result == tmp || (result == writers[0].batch && tmp.updates == [])
  {
    hide RepOf, Fits, Joined, Sizes, UpdatesBytes;
    var first := writers[0];
    assert first in writers;
    TakeNext(Queue(writers), 0);
    NothingJoined(Queue(writers));
    BatchSize(first.batch);
    result := first.batch;
    var size := |first.batch.rep|;
    var maxSize := 0x10_0000;
    if size <= 0x2_0000 {
      maxSize := size + 0x2_0000;
    }
    m := 1;
    ghost var queue := Queue(writers);
    while m < |writers|
      invariant 1 <= m <= |writers| && AllOk(writers) && Queue(writers) == queue
      invariant forall j :: 1 <= j < m ==> Joins(queue, j)
      invariant result.Ok() && result.updates == Joined(queue[..m])
      invariant result == tmp || (result == first.batch && tmp.updates == [] && tmp.Ok())
      invariant size == Sizes(queue[..m]) && |result.updates| <= size
    {
      var w := writers[m];
      assert w in writers && queue[m] == w.Asks();
      TakeNext(queue, m);
      if w.sync && !first.sync {
        return;
      }
      if w.batch != null {
        size := size + |w.batch.rep|;
        if size > maxSize {
          return;
        }
        BatchSize(w.batch);
        if result == first.batch {
          result := tmp;
          FitsTogether(tmp, first.batch);
          result.Append(first.batch);
        }
        FitsTogether(result, w.batch);
        result.Append(w.batch);
      }
      m := m + 1;
    }
  }

  lemma NothingJoined(queue: seq<Request>)
    ensures Joined(queue[..0]) == [] && Sizes(queue[..0]) == 0
  {
  }

  lemma BatchSize(b: Batch)
    requires b.Ok()
    ensures |b.updates| < |b.rep|
  {
    UpdatesSize(b.updates);
  }

  lemma {:induction false} UpdatesSize(us: seq<Update>)
    ensures |us| <= |UpdatesBytes(us)|
  {
    hide UpdateBytes;
    if us != [] {
      UpdatesSize(us[..|us| - 1]);
    }
  }

  lemma FitsTogether(a: Batch, b: Batch)
    requires a.Ok() && b.Ok() && |a.updates| + |b.updates| < TWO32
    ensures Fits(a.sequence, a.updates + b.updates)
  {
  }
}
