/** The queue of writers as a machine: arrivals, turns of the writer at the front, and what each
    writer is told.  While a turn's batch is written the lock is free, and others arrive. */
module WriterQueue {
  import opened Keys
  import opened WriteBatch
  import opened GroupCommit

  /** What one writer's thread did: it served `count` requests, from arrival number `first` on,
      and its updates took the sequence numbers after `base`. */
  datatype Turn = Turn(first: nat, count: nat, base: nat, updates: seq<Update>, ok: bool)

  datatype Phase = Free | Writing(count: nat, base: nat, updates: seq<Update>)

  /** All requests that ever arrived, of which the first `popped` have left the queue. */
  datatype State = State(
    requests: seq<Request>, popped: nat, phase: Phase, lastSequence: nat, turns: seq<Turn>, results: seq<Option<bool>>)

  const INITIAL: State := State([], 0, Free, 0, [], [])

  datatype Step =
    | Arrive(request: Request)
    | Alone(ok: bool)
    | Lead(count: nat)
    | Finish(ok: bool)

  ghost predicate Enabled(s: State, step: Step) {
    match step
    case Arrive(_) => true
    // without a batch, or when no room could be made
    case Alone(ok) => s.phase.Free? && s.popped < |s.requests| && (s.requests[s.popped].updates.None? || !ok)
    case Lead(count) =>
      && s.phase.Free? && s.popped < |s.requests| && s.requests[s.popped].updates.Some?
      && IsGroup(s.requests[s.popped..], count)
    case Finish(_) => s.phase.Writing? && s.popped + s.phase.count <= |s.requests| == |s.results|
  }

  /** The writers that are taken off the queue, each told the same. */
  function Popped(s: State, turn: Turn): State
    requires s.popped + turn.count <= |s.results|
  {
    State(s.requests, s.popped + turn.count, Free, turn.base + |turn.updates|, s.turns + [turn],
          s.results[..s.popped] + seq(turn.count, _ => Some(turn.ok)) + s.results[s.popped + turn.count..])
  }

  ghost function After(s: State, step: Step): State
    requires |s.requests| == |s.results| && Enabled(s, step)
  {
    match step
    case Arrive(r) => s.(requests := s.requests + [r], results := s.results + [None])
    case Alone(ok) => Popped(s, Turn(s.popped, 1, s.lastSequence, [], ok))
    case Lead(count) =>
      s.(phase := Writing(count, s.lastSequence, Joined(s.requests[s.popped..][..count])))
    case Finish(ok) => Popped(s, Turn(s.popped, s.phase.count, s.phase.base, s.phase.updates, ok))
  }

  // ----- What every step keeps -----

  /** All updates of some turns, and those of them that succeeded. */
  function Attempted(turns: seq<Turn>): seq<Update> {
    if turns == [] then [] else Attempted(turns[..|turns| - 1]) + turns[|turns| - 1].updates
  }

  function Applied(turns: seq<Turn>): seq<Update> {
    if turns == [] then []
    else Applied(turns[..|turns| - 1]) + if turns[|turns| - 1].ok then turns[|turns| - 1].updates else []
  }

  /** The updates of the first `n` requests, of those that were told of success. */
  function Acknowledged(s: State, n: nat): seq<Update>
    requires n <= |s.requests| == |s.results|
  {
    if n == 0 then []
    else
      var r := s.requests[n - 1];
      Acknowledged(s, n - 1) + if r.updates.Some? && s.results[n - 1] == Some(true) then r.updates.value else []
  }

  function End(turns: seq<Turn>): nat {
    if turns == [] then 0 else turns[|turns| - 1].first + turns[|turns| - 1].count
  }

  /** One turn after another takes the requests in the order of arrival, and leaves none out. */
  ghost predicate Tiles(turns: seq<Turn>) {
    forall t :: 0 <= t < |turns| ==> turns[t].count > 0 && turns[t].first == End(turns[..t])
  }

  ghost predicate SyncOk(s: State, first: nat, count: nat) {
    && first + count <= |s.requests|
    && forall j :: first <= j < first + count && s.requests[j].sync ==> s.requests[first].sync
  }

  ghost predicate TurnOk(s: State, t: nat)
    requires t < |s.turns|
  {
    var turn := s.turns[t];
    && SyncOk(s, turn.first, turn.count) && |s.results| == |s.requests|
    && turn.base == |Attempted(s.turns[..t])|
    && (turn.ok ==> turn.updates == Joined(s.requests[turn.first..turn.first + turn.count]))
    && forall j :: turn.first <= j < turn.first + turn.count ==> s.results[j] == Some(turn.ok)
  }

  ghost predicate PhaseOk(s: State) {
    s.phase.Writing? ==>
      && s.phase.count > 0 && SyncOk(s, s.popped, s.phase.count) && s.phase.base == s.lastSequence
      && s.phase.updates == Joined(s.requests[s.popped..s.popped + s.phase.count])
  }

  ghost predicate Inv(s: State) {
    && |s.requests| == |s.results| && s.popped <= |s.requests|
    && Tiles(s.turns) && End(s.turns) == s.popped
    && (forall t :: 0 <= t < |s.turns| ==> TurnOk(s, t))
    && (forall j :: 0 <= j < |s.requests| ==> (s.results[j].Some? <==> j < s.popped))
    && s.lastSequence == |Attempted(s.turns)|
    && Applied(s.turns) == Acknowledged(s, s.popped)
    && PhaseOk(s)
  }

  lemma InitialInv()
    ensures Inv(INITIAL)
  {
  }

  lemma {:induction false} AcknowledgedSame(s: State, s': State, n: nat)
    requires n <= |s.requests| == |s.results| && n <= |s'.requests| == |s'.results|
    requires forall j :: 0 <= j < n ==> s'.requests[j] == s.requests[j] && s'.results[j] == s.results[j]
    ensures Acknowledged(s', n) == Acknowledged(s, n)
  {
    if n > 0 {
      AcknowledgedSame(s, s', n - 1);
    }
  }

  /** Requests that were all told the same are all among those told of success, or none is. */
  lemma {:induction false} AcknowledgedRange(s: State, first: nat, count: nat, ok: bool)
    requires first + count <= |s.requests| == |s.results|
    requires forall j :: first <= j < first + count ==> s.results[j] == Some(ok)
    ensures Acknowledged(s, first + count)
         == Acknowledged(s, first) + if ok then Joined(s.requests[first..first + count]) else []
  {
    if count > 0 {
      var n := count - 1;
      var r := s.requests[first + n];
      var add := if r.updates.Some? then r.updates.value else [];
      var front := if ok then Joined(s.requests[first..first + n]) else [];
      AcknowledgedRange(s, first, n, ok);
      JoinedNext(s.requests, first, n);
      assert Acknowledged(s, first + count) == Acknowledged(s, first + n) + (if ok then add else []) by {
        assert s.results[first + n] == Some(ok);
      }
      hide Joined, Acknowledged;
      AddLast(Acknowledged(s, first), front, if ok then add else []);
    }
  }

  lemma AddLast(a: seq<Update>, b: seq<Update>, c: seq<Update>)
    ensures (a + b) + c == a + (b + c)
    ensures c == [] ==> b + c == b
  {
  }

  lemma JoinedNext(rs: seq<Request>, first: nat, n: nat)
    requires first + n < |rs|
    ensures
      var r := rs[first + n];
      Joined(rs[first..first + n + 1]) == Joined(rs[first..first + n]) + if r.updates.Some? then r.updates.value else []
  {
    var all := rs[first..first + n + 1];
    assert all[..n] == rs[first..first + n];
  }

  lemma TurnsKept(s: State, s': State, turn: Turn)
    requires Inv(s) && s'.turns == s.turns + [turn]
    requires |s.requests| <= |s'.requests| == |s'.results|
    requires forall j :: 0 <= j < |s.requests| ==> s'.requests[j] == s.requests[j]
    requires forall j :: 0 <= j < s.popped ==> s'.results[j] == s.results[j]
    requires turn.first == s.popped && turn.count > 0
    ensures Tiles(s'.turns) && forall t :: 0 <= t < |s.turns| ==> TurnOk(s', t)
  {
    forall t | 0 <= t < |s.turns| ensures TurnOk(s', t) {
      TurnBelow(s.turns, t);
      TurnSame(s, s', t);
    }
    forall t | 0 <= t < |s'.turns| ensures s'.turns[t].count > 0 && s'.turns[t].first == End(s'.turns[..t]) {
      assert s'.turns[..t] == s.turns[..t];
      assert s.turns[..|s.turns|] == s.turns;
    }
  }

  lemma TurnSame(s: State, s': State, t: nat)
    requires t < |s.turns| <= |s'.turns| && s'.turns[..|s.turns|] == s.turns && TurnOk(s, t)
    requires s.turns[t].first + s.turns[t].count <= s.popped
    requires s.popped <= |s.requests| <= |s'.requests| == |s'.results|
    requires forall j :: 0 <= j < |s.requests| ==> s'.requests[j] == s.requests[j]
    requires forall j :: 0 <= j < s.popped ==> s'.results[j] == s.results[j]
    ensures TurnOk(s', t)
  {
    var turn := s.turns[t];
    assert s'.turns[t] == turn && s'.turns[..t] == s.turns[..t];
    assert s'.requests[turn.first..turn.first + turn.count] == s.requests[turn.first..turn.first + turn.count];
  }

  /** A turn's requests come before the end of all turns. */
  lemma {:induction false} TurnBelow(turns: seq<Turn>, t: nat)
    requires Tiles(turns) && t < |turns|
    ensures turns[t].first + turns[t].count <= End(turns)
    decreases |turns|
  {
    if t < |turns| - 1 {
      var before := turns[..|turns| - 1];
      assert forall u :: 0 <= u < |before| ==> before[..u] == turns[..u];
      TurnBelow(before, t);
    }
  }

  /** Taking writers off the queue ends a turn, and keeps everything. */
  lemma PoppedKeepsInv(s: State, turn: Turn)
    requires Inv(s) && turn.first == s.popped && turn.count > 0 && turn.base == s.lastSequence
    requires SyncOk(s, turn.first, turn.count)
    requires turn.ok ==> turn.updates == Joined(s.requests[turn.first..turn.first + turn.count])
    ensures Inv(Popped(s, turn))
  {
    hide Popped, Tiles, TurnOk, Joined, Attempted, Applied, Acknowledged, End;
    var s' := Popped(s, turn);
    PoppedResults(s, turn);
    TurnsKept(s, s', turn);
    PoppedTurn(s, turn);
    PoppedApplied(s, turn);
  }

  lemma PoppedResults(s: State, turn: Turn)
    requires |s.requests| == |s.results| && s.popped + turn.count <= |s.requests|
    ensures
      var s' := Popped(s, turn);
      && s'.requests == s.requests && s'.popped == s.popped + turn.count && s'.phase == Free
      && s'.lastSequence == turn.base + |turn.updates| && s'.turns == s.turns + [turn]
      && |s'.results| == |s.requests|
      && forall j :: 0 <= j < |s.results| ==>
           s'.results[j] == if s.popped <= j < s.popped + turn.count then Some(turn.ok) else s.results[j]
  {
  }

  lemma PoppedTurn(s: State, turn: Turn)
    requires |s.requests| == |s.results| && s.lastSequence == |Attempted(s.turns)| == turn.base
    requires turn.first == s.popped && SyncOk(s, turn.first, turn.count)
    requires turn.ok ==> turn.updates == Joined(s.requests[turn.first..turn.first + turn.count])
    ensures
      var s' := Popped(s, turn);
      && s'.turns == s.turns + [turn] && TurnOk(s', |s.turns|)
      && s'.lastSequence == |Attempted(s'.turns)| && End(s'.turns) == s'.popped
  {
    PoppedResults(s, turn);
    hide Popped;
    var s' := Popped(s, turn);
    assert s'.turns[..|s.turns|] == s.turns;
  }

  lemma PoppedApplied(s: State, turn: Turn)
    requires s.popped <= |s.requests| == |s.results| && Applied(s.turns) == Acknowledged(s, s.popped)
    requires turn.first == s.popped && s.popped + turn.count <= |s.requests|
    requires turn.ok ==> turn.updates == Joined(s.requests[turn.first..turn.first + turn.count])
    ensures var s' := Popped(s, turn); Applied(s'.turns) == Acknowledged(s', s'.popped)
  {
    PoppedResults(s, turn);
    hide Popped, Acknowledged;
    var s' := Popped(s, turn);
    assert s'.turns[..|s.turns|] == s.turns;
    AcknowledgedSame(s, s', s.popped);
    AcknowledgedRange(s', turn.first, turn.count, turn.ok);
  }

  lemma StepKeepsInv(s: State, step: Step)
    requires Inv(s) && Enabled(s, step)
    ensures Inv(After(s, step))
  {
    var s' := After(s, step);
    match step {
      case Arrive(r) => ArriveKeepsInv(s, r);
      case Alone(ok) =>
        AloneJoins(s);
        PoppedKeepsInv(s, Turn(s.popped, 1, s.lastSequence, [], ok));
      case Lead(count) => LeadKeepsInv(s, count);
      case Finish(ok) => PoppedKeepsInv(s, Turn(s.popped, s.phase.count, s.phase.base, s.phase.updates, ok));
    }
  }

  /** A request without a batch adds nothing. */
  lemma AloneJoins(s: State)
    requires s.popped < |s.requests|
    ensures s.requests[s.popped].updates.None? ==> Joined(s.requests[s.popped..s.popped + 1]) == []
  {
    var one := s.requests[s.popped..s.popped + 1];
    assert one[..0] == [];
  }

  lemma ArriveKeepsInv(s: State, r: Request)
    requires Inv(s)
    ensures Inv(After(s, Arrive(r)))
  {
    var s' := After(s, Arrive(r));
    assert s'.turns[..|s.turns|] == s.turns;
    forall t | 0 <= t < |s.turns| ensures TurnOk(s', t) {
      TurnBelow(s.turns, t);
      TurnSame(s, s', t);
    }
    AcknowledgedSame(s, s', s.popped);
    if s.phase.Writing? {
      assert s'.requests[s.popped..s.popped + s.phase.count] == s.requests[s.popped..s.popped + s.phase.count];
    }
  }

  lemma LeadKeepsInv(s: State, count: nat)
    requires Inv(s) && Enabled(s, Lead(count))
    ensures Inv(After(s, Lead(count)))
  {
    var s' := After(s, Lead(count));
    LeadSyncs(s.requests[s.popped..], count);
    GroupBehind(s, count);
    assert Acknowledged(s', s.popped) == Acknowledged(s, s.popped) by {
      AcknowledgedSame(s, s', s.popped);
    }
    hide Joined, Applied, Attempted, Acknowledged, IsGroup, Tiles, End, SyncOk;
    forall t | 0 <= t < |s.turns| ensures TurnOk(s', t) {
      TurnIgnoresPhase(s, s', t);
    }
  }

  lemma TurnIgnoresPhase(s: State, s': State, t: nat)
    requires t < |s.turns| && TurnOk(s, t) && s' == s.(phase := s'.phase)
    ensures TurnOk(s', t)
  {
  }

  lemma LeadSyncs(queue: seq<Request>, count: nat)
    requires IsGroup(queue, count)
    ensures forall j :: 0 <= j < count && queue[j].sync ==> queue[0].sync
  {
    hide Sizes;
    forall j | 0 <= j < count && queue[j].sync ensures queue[0].sync {
      assert j == 0 || Joins(queue, j);
    }
  }

  lemma GroupBehind(s: State, count: nat)
    requires s.popped <= |s.requests| && 0 < count <= |s.requests[s.popped..]|
    requires forall j :: 0 <= j < count && s.requests[s.popped..][j].sync ==> s.requests[s.popped..][0].sync
    ensures s.requests[s.popped..][..count] == s.requests[s.popped..s.popped + count]
    ensures SyncOk(s, s.popped, count)
  {
    var queue := s.requests[s.popped..];
    forall j | s.popped <= j < s.popped + count && s.requests[j].sync ensures s.requests[s.popped].sync {
      assert queue[j - s.popped] == s.requests[j];
    }
  }

  // ----- Whole runs -----

  ghost predicate IsQueueRun(run: seq<State>, steps: seq<Step>) {
    && |run| == |steps| + 1 && run[0] == INITIAL
    && forall i :: 0 <= i < |steps| ==>
         |run[i].requests| == |run[i].results| && Enabled(run[i], steps[i]) && run[i + 1] == After(run[i], steps[i])
  }

  lemma {:induction false} RunKeepsInv(run: seq<State>, steps: seq<Step>, i: nat)
    requires IsQueueRun(run, steps) && i < |run|
    ensures Inv(run[i])
  {
    hide Enabled, After, Inv;
    if i == 0 {
      InitialInv();
    } else {
      RunKeepsInv(run, steps, i - 1);
      StepKeepsInv(run[i - 1], steps[i - 1]);
    }
  }

  /** The turn that a request was served in. */
  lemma {:induction false} TurnOf(turns: seq<Turn>, j: nat) returns (t: nat)
    requires Tiles(turns) && j < End(turns)
    ensures t < |turns| && turns[t].first <= j < turns[t].first + turns[t].count
    decreases |turns|
  {
    t := |turns| - 1;
    if j < turns[t].first {
      var before := turns[..t];
      assert forall u :: 0 <= u < |before| ==> before[..u] == turns[..u];
      t := TurnOf(before, j);
    }
  }

  lemma TurnsApart(turns: seq<Turn>, t: nat, u: nat)
    requires Tiles(turns) && t < u < |turns|
    ensures turns[t].first + turns[t].count <= turns[u].first
  {
    var before := turns[..u];
    assert forall v :: 0 <= v < |before| ==> before[..v] == turns[..v];
    TurnBelow(before, t);
  }

  /** In every run: each request that left the queue was served in one turn and no other, was told
      what that turn came to, and is never synced less than it asked for. */
  lemma ServedOnce(run: seq<State>, steps: seq<Step>, i: nat, j: nat)
    requires IsQueueRun(run, steps) && i < |run| && j < run[i].popped
    ensures
      var s := run[i];
      && s.popped <= |s.requests| == |s.results|
      && exists t: nat ::
        && t < |s.turns| && s.turns[t].first <= j < s.turns[t].first + s.turns[t].count
        && s.results[j] == Some(s.turns[t].ok)
        && s.turns[t].first < |s.requests| && (s.requests[j].sync ==> s.requests[s.turns[t].first].sync)
        && forall u: nat :: u < |s.turns| && s.turns[u].first <= j < s.turns[u].first + s.turns[u].count ==> u == t
  {
    hide Enabled, After, Applied, Attempted, Acknowledged, Joined;
    RunKeepsInv(run, steps, i);
    var s := run[i];
    var t := TurnOf(s.turns, j);
    assert TurnOk(s, t);
    forall u: nat | u < |s.turns| && s.turns[u].first <= j < s.turns[u].first + s.turns[u].count ensures u == t {
      if u < t {
        TurnsApart(s.turns, u, t);
      } else if t < u {
        TurnsApart(s.turns, t, u);
      }
    }
  }

  /** In every run: the updates that were applied are those of the requests told of success, each
      once, in the order of arrival; and the turns' sequence numbers follow on each other. */
  lemma AppliedInOrder(run: seq<State>, steps: seq<Step>, i: nat)
    requires IsQueueRun(run, steps) && i < |run|
    ensures
      var s := run[i];
      && s.popped <= |s.requests| == |s.results|
      && Applied(s.turns) == Acknowledged(s, s.popped)
      && s.lastSequence == |Attempted(s.turns)|
      && (forall t :: 0 <= t < |s.turns| ==> s.turns[t].base == |Attempted(s.turns[..t])|)
  {
    hide Enabled, After, Applied, Attempted, Acknowledged;
    RunKeepsInv(run, steps, i);
    var s := run[i];
    forall t | 0 <= t < |s.turns| ensures s.turns[t].base == |Attempted(s.turns[..t])| {
      assert TurnOk(s, t);
    }
  }
}
