/** The queue of writers in front of the engine: each turn that succeeds is one write step, and
    everything else that the engine does goes on in between.  What readers see is what the writers
    were told. */
module AcknowledgedWrites {
  import opened Keys
  import opened Store
  import opened Reorganise
  import opened Engine
  import EngineViews
  import EngineInvariant
  import WriteBatch
  import WriterQueue
  import opened InternalKeys
  import DiskFiles

  datatype Joint = Joint(queue: WriterQueue.State, engine: Engine.State)

  datatype Action = Queued(queued: WriterQueue.Step) | Other(step: Engine.Step)

  /** The updates of batches as the engine knows them. */
  function Ops(rank: Rank, us: seq<WriteBatch.Update>): seq<Op> {
    seq(|us|, i requires 0 <= i < |us| => DiskFiles.OpOf(rank, us[i]))
  }

  /** Writes go through the queue; a turn that writes succeeds, and one that cannot make room writes
      nothing.  A crash ends the run. */
  ghost predicate Possible(rank: Rank, j: Joint, a: Action) {
    match a
    case Queued(step) =>
      && |j.queue.requests| == |j.queue.results| && WriterQueue.Enabled(j.queue, step)
      && (step.Finish? ==>
            step.ok && Enabled(j.engine, Write(Ops(rank, j.queue.phase.updates))) && j.engine.logFile in j.engine.logs)
    case Other(step) => !step.Write? && !step.Crash? && Enabled(j.engine, step) && j.engine.logFile in j.engine.logs
  }

  ghost function Next(rank: Rank, j: Joint, a: Action): Joint
    requires Possible(rank, j, a)
  {
    match a
    case Queued(step) =>
      Joint(WriterQueue.After(j.queue, step),
            if step.Finish? then After(j.engine, Write(Ops(rank, j.queue.phase.updates))) else j.engine)
    case Other(step) => Joint(j.queue, After(j.engine, step))
  }

  ghost predicate IsJointRun(rank: Rank, run: seq<Joint>, actions: seq<Action>) {
    && |run| == |actions| + 1 && run[0].queue == WriterQueue.INITIAL && run[0].engine == Engine.INITIAL
    && forall i :: 0 <= i < |actions| ==>
         Possible(rank, run[i], actions[i]) && run[i + 1] == Next(rank, run[i], actions[i])
  }

  // ----- What every action keeps -----

  /** The engine's history is what the queue has applied. */
  ghost predicate InStep(rank: Rank, j: Joint) {
    && j.engine.history == Ops(rank, WriterQueue.Applied(j.queue.turns))
    && j.engine.lastSequence == j.queue.lastSequence == |WriterQueue.Applied(j.queue.turns)|
  }

  lemma OpsAppend(rank: Rank, a: seq<WriteBatch.Update>, b: seq<WriteBatch.Update>)
    ensures Ops(rank, a + b) == Ops(rank, a) + Ops(rank, b)
  {
  }

  lemma TurnApplied(turns: seq<WriterQueue.Turn>, turn: WriterQueue.Turn)
    ensures WriterQueue.Applied(turns + [turn]) == WriterQueue.Applied(turns) + if turn.ok then turn.updates else []
  {
    assert (turns + [turn])[..|turns|] == turns;
  }

  lemma ActionKeepsStep(rank: Rank, j: Joint, a: Action)
    requires InStep(rank, j) && WriterQueue.Inv(j.queue) && Possible(rank, j, a)
    ensures InStep(rank, Next(rank, j, a))
  {
    var j' := Next(rank, j, a);
    match a {
      case Queued(Arrive(_)) =>
      case Queued(Lead(_)) =>
      case Queued(Alone(ok)) =>
        var turn := WriterQueue.Turn(j.queue.popped, 1, j.queue.lastSequence, [], ok);
        TurnApplied(j.queue.turns, turn);
        assert WriterQueue.Applied(j.queue.turns) + [] == WriterQueue.Applied(j.queue.turns);
      case Queued(Finish(ok)) =>
        var p := j.queue.phase;
        var turn := WriterQueue.Turn(j.queue.popped, p.count, p.base, p.updates, ok);
        TurnApplied(j.queue.turns, turn);
        OpsAppend(rank, WriterQueue.Applied(j.queue.turns), p.updates);
      case Other(step) => OtherKeepsHistory(j.engine, step);
    }
  }

  /** Only writing adds to the history. */
  lemma OtherKeepsHistory(s: State, step: Engine.Step)
    requires !step.Write? && !step.Crash? && Enabled(s, step) && s.logFile in s.logs
    ensures After(s, step).history == s.history && After(s, step).lastSequence == s.lastSequence
  {
    hide ApplyEdit, InputsOk, OutputsOk, FlushLevelOk, FileMatches;
  }

  lemma {:induction false} RunKeepsStep(rank: Rank, run: seq<Joint>, actions: seq<Action>, i: nat)
    requires IsJointRun(rank, run, actions) && i <= |actions|
    ensures InStep(rank, run[i]) && WriterQueue.Inv(run[i].queue)
  {
    hide Possible, Next, InStep, WriterQueue.Inv;
    if i == 0 {
      WriterQueue.InitialInv();
      StartInStep(rank, run[0]);
    } else {
      RunKeepsStep(rank, run, actions, i - 1);
      ActionKeepsStep(rank, run[i - 1], actions[i - 1]);
      QueueKeepsInv(rank, run[i - 1], actions[i - 1]);
    }
  }

  lemma StartInStep(rank: Rank, j: Joint)
    requires j.queue == WriterQueue.INITIAL && j.engine == Engine.INITIAL
    ensures InStep(rank, j)
  {
  }

  lemma QueueKeepsInv(rank: Rank, j: Joint, a: Action)
    requires WriterQueue.Inv(j.queue) && Possible(rank, j, a)
    ensures WriterQueue.Inv(Next(rank, j, a).queue)
  {
    hide WriterQueue.Inv, WriterQueue.Enabled, WriterQueue.After, Enabled, After;
    if a.Queued? {
      WriterQueue.StepKeepsInv(j.queue, a.queued);
    }
  }

  // ----- The engine's part of a run -----

  /** No installed compaction uncovers a value. */
  ghost predicate AllSafe(run: seq<Joint>, actions: seq<Action>, i: nat)
    requires i <= |actions| <= |run|
  {
    forall k :: 0 <= k < i && actions[k].Other? ==> EngineViews.Safe(run[k].engine, actions[k].step)
  }

  /** The engine takes a run of its own, in which each successful turn is one write. */
  lemma {:induction false} EngineRun(rank: Rank, run: seq<Joint>, actions: seq<Action>, i: nat)
    returns (states: seq<State>, steps: seq<Engine.Step>)
    requires IsJointRun(rank, run, actions) && i <= |actions|
    ensures EngineViews.IsRun(states, steps) && states[|steps|] == run[i].engine
    ensures AllSafe(run, actions, i) ==> forall k :: 0 <= k < |steps| ==> EngineViews.Safe(states[k], steps[k])
  {
    hide Enabled, After, WriterQueue.After, EngineViews.Safe, Ops;
    if i == 0 {
      states, steps := [run[0].engine], [];
    } else {
      states, steps := EngineRun(rank, run, actions, i - 1);
      var j, a := run[i - 1], actions[i - 1];
      assert run[i] == Next(rank, j, a) && Possible(rank, j, a);
      if a.Other? {
        states, steps := states + [run[i].engine], steps + [a.step];
      } else if a.queued.Finish? {
        var step := Write(Ops(rank, j.queue.phase.updates));
        WriteIsSafe(j.engine, step);
        states, steps := states + [run[i].engine], steps + [step];
      }
    }
  }

  lemma WriteIsSafe(s: State, step: Engine.Step)
    requires step.Write?
    ensures EngineViews.Safe(s, step)
  {
  }

  /** In every run in which no compaction uncovers a value, the newest state shows exactly the map
      of the updates whose writers were told of success, in the order in which they arrived. */
  lemma ReadersSeeAcknowledged(rank: Rank, run: seq<Joint>, actions: seq<Action>, i: nat)
    requires IsJointRun(rank, run, actions) && i <= |actions| && AllSafe(run, actions, i)
    ensures
      var q, s := run[i].queue, run[i].engine;
      && q.popped <= |q.requests| == |q.results|
      && var ops := Ops(rank, WriterQueue.Acknowledged(q, q.popped));
      && s.history == ops && s.lastSequence == |ops|
      && EngineViews.ShowsMap(ops, DataOf(s), |ops|)
  {
    RunKeepsStep(rank, run, actions, i);
    var states, steps := EngineRun(rank, run, actions, i);
    EngineViews.RunShowsMap(states, steps, |steps|);
  }
}
