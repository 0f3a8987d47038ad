/**
 The checker's entry points: the list of active tasks that every server
 tick advances (the handler `init` registers), and `verify`, which writes a
 fresh board in front of a machine and queues a task to judge it.
 */
module Verifier {
  import opened Wrappers
  import opened Minecraft
  import opened Codec
  import opened Verdicts
  import opened Tasks

  /** What a task sends out during one tick: the speed-up command or its verdict message. */
  datatype Event = Command(sprintTicks: int) | Message(verdict: Verdict)

  /** The tick counters of a list of tasks. */
  ghost function Counters(ts: seq<VerificationTask>): (cs: seq<int>)
    reads ts
    ensures |cs| == |ts| && forall i :: 0 <= i < |ts| ==> cs[i] == ts[i].tickCounter
  {
    seq(|ts|, i requires 0 <= i < |ts| reads ts => ts[i].tickCounter)
  }

  /** What one tick call on `t` at counter `counter` returns, as a Step. */
  function StepFor(t: VerificationTask, counter: int, overworld: WorldKey): Step
  {
    StepOf(counter, t.world.key == overworld, t.testCount)
  }

  /** The tasks, in order, whose tick call returns true; the others are dropped. */
  function Survivors(ts: seq<VerificationTask>, cs: seq<int>, overworld: WorldKey): (kept: seq<VerificationTask>)
    requires |cs| == |ts|
    ensures |kept| <= |ts|
    ensures forall t :: t in kept ==> t in ts
  {
    if ts == [] then []
    else
      var n := |ts| - 1;
      Survivors(ts[..n], cs[..n], overworld) + (if StepFor(ts[n], cs[n], overworld).live then [ts[n]] else [])
  }

  /** What one task sends out during one tick. */
  function EventsOf(t: VerificationTask, counter: int, overworld: WorldKey): seq<Event>
    requires t.Valid()
    reads t.world
  {
    var s := StepFor(t, counter, overworld);
    (if s.command.Some? then [Command(s.command.value)] else [])
    + (if s.evaluates then [Message(Evaluate(OutputsOf(t.world.blocks, t.corner), t.gameState))] else [])
  }

  /** What a list of tasks sends out during one tick, task after task. */
  function TickEvents(ts: seq<VerificationTask>, cs: seq<int>, overworld: WorldKey): seq<Event>
    requires |cs| == |ts| && forall t :: t in ts ==> t.Valid()
    reads set t | t in ts :: t.world
  {
    if ts == [] then []
    else
      var n := |ts| - 1;
      TickEvents(ts[..n], cs[..n], overworld) + EventsOf(ts[n], cs[n], overworld)
  }

  ghost predicate Distinct(ts: seq<VerificationTask>)
  {
    forall i, j :: 0 <= i < j < |ts| ==> ts[i] != ts[j]
  }

  /** Dropping tasks from a list of distinct tasks leaves them distinct. */
  lemma {:induction false} SurvivorsDistinct(ts: seq<VerificationTask>, cs: seq<int>, overworld: WorldKey)
    requires |cs| == |ts| && Distinct(ts)
    ensures Distinct(Survivors(ts, cs, overworld))
  {
    if ts != [] {
      var n := |ts| - 1;
      SurvivorsDistinct(ts[..n], cs[..n], overworld);
      var front := Survivors(ts[..n], cs[..n], overworld);
      assert ts[n] !in ts[..n];
      assert ts[n] !in front;
    }
  }

  /** A task stays in the list exactly while its tick calls return true. */
  lemma {:induction false} SurvivorsKeep(ts: seq<VerificationTask>, cs: seq<int>, overworld: WorldKey, i: int)
    requires |cs| == |ts| && Distinct(ts) && 0 <= i < |ts|
    ensures ts[i] in Survivors(ts, cs, overworld) <==> StepFor(ts[i], cs[i], overworld).live
  {
    var n := |ts| - 1;
    if i < n {
      SurvivorsKeep(ts[..n], cs[..n], overworld, i);
      assert ts[i] != ts[n];
    } else {
      assert ts[n] !in ts[..n];
    }
  }

  lemma DistinctAt(ts: seq<VerificationTask>, i: int)
    requires Distinct(ts) && 0 <= i < |ts|
    ensures forall k :: 0 <= k < |ts| && k != i ==> ts[k] != ts[i]
  {
  }

  /** Survivors and TickEvents of one more task extend those of the shorter prefix. */
  lemma SliceStep(ts: seq<VerificationTask>, cs: seq<int>, overworld: WorldKey, i: int)
    requires |cs| == |ts| && 0 <= i < |ts| && forall t :: t in ts ==> t.Valid()
    ensures Survivors(ts[..i + 1], cs[..i + 1], overworld)
         == Survivors(ts[..i], cs[..i], overworld)
            + (if StepFor(ts[i], cs[i], overworld).live then [ts[i]] else [])
    ensures TickEvents(ts[..i + 1], cs[..i + 1], overworld)
         == TickEvents(ts[..i], cs[..i], overworld) + EventsOf(ts[i], cs[i], overworld)
  {
    assert ts[..i + 1][..i] == ts[..i];
    assert cs[..i + 1][..i] == cs[..i];
  }

  /** The process-wide list of active tasks (activeTasks). */
  class ActiveTasks {
    var tasks: seq<VerificationTask>

    /** No task is listed twice and every listed task has a well-shaped board. */
    ghost predicate Valid()
      reads this
    {
      Distinct(tasks) && forall t :: t in tasks ==> t.Valid()
    }

    constructor ()
      ensures Valid() && tasks == []
    {
      tasks := [];
    }

    /** add: appends a task that is not in the list yet. */
    method Add(t: VerificationTask)
      requires Valid() && t.Valid() && t !in tasks
      modifies this
      ensures Valid() && tasks == old(tasks) + [t]
    {
      tasks := tasks + [t];
    }

    /**
     The end-of-tick handler: `removeIf(task -> !task.tick(overworld))`.
     Every listed task is ticked exactly once, in list order; the list
     keeps, in order, the tasks whose tick returned true; the events are
     those of the tasks in list order.
     */
    method EndServerTick(overworld: WorldKey) returns (events: seq<Event>)
      requires Valid()
      modifies this, tasks
      ensures Valid()
      ensures forall i :: 0 <= i < |old(tasks)| ==>
        old(tasks)[i].tickCounter == StepFor(old(tasks)[i], old(tasks[i].tickCounter), overworld).counter
      ensures tasks == Survivors(old(tasks), old(Counters(tasks)), overworld)
      ensures events == TickEvents(old(tasks), old(Counters(tasks)), overworld)
    {
      var kept;
      kept, events := TickEach(tasks, overworld);
      SurvivorsDistinct(tasks, old(Counters(tasks)), overworld);
      tasks := kept;
    }
  }

  /**
   The predicate handed to removeIf, with what the tick sends out: ticks
   one task and reports whether it stays.
   */
  method TickOne(task: VerificationTask, overworld: WorldKey) returns (live: bool, sent: seq<Event>)
    requires task.Valid()
    modifies task
    ensures task.tickCounter == StepFor(task, old(task.tickCounter), overworld).counter
    ensures live == StepFor(task, old(task.tickCounter), overworld).live
    ensures sent == EventsOf(task, old(task.tickCounter), overworld)
  {
    var command, report;
    live, command, report := task.Tick(overworld);
    sent := (if command.Some? then [Command(command.value)] else [])
            + (if report.Some? then [Message(report.value)] else []);
  }

  /**
   The loop inside removeIf: ticks each task once, in order, collecting the
   ones whose tick returned true and what every tick sent out.
   */
  method TickEach(ts: seq<VerificationTask>, overworld: WorldKey)
    returns (kept: seq<VerificationTask>, events: seq<Event>)
    requires Distinct(ts) && forall t :: t in ts ==> t.Valid()
    modifies ts
    ensures forall i :: 0 <= i < |ts| ==>
      ts[i].tickCounter == StepFor(ts[i], old(ts[i].tickCounter), overworld).counter
    ensures kept == Survivors(ts, old(Counters(ts)), overworld)
    ensures events == TickEvents(ts, old(Counters(ts)), overworld)
  {
    ghost var cs := Counters(ts);
    kept := [];
    events := [];
    for i := 0 to |ts|
      invariant forall k :: 0 <= k < i ==> ts[k].tickCounter == StepFor(ts[k], cs[k], overworld).counter
      invariant forall k :: i <= k < |ts| ==> ts[k].tickCounter == cs[k]
      invariant kept == Survivors(ts[..i], cs[..i], overworld)
      invariant events == TickEvents(ts[..i], cs[..i], overworld)
    {
      var task := ts[i];
      assert task in ts;
      DistinctAt(ts, i);
      var live, sent := TickOne(task, overworld);
      SliceStep(ts, cs, overworld, i);
      events := events + sent;
      if live {
        kept := kept + [task];
      }
    }
    assert ts[..|ts|] == ts && cs[..|cs|] == cs;
  }

  /**
   verify: when the machine's corner and the player's world are both
   found, writes a fresh board into that world and appends a new task for
   it (test count 1); otherwise nothing happens.
   */
  method Verify(active: ActiveTasks, nwbCorner: Option<Pos>, world: Option<World>, board: seq<seq<int>>)
    returns (task: Option<VerificationTask>)
    requires active.Valid() && IsBoard(board)
    modifies active, if world.Some? then {world.value} else {}
    ensures active.Valid()
    ensures nwbCorner.None? || world.None? ==>
      task.None? && active.tasks == old(active.tasks)
      && (world.Some? ==> world.value.blocks == old(world.value.blocks))
    ensures nwbCorner.Some? && world.Some? ==>
      && (forall p :: BlockAt(world.value.blocks, p)
                      == InputsWritten(old(world.value.blocks), nwbCorner.value, board, p))
      && task.Some? && fresh(task.value)
      && active.tasks == old(active.tasks) + [task.value]
      && task.value.world == world.value && task.value.corner == nwbCorner.value
      && task.value.gameState == board && task.value.testCount == 1 && task.value.tickCounter == 0
  {
    if nwbCorner.None? || world.None? {
      return None;
    }
    SetInputs(world.value, nwbCorner.value, board);
    var t := new VerificationTask(world.value, nwbCorner.value, board, 1);
    active.Add(t);
    task := Some(t);
  }

  /** How many speed-up commands a list of events holds. */
  function CommandCount(es: seq<Event>): nat
  {
    if es == [] then 0 else CommandCount(es[..|es| - 1]) + (if es[|es| - 1].Command? then 1 else 0)
  }

  /** How many verdict messages a list of events holds. */
  function MessageCount(es: seq<Event>): nat
  {
    if es == [] then 0 else MessageCount(es[..|es| - 1]) + (if es[|es| - 1].Message? then 1 else 0)
  }

  lemma {:induction false} CountsAppend(a: seq<Event>, b: seq<Event>)
    ensures CommandCount(a + b) == CommandCount(a) + CommandCount(b)
    ensures MessageCount(a + b) == MessageCount(a) + MessageCount(b)
    decreases |b|
  {
    if b == [] {
      assert a + b == a;
    } else {
      var n := |b| - 1;
      assert (a + b)[..|a + b| - 1] == a + b[..n];
      assert (a + b)[|a + b| - 1] == b[n];
      CountsAppend(a, b[..n]);
    }
  }

  /** One end-of-tick call on a list that holds `task` alone, or nothing. */
  method TickSingle(active: ActiveTasks, task: VerificationTask, overworld: WorldKey)
    returns (sent: seq<Event>)
    requires active.Valid() && (active.tasks == [task] || active.tasks == [])
    modifies active, task
    ensures active.Valid()
    ensures old(active.tasks) == [] ==>
      active.tasks == [] && sent == [] && task.tickCounter == old(task.tickCounter)
    ensures old(active.tasks) == [task] ==>
      var s := StepFor(task, old(task.tickCounter), overworld);
      && task.tickCounter == s.counter
      && active.tasks == (if s.live then [task] else [])
      && CommandCount(sent) == (if s.command.Some? then 1 else 0)
      && MessageCount(sent) == (if s.evaluates then 1 else 0)
  {
    ghost var before := active.tasks;
    ghost var counter := task.tickCounter;
    sent := active.EndServerTick(overworld);
    if before == [task] {
      assert [task][..0] == [] && [counter][..0] == [];
      assert sent == EventsOf(task, counter, overworld);
    }
  }

  /**
   A list holding one fresh task, ticked once per entry of `overworlds`:
   the task lives exactly the life Run gives for those calls. It leaves
   the list on the call that brings its counter to 600, and the events
   hold as many speed-up commands and verdict messages as Run counts.
   */
  method ServerTicks(active: ActiveTasks, task: VerificationTask, overworlds: seq<WorldKey>)
    returns (events: seq<Event>)
    requires active.Valid() && active.tasks == [task] && task.tickCounter == 0
    modifies active, task
    ensures var r := Run(0, task.testCount, seq(|overworlds|, i requires 0 <= i < |overworlds| =>
                                                  task.world.key == overworlds[i]));
      && task.tickCounter == r.counter
      && active.tasks == (if r.live then [task] else [])
      && CommandCount(events) == r.commands
      && MessageCount(events) == r.evaluations
  {
    ghost var calls := seq(|overworlds|, i requires 0 <= i < |overworlds| => task.world.key == overworlds[i]);
    events := [];
    for n := 0 to |overworlds|
      invariant active.Valid()
      invariant var r := Run(0, task.testCount, calls[..n]);
        && task.tickCounter == r.counter
        && active.tasks == (if r.live then [task] else [])
        && CommandCount(events) == r.commands
        && MessageCount(events) == r.evaluations
    {
      ghost var r := Run(0, task.testCount, calls[..n]);
      assert calls[..n + 1] == calls[..n] + [calls[n]];
      RunExtend(0, task.testCount, calls[..n], calls[n]);
      var sent := TickSingle(active, task, overworlds[n]);
      CountsAppend(events, sent);
      events := events + sent;
    }
    assert calls[..|overworlds|] == calls;
  }
}
