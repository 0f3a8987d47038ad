/**
 VerificationTask: one test in flight. Each server tick advances its
 counter; the first counted tick speeds the game up, the 600th reads the
 machine's outputs, reports a verdict and retires the task.
 */
module Tasks {
  import opened Wrappers
  import opened Minecraft
  import opened Codec
  import opened Verdicts

  const TOTAL_TICKS := 600

  /** The argument of the speed-up command "tick sprint N". */
  function SprintTicks(testCount: int): int
  {
    600 * testCount
  }

  /** What one call of tick does: the new counter, the result, the command it issues, whether it evaluates. */
  datatype Step = Step(counter: int, live: bool, command: Option<int>, evaluates: bool)

  /**
   One call of tick from counter `counter`, with `sameWorld` telling whether
   the task's world is the overworld.
   */
  function StepOf(counter: int, sameWorld: bool, testCount: int): Step
  {
    if !sameWorld then Step(counter, true, None, false)
    else Step(counter + 1, counter + 1 < TOTAL_TICKS,
              if counter == 0 then Some(SprintTicks(testCount)) else None,
              counter + 1 >= TOTAL_TICKS)
  }

  /**
   One call of tick: the counter moves by one exactly when the worlds
   match; the task retires exactly when it evaluates, which is when a
   matching call brings the counter to 600 or more; the speed-up command
   goes out exactly on a matching call at counter 0.
   */
  lemma StepOfCases(counter: int, sameWorld: bool, testCount: int)
    ensures var s := StepOf(counter, sameWorld, testCount);
      && s.counter == counter + (if sameWorld then 1 else 0)
      && (!s.live <==> s.evaluates)
      && (s.evaluates <==> sameWorld && counter + 1 >= TOTAL_TICKS)
      && (s.command.Some? <==> sameWorld && counter == 0)
      && (s.command.Some? ==> s.command.value == 600 * testCount)
  {
  }

  class VerificationTask {
    const world: World
    const corner: Pos
    const testCount: int
    const gameState: seq<seq<int>>

    var tickCounter: int

    /** The board under test has the generator's 6 x 7 shape. */
    predicate Valid()
    {
      IsBoard(gameState)
    }

    constructor (world: World, corner: Pos, gameState: seq<seq<int>>, count: int)
      requires IsBoard(gameState)
      ensures Valid()
      ensures this.world == world && this.corner == corner && this.gameState == gameState
      ensures testCount == count && tickCounter == 0
    {
      this.world := world;
      this.corner := corner;
      this.testCount := count;
      this.gameState := gameState;
      this.tickCounter := 0;
    }

    /**
     tick: returns whether the task is still live. A task whose world is not
     the overworld is skipped: it stays live and nothing changes. Otherwise
     the first counted call issues the speed-up command, every counted call
     adds one to the counter, and once the counter reaches 600 the outputs are
     read, the verdict reported, and the task reports itself finished.
     */
    method Tick(overworld: WorldKey) returns (live: bool, command: Option<int>, report: Option<Verdict>)
      requires Valid()
      modifies this
      ensures world.key != overworld ==>
        live && tickCounter == old(tickCounter) && command == None && report == None
      ensures world.key == overworld ==>
        tickCounter == old(tickCounter) + 1 && live == (tickCounter < TOTAL_TICKS)
      ensures command == (if world.key == overworld && old(tickCounter) == 0
                          then Some(SprintTicks(testCount)) else None)
      ensures report == (if live then None else Some(Evaluate(OutputsOf(world.blocks, corner), gameState)))
      ensures Step(tickCounter, live, command, report.Some?)
           == StepOf(old(tickCounter), world.key == overworld, testCount)
    {
      if world.key != overworld {
        return true, None, None;
      }
      command := None;
      if tickCounter == 0 {
        // speed up the game for the duration of the tests
        command := Some(SprintTicks(testCount));
      }
      tickCounter := tickCounter + 1;
      if tickCounter < TOTAL_TICKS {
        return true, command, None;
      }
      var output := ReadOutputs(world, corner);
      var onCount, outIndex := Tally(output);
      report := Some(Classify(onCount, outIndex, gameState));
      live := false;
    }
  }

  /** What a task has done after a series of tick calls. */
  datatype Life = Life(counter: int, live: bool, commands: nat, evaluations: nat)

  /**
   The life of a task that receives one tick call per entry of `calls`
   (true when its world is the overworld at that call), until the call that
   retires it; later calls never reach it.
   */
  function Run(counter: int, testCount: int, calls: seq<bool>): Life
    decreases |calls|
  {
    if calls == [] then Life(counter, true, 0, 0)
    else
      var s := StepOf(counter, calls[0], testCount);
      var commands := if s.command.Some? then 1 else 0;
      var evaluations := if s.evaluates then 1 else 0;
      if !s.live then Life(s.counter, false, commands, evaluations)
      else
        var rest := Run(s.counter, testCount, calls[1..]);
        Life(rest.counter, rest.live, commands + rest.commands, evaluations + rest.evaluations)
  }

  /**
   One more call at the end of a run: a retired task is not reached, a live
   one takes one more step.
   */
  lemma {:induction false} RunExtend(counter: int, testCount: int, calls: seq<bool>, sameWorld: bool)
    ensures var r := Run(counter, testCount, calls);
      var s := StepOf(r.counter, sameWorld, testCount);
      Run(counter, testCount, calls + [sameWorld])
        == if !r.live then r
           else Life(s.counter, s.live, r.commands + (if s.command.Some? then 1 else 0),
                     r.evaluations + (if s.evaluates then 1 else 0))
    decreases |calls|
  {
    if calls == [] {
      assert [] + [sameWorld] == [sameWorld];
    } else {
      assert (calls + [sameWorld])[0] == calls[0];
      assert (calls + [sameWorld])[1..] == calls[1..] + [sameWorld];
      var s := StepOf(counter, calls[0], testCount);
      if s.live {
        RunExtend(s.counter, testCount, calls[1..], sameWorld);
      }
    }
  }

  /** The number of calls made while the task's world was the overworld. */
  function Matches(calls: seq<bool>): nat
  {
    if calls == [] then 0 else (if calls[0] then 1 else 0) + Matches(calls[1..])
  }

  /**
   From any counter below 600: the counter grows by one per matching call
   until it reaches 600; at that call the task evaluates once and retires.
   Only a task starting at 0 issues the speed-up command, and only once.
   */
  lemma {:induction false} RunFrom(counter: int, testCount: int, calls: seq<bool>)
    requires 0 <= counter < TOTAL_TICKS
    ensures var m := Matches(calls);
      Run(counter, testCount, calls)
        == if counter + m < TOTAL_TICKS
           then Life(counter + m, true, if counter == 0 && m > 0 then 1 else 0, 0)
           else Life(TOTAL_TICKS, false, if counter == 0 then 1 else 0, 1)
    decreases |calls|
  {
    if calls != [] {
      var s := StepOf(counter, calls[0], testCount);
      if s.live {
        RunFrom(s.counter, testCount, calls[1..]);
      }
    }
  }

  /**
   A fresh task after N matching calls (mismatching ones in between change
   nothing): its counter is N while N < 600 and it is still live; the
   speed-up command has been issued exactly once if N > 0; the evaluation
   has run, exactly once, iff N reached 600, and then the task is retired.
   */
  lemma Lifecycle(testCount: int, calls: seq<bool>)
    ensures var m := Matches(calls); var r := Run(0, testCount, calls);
      && r.counter == (if m < TOTAL_TICKS then m else TOTAL_TICKS)
      && (r.live <==> m < TOTAL_TICKS)
      && r.commands == (if m > 0 then 1 else 0)
      && r.evaluations == (if m < TOTAL_TICKS then 0 else 1)
  {
    RunFrom(0, testCount, calls);
  }
}
