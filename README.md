# CompetitionChecker verification engine, in Dafny

CompetitionChecker is a Fabric mod that tests redstone machines built to
play Connect Four. For a named machine it writes a random 6 x 7 board into
the machine's input blocks and then waits 600 server ticks. Next it reads the
machine's seven output repeaters and tells the player one of four verdicts:
no output, multiple outputs, an illegal move into a full column, or a pass.

This project models the engine inside `Verifier.java`:

- `setInputs` writes the board. Every square has a red and a yellow input
  block, at fixed offsets from the machine's corner.
- `readOutputs` reads seven output slots. A slot is lit only when a powered
  repeater stands there.
- `VerificationTask.tick` is a counter-driven state machine. It skips ticks
  while the task's world is not the overworld. Its first counted tick sends
  the "tick sprint" speed-up command. Its 600th counted tick runs the
  evaluation once and retires the task.
- The end-of-tick handler is `activeTasks.removeIf(task -> !task.tick(...))`.
  It ticks every listed task once, in order, and drops the tasks that
  finished.
- `verify` ties these together: it writes the board, then queues a task.

Modules, one file each:

- `Minecraft` (minecraft.dfy): the game reduced to what the engine uses.
  It has positions, four kinds of block, a world identity, and a world as a
  map from positions to blocks that methods update in place. A position the
  map does not hold is air.
- `Codec` (codec.dfy): `setInputs` and `readOutputs`, their coordinate
  formulas, and the decoder `InputCellOf` that inverts the input formula.
- `Verdicts` (verdicts.dfy): the counting loop and the verdict chain.
- `Tasks` (tasks.dfy): the `VerificationTask` class, one tick as a pure
  step function, and the lemma about a task's whole life.
- `Verifier` (verifier.dfy): the active-task list, the end-of-tick handler
  and `verify`.
- `Wrappers` (wrappers.dfy): `Option`.

A world-identity mismatch does not retire the task: `Verifier.java:92`
returns `true`, so the task stays in the list and nothing about it changes.
`RunFrom` and `Lifecycle` show the result: a task whose calls never match its
world stays live forever with its counter at 0.

## Model

| member | source | states |
|---|---|---|
| `Codec.InputCellOf` | src/main/java/wueffi/checker/Verifier.java:54-63 | Decoding a position gives a valid (row, col, marker) whose input position is that same position. So no two input cells share a position. |
| `Codec.CellPosRoundTrip` | src/main/java/wueffi/checker/Verifier.java:54-63 | Encoding a valid (row, col, marker) as a position and decoding it gives the same cell back. |
| `Codec.MarkerBlock` | src/main/java/wueffi/checker/Verifier.java:64-67 | The red cell gets a redstone block iff the state is 1 or 3. The yellow cell gets one iff the state is 2 or 3. Every other case, including states outside 0..3, gets air. |
| `Codec.SetInputs` | src/main/java/wueffi/checker/Verifier.java:51-70 | After the nested row/column loops, every input cell holds its square's block and every other position holds what it held before. |
| `Codec.InputPositionsDistinct` | src/main/java/wueffi/checker/Verifier.java:58-63 | The loops write 84 positions (a red and a yellow one per square), and no two are the same. |
| `Codec.InputPositionsExact` | src/main/java/wueffi/checker/Verifier.java:58-63 | A position is among the 84 written positions iff it decodes to an input cell. |
| `Codec.InputsWrittenAt` | src/main/java/wueffi/checker/Verifier.java:58-67 | The i-th written position ends up holding the block that the state of its square and marker asks for. |
| `Codec.InputsWrittenElsewhere` | src/main/java/wueffi/checker/Verifier.java:58-67 | A position outside the 84 written ones is unchanged by setInputs. |
| `Codec.OutputsOf` | src/main/java/wueffi/checker/Verifier.java:127-142 | Seven slots. Slot i is true iff the block at (x+51, y+26, z+7+4i) is a powered repeater. |
| `Codec.ReadOutputs` | src/main/java/wueffi/checker/Verifier.java:127-142 | Returns a newly allocated array of length 7. Slot i is true iff a powered repeater stands at its position, and any other block reads as false. The world is not modified. |
| `Codec.InputsLeaveOutputs` | src/main/java/wueffi/checker/Verifier.java:129-134 | No output slot is an input cell, so writing any board leaves the output reading unchanged. |
| `Codec.EmptyWorldReadsDark` | src/main/java/wueffi/checker/Verifier.java:127-142 | Any board written into an empty world reads back as seven false slots. |
| `Verdicts.LastOn` | src/main/java/wueffi/checker/Verifier.java:110-116 | The result is the largest lit index, or -1 when no slot is lit. |
| `Verdicts.CountOnIsLitSlots` | src/main/java/wueffi/checker/Verifier.java:109-116 | The count equals the size of the set of lit indices. |
| `Verdicts.Tally` | src/main/java/wueffi/checker/Verifier.java:109-116 | After the loop, `onCount` is the number of lit slots and `outIndex` is the last lit index, or -1. `onCount` is 0 iff `outIndex` is -1, so row 0 is only indexed at a real column. |
| `Verdicts.Classify` | src/main/java/wueffi/checker/Verifier.java:118-121 | The verdict chain on a count and an index: NoOutput iff the count is 0, Multiple(count) iff it is above 1, Illegal iff it is 1 and row 0 of that column is non-zero, Pass iff it is 1 and that cell is 0. Row 0 is only indexed when the count is 1 and the index is a column. |
| `Verdicts.EvaluateClassifies` | src/main/java/wueffi/checker/Verifier.java:118-121 | The verdict is NoOutput iff no slot is lit. It is Multiple(n) iff n > 1 slots are lit, and n is that number. With exactly one lit slot it is Illegal iff that column's row-0 cell is non-zero, and Pass iff it is zero. |
| `Tasks.VerificationTask.constructor` | src/main/java/wueffi/checker/Verifier.java:83-89 | Keeps the world, corner, board and test count, and starts the counter at 0. |
| `Tasks.VerificationTask.Tick` | src/main/java/wueffi/checker/Verifier.java:91-124 | On a world mismatch it returns true and changes nothing. Otherwise the counter goes up by one. The speed-up command with argument 600·testCount is sent iff the old counter was 0. It returns true iff the new counter is below 600. When it returns false it reports the verdict of the current output reading. |
| `Tasks.StepOfCases` | src/main/java/wueffi/checker/Verifier.java:91-104 | One call of tick (the step function `StepOf`): the counter moves by one exactly when the worlds match. The task retires exactly when it evaluates, and that is a matching call bringing the counter to 600 or more. The speed-up command, with argument 600·testCount, goes out exactly on a matching call at counter 0. |
| `Tasks.RunExtend` | src/main/java/wueffi/checker/Verifier.java:91-123 | One more call at the end of a series: a retired task is not reached, and a live task takes exactly one more step. |
| `Tasks.RunFrom` | src/main/java/wueffi/checker/Verifier.java:91-123 | From any counter c below 600, each matching call adds one. The call that reaches 600 evaluates once and retires the task. Only c = 0 sends the speed-up command, and only once. |
| `Tasks.Lifecycle` | src/main/java/wueffi/checker/Verifier.java:73-123 | After N matching calls a fresh task has counter N and is still live while N < 600. The speed-up command was sent exactly once if N > 0. The evaluation ran, exactly once, iff N reached 600. |
| `Verifier.TickOne` | src/main/java/wueffi/checker/Verifier.java:30 | The predicate passed to removeIf ticks one task once. It returns that tick's result, and what the tick sends matches the step function. |
| `Verifier.TickEach` | src/main/java/wueffi/checker/Verifier.java:30 | Every task in the list is ticked exactly once, in list order. The tasks kept are those whose tick returned true, in order. The events are those of each task, in list order. |
| `Verifier.ActiveTasks.EndServerTick` | src/main/java/wueffi/checker/Verifier.java:28-31 | The end-of-tick handler advances every listed task once. It leaves the list as the order-preserving sublist of tasks whose tick returned true, and keeps the list free of duplicates. |
| `Verifier.Survivors` | src/main/java/wueffi/checker/Verifier.java:30 | The list removeIf leaves: never longer than the old list, and holding only tasks from it. Order and the exact membership are stated by `SurvivorsKeep` and `TickEach`. |
| `Verifier.SurvivorsKeep` | src/main/java/wueffi/checker/Verifier.java:30 | A task stays in the list iff its tick call returned true. |
| `Verifier.SurvivorsDistinct` | src/main/java/wueffi/checker/Verifier.java:30 | Removing tasks from a list with no duplicates leaves a list with no duplicates. |
| `Verifier.TickSingle` | src/main/java/wueffi/checker/Verifier.java:28-31 | On a list holding one task, one end-of-tick call takes one step of that task. The task stays listed iff the step is live, and the events hold one command iff the step sends one and one message iff it evaluates. An empty list stays empty. |
| `Verifier.ServerTicks` | src/main/java/wueffi/checker/Verifier.java:28-31 | A list holding one fresh task, through successive end-of-tick calls, gives the task exactly the life `Run` gives. Its counter is the number of matching calls, up to 600. It leaves the list on the call that brings the counter to 600. The events hold as many speed-up commands and verdict messages as `Run` counts. |
| `Verifier.ActiveTasks.Add` | src/main/java/wueffi/checker/Verifier.java:48 | Appends the new task at the end of the list. |
| `Verifier.Verify` | src/main/java/wueffi/checker/Verifier.java:34-49 | A missing corner or world changes nothing. Otherwise the board is written as setInputs writes it and a fresh task (counter 0, test count 1) is appended. |

## Left out

- Message text and `sendMessage`. A verdict is the `Verdict` datatype. The debug line "Setting inputs..." is not modelled.
- The command dispatcher's parse and execute. A sent speed-up command is recorded as its sprint argument (a `Command` event).
- Block states beyond what the engine uses. `Block` knows air, redstone blocks, repeaters with their POWERED flag, and "other".
- The lookups in `verify` (`BlockSelectListener.getPositions`, the player manager, `getWorld`). They are outside this model. Their results are the `Option` parameters of `Verify`, and the three early returns are the `None` cases.
- `ValidBoardGenerator.generateBoard` is not part of this model. The board is a parameter of `Verify` with the generator's 6 x 7 shape.
- The static `player` field that `verify` overwrites and the task's `player`. They only address messages and commands.
- The 50 ms `ScheduledExecutorService` delay and the unsynchronised `ArrayList` shared with the tick thread. This is concurrency. `Add` is modelled as a plain append between two ticks, so a task added while a tick runs is not modelled.
- The circuit's own evolution during the 600 ticks. The world is whatever it is when the 600th call reads the outputs.
- Tasks.VerificationTask.Tick: integers are unbounded. Java's `int` for `tickCounter` and `600 * testCount` could wrap only after about 2^31 calls or for a test count near 3.5 million. Neither happens here: a task is retired at 600 and the test count is 1.
- World.SetBlockState / Codec.SetInputs: the game's `setBlockState` with default flags also notifies neighbouring blocks and updates their shapes, so redstone next to an input cell can change within the same call. Those neighbour and shape updates are not modelled. The frame property of `SetInputs` ("every other position is unchanged") covers only its own 84 writes.
- Codec.SetInputs: coordinates are unbounded integers. Java's 32-bit coordinates could wrap only for a corner within 52 blocks of ±2^31, far outside any world.
