# Verified model of the motion and serial helpers

This project models, in Dafny, the C helper library under `chelper/`, the part of the host that
turns planned motion into step commands and carries them to the microcontrollers. It proves what
that code is relied on for, over every input or every run. `dafny verify dfyconfig.toml` checks
all of it. Nothing here executes the library.

## Main results

- **Step compression** (`StepCompression`, `StepQueue`). Over any run of append, commit, flush,
  reset and direction changes, replaying the emitted commands by the microcontroller's own rule
  gives one pulse per surviving requested step, on the right pin, strictly increasing, never late,
  and early by at most `max_error` and half the gap (`ReplayMeetsRequests`, kept by every method
  of `StepCompress`). The search always ends in a command the line check accepts, never covers
  fewer steps than a constant interval could, with `max_error` 0 covers as many as any command
  could, and for a `max_error` up to 0x80000 stays within 32-bit arithmetic (`CompressBisectAdd`,
  `CheckLineDecidesFit`). The net position is conserved through the step filter.
- **Step history** (`StepHistory`, `StepRecord`). The quadratic formula answers what counting
  pulses one by one would, and since a reset or marker that is exactly the signed pulses the
  emitted commands replay to, also after the reset to clock 0 that ends homing and for a position
  reported before the last step generated (`PastPosition`, `EndHoming`). Expiry keeps answers exactly when no moving marker is left oldest.
- **Move queue slots** (`StepperSync`, `Transmission`). The heap of release clocks, the merge of the
  steppers' messages and the scheduler that sends them never over-fill the microcontroller's move
  queue (`LinkedSafe`).
- **From request to microcontroller** (`StepReader`, `SyncFlush`, `Delivery`). Through compression,
  merge, slots, scheduler, encoding, framing and the lossy link: in every state, what a stepper reads
  as its own from the messages the microcontroller has accepted makes, when executed, the first
  pulses requested of it (`DeliveredAsRequested`).
- **Serial link** (`SerialLink`, `SerialQueue`, `CommandQueues`). Against a lossy line and a peer
  that accepts only the number it expects, what arrives is always a prefix of what was built.
  Window, byte counts, sequence decoding and timing hold in every reachable state; after
  a resend naks cause at most one more until its blocks are acknowledged (`NaksSuppressed`); the
  scheduler keeps order and fills a block with the lowest ready request clocks.
- **Message blocks** (`MsgBlock`, `FrameReader`). Integers survive encoding, framing, checking and
  decoding; the CRC is a polynomial remainder, and any one changed byte but the length byte is
  rejected; blocks come out as written, however the stream is split.
- **Trajectories** (`TrapQ`, `Shaper`, `PressureAdvance`, `StepWindows`), in exact reals. Shaping
  leaves motion unchanged that is steady where its pulses fall; pressure advance does not depend on
  how motion is cut into moves and adds exactly its constant times the velocity where the window
  sees one; step generation visits exactly the active moves and their windows, in order, over any
  run of flushes with moves added and removed between them, and while it generates nothing the
  stepper's axes stand still (`UnsteppedStands`).
- **Trigger dispatch** (`TrDispatch`). Every timeout extension is measured from what the other
  microcontrollers acknowledged, and from the first report on timeouts only advance
  (`AdvanceFromFirstReport`); after a trigger each is told once and nothing follows.

## Where the code differs from what it is for

- `chelper/trdispatch.c:115` compares a signed difference with an unsigned number, so a target
  behind the current timeout is sent and moves it back. `TimeoutCanGoBack` shows it for two
  microcontrollers; `ExtensionAdvances` says exactly when timeouts do advance.
- `chelper/trapq.c:154` recognises the head sentinel by its print time 0, so a real move at time 0
  is taken for it and a gap can stay open. `GapLeftOpen` shows it; `AddMoveContiguous` says exactly
  when the queue stays contiguous.
- The search of step compression can return a shorter command than one that fits, although only
  through its limit on how far add may deviate, or through rounding an interval down by half a tick
  (`DeviationMisses`, `RoundingLoses`); `CompressBisectAdd` says that there is no other way.
- `chelper/msgblock.c:208` rounds by adding a half and dropping the fraction, which takes a clock
  before the base of the estimate one tick too far (`ClockBeforeBase`; `ClockComesBack` says
  exactly which clocks come back).
- Expiring history can change an answer when the oldest kept entry is a position marker
  (`ExpiryCanMoveAnswer`, `ExpiryKeepsAnswers`).
- Changing the inversion flag while steps are queued changes the net position
  (`InversionMovesPosition`; `SetInvertSdir` says exactly when).
- `chelper/stepcompress.c:138` multiplies the count by itself before halving, which leaves
  `int32_t` from 46342 points on; a run that long fits only with an add of 0, so that nothing
  depends on the product (`FactorInRange`, `RoundInRange`).
- The limits on add need a bound on `max_error` to stay in `int32_t` (`LargeErrorOverflows` shows
  the search leave it; 0x80000 ticks is enough, `LimitsInRange`).
- `chelper/steppersync.c:149-157` knows a move by its non-zero min clock. The first move after a
  reset to clock 0 has min clock 0, so it waits for no slot and is counted by none; `MoveQueueSafe`
  and what rests on it speak of the others. `OneWithoutSlot` says exactly which moves those are.
- A step at clock 0 is indistinguishable from no pending step and is lost (`Append`).
- Steps are also generated within one post window of time 0, which counts as activity
  (`StepWindows.Due`).

## Reading the model

Fixed-width arithmetic is written out (`Words`): 32-bit clocks, 64-bit expiry clocks, unsigned
conversions in the line check. State the library updates in place is a class whose methods state
the whole new state; loops keep their invariants. Each locked section of the serial code is one
step. Clocks and times that the library reads from elsewhere are parameters.

## Model

| member | source | states |
|---|---|---|
| `StepCompression.IdivUpLeast` | chelper/stepcompress.c:77-81 | The rounded-up quotient is the least integer whose product with the divisor reaches the numerator, for either sign of the numerator (both directions) |
| `StepCompression.IdivDownGreatest` | chelper/stepcompress.c:83-87 | The rounded-down quotient is the greatest integer whose product stays within the numerator (both directions) |
| `StepCompression.WindowShape` | chelper/stepcompress.c:93-104 | On an ordered queue the 32-bit window of a step is the plain one: it ends at the requested time, is min(max_error, half the gap) wide, and lies after the previous request |
| `StepCompression.WindowsAscend` | chelper/stepcompress.c:93-104 | The window of a later step lies wholly after that of an earlier one |
| `StepCompression.ReachClosed` | chelper/stepcompress.c:7-13 | The closed form add*k*(k-1)/2 + interval*k that the host computes with equals the microcontroller's step-by-step rule |
| `StepCompression.QuotientsBound` | chelper/stepcompress.c:137-143 | The two rounded quotients bound exactly the intervals whose pulse k hits its window |
| `StepCompression.Narrow` | chelper/stepcompress.c:137-146 | Clipping to one more point keeps exactly the intervals that fit all points so far |
| `StepCompression.ClipRound` | chelper/stepcompress.c:139-142 | Both clips of one round, as the code makes them, keep exactly the admissible intervals |
| `StepCompression.TurnsAt` | chelper/stepcompress.c:167-175 | If the next pulse would come too early the upper bound stood, and if not the lower bound rose no further than the interval |
| `StepCompression.LongestRun` | chelper/stepcompress.c:126-147 | For a fixed add: the run found fits its windows, when it stops short no interval of the outer range fits one more point, every interval left out is too early or too late for a point passed, and every product and sum of the loop stays in 32 bits |
| `StepCompression.ZeroRunIsLongest` | chelper/stepcompress.c:125-147 | A run with add 0 from the whole first window that cannot be extended is the longest any constant interval can give |
| `StepCompression.Consider` | chelper/stepcompress.c:149-165 | The remembered best and zero-add sequences always fit and the best never gets shorter, although ranking is by reach; a degenerate run never displaces them |
| `StepCompression.LongerReachesFurther` | chelper/stepcompress.c:149-165 | A longer fitting run always reaches further, so that ranking by reach never prefers a shorter one |
| `StepCompression.ExtendingAddKept` | chelper/stepcompress.c:188-194 | An add that can hit the next point from the outer interval range passes both limits taken from that point |
| `StepCompression.LimitAddRange` | chelper/stepcompress.c:178-194 | The add range never grows, stays within the allowed deviation, and keeps every add within it that can reach the next point; for max_error up to 0x80000 its arithmetic stays in 32 bits |
| `StepCompression.FitBounds` | chelper/stepcompress.c:137-142 | A fitting interval times its count lies below 2^31, and the bumps of its add stay above -0x30000000 |
| `StepCompression.NextBounds` | chelper/stepcompress.c:137-142 | One point more keeps the bumps, the product and their sum within int32_t |
| `StepCompression.RoundInRange` | chelper/stepcompress.c:137-142 | Every product, sum and difference of a round of the inner loop fits int32_t, for up to 65535 points, except the factor n*(n-1) when add is 0 |
| `StepCompression.TurnInRange` | chelper/stepcompress.c:149-169 | So do the reach of the run and of its next pulse |
| `StepCompression.LimitsInRange` | chelper/stepcompress.c:178-194 | So do the limits on add, for max_error up to 0x80000 |
| `StepCompression.FactorInRange` | chelper/stepcompress.c:138 | That factor fits int32_t if and only if there are at most 46341 points |
| `StepCompression.FirstRunEnds` | chelper/stepcompress.c:188-190 | Where the constant intervals end decides whether the search forms its first limit from the upper end of the first window |
| `StepCompression.WideEnds` | chelper/stepcompress.c:188-190 | Three steps for which it does, and the product leaves int32_t |
| `StepCompression.LargeErrorOverflows` | chelper/stepcompress.c:113-205 | The search itself, on those steps, leaves 32 bits: some bound on max_error is needed |
| `StepCompression.ClipsBlock` | chelper/stepcompress.c:137-146 | Clipping leaves out only intervals that some point already passed rules out, as too late above and too early below |
| `StepCompression.EarlyTurn` | chelper/stepcompress.c:170-172 | If the next pulse would come too early, no smaller add of the outer range fits as many points, nor does a greater interval: turning to greater adds and smaller intervals loses nothing |
| `StepCompression.LateTurn` | chelper/stepcompress.c:173-175 | If it would come too late, a greater add fits as many points only where rounding the interval down by half a tick lost it |
| `StepCompression.TurnRound` | chelper/stepcompress.c:166-194 | One turn, with its limits on add, keeps every longer command except those outside the allowed deviation or lost by rounding |
| `StepCompression.KeptTurn` | chelper/stepcompress.c:166-176 | So a command that fits more points than the best so far stays within the ranges of every turn, or was lost in one of those two ways |
| `StepCompression.KeptLimit` | chelper/stepcompress.c:178-194 | The limits on add discard only what lies outside the allowed deviation, or what cannot hit the next point |
| `StepCompression.NoneKept` | chelper/stepcompress.c:113-205 | When the ranges are used up, no command kept through all turns covers more |
| `StepCompression.ChosenIsLongest` | chelper/stepcompress.c:113-205 | With max_error 0 neither way of losing exists, so that the search returns a longest command |
| `StepCompression.CompressBisectAdd` | chelper/stepcompress.c:113-205 | For every ordered queue the search ends, and its command has a count of 1 to 65535, a 16-bit add, hits every window it covers, and covers no fewer steps than any constant-interval command could, and over a sixteenth more if it uses an add and stops short. With max_error 0 no 16-bit command covers more; with any max_error, for up to 0x200 steps, every command that covers over a sixteenth more lies outside the deviation a turn allowed or was lost to its rounding. For max_error up to 0x80000 all its arithmetic stays in 32 bits, and whenever it does so does the first limit on add |
| `StepCompression.DeviationMisses` | chelper/stepcompress.c:178-187 | Three steps that one command covers, of which the search covers fewer: its add lies outside the allowed deviation |
| `StepCompression.RoundingLoses` | chelper/stepcompress.c:166-176 | Three more: the interval it needs lies half a tick off the one the turn rounds to |
| `StepCompression.Choose` | chelper/stepcompress.c:201-204 | Falling back to the zero-add sequence still fits, never covers fewer steps than it, and loses at most a sixteenth of the best |
| `StepCompression.RegistersHold` | chelper/stepcompress.c:224-242 | The line check's wrapping 32-bit registers hold the replayed ticks and interval |
| `StepCompression.CheckLine` | chelper/stepcompress.c:213-245 | The check returns success exactly when every pulse passes its unsigned comparisons and no interval overflows |
| `StepCompression.FitsIntervals` | chelper/stepcompress.c:213-245 | Every intermediate interval of a fitting command is positive, so its pulses strictly increase |
| `StepCompression.CheckLineDecidesFit` | chelper/stepcompress.c:213-245 | On an ordered queue the check accepts a command if and only if all its pulses hit their windows |
| `StepHistory.CountIsThreshold` | chelper/stepcompress.c:632-645 | Counting rising pulses one by one gives j exactly when pulse j is at or before the clock and pulse j+1 after it |
| `StepHistory.CountOutside` | chelper/stepcompress.c:628-633 | Before its first clock an entry has made no step, from its last clock on all of them |
| `StepHistory.DiscriminantNonNegative` | chelper/stepcompress.c:639-641 | Before the last pulse the discriminant is non-negative, whatever the sign of add |
| `StepHistory.RootBrackets` | chelper/stepcompress.c:638-642 | The real root the code picks lies between pulse j and pulse j+1 when the clock does |
| `StepHistory.QuadraticOffsetIs` | chelper/stepcompress.c:638-642 | With an exact square root, the truncated quadratic formula is the number of pulses made, for add above or below 0 |
| `StepHistory.DivisionOffsetIs` | chelper/stepcompress.c:636-637 | For add 0 the quotient is the number of pulses made |
| `StepHistory.OffsetCounts` | chelper/stepcompress.c:634-642 | Inside an entry the offset computed from 32-bit ticks equals the count of pulses at or before the clock |
| `StepHistory.PositionCountsPulses` | chelper/stepcompress.c:621-648 | Without markers the reference answer is the oldest start position plus every signed pulse at or before the clock |
| `StepHistory.AfterNewest` | chelper/stepcompress.c:632-633 | Once the newest entry is over, the reference answer is where it ended |
| `StepHistory.InNewest` | chelper/stepcompress.c:634-645 | Inside the newest entry, all older entries are complete |
| `StepHistory.BeforeNewest` | chelper/stepcompress.c:628-631 | Before the newest entry it contributes nothing; with no entry left the answer is its start position |
| `StepHistory.FindPastPosition` | chelper/stepcompress.c:622-648 | The search newest-first returns the reference answer: the newest marker reached plus every signed pulse counted since |
| `StepHistory.FreeHistory` | chelper/stepcompress.c:306-317 | What is kept is a prefix; everything dropped is over by the end clock, and the oldest kept is not |
| `StepHistory.DropOlder` | chelper/stepcompress.c:306-317 | Dropping older entries shifts an answer by exactly what a marker among the kept ones moved the position |
| `StepHistory.ExpiryKeepsAnswers` | chelper/stepcompress.c:306-324 | Expiring up to a clock leaves every answer from that clock on unchanged if and only if the oldest kept entry is not a marker that moved the position, or a newer marker is reached by then; markers may lie at any clock |
| `StepHistory.ExpiryCanMoveAnswer` | chelper/stepcompress.c:602-619 | A concrete history with a marker for which expiry changes the answer |
| `StepHistory.ChainEntry` | chelper/stepcompress.c:397-406 | A command that starts where and no earlier than the newest entry ended, or a marker at any clock, keeps the history chained |
| `StepRecord.EntryCounts` | chelper/stepcompress.c:397-406 | The pulses an entry is counted by are the pulses made, with their sign |
| `StepRecord.RecordedCounts` | chelper/stepcompress.c:397-406 | So over any number of entries: signed pulses counted are signed pulses made |
| `StepRecord.RecordedPrefix` | chelper/stepcompress.c:306-317 | Without the oldest entries, the entries left hold exactly the last of the pulses |
| `StepRecord.RecentPosition` | chelper/stepcompress.c:621-648 | From the end of the older entries on, the answer is their end position plus the signed pulses since |
| `StepRecord.RecordAnswers` | chelper/stepcompress.c:621-648 | A lookup is the position counting started from plus every signed pulse made by that clock |
| `StepRecord.RecordNext` | chelper/stepcompress.c:397-406 | A command whose pulses begin after the end of the history may be recorded |
| `StepRecord.RecordMarker` | chelper/stepcompress.c:602-619 | A declared position starts counting anew, whatever its clock, even before the end of recorded steps |
| `StepRecord.RecordRestart` | chelper/stepcompress.c:589-600 | Counting may start anew anywhere |
| `StepRecord.RecordExpire` | chelper/stepcompress.c:306-324 | Expiry keeps a record of what is left; of the same pulses if it reaches none of them |
| `StepQueue.ReplayAppend` | chelper/stepcompress.c:7-13 | Replaying one more message adds exactly its pulses and moves the microcontroller's clock or pin |
| `StepQueue.TimesIncrease` | chelper/stepcompress.c:410-431 | Traced pulse times strictly increase across commands |
| `StepQueue.PulseNear` | chelper/stepcompress.c:93-104 | Each pulse of a fitting command is never late, and early by at most min(max_error, half the gap to the previous point) |
| `StepQueue.ExtendTracks` | chelper/stepcompress.c:379-395 | Appending a covering command keeps every pulse near its request |
| `StepQueue.ExtendRealises` | chelper/stepcompress.c:379-395 | The replayed 32-bit pulses of a covering command are the traced times, on the requested pin |
| `StepQueue.FitsPlayable` | chelper/stepcompress.c:382-384 | A fitting command never overflows the 32-bit tick count or the history's signed interval |
| `StepQueue.FitsCovers` | chelper/stepcompress.c:410-427 | A command that fits the queue puts one pulse near each of its first clocks |
| `StepQueue.QueueOrdered` | chelper/stepcompress.c:93-104 | The 32-bit queue of rising clocks within reach is ordered, as the search and the line check need it |
| `StepQueue.FrontCommand` | chelper/stepcompress.c:410-427 | A command that fits the front of the queue can be emitted, and the rest of the queue still holds |
| `StepQueue.TicksExact` | chelper/stepcompress.c:382-384 | The ticks added to the first clock reach exactly the last replayed pulse |
| `StepQueue.EntryPulses` | chelper/stepcompress.c:397-406 | The pulses a history entry is counted by are the command's exact pulse times |
| `StepQueue.EntryWellFormed` | chelper/stepcompress.c:397-406 | The recorded entry is one the lookup handles |
| `StepQueue.RequiredNext` | chelper/stepcompress.c:391-394 | Messages stay in the order of their request clocks, none past the last step, min clock never above request clock |
| `StepQueue.MinClocksNext` | chelper/stepcompress.c:386-394 | Every move's min clock is the last step before it |
| `StepQueue.OneWithoutSlot` | chelper/stepcompress.c:386-394 | Among the moves since a reset, only the first can have min clock 0, and it has if and only if the reset was to clock 0 |
| `StepQueue.CoversAdvance` | chelper/stepcompress.c:379-395 | Every pulse of a command comes after the last step before it |
| `StepQueue.SendMove` | chelper/stepcompress.c:386-395 | Sending a covering command keeps replay, requests, message order and the microcontroller's clock in step |
| `StepQueue.SendMoveMessage` | chelper/stepcompress.c:379-395 | So does the message as the code forms it, and exactly the command's pulses are added |
| `StepQueue.DueAtPulse` | chelper/stepcompress.c:391-394 | Of every command sent since a reset: its min clock is the pulse before it, and its request clock is that too, or for a lone step at least CLOCK_DIFF_MAX later the step itself |
| `StepQueue.CommandSendable` | chelper/stepcompress.c:387-390 | Interval, count and add of every command fit the 32 and 16 bits they are sent in |
| `StepQueue.EntryHoldsPulses` | chelper/stepcompress.c:397-406 | The entry of a command holds exactly its pulses, each with the sign of the direction |
| `StepQueue.RecordPulses` | chelper/stepcompress.c:397-406 | Recording a command keeps the history a record of the pulses traced, ending at the new position |
| `StepQueue.FirstAhead` | chelper/stepcompress.c:410-427 | The first pulse of a command for the front of the queue comes after the end of the history |
| `StepQueue.RecordTells` | chelper/stepcompress.c:621-648 | A lookup counts the signed pulses traced since counting began |
| `StepQueue.MarkerAnswers` | chelper/stepcompress.c:602-648 | A marker answers from its clock on; before it, the older entries do |
| `StepQueue.ExpireTail` | chelper/stepcompress.c:306-324 | Expiry keeps the history a record of the traced pulses it still holds |
| `StepQueue.PinFollowsDirection` | chelper/stepcompress.c:453-455 | The pin level tells the directions apart, and inverting both flag and direction leaves it |
| `StepQueue.SendDir` | chelper/stepcompress.c:453-458 | A direction message makes no pulse and leaves the pin at the new level |
| `StepQueue.FarCovers` | chelper/stepcompress.c:434-441 | A far step is one command of one pulse at the requested clock, in 32 bits, whatever the gap |
| `StepQueue.DropCovered` | chelper/stepcompress.c:421-427 | Dropping the covered steps leaves a queue still ordered and within reach of the new last step |
| `StepQueue.ReplayMeetsRequests` | chelper/stepcompress.c:379-431 | In every valid state replay gives one pulse per emitted request, on its pin, strictly increasing, never late, and early by at most max_error and half the gap to the code's previous point, which is the last pulse or the previous request, and the start clock for the first; messages are in request order |
| `StepQueue.StepCompress.constructor` | chelper/stepcompress.c:252-269 | A new object is valid, with an empty history and net position 0 |
| `StepQueue.StepCompress.SendCommand` | chelper/stepcompress.c:379-395 | The message carries the last step clock as min clock and, only for a far single step, its own clock as request clock; replay stays in step |
| `StepQueue.StepCompress.RecordCommand` | chelper/stepcompress.c:397-406 | The whole new history and position, and that the history stays a record of the pulses |
| `StepQueue.StepCompress.AddMove` | chelper/stepcompress.c:379-407 | Message and history entry of one command together |
| `StepQueue.StepCompress.QueueFlush` | chelper/stepcompress.c:409-431 | Never fails; stops only with an empty queue or at the clock, each command starting before it; the steps left are the last that waited; net position conserved |
| `StepQueue.StepCompress.FlushOne` | chelper/stepcompress.c:416-428 | The line check never rejects what the search returns |
| `StepQueue.StepCompress.EmitQueued` | chelper/stepcompress.c:421-427 | Exactly the covered steps leave the queue, net position conserved |
| `StepQueue.StepCompress.SetNextStepDirection` | chelper/stepcompress.c:443-460 | Steps in the old direction go out first; net position conserved |
| `StepQueue.StepCompress.SendDirection` | chelper/stepcompress.c:452-459 | The message has the direction xor the inversion flag, at the last step clock |
| `StepQueue.StepCompress.FlushFar` | chelper/stepcompress.c:433-441 | A far step becomes a request emitted at its own clock |
| `StepQueue.StepCompress.Enqueue` | chelper/stepcompress.c:473-474 | A step joins the queue as a request on the current pin |
| `StepQueue.StepCompress.EnqueueNext` | chelper/stepcompress.c:517-534 | The pending step does, and is no longer pending |
| `StepQueue.StepCompress.QueueAppendFar` | chelper/stepcompress.c:462-476 | The pending step becomes the next request; commands go out only as long as it is CLOCK_DIFF_MAX or more past the last step; net position conserved |
| `StepQueue.StepCompress.QueueAppendExtend` | chelper/stepcompress.c:478-515 | The same when the buffer is full: nothing goes out up to 67535 queued steps, and beyond that just enough that at most 65535 stay queued |
| `StepQueue.QueuedClock` | chelper/stepcompress.c:484-486 | The clock to flush to, from the low 32 bits of a queued step, is that step's clock |
| `StepQueue.StepCompress.QueueAppend` | chelper/stepcompress.c:517-534 | The pending step becomes the next request on its own pin, by whichever path; net position conserved |
| `StepQueue.StepCompress.Append` | chelper/stepcompress.c:538-566 | A step and its reversal within the filter time cancel; otherwise the earlier pending step is requested and this one is pending; net position changes by exactly one step, except that step clock 0 is lost; the history stays a record if the first step after a reset comes after its end |
| `StepQueue.StepCompress.Commit` | chelper/stepcompress.c:568-575 | The pending step, if any, becomes a request |
| `StepQueue.StepCompress.Flush` | chelper/stepcompress.c:577-587 | A pending step is requested exactly when the clock has reached it; net position conserved |
| `StepQueue.StepCompress.Reset` | chelper/stepcompress.c:589-600 | Everything goes out, then tracking restarts at any given clock, even one before recorded steps, with the direction unknown; net position conserved, and the history stays a record |
| `StepQueue.StepCompress.Restart` | chelper/stepcompress.c:589-600 | The restart itself, with nothing queued or pending |
| `StepQueue.StepCompress.CountAnew` | chelper/stepcompress.c:589-600 | Counting positions may start anew at any time |
| `StepQueue.StepCompress.SetLastPosition` | chelper/stepcompress.c:602-619 | Everything goes out, the declared position becomes the net position, and the whole new history is a marker in front of the old; it stays a record, whatever the marker's clock |
| `StepQueue.StepCompress.Mark` | chelper/stepcompress.c:602-619 | The marker itself |
| `StepQueue.StepCompress.EndHoming` | internal/pkg/mcu/stepper_position.go:39-62 | Reset to clock 0, declared position, lookup, with the report at any clock, also before steps generated ahead of the trigger: a trigger from the report on is answered by the report, one before it by the steps recorded before, which is the signed count of the pulses made by then; the object is at clock 0 with nothing queued |
| `StepQueue.StepCompress.SetInvertSdir` | chelper/stepcompress.c:293-303 | The net position is kept if and only if the flag does not change or nothing is queued; otherwise it moves by twice the queued steps |
| `StepQueue.StepCompress.HistoryExpire` | chelper/stepcompress.c:319-324 | Exactly the entries over by the clock are dropped from the old end; the history stays a record, of the same pulses if none of theirs went |
| `StepQueue.StepCompress.PastPosition` | chelper/stepcompress.c:621-648 | The lookup on the object's own history is the reference answer, and since the last reset or marker the start position plus the signed replayed pulses at or before the clock |
| `StepQueue.CountedIsLookup` | chelper/stepcompress.c:621-648 | A lookup since counting began is the start position plus the signed pulses by that clock |
| `StepQueue.InversionMovesPosition` | chelper/stepcompress.c:293-303 | One queued step up and a change of the inversion flag: the net position goes from 1 to -1 |
| `StepperSync.RootIsLeast` | chelper/steppersync.c:92-115 | The root of the heap is its least release clock |
| `StepperSync.FillHole` | chelper/steppersync.c:103-106 | Filling the hole restores heap order when both children are no earlier |
| `StepperSync.MoveUp` | chelper/steppersync.c:107-113 | Moving the lesser child up moves the hole down and keeps the rest in order |
| `StepperSync.HeapReplace` | chelper/steppersync.c:94-115 | In place: heap order is kept and exactly the root is exchanged for the new clock |
| `StepperSync.LedgerAppend` | chelper/steppersync.c:152-159 | Assigning one more slot gives away one held clock and takes the new release |
| `StepperSync.LateReleasesHeld` | chelper/steppersync.c:152-159 | If all slots were handed out by t, every release after t is still in the heap |
| `StepperSync.InFlightCounts` | chelper/steppersync.c:152-159 | Commands in the move queue at t are the releases after t |
| `StepperSync.MoveQueueSafe` | chelper/steppersync.c:117-172 | At every clock at most num_move_clocks transmitted commands have not freed their slot, for any order of release clocks |
| `StepperSync.HeldFit` | chelper/steppersync.c:152-159 | No more releases lie after t than there are slots |
| `StepperSync.SentCommandsSafe` | chelper/steppersync.c:152-169 | The same for the messages handed over, sent in order and no earlier than the min clock each was given |
| `StepperSync.FindLowest` | chelper/steppersync.c:134-148 | The first stepper whose next message has the lowest request clock below MAX_CLOCK, or none |
| `StepperSync.MergeStep` | chelper/steppersync.c:130-164 | Taking the lowest front keeps the batch ascending and below everything queued |
| `StepperSync.TakeMerges` | chelper/steppersync.c:130-164 | Taking the lowest message keeps the batch in order and due, and shortens what is queued |
| `StepperSync.MergedBatch` | chelper/steppersync.c:130-164 | The batch is in request order as it is sent, and every message left is past the move clock, when each stepper's own messages are in order |
| `StepperSync.AllWait` | chelper/steppersync.c:149-150 | If the lowest message is past the move clock, or there is none, all that waits is past it |
| `StepperSync.TakeInOrder` | chelper/steppersync.c:161-163 | Taking one message keeps each stepper's messages in its own order, none lost or repeated |
| `StepperSync.TakeLeaves` | chelper/steppersync.c:161-163 | What is left was queued before, and so was what was taken |
| `StepperSync.SlotSync.constructor` | chelper/steppersync.c:35-54 | All slots start free |
| `StepperSync.SlotSync.QueueMessage` | chelper/stepcompress.c:390-394 | A message joins its stepper's queue |
| `StepperSync.SlotSync.AssignSlot` | chelper/steppersync.c:152-157 | The slot given out is the earliest one; a move puts its release in its place |
| `StepperSync.SlotSync.TakeOne` | chelper/steppersync.c:152-163 | The batched message is the queued one with its min clock replaced by the slot's |
| `StepperSync.SlotSync.TakeLowest` | chelper/steppersync.c:134-163 | One round of the merge, or the proof that all that waits lies past the move clock |
| `StepperSync.SlotSync.Flush` | chelper/steppersync.c:118-172 | The merge: batches in request order, each taken message queued before and due, the next message of each stepper past the move clock, and all of them when each stepper's are in order; slots accounted for across any number of flushes |
| `MsgBlock.WordOfValue` | chelper/stepcompress.c:387-389 | The 32-bit word of a number has that value, byte by byte |
| `MsgBlock.StepDivides` | chelper/msgblock.c:22-28 | One bytewise step is eight steps of division by x^16 + x^12 + x^5 + 1, low bit first |
| `MsgBlock.CrcIsRemainder` | chelper/msgblock.c:17-31 | The CRC of a buffer is the remainder of that division, from a register of ones |
| `MsgBlock.Crc16Ccitt` | chelper/msgblock.c:17-31 | The loop computes that remainder |
| `MsgBlock.CrcStepInjective` | chelper/msgblock.c:23-29 | One CRC step is injective in the data byte and in the state |
| `MsgBlock.CrcDetects` | chelper/msgblock.c:18-31 | Changing any one byte always changes the CRC |
| `MsgBlock.Check` | chelper/msgblock.c:33-69 | A block found has a legal length within the buffer; bytes discarded are in the buffer; more data is asked for only below 64 bytes |
| `MsgBlock.Resync` | chelper/msgblock.c:60-68 | Always discards at least one byte |
| `MsgBlock.FindSync` | chelper/msgblock.c:62 | The first sync byte, or the length |
| `MsgBlock.FrameChecks` | chelper/serialqueue.c:489-496 | A framed payload passes the check at its full length, whatever follows it |
| `MsgBlock.TrailerDetects` | chelper/msgblock.c:51-57 | Changing any byte after the length byte spoils the trailer |
| `MsgBlock.CorruptionRejected` | chelper/msgblock.c:33-69 | Changing any one byte other than the length byte is always rejected |
| `MsgBlock.EncodedFolds` | chelper/msgblock.c:71-102 | For each of the five lengths the encoded bytes are marked right and fold back to the value |
| `MsgBlock.ParseEncoded` | chelper/msgblock.c:71-102 | Parsing undoes encoding for every 32-bit value, whatever follows |
| `MsgBlock.EncodedShortest` | chelper/msgblock.c:71-102 | No sequence of bytes that parses to a number is shorter than its encoding |
| `MsgBlock.AllocAndEncode` | chelper/msgblock.c:145-164 | The message is the concatenated encodings, or empty when they exceed the payload limit |
| `MsgBlock.Decode` | chelper/msgblock.c:104-119 | The nested loops compute the recursive reference, including the failures for too few and for trailing bytes |
| `MsgBlock.DecodeNext` | chelper/msgblock.c:107-114 | One integer more of the recursive reference |
| `MsgBlock.DecodeEncoded` | chelper/msgblock.c:104-119 | Decoding undoes encoding for every list |
| `MsgBlock.CodecRoundTrip` | chelper/serialqueue.c:489-496 | Any list that fits a payload survives encoding, framing, checking and decoding |
| `MsgBlock.ByteOfValue` | chelper/msgblock.c:42-44 | The length byte reads back as the length written |
| `FrameReader.Rest` | chelper/serialqueue.c:342-360 | Draining leaves at most 63 bytes buffered |
| `FrameReader.BytesAccounted` | chelper/serialqueue.c:342-360 | Every byte is in a handled block, discarded, or still buffered, exactly once |
| `FrameReader.BlocksLong` | chelper/serialqueue.c:348-353 | Every block handed over has at least the minimum length |
| `FrameReader.CheckAppend` | chelper/msgblock.c:33-69 | A block found stays found and an error stays an error when more data follows |
| `FrameReader.BlocksAfterSync` | chelper/msgblock.c:60-68 | Searching for a sync byte finds the blocks behind it, or none |
| `FrameReader.BlocksAppend` | chelper/serialqueue.c:342-360 | Draining a buffer, then its rest with more data, finds what draining all of it would |
| `FrameReader.ChunksDoNotMatter` | chelper/serialqueue.c:313-361 | The blocks handled depend only on the byte stream, not on how reads split it, garbage included |
| `FrameReader.FrameWhole` | chelper/serialqueue.c:489-496 | A framed payload is a whole block |
| `FrameReader.WrittenComesOut` | chelper/serialqueue.c:342-360 | Whole blocks written one after the other come out as written, and the reader goes on behind them |
| `FrameReader.FoundAfterSync` | chelper/serialqueue.c:412-423 | A reader that lost sync finds every block of a resend, which begins with a sync byte, whatever it discarded before that byte |
| `FrameReader.RestNeedsMore` | chelper/serialqueue.c:342-346 | What is left holds no complete block |
| `FrameReader.Reader.constructor` | chelper/serialqueue.c:45-52 | Starts empty and in sync |
| `FrameReader.Reader.InputEvent` | chelper/serialqueue.c:340-361 | The loop ends, hands over exactly the blocks of old buffer plus data, and accounts for every byte |
| `SerialLink.TakeAckOk` | chelper/serialqueue.c:179-201 | Removing acked blocks, or the jump at connection start, keeps window, byte count and timing |
| `SerialLink.HandleOk` | chelper/serialqueue.c:237-283 | Any message, valid or stale, keeps: unacked blocks = send_seq - receive_seq, at most 12, need_ack_bytes their sum, timing facts, rto in range, and a pending immediate resend only past the naks to ignore |
| `SerialLink.RetransmitOk` | chelper/serialqueue.c:412-441 | Sending everything again keeps them too |
| `SerialLink.BuildOk` | chelper/serialqueue.c:498-513 | So does a new block while the window is open |
| `SerialLink.RetransmitFits` | chelper/serialqueue.c:412-422 | The retransmit buffer always suffices |
| `SerialLink.SampleNotRetransmitted` | chelper/serialqueue.c:204-225 | A round trip sample never comes from a block sent more than once (section 3 of RFC 6298) |
| `SerialLink.SampleTaken` | chelper/serialqueue.c:203-225 | A live ack past the block being timed is a sample, from the time of the last block it acknowledges; any other ack leaves the estimate alone |
| `SerialLink.TimesOldest` | chelper/serialqueue.c:508-509 | A block is timed if none was, and stays the one timed while more are built |
| `SerialLink.EstimateCloses` | chelper/serialqueue.c:211-215 | A later sample closes an eighth of the estimate's gap to it, and a quarter of the variation's gap to its deviation (section 2.3 of RFC 6298) |
| `SerialLink.EstimateStarts` | chelper/serialqueue.c:208-210 | The first sample sets both, ten times and half of it |
| `SerialLink.EstimateTimeout` | chelper/serialqueue.c:216-223 | The timeout allows for four times the variation unless cut to MAX_RTO, and is no longer than that or the least margin asks |
| `SerialLink.SteadySamples` | chelper/serialqueue.c:207-215 | Over any number of equal samples the estimate never crosses them, and its error is (7/8)^n of the first |
| `SerialLink.TimeoutsDouble` | chelper/serialqueue.c:426-438 | Over any number of timeouts in a row the timeout is 2^n times the first, up to MAX_RTO; a resend for a nak leaves it |
| `SerialLink.LiveAckNotes` | chelper/serialqueue.c:189-200 | The time and size noted are those of the last block acknowledged |
| `SerialLink.RoomLeft` | chelper/serialqueue.c:516-531 | The window is open exactly while fewer than 12 blocks are pending |
| `SerialLink.AskedByNaks` | chelper/serialqueue.c:275-282 | An ack for new blocks leaves no immediate resend pending; a repeated empty ack above ignore_nak_seq with blocks pending always asks for one; any other message leaves the request as it was |
| `SerialLink.SecondAckIsNak` | chelper/serialqueue.c:275-282 | Of two equal empty acks the first asks for nothing, and the second for a resend if and only if blocks are left and its number is above ignore_nak_seq |
| `SerialLink.Clamp` | chelper/serialqueue.c:219-223 | The timeout lies within MIN_RTO and MAX_RTO |
| `SerialLink.LiveAckExact` | chelper/serialqueue.c:242-255 | Four bits decode exactly for every live ack |
| `SerialLink.StaleAckRejected` | chelper/serialqueue.c:246-253 | After connection start, an ack stale by k is rejected if and only if 16 - k exceeds the unacked blocks |
| `SerialLink.SendBlockOk` | chelper/serialqueue.c:489-514 | Sending keeps the link in order |
| `SerialLink.ResendOk` | chelper/serialqueue.c:412-441 | So does sending everything again |
| `SerialLink.PeerReceivesOk` | chelper/serialqueue.c:492 | A block with the expected four bits is the expected block |
| `SerialLink.PeerReportsOk` | chelper/serialqueue.c:275-282 | A message the peer sends unasked keeps the link in order, although the host may take it for a nak |
| `SerialLink.HostReceivesOk` | chelper/serialqueue.c:237-256 | An ack removes exactly the blocks the peer has |
| `SerialLink.StepOk` | chelper/serialqueue.c:176-514 | Every step of host, peer and line, which may lose any block or ack, keeps the link in order |
| `SerialLink.DeliveredInOrder` | chelper/serialqueue.c:176-514 | In every run the blocks accepted are a prefix of the blocks built: none lost, repeated or reordered |
| `SerialLink.ResentStep` | chelper/serialqueue.c:426-440 | No step of host, peer or line lets naks ask for a second resend before the blocks of the first are acknowledged |
| `SerialLink.AtMostOneMore` | chelper/serialqueue.c:426-440 | So over any run: after a resend of the blocks before a number, naks cause at most one more resend until receive_seq passes it, and none once they are ignored up to it |
| `SerialLink.NaksSuppressed` | chelper/serialqueue.c:426-440 | After a resend for a nak, naks cause at most one more until receive_seq passes its retransmit_seq; after a resend on timeout they cause none |
| `SerialLink.ConnectedOk` | chelper/serialqueue.c:656-665 | Both ends starting in sync are in order |
| `SerialQueue.SerialQueue.constructor` | chelper/serialqueue.c:656-665 | The initial link state |
| `SerialQueue.PopAcked` | chelper/serialqueue.c:179-201 | The loop pops as many blocks as are acknowledged, or all, and sums their bytes |
| `SerialQueue.SerialQueue.RemoveAcked` | chelper/serialqueue.c:179-201 | The loop over the sent queue removes exactly the acked blocks, or restarts the numbering |
| `SerialQueue.SerialQueue.UpdateRtt` | chelper/serialqueue.c:207-224 | The estimate of section 2 of RFC 6298 with a clamped timeout |
| `SerialQueue.SerialQueue.UpdateReceiveSeq` | chelper/serialqueue.c:176-234 | Both together; a pending immediate retransmit is cancelled |
| `SerialQueue.SerialQueue.HandleMessage` | chelper/serialqueue.c:237-283 | A sequence number not sent is counted as invalid bytes and changes nothing; anything else is read, acked or taken as a nak; all invariants kept |
| `SerialQueue.SerialQueue.NoteAcknowledged` | chelper/serialqueue.c:275-282 | The ack numbers and the request for a resend become those of the handler, of which AskedByNaks says when a resend is asked for and NaksSuppressed how often |
| `SerialQueue.SerialQueue.HandleBlocks` | chelper/serialqueue.c:342-360 | The link state is the handler folded over the blocks in order; each byte of them counts as read, if not rejected then, or as invalid |
| `SerialQueue.HandleNext` | chelper/serialqueue.c:342-360 | One block more of that fold |
| `SerialQueue.InputEvent` | chelper/serialqueue.c:313-361 | Reading, draining and processing: the link state is the handler folded over the blocks found, and every byte is counted once, as read, as invalid, or as still buffered |
| `SerialQueue.SerialQueue.RetransmitEvent` | chelper/serialqueue.c:401-447 | The bytes written are a sync byte and every pending block in order, within the buffer |
| `SerialQueue.SerialQueue.PendingBytes` | chelper/serialqueue.c:412-422 | The copying loop |
| `SerialQueue.SerialQueue.NoteRetransmit` | chelper/serialqueue.c:426-441 | Ignored naks, doubled timeout, and no sample in flight |
| `SerialQueue.SerialQueue.BuildAndSend` | chelper/serialqueue.c:489-531 | The block is the frame of the payload under the next number; window and receive window respected, in which the last block acknowledged also counts until its empty ack has come |
| `SerialQueue.SerialQueue.StoreBlock` | chelper/serialqueue.c:498-513 | Numbers and stores a block, timing it if none is timed |
| `SerialQueue.SendsWhileRoom` | chelper/serialqueue.c:516-531 | A block may be sent if and only if fewer than 12 are pending, and nothing is pending, the receive window is unlimited, or the largest block would fit beside the pending ones and the last one acknowledged if its empty ack has not come |
| `SerialQueue.FrameNumber` | chelper/serialqueue.c:489-496 | The low sequence bits read from a block are those it was numbered with |
| `CommandQueues.ReleasedSplits` | chelper/serialqueue.c:539-553 | Releasing keeps order; what it adds is due, what is left at the front is not |
| `CommandQueues.AdvanceOk` | chelper/serialqueue.c:549-552 | Moving one message keeps pending list, order and both byte sums |
| `CommandQueues.AdvanceInTime` | chelper/serialqueue.c:545-552 | A message released at a clock was due by then |
| `CommandQueues.TakeInTime` | chelper/serialqueue.c:474-479 | Taking a message keeps the clock it was released at |
| `CommandQueues.PickNext` | chelper/serialqueue.c:453-479 | One more pick of the lowest ready head, and what it leaves |
| `CommandQueues.TakeOk` | chelper/serialqueue.c:474-479 | Taking one message keeps them, and a queue leaves the pending list exactly when it becomes empty |
| `CommandQueues.TakeInOrder` | chelper/serialqueue.c:474-478 | What left a queue, then its ready, then its stalled messages, is all it was given, in order |
| `CommandQueues.DropPending` | chelper/serialqueue.c:475-476 | Unlinking an emptied queue keeps the pending list exact |
| `CommandQueues.BatchJoins` | chelper/serialqueue.c:806-813 | A batch at the end of a queue keeps order and adds its bytes |
| `CommandQueues.Adjust` | chelper/serialqueue.c:797-802 | The min clock becomes the least one, not below its own, that is within the 31-bit horizon of the request clock; background messages and everything else stay as they are |
| `CommandQueues.AdjustBatch` | chelper/serialqueue.c:794-805 | The loop adjusts every message and counts its bytes |
| `CommandQueues.Scheduler.constructor` | chelper/serialqueue.c:667-673 | No queue pending |
| `CommandQueues.Scheduler.SendBatch` | chelper/serialqueue.c:789-813 | The adjusted batch is stalled at the end of its queue; a batch without bytes changes nothing |
| `CommandQueues.Scheduler.ReleaseQueue` | chelper/serialqueue.c:540-553 | The loop releases exactly the due prefix of one queue |
| `CommandQueues.Scheduler.ReleaseReady` | chelper/serialqueue.c:538-553 | Every queue is released |
| `CommandQueues.Scheduler.PickLowest` | chelper/serialqueue.c:456-470 | The pick has the lowest request clock among ready heads; the earliest pending queue wins a tie |
| `CommandQueues.Scheduler.TakeReady` | chelper/serialqueue.c:474-479 | The head of that queue and nothing else leaves |
| `CommandQueues.Scheduler.BuildBlock` | chelper/serialqueue.c:450-496 | The payload is the taken messages in order, at most 59 bytes, each the lowest ready head when it was taken, and it stops only when nothing is ready or the lowest does not fit |
| `Transmission.PackedFits` | chelper/stepcompress.c:386-394 | A packed step message is neither empty nor too long for a block, and keeps its clocks; a direction message asks for no slot |
| `Transmission.PackedAscend` | chelper/stepcompress.c:391-394 | What a stepper emits since a reset is in the order the merge relies on |
| `Transmission.FromInTime` | chelper/serialqueue.c:539-553 | The messages of one queue were all released in time |
| `Transmission.SentFirst` | chelper/serialqueue.c:474-478 | What a queue has sent is the first of what it was given |
| `Transmission.MoveQueueNeverOverfilled` | chelper/serialqueue.c:538-553 | With what the scheduler sent, at clocks no earlier than it released it and in order, at most num_move_clocks commands have arrived and not freed their slot |
| `Transmission.BatchAcceptable` | chelper/steppersync.c:166-168 | What a flush adds may be sent, and is not without bytes |
| `Transmission.FlushAndSend` | chelper/steppersync.c:128-168 | The batch goes to the command queue, which has always been given exactly what the sync sent |
| `Transmission.ReleaseAndBuild` | chelper/serialqueue.c:450-553 | Releasing and building a block keep that link |
| `Transmission.LinkedSafe` | chelper/steppersync.c:117-172 | In every state of the two, the move queue is never over-filled |
| `StepReader.FieldsEncoded` | chelper/msgblock.c:71-102 | Reading integers one by one gives back those encoded, whatever follows them |
| `StepReader.WordReads` | internal/pkg/mcu/stepper_config_setup.go:21-22 | A word read as 32, 16 or 8 bits unsigned, or as 16 bits signed, is the number it was made from, if that fits |
| `StepReader.ReadsAsMeant` | internal/pkg/mcu/stepper_config_setup.go:21-22 | A packed message, read by position in the declared widths with whatever follows it, tells the stepper of its oid to make the steps, or set the direction, that was meant |
| `StepReader.ReplayUnscheduled` | chelper/stepcompress.c:7-13 | What is executed does not depend on the clocks a message was scheduled by |
| `StepReader.ObeysOwn` | internal/pkg/mcu/stepper_config_setup.go:21-22 | A stepper obeys its own messages and no others |
| `StepReader.ReceivedOwn` | internal/pkg/mcu/stepper_config_setup.go:21-22 | So of all messages of a group those it obeys are what it emitted, in order, as far as they go |
| `SyncFlush.QueueEmitted` | chelper/stepcompress.c:386-394 | All that a stepper emitted joins its queue, in order |
| `SyncFlush.FlushStepper` | chelper/steppersync.c:121-125 | One stepper is flushed to the clock and keeps its requests, position and record |
| `SyncFlush.FlushSteppers` | chelper/steppersync.c:121-126 | So is every stepper, without failing |
| `SyncFlush.QueueAscends` | chelper/stepcompress.c:391-394 | What waits of a stepper is in request order, if all it emitted before its last reset has been handed over |
| `SyncFlush.GroupMerges` | chelper/steppersync.c:130-164 | So the messages of a group can be merged in order |
| `SyncFlush.ExpireHistory` | chelper/steppersync.c:87-88 | What is left of a history is not over by the clock, and stays a record |
| `SyncFlush.ExpireHistories` | chelper/steppersync.c:80-90 | So for every stepper |
| `SyncFlush.Flush` | chelper/steppersync.c:117-172 | The whole flush: nothing fails, every stepper is flushed and keeps its requests, position and record, what is left waiting lies past the clock, the batch is in request order when no stepper has messages from before its reset waiting, and sync and scheduler stay linked |
| `SyncFlush.StartsGrouped` | chelper/steppersync.c:35-54 | New steppers, sync and scheduler are in order |
| `SyncFlush.Step` | chelper/stepcompress.c:538-566 | A step of any stepper keeps the group in order, whatever it makes the stepper emit |
| `SyncFlush.Commit` | chelper/itersolve.c:95-105 | So does committing its pending step |
| `SyncFlush.Restart` | chelper/stepcompress.c:589-600 | So does a reset, which conserves the position |
| `SyncFlush.Declare` | chelper/stepcompress.c:602-619 | So does a declared position |
| `SyncFlush.SentBodies` | chelper/steppersync.c:152-169 | What is sent has the bodies that were queued; only min clocks change |
| `SyncFlush.ShareLeft` | chelper/steppersync.c:161-169 | A stepper's share of what has left is the first of what it queued |
| `SyncFlush.LeftInOrder` | chelper/steppersync.c:117-172 | Of any first messages put in blocks, those of a stepper are the first it emitted, in its own order |
| `SyncFlush.ReadingMakesFirst` | internal/pkg/mcu/stepper_config_setup.go:21-22 | Executing what a stepper read since its reset makes the first pulses requested of it |
| `SyncFlush.LeftShared` | chelper/steppersync.c:117-172 | Every message put in blocks is one of a stepper's, and each stepper's are the first it emitted |
| `SyncFlush.ReplayPrefix` | chelper/stepcompress.c:7-13 | Executing fewer messages makes the first of the same pulses |
| `SyncFlush.FirstPulsesMade` | chelper/stepcompress.c:379-431 | Executing the first messages since a reset makes the first requested pulses |
| `SyncFlush.ExecutedAsRequested` | chelper/steppersync.c:117-172 | In every state, and for any first messages put in blocks: the messages of the group that a stepper reads as its own are the first it emitted, and executing what it read since its reset makes the first pulses requested, each on its pin, never late, early by at most max_error |
| `Delivery.CarriesNext` | chelper/serialqueue.c:450-514 | One more block carries the next messages taken |
| `Delivery.BlockReads` | chelper/serialqueue.c:489-496 | A block passes the check and its payload is its messages, one after the other |
| `Delivery.BuildAndSend` | chelper/serialqueue.c:450-531 | Scheduler and link together: the block built holds exactly the messages taken, under the next number |
| `Delivery.OthersBuildNothing` | chelper/serialqueue.c:401-447 | Nothing else adds a block |
| `Delivery.DeliveredFirst` | chelper/serialqueue.c:176-514 | The blocks the peer has accepted hold exactly the first messages taken |
| `Delivery.DeliveredAsRequested` | chelper/steppersync.c:117-172 | End to end over the lossy link, in every state: each stepper reads from the bodies in accepted blocks the first messages it emitted and no others, and executing what it read since its reset makes the first pulses requested, each on its pin, never late, early by at most max_error |
| `TrDispatch.Clock32Exact` | chelper/msgblock.c:190-195 | A clock within 2^31 of the last known is recovered exactly from its low 32 bits, across wrap-around |
| `TrDispatch.ClockComesBack` | chelper/msgblock.c:197-209 | A clock within 2^63 of the base of the estimate comes back from its time if and only if it is not before the base, and one tick later otherwise |
| `TrDispatch.ClockBeforeBase` | chelper/msgblock.c:204-209 | A concrete clock one tick before the base that comes back as the base |
| `TrDispatch.MinExceptIsMin` | chelper/trdispatch.c:94-109 | The reference minimum of the others is a lower bound and attained |
| `TrDispatch.TwoLeast` | chelper/trdispatch.c:94-109 | One pass gives, for each microcontroller, the least time acknowledged by the others |
| `TrDispatch.ExtensionAdvances` | chelper/trdispatch.c:111-119 | A timeout stays or advances by min_extend_ticks if and only if the target is not behind it, or so far behind that the unsigned comparison refuses it |
| `TrDispatch.ExtensionCanGoBack` | chelper/trdispatch.c:115 | A concrete target one tick behind the timeout that is sent and moves it back |
| `TrDispatch.TimeoutsPastOthers` | chelper/trdispatch.c:111-119 | With two or more microcontrollers every extension is expire_ticks past the least time acknowledged by all the others |
| `TrDispatch.TimeoutsPastOtherClocks` | chelper/trdispatch.c:94-119 | In clocks: of microcontrollers that share an estimate, each extension is exactly expire_ticks past the least status clock of the others, one tick more if that clock is before the base of the estimate |
| `TrDispatch.EarlierClock` | chelper/trdispatch.c:98 | With one estimate, times are in the order of their clocks |
| `TrDispatch.TimeoutsOnly` | chelper/trdispatch.c:111-119 | Extending sends nothing but timeouts |
| `TrDispatch.LeastOfOthers` | chelper/trdispatch.c:94-109 | The two minima give each microcontroller the least of the others |
| `TrDispatch.LaterTarget` | chelper/trdispatch.c:111-114 | A later acknowledged time gives no earlier timeout, within 64 bits |
| `TrDispatch.LaterMin` | chelper/trdispatch.c:94-109 | Later acknowledged times give no earlier least of the others |
| `TrDispatch.ReportSettles` | chelper/trdispatch.c:90-119 | After any report no timeout is past what the others allow, even one that moved back; from such a state extensions only advance |
| `TrDispatch.HeardSettled` | chelper/trdispatch.c:90-92 | A report of a later clock keeps that |
| `TrDispatch.RunAdvances` | chelper/trdispatch.c:61-123 | From such a state timeouts only advance, over any run of reports that do not fall |
| `TrDispatch.AdvanceFromFirstReport` | chelper/trdispatch.c:61-123 | Whatever the timeouts were set to, from the first report on they only advance, between any two points of such a run with fixed clock estimates |
| `TrDispatch.TwoReport` | chelper/trdispatch.c:90-119 | The extensions sent in the example of two microcontrollers |
| `TrDispatch.TimeoutCanGoBack` | chelper/trdispatch.c:61-123 | Two microcontrollers, set up, started and reporting: the first is sent a timeout one tick behind the one it has |
| `TrDispatch.Dispatch.constructor` | chelper/trdispatch.c:164-179 | Inactive, nothing sent |
| `TrDispatch.Dispatch.Setup` | chelper/trdispatch.c:212-226 | Replaces one microcontroller's clocks, ticks and estimate |
| `TrDispatch.Dispatch.Start` | chelper/trdispatch.c:125-136 | Starts unless active or empty |
| `TrDispatch.Dispatch.Stop` | chelper/trdispatch.c:145-155 | Inactive afterwards |
| `TrDispatch.Dispatch.HandleTrsyncState` | chelper/trdispatch.c:61-123 | Ignored after a trigger or for another oid; a trigger is passed to every microcontroller exactly once and nothing follows it; otherwise all timeouts are extended past the others |
| `TrDispatch.Dispatch.SendTriggers` | chelper/trdispatch.c:80-87 | One trigger each, after extensions only |
| `TrDispatch.Dispatch.ExtendOne` | chelper/trdispatch.c:113-118 | One microcontroller's extension, sent exactly when the unsigned test passes |
| `TrDispatch.Dispatch.ExtendAll` | chelper/trdispatch.c:94-119 | All extensions, each from the least of the others |
| `TrapQ.AddMoveContiguous` | chelper/trapq.c:144-164 | Adding a move leaves the queue contiguous if and only if it was, and the move neither overlaps nor follows a real move at time 0 that is taken for the head sentinel |
| `TrapQ.GapLeftOpen` | chelper/trapq.c:154-158 | A concrete queue starting at time 0 where the filler leaves a gap |
| `TrapQ.AddMoveContinuous` | chelper/trapq.c:144-164 | Adding a move keeps positions joined if and only if they were and it starts where the last move ends, with or without a filler |
| `TrapQ.AddMovePositive` | chelper/trapq.c:150-162 | Fillers are never empty |
| `TrapQ.PhasesJoined` | chelper/trapq.c:23-69 | The phases follow each other in time and space from the given start |
| `TrapQ.VelocityIsSlope` | chelper/trapq.c:71-76 | The distance in a move changes at its velocity |
| `TrapQ.PhaseSpeeds` | chelper/trapq.c:33-68 | Acceleration joins the next phase in velocity if and only if it ends at the cruising velocity; cruising always joins; the last phase ends at cruise_v - accel * decel_t |
| `TrapQ.MeanVelocity` | chelper/trapq.c:71-76 | A move goes as far as its mean velocity takes it |
| `TrapQ.AddAllJoins` | chelper/trapq.c:33-68 | Only the first phase can need a filler |
| `TrapQ.AddAllContiguous` | chelper/trapq.c:33-68 | Adding phases keeps the queue contiguous if and only if the first may follow |
| `TrapQ.AddAllContinuous` | chelper/trapq.c:33-68 | Adding phases keeps positions joined if and only if the first starts where the last move ends |
| `TrapQ.PhasesAdded` | chelper/trapq.c:23-69 | Both for a whole trapezoid, and its moves take time |
| `TrapQ.ContiguousFrom` | chelper/trapq.c:166-187 | What is left of a contiguous queue is contiguous |
| `TrapQ.ArchiveExpired` | chelper/trapq.c:172-187 | Exactly the moves over by the time, in order; those that moved join the history newest first |
| `TrapQ.MovingLeavesStart` | chelper/trapq.c:182-186 | A move left out of the history never left its start, and any other did |
| `TrapQ.ArchivedPast` | chelper/trapq.c:172-187 | The history of finished moves has no overlap and ends where they do |
| `TrapQ.ClearHistory` | chelper/trapq.c:188-199 | The old end of the history goes while it is over, but never the latest move |
| `TrapQ.StartsAscend` | chelper/trapq.c:144-164 | A later move starts no earlier than an earlier one ends |
| `TrapQ.Queue.constructor` | chelper/trapq.c:91-104 | Empty, with both sentinels |
| `TrapQ.Queue.Add` | chelper/trapq.c:144-164 | The whole new queue, and when it is contiguous and positions are joined |
| `TrapQ.Queue.CheckSentinels` | chelper/trapq.c:123-140 | The tail sentinel follows the last move in time and space, and stays at rest |
| `TrapQ.Queue.ExpireMoves` | chelper/trapq.c:172-187 | Exactly the moves up to the first unexpired one go to the history; contiguity kept |
| `TrapQ.Queue.FinalizeMoves` | chelper/trapq.c:166-199 | The same with the old history cleared; the history lies before the queue without overlap |
| `TrapQ.Queue.Append` | chelper/trapq.c:23-69 | The phases that take time are added, and when the result is contiguous and positions are joined |
| `Shaper.FindMove` | chelper/kin_shaper.c:80-87 | The two walks end at a move that holds the absolute time |
| `Shaper.PositionUnique` | chelper/kin_shaper.c:77-89 | Two moves that hold one time give one position, where moves join in space |
| `Shaper.PositionAcrossMoves` | chelper/kin_shaper.c:77-89 | The trajectory position at the absolute time, from whichever move it is asked |
| `Shaper.PositionAtPulse` | chelper/kin_shaper.c:91-103 | The position at one pulse's time, the unique one where the queue is continuous |
| `Shaper.CalcPosition` | chelper/kin_shaper.c:91-103 | The weighted sum of the positions at the pulses' times; pulses of weight 1 and moment 0 give the unshaped position of motion that is steady where they fall |
| `Shaper.PositionsKeepSteady` | chelper/kin_shaper.c:91-103 | That weighted sum is the position at the pulses' centre, for steady motion |
| `Shaper.ShiftedSums` | chelper/kin_shaper.c:30-39 | Shifting keeps the weights and moves the moment by the shift times their sum |
| `Shaper.ShiftNormalised` | chelper/kin_shaper.c:28-39 | Shifting by the moment leaves none, when the weights add up to 1 |
| `Shaper.Normalises` | chelper/kin_shaper.c:48-57 | Weights divided by their total add up to 1, in reverse order |
| `Shaper.ShaperKeepsConstantVelocity` | chelper/kin_shaper.c:28-39 | Pulses of weight 1 and moment 0 leave motion unchanged that has constant velocity where they fall, whatever the rest of the queue does |
| `Shaper.Sum` | chelper/kin_shaper.c:49-51 | The loop sums the weights |
| `Shaper.Midpoint` | chelper/kin_shaper.c:31-34 | The loop sums the weighted times |
| `Shaper.ShaperPulses.constructor` | chelper/kin_shaper.c:21-26 | No pulses |
| `Shaper.ShaperPulses.ShiftPulses` | chelper/kin_shaper.c:30-39 | In place, every pulse moves by the weighted mid-point |
| `Shaper.ShaperPulses.InitShaper` | chelper/kin_shaper.c:41-61 | Rejects a bad count; otherwise, unless the amplitudes add up to 0, weights add up to 1, moment 0, pulses reversed |
| `Shaper.ShaperPulses.Shape` | chelper/kin_shaper.c:91-103 | After InitShaper, the shaped position of motion steady where the pulses fall is the unshaped one |
| `Shaper.ShaperPulses.FillReversed` | chelper/kin_shaper.c:52-57 | In place, reversed and scaled |
| `PressureAdvance.IntegralIsWeighted` | chelper/kin_extruder.c:28-73 | The two closed forms together are the exact integral (Simpson's rule for a cubic) of the motion weighted by the time since the offset |
| `PressureAdvance.IntegralsAreSimpson` | chelper/kin_extruder.c:28-51 | Each closed form is the exact integral it claims to be |
| `PressureAdvance.LeverLater` | chelper/kin_extruder.c:28-73 | Moving the origin of time moves the integrals with it |
| `PressureAdvance.IntegrateIsPiece` | chelper/kin_extruder.c:53-73 | The clipped integral of a move is its share of the window |
| `PressureAdvance.PieceCut` | chelper/kin_extruder.c:53-73 | Cutting a move in two at an interior time leaves its share unchanged, accelerating or not |
| `PressureAdvance.CutInvariant` | chelper/kin_extruder.c:75-102 | So for the whole window over any queue |
| `PressureAdvance.CutKeepsPosition` | chelper/kin_extruder.c:109-121 | Cutting any move changes no smoothed position |
| `PressureAdvance.LinePieces` | chelper/kin_extruder.c:75-102 | On a line the shares of contiguous moves telescope |
| `PressureAdvance.SmoothedShift` | chelper/kin_extruder.c:82-98 | Measuring from another base position changes the integral by that position times the window's weight |
| `PressureAdvance.PiecesWithin` | chelper/kin_extruder.c:85-100 | Moves the window does not reach contribute nothing |
| `PressureAdvance.SliceSmoothed` | chelper/kin_extruder.c:85-100 | The smoothed integral over a queue is that over the moves the window reaches |
| `PressureAdvance.EarlierMove` | chelper/kin_extruder.c:87-93 | What one round of the backward walk adds |
| `PressureAdvance.LaterMove` | chelper/kin_extruder.c:95-100 | What one round of the forward walk adds |
| `PressureAdvance.IntegrateEarlier` | chelper/kin_extruder.c:85-93 | The backward walk adds exactly the earlier moves' shares |
| `PressureAdvance.IntegrateLater` | chelper/kin_extruder.c:94-100 | The forward walk adds exactly the later moves' shares |
| `PressureAdvance.PaRangeIntegrate` | chelper/kin_extruder.c:75-102 | The walk from any move computes the triangular integral over the whole queue |
| `PressureAdvance.ExtruderCalcPosition` | chelper/kin_extruder.c:109-121 | The position is the triangular average, the same from whichever move it is measured; without smoothing, the nominal position |
| `PressureAdvance.ConstantVelocityPosition` | chelper/kin_extruder.c:15-26 | Where the moves the window reaches have constant velocity, whatever the rest of the queue does, the result is nominal position + pressure_advance * velocity, or the nominal position if they do not extrude along the axis that advances |
| `StepWindows.ClipHolds` | chelper/itersolve.c:34-38 | The clipped range holds exactly the instants of the move within the given times |
| `StepWindows.InactiveStands` | chelper/itersolve.c:135-143 | A move that is not active never takes a flagged axis off the position it starts at |
| `StepWindows.ActiveDisplaces` | chelper/itersolve.c:135-143 | An active move takes some flagged axis off it, at every time with a distance to go |
| `StepWindows.DisplacedWanted` | chelper/itersolve.c:135-143 | So every instant of a move in which a flagged axis moves is wanted |
| `StepWindows.StandsAcross` | chelper/itersolve.c:135-212 | Across moves that join, flagged axes stand still between wanted instants |
| `StepWindows.DisplacedStepped` | chelper/itersolve.c:145-212 | Steps are generated at every instant of a move in which a flagged axis moves |
| `StepWindows.UnsteppedStands` | chelper/itersolve.c:145-212 | While none are generated, a flagged axis has the same position at both ends of the stretch |
| `StepWindows.BetweenUnwanted` | chelper/itersolve.c:146-212 | Between past activity and the window before the next, no instant wants steps |
| `StepWindows.PassInactive` | chelper/itersolve.c:192-206 | An inactive move: covered up to the post window, the rest pending |
| `StepWindows.NothingPending` | chelper/itersolve.c:162 | With nothing skipped, or no pre window, nothing before an active move is pending |
| `StepWindows.LeadUp` | chelper/itersolve.c:169-178 | The walk back and forth over skipped moves generates every instant from the start of the pre window |
| `StepWindows.LeadUpResolves` | chelper/itersolve.c:162-179 | That settles everything pending before the active move |
| `StepWindows.PassActive` | chelper/itersolve.c:180-191 | An active move is generated as far as the flush reaches |
| `StepWindows.StopInactive` | chelper/itersolve.c:207-208 | The walk may stop at an inactive move that ends past every window the flush can reach |
| `StepWindows.ActiveOwes` | chelper/itersolve.c:185-188 | Stopping at an active move, even one ahead of the flush, leaves a post window that is wanted |
| `StepWindows.SkipFinished` | chelper/itersolve.c:149-158 | Steps past exactly the moves that ended by the last flush |
| `StepWindows.WalkStarts` | chelper/itersolve.c:149-158 | The state kept between flushes is enough to start the next walk |
| `StepWindows.VisitActive` | chelper/itersolve.c:161-191 | One active move |
| `StepWindows.VisitInactive` | chelper/itersolve.c:192-206 | One inactive move |
| `StepWindows.Walk` | chelper/itersolve.c:146-212 | One flush: ranges in order within the two flush times, complete, and only where wanted; the state for the next flush is right |
| `StepWindows.FlushesJoin` | chelper/itersolve.c:146-212 | The ranges of successive flushes neither overlap nor leave gaps |
| `StepWindows.ExactlyWanted` | chelper/itersolve.c:146-212 | Past the first post window, an instant is generated if and only if it lies in an active move or its pre or post window |
| `StepWindows.ExtendedWanted` | chelper/itersolve.c:146-212 | Moves added in time make no instant before the last flush wanted, and unwant none |
| `StepWindows.ExtensionKeeps` | chelper/itersolve.c:146-212 | So all that was generated stays in order, complete and right |
| `StepWindows.Stepper.constructor` | chelper/itersolve.c:149-157 | Flushed up to time 0 |
| `StepWindows.Stepper.GenerateSteps` | chelper/itersolve.c:145-212 | Over any run of nondecreasing flushes: ranges in order and disjoint, every wanted instant covered, no other one generated, and so every instant of a move in which a flagged axis moves is covered |
| `StepWindows.Stepper.Extend` | chelper/trapq.c:144-164 | Between flushes moves join the queue, none active so soon that steps before the last flush would have been wanted |
| `StepWindows.SettledDone` | chelper/itersolve.c:146-212 | With its activity over, all that a queue will ever want has been generated, and nothing else |
| `StepWindows.RestartKeeps` | chelper/itersolve.c:149-158 | A queue that starts anew, wanting nothing before the last flush, needs nothing from the state kept |
| `StepWindows.Stepper.Restart` | chelper/trapq.c:144-164 | Moves join a queue that was emptied, behind a filler that need not reach back to its end; all before was generated, and the ranges stay in order |
| `StepWindows.Stepper.Finalize` | chelper/trapq.c:166-187 | Between flushes moves that are over leave the queue |

## Left out

- Floating-point rounding: trajectories and time estimates are exact reals, and `sqrt` is any function that squares back.
- The conversion of a print time to a step clock (`chelper/stepcompress.c:543-546`): a step clock is an integer parameter, and the filter time a number of ticks.
- StepQueue.StepCompress.Append: assumes clocks of at most MAX_CLOCK, and surviving step clocks that strictly increase, as the step solver produces them.
- StepCompression.CompressBisectAdd: the search is computed in mathematical integers and proved to stay in int32_t for max_error up to 0x80000; beyond that the overflow itself is not modelled.
- StepQueue.FarCovers: replay compares 32-bit clocks, as the microcontroller has no others, so a gap of 2^32 ticks or more is not told apart from its remainder.
- StepQueue.StepCompress.QueueAppend: the capacity of the step buffer and its reallocation are not modelled; whether the buffer is full is left open.
- StepQueue.StepCompress.Reset: replay is stated from the last reset on.
- Allocation failure and the error paths behind it; `stepcompress_queue_msg` and the extraction of old history, which would add only easy members.
- The secant search inside `itersolve_gen_steps_range` and its error return: only the ranges it is called with are modelled, and a failed range stops nothing.
- StepWindows.Stepper.GenerateSteps: the move queue is time-contiguous and ends in an inactive tail beyond every flush.
- StepWindows.Stepper.Restart: likewise excludes a move added too late.
- StepWindows.Stepper.Extend: a move added too late, active within its pre window of the last flush, is excluded; its steps before that flush are lost.
- `trapq_set_position` and the extraction of old moves, which would add only easy members.
- Shaper.ShaperPulses.InitShaper: when the amplitudes add up to 0 the library divides by zero, and nothing is said about the pulses; the axis pairing of the shaper kinematics is not modelled.
- PressureAdvance.PaRangeIntegrate: the queue must cover the smoothing window, as the sentinels and generation windows arrange.
- StepQueue.StepCompress.EndHoming: with steps still queued or pending a lookup before the report is tied to the history after they went out, not to a count of their pulses.
- SerialLink.DeliveredInOrder: both ends start in sync; the numbering jump at connection start is covered by the window results but not by delivery.
- SerialQueue.SerialQueue.HandleMessage: notifications, the receive queue and fast readers are not modelled.
- The timing half of `check_send_command` and `command_event`, which decides when to send rather than what.
- CommandQueues.Scheduler.SendBatch: messages have at most 59 bytes, as the encoder makes them, and a request clock below MAX_CLOCK; a message at MAX_CLOCK could never be picked.
- StepperSync.SlotSync.Flush: models the merge alone; flushing the steppers before it, sending, and expiring history after it are in SyncFlush.Flush.
- SyncFlush.ExecutedAsRequested: pulses are tied to requests from the last reset of a stepper on; for messages from before it only order and bodies are stated.
- Delivery.DeliveredAsRequested: the same; and how firmware splits an accepted block into messages is not modelled, so that each message is read on its own. Messages of other command queues are taken not to address the steppers.
- StepReader.OneDictionary is what reading by object id needs of the configuration: steppers of one microcontroller share their message tags, which differ, and have different object ids below 256.
- StepCompression.CompressBisectAdd: for more than 0x200 steps and a positive max_error, only constant-interval commands are compared with.
- StepperSync.MoveQueueSafe: a move with min clock 0 counts as using no slot, as in the code.
- Transmission.MoveQueueNeverOverfilled: the clock at which a message was released is taken as a lower bound on when it arrives, and arrival clocks are taken to rise.
- TrDispatch.Dispatch.HandleTrsyncState: decoding of the report is in MsgBlock; clock estimates have a positive frequency and acknowledged times lie before PR_NEVER.
- Threads, mutexes, pipes, polling, serial port settings, CAN framing, the debug-file link and the debug queues.
- Closed-form kinematics (cartesian, delta, polar, rotary, winch, CoreXY), the Go bindings and programs, and configuration.
