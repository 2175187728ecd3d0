# Aether, modelled and proved

This project models five cores of the Aether agent runtime in Dafny and proves what each of them promises, over every
input, every run or every interleaving. Operations that change state step by step are methods and classes that are
proved against a function or a predicate on values; the theorems are lemmas about those functions. Nothing here executes
the runtime.

**The conversation core** (`aether-core`). `Messages`, `History`, `ImageSentinel`, `Pairing`, `Compaction`,
`Execution`, `Planner`, `Sessions`, `HistoryEdits` and `Alternation` follow one turn of the agent loop: take the user's
input, compact the history, refresh the plan, translate the history to wire messages, guard the pairing of tool calls
and results, call the model, verify, run tools, record. Each has laws that read its outcome off inputs and events and
do not name the functions that compute it: `SentinelPieces`, `WireHistory` and `PairingShape` for what is sent,
`Permissions` for what is run, `PlanView` for what the plan shows, `TurnOutcome` for what a turn records and who comes
next. The model's reply, the verdict of the self-check gate, tool behaviour, hooks, prompter answers, the summary and
its failure are arbitrary. The invariant is *pairing*: an assistant item with calls is directly followed by the results
of exactly these calls, in order. Turns and compactions keep it, whatever happens in them, so as long as nothing else
touches the history the guard in front of every model call has nothing to repair. Commands of the user also edit the
history between turns (`HistoryEdits`); after any such edits the guard sends a balanced thread, and it is idle exactly
when the translation of the edited history is balanced. On its own, the guard (an algorithm that inserts into the list
it walks) balances every thread, reports nothing exactly on balanced ones, is idempotent, keeps what was paired, and
makes up nothing but error answers and a placeholder text for emptied messages. The executor is a state machine over
the atomic pieces of each call; every schedule of it has the permissions of the sequential loop, runs each call once
and lets no change past the user's consent, whatever the tools do; it has the results and the world of the sequential
loop if the calls awaited together only read. The plan is a set of counters proved to be the replay of a full event log
under a sliding window, after every turn.

**Streaming decoders** (`aether-llm`). `Framing` proves once, for any splitter whose frames do not change when more
bytes arrive, that the decoded items and the bytes kept back do not depend on how the stream is cut into chunks.
`EventStream` (the AWS event-stream encoding) and `Sse` (two readers of server-sent events, section 9.2 of the WHATWG
HTML Standard) instantiate it. Decoding inverts encoding for any header list and payload, and reading printed
server-sent events gives back the payloads (`SsePrinting`).

**Request/response demultiplexer** (`aether-mcp`). `Mcp` is a state machine whose events are the sections that the three
transports execute under the lock or without an await: issue, register, write, response line, end of stream, receive,
time out, drop. Callers get only responses with their own id (section 5 of the JSON-RPC 2.0 Specification).
`McpHistory` reads every call's end off the events of a run: a call gets an answer exactly if the first response with
its id came while it was registered and listening, and this answer is what it completes with.

**Graph searches** (`aether-flow`, `aether-lockgraph`). `TaintPaths` proves the breadth-first search exact against a
definition of shortest flow paths, and exactly when it panics. `LockOrder` proves exactly which cycles the depth-first
search reports: one for each pair of a start that no earlier listed lock reaches and a lock that leads back to it (a
white-path argument over one persistent visited set). `LockCoverage` says when these are all simple cycles.
`LockRecorder` proves that the graph built from the event stream is the relation "acquired while holding", and which
rings of the event stream are reported.

**Constraint flipper and push solver** (`aether-concolic`). `Constraints`, `PushSolver`, `SolverReach` and
`InputGenerator` prove the refusal of a constraint set sound for all kinds, and the bounded push solver complete on all
literal constraints but disequalities: it finds the solution nearest to zero whenever there is one. With fewer
disequalities than rounds, and constraints of all kinds, they say exactly how far it gets, and so exactly when a
generated input takes the opposite branch at the flipped decision and the recorded branch everywhere else.

## Where the code promises less than its comments

For each of these there is a theorem that says when the promise is kept and, where it fails, an input that shows it.

- `find_cycles` is documented to find all simple cycles. It reports exactly one cycle for each lock that no lock
  listed earlier reaches and each other lock that leads back to it, and no others (`LockOrder.LockGraph.FindCycles`).
  These are all simple cycles exactly when each of them has at least two locks, passes through such a first lock, and
  is the only one that closes over the same lock into it (`LockCoverage.AllCoveredIff`). On locks 0, 1, 2 with edges 0
  to 1, 1 to 2 and 2 to 1 nothing is reported (`LockOrder.MissesACycle`); of two cycles that share their last edge,
  only one is (`LockCoverage.MissesOneOfTwo`).
- Compaction shortens the history exactly when the cut lies behind the prefix it inserts
  (`Compaction.CompactShrinksIff`); four items can become five (`Compaction.CompactCanGrow`). A failed summary call
  leaves only the tail, because the head is drained before the call (`Compaction.CompactKeepsRecent`).
- The plan view exceeds its cap of ten lines exactly when goal and sustained lines do, or when they fill it and the
  first old line is one to keep (`Planner.CapIsExceededIff`); an example is `Planner.CapCanBeExceeded`.
- Alternation of roles is not an invariant of the history. A turn keeps it exactly when its input comes to an empty
  history or behind an assistant item, or it has no input and does not record a reply behind an assistant item
  (`Alternation.TurnAlternatesIff`). A retry after a failed model call and a server-side pause without calls break it
  (`Alternation.RetryBreaksAlternation`, `Sessions.PauseBreaksAlternation`).
- The event-stream loop ends exactly when no frame that claims to have length zero comes to the front of the buffer
  (`Framing.LoopEndsIff`, `EventStream.StuckOnlyOnZero`); on twelve zero bytes it does not
  (`EventStream.ZeroFrameLoops`).
- `is_feasible` is documented as "our solver found a satisfying assignment". On literal constraints without
  disequalities the solver finds one exactly when there is one (`PushSolver.SolveIsComplete`). On constraints of any
  kinds, with fewer disequalities than its 64 rounds, it succeeds exactly when the literal constraints have a solution
  in which every value is non-negative or as great as the ones that are no disequalities allow, and the least such
  solution meets the constraints between variables (`SolverReach.SolvesIff`); the bound on the disequalities is sharp
  (`SolverReach.RoundsRunOut`). The check behind the flag is exact on comparisons that some value meets
  (`PushSolver.CheckIsExact`). There are accepted sets without a solution for each other kind of literal constraint
  (`Constraints.AcceptanceCanBeWrong`), and accepted sets whose solutions the solver misses
  (`PushSolver.SolverCanMiss`).
- `max_depth` is documented to count hops; the search counts the nodes of a path (`TaintPaths.FindTaintPaths`), so a
  cap of one finds nothing (`TaintPaths.CapCountsNodes`). Edges to unlisted nodes are accepted, and the search panics
  exactly when a source leads to one within the cap (`TaintPaths.FindTaintPaths`, `TaintPaths.UnlistedTargetPanics`).
- Not every waiting caller is released when the server closes its stream: exactly those are that registered before
  (`Mcp.ReleasedIffInTime`). A later call waits for its timeout (`Mcp.LateCallWaits`, `Mcp.LateCallsGetNoAnswer`).
- The shell commands taken for read-only include some that write, such as `env rm x` and `sort -o f f`
  (crates/aether-core/src/executor.rs:59-101, which says that no flag changes that). If a call awaited together with
  others writes, results can differ from the sequential loop (`Execution.WritersShow`). They do not if, taken one
  after the other, none of these calls would change the world (`Execution.ConcurrencyIsInvisible`).
- Plan mode is documented to forbid mutating tools. It refuses those in its table; a call changes the world exactly
  when its tool is not in the table, is not held back by policy, and does change it (`Execution.PlanModeChangesIff`).
  The tool that writes the to-do list is not in the table (`Execution.PlanModeLetsUnlistedWrite`).

## Model

| member | source | states |
|---|---|---|
| `Pairing.SanitizeToolPairing` | crates/aether-core/src/context.rs:323-436 | the repaired list is balanced: every result answers a call of the previous message, every assistant call is answered by the next; repairs are reported exactly when the input was not balanced, and otherwise nothing changes |
| `Pairing.DropOrphanResults` | crates/aether-core/src/context.rs:327-361 | pass 1 in place equals dropping, message by message, the results without a call in the original previous message |
| `Pairing.RetainPaired` | crates/aether-core/src/context.rs:343-355 | the retain step keeps the paired blocks in order and reports one repair per dropped result |
| `Pairing.AnswerPending` | crates/aether-core/src/context.rs:363-434 | pass 2, inserting while it walks, terminates and yields the original messages, extended or followed by the missing answers, and one repair per answer |
| `Pairing.DropOrphansLeavesNone` | crates/aether-core/src/context.rs:327-361 | after pass 1 no result lacks its call |
| `Pairing.AnsweredNoOrphans` | crates/aether-core/src/context.rs:363-434 | pass 2 never breaks what pass 1 established |
| `Pairing.AnsweredAnswers` | crates/aether-core/src/context.rs:363-434 | after pass 2 every assistant call is answered by the next message |
| `Pairing.RepairedIsBalanced` | crates/aether-core/src/context.rs:323-436 | every thread is balanced after both passes |
| `Pairing.NoRepairsIffBalanced` | crates/aether-core/src/context.rs:323-436 | no repairs exactly on balanced threads, which stay as they are |
| `Pairing.RepairIsIdempotent` | crates/aether-core/src/context.rs:323-436 | a second repair changes and reports nothing |
| `Pairing.RepairConserves` | crates/aether-core/src/context.rs:323-436 | all non-result blocks and all paired results survive in order; the number of repairs is the number of blocks dropped plus the number synthesized |
| `Pairing.RepairInventsOnlyErrors` | crates/aether-core/src/context.rs:356-431 | every block of the output stood in the input, is the placeholder, or is an answer marked as an error |
| `PairingShape.RepairShape` | crates/aether-core/src/context.rs:323-436 | every message is sent in its place, with the blocks that fit its predecessor or a placeholder; missing answers are errors, in the order of their calls, behind the results of the next message or in a message of their own directly behind the calls; an answer is reported exactly for each unanswered call, with the position of its message |
| `PairingShape.DroppedIff` | crates/aether-core/src/context.rs:343-355 | a drop is reported exactly for each result whose call is not in the message before, with that message's index |
| `ImageSentinel.DecodeUserContent` | crates/aether-core/src/context.rs:202-251 | the scanning loop terminates and computes the decoding, which is never empty and consists of texts and images |
| `ImageSentinel.PrefixStartsAfter` | crates/aether-core/src/context.rs:199-220 | the sentinel prefix has no border: behind a text without it, its first occurrence is exactly where the sentinel starts |
| `ImageSentinel.PrintDecodes` | crates/aether-core/src/context.rs:208-246 | the scanner gives back any printable block list, also the empty one |
| `ImageSentinel.DecodeInvertsPrint` | crates/aether-core/src/context.rs:196-251 | printing a non-empty list of texts and images in the documented format and decoding it gives the list back |
| `SentinelPieces.DecodeIs` | crates/aether-core/src/context.rs:202-251 | any text falls into stretches of words, closed sentinels and at most one open one at its end; it is decoded to their blocks in order, where a sentinel without a colon has none, an open one is text, and a text that leaves nothing stays itself |
| `SentinelPieces.MeaningIsUnique` | crates/aether-core/src/context.rs:229-243 | the pieces determine the blocks |
| `History.TranslateHistory` | crates/aether-core/src/context.rs:253-295 | one message per item, in order, with the item's role and blocks |
| `History.AssistantBlocks` | crates/aether-core/src/context.rs:260-275 | the optional text followed by one block per call |
| `WireHistory.AssistantReadsBack` | crates/aether-core/src/context.rs:260-275 | reading a translated assistant item as one reads a reply gives back its text and its calls |
| `WireHistory.ResultsReadBack` | crates/aether-core/src/context.rs:276-290 | results come in order, each with its call, content and error flag |
| `WireHistory.UserReadsBack` | crates/aether-core/src/context.rs:256-259 | what a user says in the documented format arrives as the blocks printed |
| `History.PairedConcat` | crates/aether-core/src/lib.rs:1169-1211 | appending a paired stretch keeps a history paired |
| `History.PairedSuffix` | crates/aether-core/src/compaction.rs:219 | a paired history may be cut anywhere but before tool results |
| `History.PairedNeedsNoRepair` | crates/aether-core/src/lib.rs:830-847 | the translation of a paired history passes the guard without repairs |
| `Compaction.ChooseCut` | crates/aether-core/src/compaction.rs:179-217 | the two search loops find the cut |
| `Compaction.CutIsLatest` | crates/aether-core/src/compaction.rs:179-217 | the cut is the latest user item that leaves the kept third behind it, else the latest assistant item, else there is none |
| `Compaction.CompactIs` | crates/aether-core/src/compaction.rs:148-290 | exactly when compaction acts (not disabled, forced or over the threshold, four items, some item to cut at), where it cuts, and the history and token count it leaves on both strategies and after a failed call |
| `Compaction.CutExists` | crates/aether-core/src/compaction.rs:210-216 | on a paired history of at least four items the "no safe boundary" exit is dead |
| `Compaction.CompactKeepsPairing` | crates/aether-core/src/compaction.rs:148-290 | compaction keeps pairing on both strategies and on the failure path |
| `Compaction.CompactKeepsRecent` | crates/aether-core/src/compaction.rs:219-267 | the result is a synthetic opening by the user carrying the summary and an unchanged suffix with at least the last third; after a failed call it is the suffix alone |
| `Compaction.CompactShrinksIff` | crates/aether-core/src/compaction.rs:198-267 | exactly when a successful compaction shortens the history |
| `Compaction.CompactCanGrow` | crates/aether-core/src/compaction.rs:198-267 | a history of four items that compaction makes longer |
| `Execution.ResultsCarryIds` | crates/aether-core/src/executor.rs:563-612 | result k of the sequential reading carries the id of call k |
| `Permissions.GateIs` | crates/aether-core/src/executor.rs:439-463 | the always-allow set is what was allowed before and what the user has allowed for good at a question since, and every question is counted |
| `Permissions.ChangesIff` | crates/aether-core/src/executor.rs:110-123 | in every mode: a call changes the world exactly if no policy holds it back, its mode or the user permits it, and its tool is registered and changes it |
| `Permissions.ResultIs` | crates/aether-core/src/executor.rs:395-561 | the result of every call: its id, what its tool says or why it was not carried out, and an error flag unless the tool gave output |
| `Permissions.RemindersAre` | crates/aether-core/src/executor.rs:464-560 | the hook before a call speaks if the call is permitted, the hook behind it unless policy rejects the call |
| `Permissions.NoUnpermittedChange` | crates/aether-core/src/executor.rs:395-612 | in any mode no schedule lets a call change the world that is not permitted, whatever the tools do |
| `Permissions.MayOverlapIff` | crates/aether-core/src/executor.rs:574-608 | some schedule has two calls under way at once exactly if policy rejects neither and all calls from one to the other only read |
| `Execution.NoChangeWithoutConsent` | crates/aether-core/src/executor.rs:403-463 | in default mode a mutating tool changes the world only with the user's consent, and never past the blocklist or an argument filter |
| `Execution.NoScheduleSkipsConsent` | crates/aether-core/src/executor.rs:395-612 | the same of every step of every schedule, whatever the tools do; in plan mode no mutating tool changes anything |
| `Execution.AlwaysIsGranted` | crates/aether-core/src/executor.rs:447-456 | the always-allow set grows only by the user's answer |
| `Execution.PlanModeChangesIff` | crates/aether-core/src/executor.rs:110-123 | in plan mode a call changes the world exactly when its tool is outside the table of mutating ones, passes the policies and changes it; permissions never change |
| `Execution.PlanModeChangesNothing` | crates/aether-core/src/executor.rs:110-123 | in plan mode nothing changes if those of the calls at hand that are outside the table only read |
| `Execution.PlanModeLetsUnlistedWrite` | crates/aether-core/src/executor.rs:32-37 | a write by a tool outside the table in plan mode |
| `Execution.EveryScheduleAgrees` | crates/aether-core/src/executor.rs:563-612 | if the calls awaited together only read, at every point of every schedule each call has what it has in the sequential reading |
| `Execution.ConcurrencyIsInvisible` | crates/aether-core/src/executor.rs:563-612 | if the calls awaited together only read, a completed schedule has the results, world, always-allow set and questions of the sequential loop, and its reminders as a multiset |
| `Execution.WritersShow` | crates/aether-core/src/executor.rs:59-108 | two calls taken for read-only of which one writes, and a schedule with other results |
| `Execution.PermissionsAgree` | crates/aether-core/src/executor.rs:439-463 | every schedule, whatever the tools do, has the permissions of the sequential loop |
| `Execution.NoUnsafeOverlap` | crates/aether-core/src/executor.rs:574-608 | no call that is not parallel-safe is ever under way beside another, whatever the tools do |
| `Execution.EachRunsOnce` | crates/aether-core/src/executor.rs:563-612 | each call that policy does not reject is dispatched exactly once, whatever the tools do |
| `Execution.Executor.Advance` | crates/aether-core/src/executor.rs:395-561 | one future, from await to await, is one step of the state machine |
| `Execution.Executor.Await` | crates/aether-core/src/executor.rs:593-601 | awaiting a batch together, with any choice of the next future, ends with all its calls done |
| `Execution.Executor.Execute` | crates/aether-core/src/executor.rs:563-612 | batches of parallel-safe calls and single calls give the results and the end state of the sequential loop if the calls awaited together only read |
| `Planner.WindowIsExact` | crates/aether-core/src/planner.rs:233-258 | right after a prune at turn T each rule lists exactly its recorded blocks at turns t with t + N > T (and T below the greatest turn number, where the sum saturates), each once and in order |
| `Planner.PruneShowsWindow` | crates/aether-core/src/planner.rs:233-258 | the same with or without a window |
| `Planner.HeldFiltersRecorded` | crates/aether-core/src/planner.rs:233-258 | pruning along the way loses nothing that a single prune at the end would keep |
| `Planner.PruneTwice` | crates/aether-core/src/planner.rs:244-246 | pruning early and again later is pruning once, later |
| `Planner.MonotonicKeepsAll` | crates/aether-core/src/planner.rs:234-236 | without a window every recorded turn is kept |
| `Planner.Plan.constructor` | crates/aether-core/src/planner.rs:100-105 | a new plan has an empty log and agrees with it |
| `Planner.Plan.RecordBlock` | crates/aether-core/src/planner.rs:123-159 | logs the block under its sorted, distinct rules or as unknown; counters still agree with the log; the record stands in front and the view is cut to ten lines |
| `Planner.Plan.PruneWindow` | crates/aether-core/src/planner.rs:233-258 | the counters list exactly the blocks of the log at turns t with t + N > T; pruned plus remaining is what was there; a second prune at the same turn is idle |
| `Planner.Plan.RetainAlive` | crates/aether-core/src/planner.rs:241-252 | each list is aged and recounted whatever the order of the map, and the emptied rules are collected |
| `Planner.Plan.RemoveEmpty` | crates/aether-core/src/planner.rs:253-256 | the emptied rules leave both maps |
| `Planner.Plan.Refresh` | crates/aether-core/src/planner.rs:308-419 | prunes and rewrites the view; a second refresh at the same turn changes neither view nor counters |
| `Planner.Plan.KeepLines` | crates/aether-core/src/planner.rs:357-398 | the loop with its skips and its cap keeps exactly the free lines and the records that introduce a live rule |
| `Planner.Plan.AddStuck` | crates/aether-core/src/planner.rs:400-415 | stuck tools follow in order as far as the cap allows |
| `Planner.Plan.RecordToolError` | crates/aether-core/src/planner.rs:186-195 | error counters are the current streaks of failures; the plan is dirty from the third on |
| `Planner.Plan.RecordToolSuccess` | crates/aether-core/src/planner.rs:198-207 | a success ends the streak, and marks the plan dirty if a note has to go |
| `Planner.StreakIs` | crates/aether-core/src/planner.rs:186-207 | a streak is the number of failures since the last success |
| `Planner.Plan.SetGoal` | crates/aether-core/src/planner.rs:163-166 | the goal is set and the plan dirty; log and counters are untouched |
| `Planner.Plan.ClearGoal` | crates/aether-core/src/planner.rs:169-174 | the goal is gone, and the plan dirty only if there was one |
| `Planner.RefreshIsIdempotent` | crates/aether-core/src/planner.rs:308-419 | rewriting the rewritten view gives it back |
| `Planner.KeptTwice` | crates/aether-core/src/planner.rs:357-398 | keeping what was kept, with generated lines behind it, changes nothing |
| `Planner.RefreshIsShort` | crates/aether-core/src/planner.rs:308-419 | the view has at most ten lines, or goal and sustained lines and one more |
| `Planner.CapIsExceededIff` | crates/aether-core/src/planner.rs:341-398 | the view exceeds ten lines exactly when goal and sustained lines do, or when they are ten and the first old line is kept |
| `Planner.CapCanBeExceeded` | crates/aether-core/src/planner.rs:394-396 | ten sustained rules and one line of free text make eleven lines |
| `Planner.SustainedComeSorted` | crates/aether-core/src/planner.rs:341-355 | the goal comes first, then every sustained rule exactly once in sorted order, and no such line later |
| `Planner.SortedIncreases` | crates/aether-core/src/planner.rs:346-347 | names are listed in strictly increasing order |
| `Planner.LexIs` | crates/aether-core/src/planner.rs:346-347 | texts are ordered by the first character in which they differ, and come before their extensions |
| `Planner.KeptIsOld` | crates/aether-core/src/planner.rs:357-398 | a surviving line is an old one, and a surviving record names a live rule below the threshold |
| `Planner.LiveRulesStay` | crates/aether-core/src/planner.rs:374-394 | as long as the cap does not cut the list, no live rule loses its last record |
| `PlanView.RefreshedIs` | crates/aether-core/src/planner.rs:308-419 | the text after a refresh: the goal, a line for each rule with three counted blocks or more, the old lines that stay, and a line for each tool with three errors in a row or more as far as ten lines allow, rules and tools in sorted order |
| `PlanView.KeptIs` | crates/aether-core/src/planner.rs:357-398 | of the old lines stay, in order and up to the cap, free text and those records that name a rule below three which no earlier line names |
| `Sessions.TurnKeepsPairing` | crates/aether-core/src/lib.rs:601-1218 | one turn, whatever its inputs, keeps the history paired, needs no repair and is no pairing error |
| `Sessions.EverySessionIsPaired` | crates/aether-core/src/lib.rs:601-1218 | any sequence of turns, with their compactions, keeps a paired history paired |
| `Sessions.GuardIsIdle` | crates/aether-core/src/lib.rs:830-847 | from an empty history that only turns touch, the guard never finds anything to repair before any call |
| `Sessions.ContinuationEnd` | crates/aether-core/src/lib.rs:1182-1217 | a turn that continues at once leaves an assistant item last exactly for a pause or an announced call without calls |
| `Sessions.PauseBreaksAlternation` | crates/aether-core/src/lib.rs:1216 | a session whose next request ends in an assistant message |
| `Sessions.OutcomesAreOwn` | crates/aether-core/src/lib.rs:1159-1167 | with distinct ids each result counts for the tool that produced it |
| `Sessions.OutcomesAreOfFirst` | crates/aether-core/src/lib.rs:1158-1167 | every result counts, in order, for the first call with its id, also when ids repeat |
| `Sessions.NamesTellTools` | crates/aether-core/src/lib.rs:1158-1167 | no two tools share an error streak |
| `Sessions.RemindersDoNotMatter` | crates/aether-core/src/lib.rs:1145-1152 | pending reminders do not influence what tools do |
| `Sessions.RemindersFollow` | crates/aether-core/src/lib.rs:1145-1152 | what the hooks of a turn say follows what was already waiting |
| `Sessions.CountersAreExact` | crates/aether-core/src/lib.rs:643-647 | after a refresh and a block each counter lists the blocks of the session at turns inside the window, in order, and behind them the turn's own block |
| `Sessions.FindUseIs` | crates/aether-core/src/lib.rs:1159-1162 | a result counts for the first call with its id, and for none exactly if no call has it |
| `TurnOutcome.RecordedTurn` | crates/aether-core/src/lib.rs:1169-1217 | a turn that records a reply goes on exactly if the reply was blocked or its stop is neither end of turn, refusal nor stop sequence; the exchange, the notice behind it if any, tokens, turn count, world and permissions it leaves |
| `TurnOutcome.UnrecordedTurn` | crates/aether-core/src/lib.rs:614-893 | at the turn limit a turn waits for the user; else it ends in a pairing error if hard mode meets an unbalanced thread, or in a model error |
| `TurnOutcome.ExecutedAre` | crates/aether-core/src/lib.rs:931-1027 | the calls carried out are the first call blocks of the reply up to the cap, in order, and none of a blocked reply |
| `TurnOutcome.ReplyTextIs` | crates/aether-core/src/lib.rs:950-955 | the texts of the reply one behind the other with a newline between any two, and no text exactly if there are none |
| `Sessions.Session.constructor` | crates/aether-core/src/lib.rs:601-613 | a new session is valid: empty history, empty log |
| `Sessions.Session.CompactInner` | crates/aether-core/src/compaction.rs:148-290 | drain, summary call and insertions in their order equal the compaction function on every path |
| `Sessions.Session.Prepare` | crates/aether-core/src/lib.rs:631-847 | compacts, logs a prune at the current turn, hands over the reminders, translates and guards |
| `Sessions.Session.ReadContent` | crates/aether-core/src/lib.rs:931-956 | texts joined by newlines and calls in order; other blocks are dropped |
| `Sessions.Session.Verify` | crates/aether-core/src/lib.rs:976-1027 | a blocked reply leaves its sentinel and goes on the plan's log under the current turn |
| `Sessions.Session.RecordOutcomes` | crates/aether-core/src/lib.rs:1155-1167 | each result extends or ends the streak of the first call with its id |
| `Sessions.Session.RunTools` | crates/aether-core/src/lib.rs:1079-1152 | the results and the end state of the sequential reading, if the calls awaited together only read; the reminders of the hooks wait for the next turn |
| `Sessions.Session.Record` | crates/aether-core/src/lib.rs:1169-1217 | pushes the exchange and the synthetic user item, counts the turn, and decides what comes next |
| `Sessions.Session.ObserveResponse` | crates/aether-core/src/lib.rs:896-1217 | the new session state, outcome, log entry and tool outcomes of a reply |
| `Sessions.Session.AgentTurn` | crates/aether-core/src/lib.rs:596-1218 | one turn on any history: what is sent is balanced, and is the plain translation if the history is paired, which it stays; log order kept, window counters exact after every turn that is not over budget; streaks and waiting reminders are those of its calls |
| `HistoryEdits.OnlyEditsBreakPairing` | crates/aether-core/src/lib.rs:601-1218 | over any turns and edits the history is paired if it was after the last edit |
| `HistoryEdits.GuardAnswersEdits` | crates/aether-core/src/lib.rs:830-847 | after any turns and edits the guard sends a balanced thread, repairs something exactly when the translation is not balanced, and only then stops the turn in hard mode |
| `HistoryEdits.TrimEndIff` | crates/aether-core/src/lib.rs:830-847 | after cutting off the end of a paired history the guard has something to repair exactly if the last item left makes calls |
| `HistoryEdits.TrimFrontIff` | crates/aether-core/src/lib.rs:830-847 | after dropping the front, exactly if tool results come first |
| `HistoryEdits.StripIff` | crates/aether-core/src/lib.rs:830-847 | after stripping the tool results, exactly if there are calls |
| `HistoryEdits.StripIs` | crates/aether-core/src/lib.rs:830-847 | stripping leaves every item but tool results, in order; such an edit meets the guard before the next call |
| `Alternation.CompactAlternates` | crates/aether-core/src/compaction.rs:182-267 | both strategies and the failure path keep alternation |
| `Alternation.ObserveAlternates` | crates/aether-core/src/lib.rs:1169-1211 | a recorded reply keeps alternation exactly when the history does not end in an assistant item |
| `Alternation.TurnAlternatesIff` | crates/aether-core/src/lib.rs:601-1218 | exactly when a turn keeps alternation, for every turn on an alternating history |
| `Alternation.RetryBreaksAlternation` | crates/aether-core/src/lib.rs:606-613 | the same input after a failed call leaves two user items in a row |
| `Framing.DrainSplits` | crates/aether-llm/src/bedrock.rs:231-282 | draining a buffer in two portions gives the items and the rest of draining it at once |
| `Framing.Pump` | crates/aether-llm/src/bedrock.rs:228-283 | for any stable splitter the buffer loop is independent of the chunk boundaries |
| `Framing.LoopEndsIff` | crates/aether-llm/src/bedrock.rs:233-282 | the inner loop ends exactly when no frame of length zero comes to the front |
| `EventStream.ExtractStringHeader` | crates/aether-llm/src/bedrock.rs:651-702 | the moving-position scan finds the first string header of the given name, skipping all other types, and gives up on malformed bytes |
| `EventStream.ScanFindsFirst` | crates/aether-llm/src/bedrock.rs:651-702 | on encoded headers the scan returns the first string value of the name, whatever typed headers stand before it |
| `EventStream.BrokenHeaderEndsScan` | crates/aether-llm/src/bedrock.rs:651-702 | at an incomplete header or one of unknown type the scan gives up: what stands before counts, and nothing behind |
| `EventStream.ParseIsStable` | crates/aether-llm/src/bedrock.rs:628-648 | a parsed frame stays the same when more bytes arrive |
| `EventStream.StuckOnlyOnZero` | crates/aether-llm/src/bedrock.rs:632-643 | a frame consumes nothing exactly when its first four bytes are zero |
| `EventStream.ZeroFrameLoops` | crates/aether-llm/src/bedrock.rs:233-282 | on twelve zero bytes the inner loop never ends |
| `EventStream.ParseInvertsEncode` | crates/aether-llm/src/bedrock.rs:606-648 | parsing the front of an encoded frame returns its length, first event type and payload |
| `EventStream.ParseIs` | crates/aether-llm/src/bedrock.rs:628-648 | on any bytes the parser waits until as many as stated have come, and makes an empty event of the stated size if the headers do not fit |
| `EventStream.DrainInvertsEncode` | crates/aether-llm/src/bedrock.rs:228-283 | draining a concatenation of encoded frames returns exactly their events and leaves nothing |
| `EventStream.ReadEvents` | crates/aether-llm/src/bedrock.rs:221-283 | any chunking of a stream without zero-length frames gives the events of the whole |
| `EventStream.ReadEncoded` | crates/aether-llm/src/bedrock.rs:221-283 | however an encoded stream is cut, reading it gives back its messages |
| `Sse.ParseSseDataEvents` | crates/aether-llm/src/vertex.rs:493-517 | one pass yields the payloads of all complete lines, consumes exactly them and terminates |
| `Sse.ReadPayloads` | crates/aether-llm/src/vertex.rs:438-446 | any chunking gives the payloads of the whole, and the leftover holds no newline |
| `SsePrinting.PrintIsSplit` | crates/aether-llm/src/vertex.rs:498-511 | lines printed with either line end are found again, and their payloads are those printed as data |
| `SsePrinting.ReadPrinted` | crates/aether-llm/src/vertex.rs:438-446 | however a print is cut into chunks, reading it gives back exactly the payloads, and keeps back exactly an incomplete line |
| `Sse.LinesAreStable` | crates/aether-llm/src/vertex.rs:498-511 | a complete line stays what it is |
| `Sse.EventsAreStable` | crates/aether-llm/src/anthropic.rs:753-755 | a complete event stays what it is |
| `Sse.ContentSinceLastStart` | crates/aether-llm/src/anthropic.rs:587-660 | a block's content is the concatenation of its fitting deltas since its last start |
| `Sse.NoStartNoBlock` | crates/aether-llm/src/anthropic.rs:618-660 | deltas without a start make no block |
| `Sse.StopIsLast` | crates/aether-llm/src/anthropic.rs:668-679 | the stop reason is the last one seen, and there is none exactly when none was seen |
| `Sse.TakeEvents` | crates/aether-llm/src/anthropic.rs:562-705 | takes complete events off the buffer until none is left or the first error |
| `SsePrinting.EventDataIs` | crates/aether-llm/src/anthropic.rs:563-570 | the data of a printed event is its last payload |
| `SsePrinting.EventsAreSplit` | crates/aether-llm/src/anthropic.rs:562-564 | printed events are found again, with what stands behind them |
| `Sse.ParseSse` | crates/aether-llm/src/anthropic.rs:550-736 | the outcome (first error, failed read, truncation, or blocks and stop reason) is the one of the bytes received and the end of the stream, however the bytes are cut |
| `SsePrinting.ReadPrintedEvents` | crates/aether-llm/src/anthropic.rs:550-736 | however printed events are cut into chunks, the outcome is that of the JSON of their last payloads |
| `Sse.OutcomeIsUnique` | crates/aether-llm/src/anthropic.rs:557-735 | events and end of the stream determine the outcome |
| `Mcp.EveryRunKeeps` | crates/aether-mcp/src/lib.rs:238-323 | the invariant of the shared state holds after every interleaving |
| `Mcp.ChannelClosedIsDead` | crates/aether-mcp/src/lib.rs:307-315 | a waiting caller has its outcome or its entry in the map; the "channel closed" branch is unreachable |
| `Mcp.AnswersAreOwn` | crates/aether-mcp/src/lib.rs:245-256 | a completed call has the body of a response with its own id, and no response completes two calls |
| `Mcp.DrainReleasesAll` | crates/aether-mcp/src/lib.rs:259-264 | the drain at the end of the stream leaves no listening caller without an outcome |
| `Mcp.LateCallsGetNoAnswer` | crates/aether-mcp/src/lib.rs:290-315 | a call registered after the drain can only fail to write, time out or be dropped |
| `Mcp.ReleasedIffInTime` | crates/aether-mcp/src/lib.rs:259-315 | in every run, after the drain a listening caller has its outcome exactly if it registered before it |
| `Mcp.LateCallWaits` | crates/aether-mcp/src/lib.rs:290-315 | a run in which such a call is written, waits and times out |
| `Mcp.StrayLinesAreIgnored` | crates/aether-mcp/src/lib.rs:250-257 | unsolicited and duplicate responses change no call and no entry |
| `Mcp.ClientState.AllocateId` | crates/aether-mcp/src/lib.rs:281 | each call takes the counter's value |
| `Mcp.ClientState.RegisterWaiter` | crates/aether-mcp/src/lib.rs:290-293 | the entry is inserted before the request is written |
| `Mcp.ClientState.OnResponse` | crates/aether-mcp/src/lib.rs:245-256 | a response removes the entry of its id and completes that caller alone |
| `Mcp.ClientState.DrainPending` | crates/aether-mcp/src/lib.rs:259-264 | the loop over the taken map fails every waiter in it, in any order |
| `Mcp.ClientState.ForgetWaiter` | crates/aether-mcp/src/lib.rs:310-314 | a timed-out caller takes its own entry out |
| `Mcp.ClientState.Perform` | crates/aether-mcp/src/lib.rs:238-323 | every section of callers and reader is one step of the state machine |
| `McpHistory.Run` | crates/aether-mcp/src/lib.rs:238-323 | callers and reader in any interleaving leave behind what the events of the run say, with the invariant |
| `McpHistory.RunFollows` | crates/aether-mcp/src/lib.rs:238-323 | the state after any run, read off its events: which calls wait, what each channel carries, which entries the map holds, who registered too late |
| `McpHistory.AnswerArrivesIff` | crates/aether-mcp/src/lib.rs:245-256 | a call that listens carries an answer exactly if a line with its id came after it registered; it is the first such line, the entry is gone, and receiving it completes the call with its body |
| `McpHistory.HowCallsEnd` | crates/aether-mcp/src/lib.rs:290-323 | the last section of a call says how it stands or ended, and a caller whose answer is there does not time out |
| `McpHistory.NextIff` | crates/aether-mcp/src/lib.rs:238-323 | which sections may come next after any run |
| `TaintPaths.FindTaintPaths` | crates/aether-flow/src/graph.rs:131-186 | exactly one path for each source and each sink within reach, a shortest one along edges that avoids sinks before its end, and nothing else; it panics exactly when a source leads to an unlisted node within the cap; sources come in their order, and shorter paths first |
| `TaintPaths.CapCountsNodes` | crates/aether-flow/src/graph.rs:129-153 | with a cap of one nothing is found, although a source and a sink may be one hop apart |
| `TaintPaths.UnlistedTargetPanics` | crates/aether-flow/src/graph.rs:150-156 | an edge from a source to an unlisted node makes the search panic |
| `TaintPaths.SinksEndFlows` | crates/aether-flow/src/graph.rs:158-170 | what a sink leads to is not reported behind it |
| `TaintPaths.SearchFrom` | crates/aether-flow/src/graph.rs:146-183 | the search from one source is exact, terminates, and panics exactly when it must index an unlisted node |
| `TaintPaths.Expand` | crates/aether-flow/src/graph.rs:172-181 | every neighbor ends up visited, first-reach paths stay, and the queue stays ordered by length |
| `TaintPaths.BuildAdjacency` | crates/aether-flow/src/graph.rs:132-135 | the adjacency map has exactly the edges |
| `TaintPaths.EveryPathIsCovered` | crates/aether-flow/src/graph.rs:146-183 | when the queue is empty every flow path within the cap ends at a node reached at least as early |
| `TaintPaths.SearchIsExact` | crates/aether-flow/src/graph.rs:146-183 | the invariant at the empty queue makes the found paths exact |
| `LockOrder.LockGraph.AddNode` | crates/aether-lockgraph/src/graph.rs:36-40 | a lock is listed once, under its first name |
| `LockOrder.LockGraph.AddEdge` | crates/aether-lockgraph/src/graph.rs:42-51 | an edge is listed once, with its first thread |
| `LockOrder.Dfs` | crates/aether-lockgraph/src/graph.rs:88-125 | visits exactly new locks reachable from its start, closes over them, and reports exactly one duplicate-free cycle for each of them with an edge back to the start |
| `LockOrder.LockGraph.FindCycles` | crates/aether-lockgraph/src/graph.rs:54-85 | every report is a cycle of at least two distinct locks along edges; there is exactly one for each pair of a lock that no earlier listed one reaches and a lock that leads back to it, and no other; reports come in the order of their starts |
| `LockOrder.NamesAre` | crates/aether-lockgraph/src/graph.rs:104-109 | each lock of a report bears the name under which it is listed, and a question mark exactly if it is not |
| `LockOrder.UnvisitedIsFresh` | crates/aether-lockgraph/src/graph.rs:71-73 | a listed lock is unvisited at its turn exactly when no earlier one reaches it |
| `LockOrder.CycleIsReported` | crates/aether-lockgraph/src/graph.rs:103-116 | the white-path argument: every lock that leads back to an unvisited start ends a report |
| `LockOrder.DetectsIff` | crates/aether-lockgraph/src/graph.rs:53-85 | something is reported exactly when a lock that no earlier one reaches lies on a cycle |
| `LockOrder.DetectsUnlessLedTo` | crates/aether-lockgraph/src/graph.rs:53-85 | a deadlock is overlooked only behind a lock that leads to it without lying on a cycle |
| `LockOrder.MissesACycle` | crates/aether-lockgraph/src/graph.rs:53-85 | three locks with a cycle and no report |
| `LockCoverage.AllCoveredIff` | crates/aether-lockgraph/src/graph.rs:53-85 | all simple cycles are reported exactly when each has at least two locks, passes through a lock that no earlier one reaches, and is the only one with that lock and its predecessor |
| `LockCoverage.OneFreshLock` | crates/aether-lockgraph/src/graph.rs:71-73 | at most one lock of a cycle is a start |
| `LockCoverage.MissesOneOfTwo` | crates/aether-lockgraph/src/graph.rs:53-85 | two cycles through the first lock and exactly one report |
| `LockRecorder.LockOrderRecorder.Record` | crates/aether-lockgraph/src/recorder.rs:28-45 | the stacks kept from event to event are the replay of all events |
| `LockRecorder.ReplayHolds` | crates/aether-lockgraph/src/recorder.rs:52-68 | a replayed stack holds a lock exactly when the thread acquired it after its last release of it |
| `LockRecorder.StackIs` | crates/aether-lockgraph/src/recorder.rs:52-68 | a replayed stack lists the acquisitions not released since, in their order |
| `LockRecorder.LockOrderRecorder.BuildGraph` | crates/aether-lockgraph/src/recorder.rs:48-71 | an edge for each ordering some thread observed and no other; no duplicates; locks in the order and under the name of their first acquisition, edges labeled with the first observing thread |
| `LockRecorder.EndsAreNodes` | crates/aether-lockgraph/src/recorder.rs:54-61 | both ends of every edge are nodes |
| `LockRecorder.LockOrderRecorder.FindDeadlocks` | crates/aether-lockgraph/src/lib.rs:18-31 | a ring of locks, each acquired while the one before was held, is reported exactly from a lock to which no lock acquired sooner leads, once for each lock that closes such a ring; locks bear their first names, and reports come in the order of first acquisition |
| `LockRecorder.FreshIsFirst` | crates/aether-lockgraph/src/recorder.rs:48-71 | a listed lock is reached by no earlier one exactly when no lock acquired sooner leads to it |
| `Constraints.NegateFlips` | crates/aether-concolic/src/constraint.rs:18-84 | a negated constraint has the opposite truth value wherever it has one |
| `Constraints.TruthIff` | crates/aether-concolic/src/constraint.rs:67-84 | a constraint has a truth value exactly if both sides have values, its literal before its variable, and is true exactly if they compare as its kind says |
| `Constraints.IsTriviallySatisfiable` | crates/aether-concolic/src/constraint.rs:135-170 | the two loops, with overwriting equalities and wrapping bounds |
| `Constraints.AcceptedIff` | crates/aether-concolic/src/constraint.rs:135-170 | the check accepts exactly the sets in which each variable has a value that meets its literal bounds from its last equality on; disequalities, constraints between variables and impossible comparisons have no say |
| `Constraints.BoundsAreImplied` | crates/aether-concolic/src/constraint.rs:139-161 | every bound collected follows from the constraints, for all six kinds |
| `Constraints.RefusalIsSound` | crates/aether-concolic/src/constraint.rs:135-170 | if the check says no, no assignment satisfies the set |
| `Constraints.AcceptanceCanBeWrong` | crates/aether-concolic/src/constraint.rs:146-160 | for equalities, disequalities and literals at the ends of the range: accepted sets without a solution |
| `Constraints.WithinMeets` | crates/aether-concolic/src/constraint.rs:139-161 | a value within the bounds meets every comparison on its variable |
| `PushSolver.PushSatisfiesIff` | crates/aether-concolic/src/generator.rs:94-133 | the pushed value satisfies its constraint exactly when some integer does |
| `PushSolver.StandsStillIff` | crates/aether-concolic/src/generator.rs:79-83 | nothing is pushed exactly when the constraint holds or is impossible at the end of the range |
| `PushSolver.SolveAssignments` | crates/aether-concolic/src/generator.rs:61-91 | the bounded loop with its early exit |
| `PushSolver.QuietExitSatisfies` | crates/aether-concolic/src/generator.rs:85-87 | a stop because nothing changes leaves every possible literal constraint satisfied |
| `PushSolver.QuietExitCanFail` | crates/aether-concolic/src/generator.rs:104-110 | an impossible constraint left unsatisfied by such a stop |
| `PushSolver.RoundMeets` | crates/aether-concolic/src/generator.rs:71-84 | each push meets its constraint, breaks no earlier one, and moves towards every solution without passing it |
| `PushSolver.SettlesInTwoRounds` | crates/aether-concolic/src/generator.rs:71-88 | on every satisfiable set of literal constraints without disequalities one round suffices and the second changes nothing |
| `PushSolver.SolveIsComplete` | crates/aether-concolic/src/generator.rs:61-91 | on literal constraints without disequalities the solver finds an assignment exactly when there is one |
| `PushSolver.SolveIsNearest` | crates/aether-concolic/src/generator.rs:61-91 | it finds the solution nearest to zero in every variable |
| `PushSolver.SolverCanMiss` | crates/aether-concolic/src/generator.rs:71-88 | accepted, satisfiable sets it fails on: a disequality that circles, and a constraint between variables |
| `SolverReach.SolvesIff` | crates/aether-concolic/src/generator.rs:61-91 | on constraints of all kinds with fewer disequalities than rounds it succeeds exactly when the least solution that is non-negative or capped exists and meets the constraints between variables |
| `SolverReach.LiteralSolvesIff` | crates/aether-concolic/src/generator.rs:61-91 | on literal constraints, exactly when there is a solution that is non-negative or capped |
| `SolverReach.PlainSolvesIff` | crates/aether-concolic/src/generator.rs:61-91 | without disequalities, exactly when the solution nearest to zero meets the constraints between variables |
| `SolverReach.SolveReaches` | crates/aether-concolic/src/generator.rs:70-88 | it finds a solution of the literal constraints below every such one |
| `SolverReach.FirstRound` | crates/aether-concolic/src/generator.rs:71-84 | the first round meets all literal constraints but disequalities and passes no such solution |
| `SolverReach.ClimbRound` | crates/aether-concolic/src/generator.rs:71-84 | in later rounds only disequalities push, and each push leaves one behind for good |
| `SolverReach.RoundsRunOut` | crates/aether-concolic/src/generator.rs:70-88 | 64 disequalities listed from the top: accepted, satisfiable, and one step short after 64 rounds |
| `PushSolver.CheckIsExact` | crates/aether-concolic/src/constraint.rs:135-170 | on comparisons that some value meets the check accepts exactly the satisfiable sets |
| `InputGenerator.BuildFromPath` | crates/aether-concolic/src/constraint.rs:111-122 | one constraint per decision, negated if the branch was not taken |
| `InputGenerator.FlipConstraints` | crates/aether-concolic/src/generator.rs:22-40 | one candidate per decision, solved if the check accepts it |
| `InputGenerator.RetainFeasible` | crates/aether-concolic/src/generator.rs:46 | exactly the accepted candidates, in order |
| `InputGenerator.MergeEntries` | crates/aether-concolic/src/generator.rs:49-53 | entry values fill in only what the solver left open, whatever the order of the map |
| `InputGenerator.GenerateInputs` | crates/aether-concolic/src/generator.rs:43-57 | the first accepted candidates up to the limit; each with fewer disequalities than rounds flips its decision and no other exactly when that is within the solver's reach, and without disequalities on literals whenever some input does |
| `InputGenerator.CandidateIsCompleted` | crates/aether-concolic/src/generator.rs:48-53 | an input has a value for every variable of the path, and keeps the entry value of every other |
| `InputGenerator.InputFlipsOneBranch` | crates/aether-concolic/src/generator.rs:43-57 | with fewer disequalities than rounds the completed input takes the opposite branch at the flipped decision and the recorded branch at every other exactly when the flipped constraints are within the solver's reach, on literals without disequalities exactly when any input does |
| `InputGenerator.MergeKeepsSatisfaction` | crates/aether-concolic/src/generator.rs:48-53 | entry values change nothing for the flipped constraints |
| `InputGenerator.FlipsIffSatisfies` | crates/aether-concolic/src/constraint.rs:67-131 | taking the flipped path is satisfying the flipped constraints |
| `InputGenerator.OfferedIffPossible` | crates/aether-concolic/src/generator.rs:22-57 | a flip is offered exactly when some assignment takes that path |

## Left out

- `Execution.ConcurrencyIsInvisible`: a tool's run is one atomic piece; a tool that suspends half-way through its own reads is not modelled. Hooks are functions of their arguments.
- `Mcp.EveryRunKeeps`: for fewer than 2^64 - 1 requests per client; after that the id counter wraps around and ids repeat.
- `Mcp.ClientState.RegisterWaiter`: one transport holds the lock while it writes the request; the model lets other events happen in between for all three, which only adds interleavings.
- Building the taint graph (two pushes), edge labels, symbols and locations are not part of this model.
- `Sse.ParseSse`: what the JSON of an event says is a parameter; token usage, the callbacks to the terminal and the conversion of blocks into a response are not part of this model.
- `EventStream.ReadEvents`: what is done with an event (the filter on its type, base64, JSON) is not part of this model, nor are the checksums, which the parser skips.
- `Sse.ReadPayloads`: a failed read of the next chunk, which ends this stream and the event stream with an error, is not an input here; `Sse.ParseSse` has it.
- `SolverReach.SolvesIff`: with 64 disequalities or more only `PushSolver.SolvedIffSettled`, which looks at the result.
- `Constraints.IsTriviallySatisfiable`: overflow wraps around as in release builds; debug builds stop with a panic instead.
- `Planner.Plan.Refresh`: the lines of the view are a datatype instead of text matched by regular expressions, so rule ids contain no comma, bracket or space, and the goal is one line. The wording of guidance is left out.
- Texts and names are sequences of characters and bytes; UTF-8 validation of header names and event texts is left out.
- JSON documents, tool bodies, hooks, prompter, summarizer and verifier are parameters or arbitrary inputs of a turn. The read-only test for shell commands is a parameter of the executor, and its warning filters do nothing.
- Interrupting a turn with the keyboard leaves the history as a failed summary or a failed model call does, followed by an edit; partial effects of an interrupted tool are not modelled.
- The token threshold of compaction is an arbitrary number per turn; the floating-point percentages, the model's window size and the lowering for stuck tools only determine that number.
- Reminders are those of the hooks. The session's own (budgets, scope, persona, focus, progress, format), duplicate detection, extended thinking, tool lists, timers and statistics are left out; none of them touches the history. Neither do per-tool output limits but for the content of results, which they shorten.
- The texts of notices are abbreviated constants; nothing depends on their wording.
- `TaintPaths.FindTaintPaths`: which of several shortest paths to a sink is reported, and in which order sinks equally far away, follows the order of the edges; a report promises neither.
- `LockOrder.LockGraph.FindCycles`: the same of the path that closes a cycle, and of the order of the cycles from one start.
- The depth-first search also keeps a set of the locks on its stack, which nothing reads.
- Regex scanners, audit crates, HTTP, processes, credentials, the terminal interface and the command line are left out: input and output, or tables of single branches.
