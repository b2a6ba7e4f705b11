# A verified model of the Jepsen test scheduler

The repository is a C++ test driver for distributed systems in the manner of Jepsen. Its heart is
`Runner::runCases`: one scheduler thread asks a *generator* for operations, hands each to the worker
thread that runs the operation's process, and collects completions from a shared queue, while the
generators form a small language of combinators. This project models that scheduler, its workers and
the generator language, and the base64 coder that names cached downloads, and proves what they
guarantee for every generator, every run and every input.

## How the model is built

* **Operations, contexts** (`Operations`, `Contexts`). An operation is a kind, a payload, a time and a
  process; function, value and helper fields are the payload, which nothing here inspects. Threads are
  the clients `0 .. n-1` and the nemesis `-1`.
* **Generators** (`Generators`, `Evaluation`). A generator is a value. `TimeLimit` and `Stagger` write
  their own fields while they are asked, and the runner keeps the receiver whenever it throws the
  successor away, so `Op` returns three things: the operation, the successor, and what the receiver has
  become. `Mix::copyOne` shares the children of the original instead of the copies it has made;
  `WriteBack` carries what happens to the shared children back to the original. Randomness is an
  `Oracle`: a value for every position of the evaluation at which a draw can be made.
* **Two semantics of generators.** `Streams` gives the exact sequence that a finite generator hands
  out. `Traces` gives, for every nesting of all the combinators, the sequences it can hand out, without
  mentioning `op` or `update`. Both speak of requests, that is of the kind and the payload of the
  operations. Both are proved against `Op`, and against each other (`PlainTraces`).
* **What each generator answers** (`Alternatives`, `Combinators`). For every combinator, the answer, the
  successor and what the receiver remembers are stated exactly in terms of the answers of its children,
  and the random draws count only by their remainders (`Selection`, `Fairness`).
* **What a generator becomes** (`Cutoffs`, `Descents`, `Budgets`, `Calls`, `Staggering`, `Intervals`).
  Copies, updates and receivers keep every cutoff that is set; successors descend from the generator,
  limit by limit; every operation is paid for, by one that the generator held or by a call of a function.
* **The protocol** (`Histories`, `Workers`, `Scheduling`, `Protocol`, `SchedulerSteps`, `Runs`). A
  `System` holds the scheduler's variables, the in-queues, the operation in each worker's hands, the
  completions, the clients and the clock. An action is one step of one party; a run is any interleaving
  of enabled actions. Completions are taken in any order, which includes every order the queue allows.
  The clock never goes back. A reply keeps the process of its operation and is otherwise arbitrary.
* **Results over all runs** (`Safety`, `Effects`, `Turns`, `Provenance`, `Calls`, `Delivery`,
  `Completion`, `Conformance`, `Realizations`, `Timing`, `Lineage`, `Intervals`). Those stated of a state
  that satisfies the invariant hold of every reachable one, by `ReachableInv`; `ListsFinish` shows that
  finished runs exist.
* **Code that works in place** keeps that form: the class `Running.Runner` is the loop of `runCases`,
  field by field, and is proved to perform exactly the steps of the transition system;
  `Workers.ClientWorker` is the worker thread; `Base64.Encode` and `Base64.Decode` work with a wrapping
  32-bit accumulator and an output buffer; `FindThread`, `RestrictContext` and `ChooseSoonest` are the
  search, restriction and selection loops.

A test is `Fit` when its generator is well-formed and disciplined. *Well-formed*: functions never
return nil, lists are not empty, every `Mix` has a valid index and an inexhaustible child, and only
lists, `Validate` and `OnThreads` hold null. *Disciplined*: every leaf leaves its process open, or
presets the nemesis beneath filters that admit only the nemesis. Both are needed: an empty `mix`
divides by zero, and a preset process is handed out without a check (`PresetProcessMayBeBusy`,
`FillInNamesFreeIff`).

## Where the code does not do what one would expect

* A wrapper drops an answer without a successor, so it loses the last operation of a child that ends
  with one. For `OnThreads`, `Stagger` and each child of `Any`, a finished run has handed out all of
  the child if and only if the child does not end so: `FilterLosesIff`, `StaggerLosesIff`,
  `AnyLosesIff`, with `FilterDropsLast` as the instance of a list. `TimeLimit` and `Mix`, which may stop
  earlier for other reasons, never hand the last operation out: `LimitLosesLast`, `MixLosesLast`.
* `Stagger` ignores its interval, because the constructor throws the next time away
  (src/jepsen/generator/Generator.h:180-182): tests that differ in intervals only have the same runs,
  `IntervalsDoNotMatter`. Copying and updating a `Stagger` lose its next time: `CopyLosesNextTime` and
  `UpdateLosesNextTime`, and exactly when in `CopyIsFaithfulIff` and `UpdateIsFaithfulIff`.
* Encoding the empty string fails an assertion, because the size less two wraps around:
  `Base64.Encode` fails on exactly that input and on those that are too long.

## Model

| member | source | states |
|---|---|---|
| `Contexts.RandomFreeProcess` | src/jepsen/Context.cpp:5-19 | the answer is held by a free thread, and is the invalid process exactly when none is free |
| `Contexts.RandomFreeProcessCovers` | src/jepsen/Context.cpp:5-19 | every free thread is the answer to some draw |
| `Contexts.RandomFreeProcessIff` | src/jepsen/Context.cpp:5-19 | a free thread is the answer exactly for the draws with one remainder, when divided by the number of free threads: all are equally likely |
| `Contexts.FindThread` | src/jepsen/Context.cpp:31-38 | the search finds a holder of the process, fails only if there is none, and does not depend on the order of the map when no process is shared |
| `Contexts.AllocatedInverts` | src/jepsen/Context.cpp:31-38 | under the allocation of processes no process is shared and looking one up gives its thread back |
| `Contexts.AllocatedMultiples` | src/jepsen/Context.cpp:21-29 | client `t` holds `t + k * n` for some natural `k` |
| `Contexts.NextProcessKeepsAllocation` | src/jepsen/Context.cpp:21-29 | a crashed client moves up by the number of clients and the allocation stays one |
| `Contexts.InitialAllocation` | src/jepsen/Runner.cpp:166-173 | the allocation at the start is one |
| `Contexts.OnThreadsContext` | src/jepsen/generator/Generator.cpp:94-111 | exactly the accepted threads remain, free or not, with the same processes and time, and a valid context stays valid |
| `Contexts.RestrictContext` | src/jepsen/generator/Generator.cpp:94-111 | the two loops compute the restricted context |
| `Selection.FoldCorrect` | src/jepsen/generator/Generator.cpp:165-189 | the running candidate is a usable operation of minimal time, its weight is the number of candidates tied with it, it is pending only if all are, absent only if there is none |
| `Selection.StepByRemainder` | src/jepsen/generator/Generator.cpp:176-185 | at each child the draw counts only by its remainder, when divided by the number of children tied so far, however large it is |
| `Selection.FoldByRemainder` | src/jepsen/generator/Generator.cpp:394-410 | the choice for any draws is the one for their remainders, which are among the sequences that the fairness results count |
| `Selection.LastPending` | src/jepsen/generator/Generator.cpp:170-175 | when all usable children are pending the last of them is the choice |
| `Selection.ChooseSoonest` | src/jepsen/generator/Generator.cpp:394-410 | the loop returns such a candidate and fails exactly when no child is usable |
| `Selection.Fair` | src/jepsen/generator/Generator.cpp:176-185 | of all sequences of draws every tied child is chosen by the same share |
| `Selection.FairInNumbers` | src/jepsen/generator/Generator.cpp:176-185 | among `k` tied children each is chosen by `(k-1)!` of the `k!` sequences of draws |
| `Selection.NeverChosen` | src/jepsen/generator/Generator.cpp:187-187 | no draws choose a child that is undercut |
| `Fairness.AnyIsFair` | src/jepsen/generator/Generator.cpp:393-419 | whatever the children of `Any` draw, each that offers an operation at the soonest time is the one that answers for the same share of the draws that break the tie |
| `Fairness.AnyIsFairInNumbers` | src/jepsen/generator/Generator.cpp:393-419 | with all `k` children tied each answers for `(k-1)!` of the `k!` records of draws |
| `Fairness.ChoiceByRemainder` | src/jepsen/generator/Generator.cpp:393-419 | whatever the source of randomness yields, the child that answers is that of a counted record: the draws reduced to their remainders |
| `Fairness.AnyPassesOver` | src/jepsen/generator/Generator.cpp:393-419 | a child that is undercut answers for none |
| `Fairness.AnswerOfChoice` | src/jepsen/generator/Generator.cpp:412-418 | the child that is counted is the one whose operation and successor `Any` gives, the others staying as they are |
| `Fairness.OpAgrees` | src/jepsen/generator/Generator.cpp:30-70 | answers depend on the values drawn and on nothing else about the source of randomness |
| `Alternatives.AnySelects` | src/jepsen/generator/Generator.cpp:393-419 | `Any` answers nil exactly if no child has a usable answer, otherwise with a child's operation of minimal time, pending only if all are, and its successor leaves the other children unconsumed, with the cutoffs they had |
| `Alternatives.MixSelects` | src/jepsen/generator/Generator.cpp:357-380 | `Mix` answers with its current child's operation, replaces that child only and leaves the others the cutoffs they had; the next index is the draw's remainder by the number of children. A child without a usable answer is dropped, and the mix of the others answers, with the index that is drawn among them |
| `Combinators.OperationAnswers` | src/jepsen/generator/Generator.cpp:12-40 | an operation is offered once, filled in for some free thread, and stays while it is pending: exactly if no thread is free or it is pending of itself |
| `Combinators.FunctionAnswers` | src/jepsen/generator/Generator.cpp:41-46 | a function is called once for a question; its operation is offered as an operation would be, and what is left is that operation, or null once it has been offered, in front of the function |
| `Combinators.FunctionIsAskedAfresh` | src/jepsen/generator/Generator.cpp:36-61 | after an operation has been offered the next answer is that of a new call |
| `Combinators.FunctionKeepsPending` | src/jepsen/generator/Generator.cpp:36-61 | after a pending answer the operation already returned is offered first |
| `Combinators.ListAnswers` | src/jepsen/generator/Generator.cpp:52-65 | a list passes on the answer of its first element, if not nil, and puts the successor in its place |
| `Combinators.ListMovesOn` | src/jepsen/generator/Generator.cpp:54-57 | an exhausted element makes way for the list of the others, and nil is answered when there are none; the receiver keeps what it shares with the copies |
| `Combinators.ValidateAnswers` | src/jepsen/generator/Generator.cpp:234-254 | Validate passes every answer on |
| `Combinators.FilterAnswers` | src/jepsen/generator/Generator.cpp:269-276 | a filter asks in the restricted context and passes on every answer with a successor |
| `Combinators.LimitAnswers` | src/jepsen/generator/Generator.cpp:294-313 | a time limit passes on every pending answer with a successor and every operation with a successor before the cutoff, and answers nil exactly otherwise |
| `Combinators.LimitLetsThroughIff` | src/jepsen/generator/Generator.cpp:300-308 | the first operation gets through if and only if the limit is positive, a later one if and only if it comes before the cutoff |
| `Combinators.StaggerAnswers` | src/jepsen/generator/Generator.cpp:326-344 | a stagger passes on every answer with a successor, puts an operation off until the time that it remembers, and forgets that time in the successor of an operation |
| `Combinators.MixGives` | src/jepsen/generator/Generator.cpp:357-368 | a mix whose current child has a usable answer gives it, and remembers what the child has become |
| `Combinators.MixPassesOn` | src/jepsen/generator/Generator.cpp:369-379 | else the child that is drawn among the others answers in its place, if it can |
| `Combinators.MixRemembers` | src/jepsen/generator/Generator.cpp:369-379 | the receiver keeps the exhausted child in its place and what the others share with their copies |
| `Combinators.AnyRemembers` | src/jepsen/generator/Generator.cpp:393-419 | the receiver remembers what every child has become, chosen or not, and so does the successor for those not chosen |
| `Combinators.UnsharedStays` | src/jepsen/generator/Generator.cpp:203-231 | without Mix a copy has nothing in common with its original |
| `Combinators.WriteBackShares` | src/jepsen/generator/Generator.cpp:384-391 | the children of a Mix are those of its copy, wherever it stands |
| `Evaluation.Op` | src/jepsen/generator/Generator.cpp:30-70 | evaluation terminates and stays in range for every well-formed generator; the successor is null or well-formed, nil has no successor, inexhaustible generators always answer and stay so, and the receiver changes only in cutoffs and next times. What each generator answers is stated in `Combinators` |
| `Evaluation.ListKept` | src/jepsen/generator/Generator.cpp:52-65 | a list whose first element answers keeps the guarantees of `Op`: well-formed successor, inexhaustible if it was, receiver changed only in cutoffs and next times |
| `Evaluation.Popped` | src/jepsen/generator/Generator.cpp:54-57 | the list without its exhausted first element: well-formed, smaller, inexhaustible if the list was |
| `Evaluation.Limited` | src/jepsen/generator/Generator.cpp:294-313 | the answer of a time limit changes the receiver in its cutoff only and keeps the guarantees of `Op`; when it answers is `Combinators.LimitAnswers` |
| `Evaluation.Staggered` | src/jepsen/generator/Generator.cpp:326-344 | the answer of a stagger keeps the guarantees of `Op` |
| `Evaluation.MixKept` | src/jepsen/generator/Generator.cpp:363-368 | the new mix has a valid index and an inexhaustible child |
| `Evaluation.Remixed` | src/jepsen/generator/Generator.cpp:369-376 | dropping an exhausted child leaves a well-formed, smaller mix: the new index is never drawn from an empty vector; which index it is, is in `Alternatives.MixSelects` |
| `Evaluation.AnyPicked` | src/jepsen/generator/Generator.cpp:412-418 | the copy with the chosen child replaced is well-formed and keeps the guarantees of `Op` |
| `Generators.CopySame` | src/jepsen/generator/Generator.cpp:221-231 | a copy differs from the original at most in next times |
| `Generators.UpdateSame` | src/jepsen/generator/Generator.cpp:72-92 | an update differs from the original at most in cutoffs and next times |
| `Generators.CopyIsFaithful` | src/jepsen/generator/Generator.cpp:203-231 | without Stagger a copy is the original |
| `Generators.CopyIsFaithfulIff` | src/jepsen/generator/Generator.cpp:349-355 | in general a copy is the original if and only if no Stagger it reaches has a next time |
| `Generators.CopyForgets` | src/jepsen/generator/Generator.h:180-182 | no Stagger that a copy reaches has a next time in the copy |
| `Generators.CopyLosesNextTime` | src/jepsen/generator/Generator.h:180-181 | a Stagger whose copy is not the original |
| `Generators.UpdateIsFaithful` | src/jepsen/generator/Generator.cpp:72-92 | without Stagger an update is the original |
| `Generators.UpdateIsFaithfulIff` | src/jepsen/generator/Generator.cpp:72-92 | in general an update is the original if and only if no Stagger that it rebuilds has a next time: those on the way of the event, past the filters that accept its thread, and those in the tails of lists |
| `Generators.UpdateForgets` | src/jepsen/generator/Generator.cpp:345-348 | nor has one that an update rebuilds: a second update for the same event changes nothing more |
| `Generators.UpdateLosesNextTime` | src/jepsen/generator/Generator.cpp:345-348 | a Stagger that every update makes forget its next time |
| `Generators.WriteBackSame` | src/jepsen/generator/Generator.cpp:384-391 | children shared with a copy change at most in cutoffs and next times |
| `Staggering.StaggerOnlyDelays` | src/jepsen/generator/Generator.cpp:326-344 | Stagger changes only the time, only upwards, and not at all exactly if the operation is due |
| `Intervals.IntervalIsIgnored` | src/jepsen/generator/Generator.h:180-182 | generators that agree but for intervals, at any depth, give the same operation, and successors and receivers that agree likewise |
| `Intervals.OpEven` | src/jepsen/generator/Generator.cpp:326-344 | setting all intervals to one before asking is the same as setting them after |
| `Intervals.IntervalsDoNotMatter` | src/jepsen/Runner.cpp:184-248 | tests that agree but for intervals have the same runs, with the same history, queues, workers and clock |
| `Staggering.NextStaggerFree` | src/jepsen/generator/Generator.cpp:30-70 | no answer brings in a Stagger |
| `Cutoffs.OpSettled` | src/jepsen/generator/Generator.cpp:294-313 | at any depth the receiver keeps every cutoff that is set, whatever it answers |
| `Cutoffs.CopySettled` | src/jepsen/generator/Generator.cpp:318-324 | so does a copy |
| `Cutoffs.UpdateSettled` | src/jepsen/generator/Generator.cpp:314-317 | so does an update |
| `Descents.NextDescends` | src/jepsen/generator/Generator.cpp:30-70 | every time limit left in a successor, at any depth, comes from one of the generator and keeps its cutoff if that was set |
| `Descents.DescendsTrans` | src/jepsen/generator/Generator.cpp:30-92 | descent composes over any number of steps |
| `Budgets.OpSpends` | src/jepsen/generator/Generator.cpp:30-70 | without functions and mixes, every operation offered lowers the number of operations that are left |
| `Leaves.LeafWithin` | src/jepsen/generator/Generator.cpp:94-111 | nested filters only narrow the threads of a leaf |
| `Leaves.NextWithin` | src/jepsen/generator/Generator.cpp:30-70 | a successor has no leaves that the generator did not have |
| `Leaves.Origin` | src/jepsen/generator/Generator.cpp:12-28 | every answer of every nesting is some leaf filled in for a free thread that all enclosing filters accept, or turned pending because none of those threads is free; if the leaf leaves its time open, every time limit around it has in the successor a cutoff that is set and later than now |
| `Leaves.Sound` | src/jepsen/generator/Generator.cpp:12-28 | an operation of a disciplined generator names a process held by a free thread; with open times its time is not before the context's, and equal to it if no Stagger waits for a later time |
| `Leaves.PendingMeansBusy` | src/jepsen/generator/Generator.cpp:24-26 | if every leaf may use some thread a pending answer means that some thread is busy |
| `Leaves.FiltersRespected` | src/jepsen/generator/Generator.cpp:269-276 | beneath a filter only accepted threads are used |
| `Leaves.FillInNamesFreeIff` | src/jepsen/generator/Generator.cpp:13-17 | the process filled in is held by a free thread if and only if it was open or the preset one is |
| `Leaves.PresetProcessMayBeBusy` | src/jepsen/generator/Generator.cpp:13-17 | a context in which a preset process is handed out to a busy thread |
| `Streams.OpAdvances` | src/jepsen/generator/Generator.cpp:47-66 | every answer of a finite generator takes the first operation off its stream, or there is none, or it is pending |
| `Streams.ListOfOperations` | src/jepsen/generator/Generator.cpp:47-66 | the stream of a list of operations is that list |
| `Traces.OpLeads` | src/jepsen/generator/Generator.cpp:30-70 | for every nesting of combinators, an answer is a step of a trace, its successor's traces go on from there, and nil is answered only where a trace is complete |
| `Traces.SameCan` | src/jepsen/generator/Generator.cpp:72-92 | generators that differ in cutoffs and next times have the same traces |
| `Conformance.PlainTraces` | src/jepsen/generator/Generator.cpp:47-66 | the traces of a finite generator are exactly the prefixes of its stream, complete exactly at its end |
| `Conformance.RunsAreTraces` | src/jepsen/Runner.cpp:184-248 | in every run what was handed out is a trace of the test's generator, and in a finished run a complete one |
| `Conformance.LimitCutsAPrefix` | src/jepsen/generator/Generator.cpp:294-313 | a time-limited test hands out a prefix of what its inner generator would |
| `Conformance.AnyInterleaves` | src/jepsen/generator/Generator.cpp:393-419 | over whole runs `Any` interleaves its children, whatever they are: each contributes a trace of its own as a wrapper lets it through, complete in a finished run, and a finite one a prefix of its stream |
| `Conformance.MixInterleaves` | src/jepsen/generator/Generator.cpp:357-380 | so does `Mix`, and a run of it ends only by an exit operation |
| `Conformance.FilterLosesIff` | src/jepsen/generator/Generator.cpp:269-276 | a finished run of a filter has handed out all of a finite generator if and only if that does not end with an operation, and otherwise all but the last |
| `Conformance.StaggerLosesIff` | src/jepsen/generator/Generator.cpp:326-344 | the same for a stagger |
| `Conformance.AnyLosesIff` | src/jepsen/generator/Generator.cpp:393-419 | the same for each finite child of an `Any`, whatever the others are |
| `Conformance.LimitLosesLast` | src/jepsen/generator/Generator.cpp:294-313 | a time limit never hands out the operation that its child ends with |
| `Conformance.MixLosesLast` | src/jepsen/generator/Generator.cpp:357-380 | nor does a mix |
| `Conformance.FilterDropsLast` | src/jepsen/generator/Generator.cpp:7-9 | a finished run of a filtered list of operations has handed out all but the last |
| `Realizations.TracesAreRuns` | src/jepsen/Runner.cpp:184-248 | the converse of `RunsAreTraces` for an `Any` of finite generators with open times: every interleaving of its children is what some run hands out, a complete one what a finished run does |
| `Realizations.FinishedRunsAreCompleteTraces` | src/jepsen/Runner.cpp:184-248 | for those, the complete traces are exactly what finished runs hand out |
| `Workers.InvokeAlive` | src/jepsen/Worker.cpp:54-66 | serving processes that do not go back keeps every call with an open client, one client for a process and one process for a client |
| `Workers.CloseDedicated` | src/jepsen/Worker.cpp:68-74 | closing keeps that |
| `Workers.ClosedOnce` | src/jepsen/Worker.cpp:44-74 | after the final close every client has been opened once and closed once |
| `Workers.InvokeOneAtATime` | src/jepsen/Worker.cpp:54-66 | a client is opened only when all before it have been closed |
| `Workers.OneCall` | src/jepsen/Worker.cpp:54-66 | serving an operation is one call, for its process |
| `Workers.BeforeExit` | src/jepsen/Worker.cpp:22-42 | the operations that are served are those before the first exit |
| `Workers.ClientWorker.constructor` | src/jepsen/Worker.h:61-64 | a new worker has no client and no process |
| `Workers.ClientWorker.PutOp` | src/jepsen/Worker.h:40-42 | the operation is queued last |
| `Workers.ClientWorker.PutAll` | src/jepsen/Worker.h:40-42 | several operations are queued in order |
| `Workers.ClientWorker.CloseClient` | src/jepsen/Worker.cpp:68-74 | the client, if any, is closed and dropped |
| `Workers.ClientWorker.InvokeClient` | src/jepsen/Worker.cpp:54-66 | a change of process closes the client and opens a new one before the call |
| `Workers.ClientWorker.ServeNext` | src/jepsen/Worker.cpp:22-42 | one turn of the worker's loop |
| `Workers.ClientWorker.RunAsync` | src/jepsen/Worker.cpp:9-48 | from any queue, while operations keep coming in: the worker answers those before the first exit, in order, takes one in every turn in which there is one, and at the exit closes its client and leaves the rest |
| `Histories.CompletionOf` | src/jepsen/Runner.cpp:198-241 | in an alternating history a dispatch that is not open has exactly one completion, the next entry of its process |
| `Protocol.InitialInv` | src/jepsen/Runner.cpp:159-183 | the start satisfies the invariant |
| `Protocol.TakeKeeps` | src/jepsen/Worker.cpp:22-38 | a worker taking an operation keeps the invariant |
| `Protocol.ReplyKeeps` | src/jepsen/Worker.cpp:33-37 | a worker queueing a result keeps the invariant |
| `Protocol.StopKeeps` | src/jepsen/Worker.cpp:27-30 | a worker taking the exit operation keeps the invariant |
| `SchedulerSteps.DeliverKeeps` | src/jepsen/Runner.cpp:186-200 | taking a completion finds its thread and keeps the invariant |
| `SchedulerSteps.AskedThread` | src/jepsen/Runner.cpp:229-243 | an operation is handed out only to a free thread that holds its process, and only when its time has come |
| `SchedulerSteps.PollKeeps` | src/jepsen/Runner.cpp:201-246 | asking the generator keeps the invariant, whether it waits, hands out or finishes |
| `Runs.Apply` | src/jepsen/Runner.cpp:184-248 | every enabled step is defined and keeps the invariant |
| `Runs.RunInv` | src/jepsen/Runner.cpp:184-248 | every state of every run satisfies the invariant |
| `Safety.ReachableInv` | src/jepsen/Runner.cpp:159-249 | every reachable state satisfies the invariant |
| `Safety.Conservation` | src/jepsen/Runner.cpp:186-243 | a busy thread has one operation in its in-queue, its hands and the completions together, a free one none |
| `Safety.QueueBounds` | src/jepsen/Runner.cpp:159-161 | the counter is the number of busy threads and bounds the completions, which fit the queue's capacity |
| `Safety.OneOperationEach` | src/jepsen/Runner.cpp:159-249 | both, at every moment of every run |
| `Safety.WellFormedHistory` | src/jepsen/Runner.cpp:186-246 | in every prefix of every run each process alternates dispatch and completion and no crashed process returns; after the exit branch nothing is open, queued or in hand but exit operations |
| `Safety.EveryDispatchCompletes` | src/jepsen/Runner.cpp:206-224 | in a finished run every dispatch has its completion as the next entry of its process |
| `Safety.EveryCompletionWasDispatched` | src/jepsen/Runner.cpp:186-243 | at every moment of every run a completion is preceded by its own dispatch, with no other entry of its process between |
| `Safety.ProcessAllocation` | src/jepsen/Runner.cpp:188-197 | in every reachable state a client holds `t + k * n`, the nemesis its own number, and lookups invert the mapping |
| `Safety.DedicatedClients` | src/jepsen/Worker.cpp:44-74 | over whole runs no client serves two processes, every call goes to an open client, and a stopped worker has closed each client once |
| `Safety.FreshClientAfterCrash` | src/jepsen/Worker.cpp:54-66 | the operation after a crash goes to a client that never served the crashed process |
| `Safety.OutstandingMoves` | src/jepsen/Runner.cpp:205-211 | an outstanding operation can always move on |
| `Safety.NoDeadlock` | src/jepsen/Runner.cpp:205-228 | the scheduler waits only for a time or for an operation that can move on |
| `Provenance.NeverWaitsInVain` | src/jepsen/Runner.cpp:205-228 | the same, over every run of a test whose leaves may each use some thread |
| `Provenance.EveryDispatchIsOffered` | src/jepsen/Runner.cpp:229-243 | over every run, an operation handed out is that of a leaf of the test's generator, to a thread that all filters around the leaf accept |
| `Calls.OpSource` | src/jepsen/generator/Generator.cpp:30-70 | for every nesting, an operation comes from one that the generator held and holds no more, or from a call of one of its functions in the context of this very question; the successor has no other functions |
| `Calls.RunSource` | src/jepsen/Runner.cpp:184-248 | so it is for every operation handed out in any run from any state |
| `Calls.OwnCalls` | src/jepsen/Runner.cpp:184-248 | different operations come from calls at different steps of the run |
| `Calls.EveryDispatchIsPaidFor` | src/jepsen/Runner.cpp:184-248 | over whole runs, the operations that the test's generator holds are handed out at most as often as it holds them, and everything else is what one of its functions returned when it was called for this, in the context of that moment, behind the filters around it; no two share a call |
| `Effects.StepEffect` | src/jepsen/Runner.cpp:186-246 | what each step does to the generator and the history |
| `Effects.GenEffect` | src/jepsen/Runner.cpp:225-240 | but for cutoffs and next times the generator moves only when an operation is handed out: successors thrown away leave no trace |
| `Turns.HandsOutIff` | src/jepsen/Runner.cpp:229-243 | a question hands the operation out if and only if it is one and it is due; it goes to the in-queue of a free thread that holds its process, and into the history |
| `Turns.FinishesIff` | src/jepsen/Runner.cpp:206-224 | the test is over if and only if the generator has nothing more and nothing is outstanding, and every worker then gets one exit operation |
| `Turns.WaitsInTime` | src/jepsen/Runner.cpp:203-243 | an operation that is not due yet is not overslept: the scheduler is back within a microsecond of its time; otherwise it waits the longest time, or not at all after handing out |
| `Turns.TakesCompletion` | src/jepsen/Runner.cpp:186-200 | a completion enters the history with the current time and frees its thread, which moves to its next process exactly after a crash |
| `Turns.WorkersServeTheHistory` | src/jepsen/Runner.cpp:235-243 | in every run what a worker has in its queue or hands is exactly the operation last handed out to its process |
| `Turns.OneCallEach` | src/jepsen/Worker.cpp:22-42 | in every run each operation handed out to a client thread is one call of its client, in order, but for one that may still be queued |
| `Turns.OneClientAtATime` | src/jepsen/Worker.cpp:54-74 | in every run no worker opens a client before it has closed those before |
| `Delivery.HandsOutTheStream` | src/jepsen/Runner.cpp:184-248 | at every moment a prefix of a finite generator's stream, kinds and payloads, has been handed out, and all of it in a finished run |
| `Delivery.ExactlyOnce` | src/jepsen/Runner.cpp:184-248 | a finished run of a list of operations has handed out exactly those, kind and payload, an open kind being an invocation, once each and in order, and all have come back |
| `Delivery.OperationsFit` | src/jepsen/generator/Generator.cpp:47-66 | a list of operations with open processes is fit for any threads |
| `Delivery.LoadStep` | src/jepsen/Runner.cpp:184-248 | a dispatch adds three steps to what is outstanding, moving an operation takes one off, nothing else changes it, and the run ends only with none |
| `Delivery.WorkStep` | src/jepsen/Runner.cpp:184-248 | each step that moves an operation does one unit of the remaining work, the others none |
| `Delivery.FourStepsEach` | src/jepsen/Runner.cpp:184-248 | no run of a finite generator makes more than four such steps for each operation, and a finished one exactly that many, for lists, filters and staggers |
| `Completion.Drain` | src/jepsen/Runner.cpp:186-200 | from every state what is outstanding can come back with nothing else happening |
| `Completion.AskWhenIdle` | src/jepsen/Runner.cpp:201-246 | with nothing outstanding, asking ends the run or yields an operation to hand out |
| `Completion.CanAlwaysFinish` | src/jepsen/Runner.cpp:184-248 | whatever has happened so far in a test without functions and mixes, with staggers, limits and alternatives nested at will, it can still finish, within two steps for each unit of work left and two more |
| `Completion.FourStepsAtMost` | src/jepsen/Runner.cpp:184-248 | no run of a test without functions and mixes makes more than four moving steps for each operation it holds, and what remains to be done fits in the difference |
| `Completion.LimitedCanAlwaysFinish` | src/jepsen/Runner.cpp:184-248 | so can a time-limited test, whatever it is made of inside, functions, mixes and staggers included |
| `Completion.InexhaustibleNeverFinishes` | src/jepsen/Runner.cpp:206-224 | an inexhaustible test without exit operations never finishes |
| `Completion.ListsFinish` | src/jepsen/Runner.cpp:184-248 | a list of operations with open processes and times has a finished run on any number of clients, and it hands out the list |
| `Timing.StampStep` | src/jepsen/Runner.cpp:189-203 | with open times every entry bears the clock of the step that made it |
| `Timing.HistoryOrdered` | src/jepsen/Runner.cpp:189-242 | the times of the whole history never decrease |
| `Timing.LimitedAnswer` | src/jepsen/generator/Generator.cpp:294-313 | the first operation offered sets the cutoff to its time and the limit, also in the receiver; a set cutoff stays and lets only earlier operations through |
| `Timing.LimitedStep` | src/jepsen/Runner.cpp:225-240 | so it does through every step of the system |
| `Timing.CutoffIsFinal` | src/jepsen/generator/Generator.cpp:300-305 | once set the cutoff is the same for the rest of every run, and bounds everything handed out |
| `Timing.LimitHolds` | src/jepsen/generator/Generator.cpp:294-324 | over whole runs nothing is handed out before the cutoff is set, and everything is earlier than it |
| `Timing.LimitedSets` | src/jepsen/generator/Generator.cpp:300-303 | a cutoff that is not set is set by the question to which an operation is offered, and by no other step |
| `Timing.CutoffComesFrom` | src/jepsen/generator/Generator.cpp:300-303 | a cutoff set in the course of a run is the time of the first operation offered in it, and the limit |
| `Timing.LimitFromFirstOffer` | src/jepsen/generator/Generator.cpp:294-324 | over whole runs everything handed out is earlier than the time of the first operation that the generator inside offered, and the limit |
| `Timing.LimitIsAWindow` | src/jepsen/generator/Generator.cpp:294-324 | without Stagger any two operations handed out are less than the limit apart |
| `Timing.LimitHandsOutIff` | src/jepsen/generator/Generator.cpp:300-308 | in every state a question hands out the operation that the generator inside the limit offers if and only if it comes with a successor, before the cutoff, and is due |
| `Timing.LimitIsExact` | src/jepsen/generator/Generator.cpp:294-324 | without Stagger, in every run, a question hands out what the generator inside offers with a successor if and only if the clock has not reached the cutoff, or no cutoff is set and the limit is positive |
| `Timing.PastTheCutoff` | src/jepsen/generator/Generator.cpp:304-308 | once the clock has reached the cutoff only completions remain |
| `Timing.FinishesPastTheCutoff` | src/jepsen/Runner.cpp:206-224 | and with nothing outstanding the next question ends the run |
| `Timing.SettledStep` | src/jepsen/Runner.cpp:225-233 | a step that hands nothing out keeps every set cutoff at any depth |
| `Timing.CutoffsSurvive` | src/jepsen/Runner.cpp:225-240 | so does any number of them |
| `Lineage.DescendsStep` | src/jepsen/Runner.cpp:184-248 | every step, dispatches included, leaves a descendant of the generator |
| `Lineage.CutoffsAreInherited` | src/jepsen/Runner.cpp:184-248 | from any state of a run to any later one every time limit left, at whatever depth, comes from one that was there and keeps its cutoff once set |
| `Lineage.EveryDispatchIsWithinItsLimits` | src/jepsen/generator/Generator.cpp:294-313 | over whole runs, for every operation handed out there is a moment right after it at which all the time limits around its leaf, at whatever depth, have cutoffs later than it |
| `Lineage.AlternativesKeepCutoffs` | src/jepsen/generator/Generator.cpp:393-419 | in a choice between generators no alternative's limit loses its cutoff once that is set, over any run |
| `Lineage.AlternativesAreLimited` | src/jepsen/generator/Generator.cpp:393-419 | in a choice between generators, some limited and some not, every operation handed out belongs to one of them: to one of its leaves, to a thread that the leaf may use, and earlier than the cutoff of that very alternative if it has a limit |
| `Running.AssignProcesses` | src/jepsen/Runner.cpp:163-173 | each thread starts with the process of its own number |
| `Running.Runner.constructor` | src/jepsen/Runner.cpp:159-183 | the runner starts in the initial state of the protocol |
| `Running.Runner.Complete` | src/jepsen/Runner.cpp:186-200 | the completion branch performs the protocol's step |
| `Running.Runner.Ask` | src/jepsen/Runner.cpp:201-246 | the other branch performs the protocol's step |
| `Running.Runner.Dispatch` | src/jepsen/Runner.cpp:235-243 | the operation goes to the in-queue of its thread, the thread is busy and the successor takes over |
| `Running.Runner.Conclude` | src/jepsen/Runner.cpp:206-224 | wait while something is outstanding, else an exit for every worker |
| `Running.Runner.Turn` | src/jepsen/Runner.cpp:184-248 | one turn of the loop is one step of the transition system |
| `Running.Runner.Elsewhere` | src/jepsen/Worker.cpp:22-44 | a step of the clock or of a worker is one step of the transition system |
| `Running.Runner.RunCases` | src/jepsen/Runner.cpp:184-248 | the loop leaves the state that the run of its schedule leads to |
| `Running.WorkerTurn` | src/jepsen/Worker.cpp:22-44 | a turn of the worker object is the worker's steps of the transition system, and leaves the object as they leave the worker |
| `Running.RunTest` | src/jepsen/Runner.cpp:159-249 | a whole test reaches only reachable states; its history alternates, crashed processes do not return, and at the end nothing is open |
| `Base64.SymbolHasValue` | src/jepsen/utils/base64.cpp:3-12 | the second table undoes the first |
| `Base64.ValueHasSymbol` | src/jepsen/utils/base64.cpp:3-12 | the first table undoes the second on symbols |
| `Base64.SymbolsInOrder` | src/jepsen/utils/base64.cpp:3-4 | the symbols in their order, entry by entry |
| `Base64.BytesByKind` | src/jepsen/utils/base64.cpp:6-12 | the bytes that have a value are the letters, the digits, plus and slash; those passed over are the six of white space and the equals sign |
| `Base64.EncodedByGroups` | src/jepsen/utils/base64.cpp:22-45 | the text is what section 4 of RFC 4648 defines: three bytes give their four symbols and the rest follows, two give three symbols and one padding, one gives two symbols and two |
| `Base64.NextSextet` | src/jepsen/utils/base64.cpp:30-37 | the six bits that the wrapping accumulator yields are the next 6-bit group, with `6 * outpos == 8 * consumed - bits` throughout |
| `Base64.LastSextet` | src/jepsen/utils/base64.cpp:38-42 | the trailing bits, filled up with zeros, are the last 6-bit group |
| `Base64.SizeGuard` | src/jepsen/utils/base64.cpp:18-24 | the guard is exactly the bound under which the size of the text does not overflow |
| `Base64.Encode` | src/jepsen/utils/base64.cpp:14-46 | the encoder computes that text, and fails exactly on the empty string and on those that are too long |
| `Base64.NextOctet` | src/jepsen/utils/base64.cpp:65-70 | the eight bits that the accumulator yields are the next byte of the symbols' bits |
| `Base64.Decode` | src/jepsen/utils/base64.cpp:48-73 | the decoder computes the bytes of the significant symbols, and fails exactly if some byte is neither a symbol nor skipped; which bytes those are is in `BytesByKind` and `RefusedIff` |
| `Base64.RoundTrip` | src/jepsen/utils/base64.cpp:14-73 | decoding undoes encoding, for all data |
| `Base64.InsertedSpace` | src/jepsen/utils/base64.cpp:56-60 | white space or padding anywhere in any text changes nothing |
| `Base64.InsertedByte` | src/jepsen/utils/base64.cpp:56-60 | tab, line feed, vertical tab, form feed, carriage return, space or the equals sign anywhere in any text changes nothing |
| `Base64.RefusedIff` | src/jepsen/utils/base64.cpp:61-64 | a text is refused if and only if it holds a byte other than these and the 64 letters, digits, plus and slash |
| `Base64.DecodedByGroups` | src/jepsen/utils/base64.cpp:65-70 | from left to right: four symbols give their three bytes and the rest follows, three give two, two give one and one gives none |
| `Base64.RoundTripWithSpace` | src/jepsen/utils/base64.cpp:48-73 | an encoded text with white space inserted anywhere decodes to the data |
| `Base64.EncodedInjective` | src/jepsen/utils/base64.cpp:14-46 | different data have different texts |
| `Base64.CacheNamesDistinct` | src/jepsen/Control.cpp:20-22 | distinct URLs get distinct cache names |
| `Base64.EncodeThenDecode` | src/jepsen/utils/base64.cpp:14-73 | the two programs in turn give the data back |

## Left out

- Remote execution, archives, daemons, the operating system and database set-up, the etcd code, logging, thread names and the class `Checker`: foreign calls and plumbing.
- Clients and the nemesis are a contract: a reply keeps the process of the operation. The client object of the nemesis worker is not tracked, since it is made once and never replaced.
- The queues are sequences; the lock-free implementation is not modelled, and the timeout of a dequeue only in that it may find nothing.
- A worker that finds its queue empty sleeps and looks again: an idle turn of `RunAsync`, and no step of the transition system.
- Generators as heap objects: a test that puts one generator object into its tree twice shares its fields in the program and not in the model. The sharing that `Mix::copyOne` makes is modelled.
- An empty list among the generators: asked, it answers nil, but updating it gives null, which `TimeLimit`, `Stagger`, `Mix` and `Any` cannot hold; well-formed generators have none.
- The two-argument constructor of `Stagger` leaves the next time uninitialised; in the model it is an arbitrary integer.
- A function generator is unfolded in one step instead of through the two-element list it is made into; its result depends on the context and on a draw.
- Integers are unbounded: overflow of process numbers, of times and of weights is not modelled, nor the floating point of `sec2nanos`. In the coder the accumulator is 32 bits wide and the size type 64.
- `clients`, `nemesis`, `any`, `timeLimit`, `stagger` and `mix` (src/jepsen/generator/Generator.cpp:113-162) only build the generators that are modelled.
- That each trace is what some run hands out is shown for an `Any` of finite generators; for functions, `Mix` and `TimeLimit`, whose limit depends on the clock, traces only bound what a run hands out.
- Exact streams and the exact count of steps are for generators of operations, lists, `Validate`, `OnThreads` and `Stagger`; for the other combinators there are traces and budgets.
