# Verified model of the videoUpscaler chain module

The videoUpscaler module splits a video upscaling job into threads, lets staked workers join a thread, has one of them
propose a signed solution, the others validate it, then reveals the frames, counts the votes, accepts and settles.
Seven message handlers and two block hooks change the chain state; a generated protobuf codec stores it. This project
models that protocol and that codec in Dafny and proves what they keep.

How the files fit together:

- `Records` is the data model, `Decimal` the decimal ids.
- `CliFormat`, `FrameSplit`, `Rewards`, `Tally` and `Reveal` are the helpers the handlers call: each loop of the source
  is a method proved against a function, and lemmas say what the function is for.
- `Chain` is the transition system: one function per handler and hook, `Step` and `Run` over any sequence of
  transactions, block hooks and outside bank activity. `Invariant` holds the inductive invariant and the proof that every
  step keeps it.
- `Effects` says of every message when it is accepted, what it changes and what it leaves alone, in terms of the store
  only; `Votes` does the same for the block hook that counts votes, and `Launches` for what the hooks start on a node.
- `Runs`, `Escrow`, `Conservation` and `Accounts` are claims over whole runs, `Hooks` what a node does with its local configuration,
  database, containers and files, `Evaluation` the reward of a completed thread's workers. `Ballots` says exactly when a
  ballot counts more than once, `Acceptance` what an accepted solution has behind it, `DeadEnds` which threads no
  continuation can finish.
- `Stage`, `Scenarios` and `StaleVotes` run the transition system from genesis, with the default parameters, into the
  states where a guarantee fails.
- `KeeperModule` is the imperative module: a class whose fields are the stores, with the handlers and hooks as methods
  that read, change and write them back, each proved to have exactly the effect of its transition.
- `Wire` is the protobuf wire format on any bytes (varints, tags, lengths, skipping with group depth; Protocol Buffers
  Encoding, sections "Base 128 Varints" and "Message Structure"), `Messages` the field tables of the four messages a
  stored thread is made of, `Codec` and `RoundTrip` what decoding gives back, `WireTable` the tag bytes, `Refusals` which
  bytes are refused and how, `Marshal` the buffer-filling, measuring and decoding methods.

Assumptions, all on the side of the environment:

- A handler that returns an error or panics leaves the state unchanged (the Cosmos SDK reverts it), and
  `Keeper.Deliver` restores the fields to say so. The hooks are not reverted; they are proved not to panic.
- Content-id syntax, key and signature decoding and signature verification are arbitrary predicates (`Oracle`).
- Everything local to a node is an arbitrary value (`Node`); a started goroutine is an emitted action, since it can reach
  the chain only through a later message. Database writes of the hooks are not tracked: a row read after work was
  launched may hold anything (`laterRow`).
- Go visits map keys in an arbitrary order: every order is quantified over.
- Encoding the signable message as JSON does not fail.

Where the code and its comments or intent disagree, the model follows the code:

- The comment above `IsSolutionAccepted` speaks of frames with more invalid than valid votes; the code counts frames that
  reach one or two valid votes and never reads the invalid count (`Tally.InvalidVotesIgnored`). In
  `Scenarios.OutvotedAccepted` a run accepts a solution with two votes for its frame and three against.
- The comment in `MapToKeyValueFormat` speaks of one comma-joined text; the code returns the list.
- `SubmitSolution` checks neither acceptance nor completion. `Escrow.SubmitBooks` gives the exact condition under which
  a settlement keeps the books, `Escrow.ResettlementDrains` the case in which it does not, and
  `Scenarios.StakesDrained` a run from genesis in which the account ends below the stakes. A payment that fails is ignored
  too, and the winnings are recorded: `Conservation.SubmitConserves` is the exact condition, `Scenarios.UnpaidWinnings` a
  run.
- `CreateVideoUpscalerTask` ignores a failed reward transfer; `Escrow.CreateBooks` gives the exact condition and
  `Scenarios.UnfundedCreation` a run.
- The loops of `EndBlock` start at id 0, ids start at 1, and the lookup error is dropped: a completed empty task appears
  under the empty key (`Chain.PHANTOM`). The invariant allows it and shows it to be inert.
- `BeginBlock` stores the whole task when one thread is accepted, so the counts of a thread judged before it stay, and the
  next pass counts the same ballots again: exactly when a later thread of the task is accepted
  (`Ballots.CountsLeftBehind`, `Ballots.CountedAgain`). `Scenarios.VoteCountedTwice` is a run in which a thread is
  accepted on one valid vote of the two it needs.
- A proposer is not released by its own validation and may validate again; everyone else at most once
  (`Ballots.ValidatesAgain`). Its repeated vote can be enough (`Ballots.OneVoterDecides`,
  `Scenarios.ProposerAcceptedAlone`).
- A proposer may reveal again, with other hashes, until its solution is accepted, and stored counts stay. So a counted vote
  may be for a hash since replaced: in `StaleVotes.StaleVoteAccepted`, a run, a thread is accepted that way.
  `Acceptance.AcceptanceBacked` gives what holds in every run, and `Acceptance.RunCurrent` the exact condition under which
  all counted votes are for the present hashes: no reveal gives a counted frame an unverified hash.
- Nothing stops a proposer from subscribing to another thread before it reveals, and it cannot come back, since it is
  already listed (`DeadEnds.LeavingStrands`, `DeadEnds.RevealableExactlyWhen`).
- A request with its last frame before its first is accepted. When it is reversed by at least as many frames as it has
  threads, no proposal can ever have the right length and the reward is never paid out (`DeadEnds.ReversedNeverPaid`).
- Thread ids are unique within a task only; `FrameSplit.ThreadNamesCollide` says exactly which threads of different tasks
  share one.

## Model

| member | source | states |
|---|---|---|
| Runs.PointersResolve | keeper/msg_server.go:158-182 | in every reachable state a worker with a task set names a stored task in progress with its index in range, and is listed in that thread, whose list is duplicate-free and within the limit: the "shouldn't happen" branches and index failures are unreachable |
| Runs.NobodyOnCompletedWork | keeper/msg_server.go:448-471 | in every reachable state nobody points at a completed thread or into a completed task |
| Runs.CompleteRelease | keeper/msg_server.go:456-464 | after a successful settlement no worker of the whole store points at the thread, though only its own list is visited |
| Runs.ValidateAtMostOnce | keeper/msg_server.go:373-411 | in every reachable state a non-proposer has at most one validation per thread, others' validations number at most workers minus one, and validations imply a solution |
| Runs.VotersCounted | keeper/msg_server.go:403-411 | when only the proposer may repeat, the other validations are as many as the workers who made them |
| Runs.FirstFrameDecides | module/module.go:232 | in every reachable state the first frame's hash tells whether all frames are revealed with distinct names, or none is |
| Runs.CompletionExact | module/module.go:329-346 | after EndBlock a real task is completed if and only if all its threads are |
| Runs.CompletionIdempotent | module/module.go:329-346 | a second completion pass changes nothing |
| Runs.MonotoneHistory | keeper/msg_server.go:217-254 | along every run workers and validations grow as prefixes, proposer, key, filenames and signatures are write-once, accepted and completed never reset, and CIDs and hashes are frozen once accepted |
| Invariant.ReachableInv | keeper/genesis.go:10-20 | every state reached from genesis satisfies the inductive invariant |
| Invariant.StepKeepsInv | keeper/msg_server.go:32-476 | every handler, both hooks and outside bank activity keep the invariant |
| Invariant.UniqueThread | VideoUpscalerTask.go:25-28 | a thread id selects one place in its task |
| Invariant.CreateKeepsInv | keeper/msg_server.go:32-73 | task creation keeps the invariant |
| Invariant.AddWorkerKeepsInv | keeper/msg_server.go:75-133 | registration keeps the invariant |
| Invariant.SubscribeKeepsInv | keeper/msg_server.go:135-185 | a subscription, which overwrites the worker's pointer, keeps the invariant |
| Invariant.ProposeKeepsInv | keeper/msg_server.go:187-265 | a proposal keeps the invariant |
| Invariant.DiscloseKeepsInv | keeper/msg_server.go:268-348 | a reveal keeps the invariant |
| Invariant.ValidateKeepsInv | keeper/msg_server.go:350-414 | a validation, with or without release, keeps the invariant |
| Invariant.SubmitKeepsInv | keeper/msg_server.go:416-476 | a settlement, even a repeated one, keeps the invariant |
| Invariant.BeginKeepsInv | module/module.go:229-258 | judging revealed solutions keeps the invariant |
| Invariant.EndKeepsInv | module/module.go:329-346 | the completion pass, phantom task included, keeps the invariant |
| Hooks.NodeIndependence | module/module.go:151-364 | from every reachable state two nodes with any local state compute the same next chain state in both hooks, and neither hook panics |
| Hooks.BeginBlockAgrees | module/module.go:169-178 | under the invariant the early return and the index failure cannot happen, whatever the node |
| Hooks.EndBlockAgrees | module/module.go:309-327 | under the invariant EndBlock never dereferences a missing solution, whatever the node |
| Hooks.SafeOnEveryNode | module/module.go:169-178 | in any state BeginBlock avoids both on every node if and only if every enabled worker's pointer selects a stored thread |
| Launches.BeginLaunches | module/module.go:169-256 | exactly which work, proposal, verification and upload BeginBlock starts on a node, the uploads read off the state it leaves |
| Launches.EndLaunches | module/module.go:265-327 | exactly which registration, subscription and reveals EndBlock starts on a node |
| Escrow.EscrowSolvent | keeper/msg_server.go:443-448 | in every funded run that settles each thread at most once the module account holds genesis balance, stakes and what tasks are still owed, and never less than all stakes |
| Escrow.BooksBalance | keeper/msg_server.go:63-66 | every funded step keeps the books |
| Escrow.CreateBooks | keeper/msg_server.go:63-66 | creating a task keeps the books if and only if the reward is transferred or is zero |
| Escrow.AddWorkerBooks | keeper/msg_server.go:121-130 | registering a worker keeps the books |
| Escrow.SubmitBooks | keeper/msg_server.go:443-448 | a settlement keeps the books if and only if the thread was not settled before, or the payment is zero or fails; a first settlement can always be paid |
| Escrow.ResettlementDrains | keeper/msg_server.go:423-448 | a second settlement by the proposer is accepted and pays again out of the other claims |
| Conservation.WinningsArePayments | keeper/msg_server.go:443-469 | in every run whose transfers succeed, repeated settlements included, the module account plus all recorded winnings is the genesis balance plus stakes plus rewards |
| Conservation.RunConserves | keeper/msg_server.go:32-476 | every such step conserves |
| Conservation.CreateConserves | keeper/msg_server.go:63-66 | creating a task conserves if and only if the reward is transferred or is zero |
| Conservation.SubmitConserves | keeper/msg_server.go:443-469 | a settlement conserves if and only if the payment can be made or is zero, though the winnings are recorded either way |
| Conservation.WinnerRecorded | Worker.go:56-62 | all winnings grow by exactly the payment and no one but the winner gains reputation |
| Accounts.EveryAccountBalances | keeper/msg_server.go:32-476 | in every run from genesis whose transfers succeed, each account's balance, its stake and the rewards of the tasks it requested are together its genesis balance, what outside bank activity gave or took, and its recorded winnings |
| Accounts.NothingOutside | keeper/msg_server.go:32-476 | without outside bank activity nothing is given or taken |
| Accounts.CreateWorth | keeper/msg_server.go:63-66 | creating a task keeps that sum for every account, and raises its creator's by the reward exactly when the reward cannot be moved |
| Accounts.SubmitWorth | keeper/msg_server.go:443-469 | a settlement keeps it for every account, and lowers its sender's by the payment exactly when the payment cannot be made |
| Effects.CreateCommits | keeper/msg_server.go:32-61 | a task is created if and only if the CID is valid, the thread count positive and a reward given |
| Effects.CreateEffect | keeper/msg_server.go:48-73 | one task with the message's data and untouched, consecutive threads is added under the next number, its creator pays the reward if it can, and nothing else changes |
| Effects.AddWorkerCommits | keeper/msg_server.go:75-114 | a worker is registered if and only if it is new, stakes the right coin and at least the minimum, and has the stake |
| Effects.AddWorkerEffect | keeper/msg_server.go:116-130 | one enabled, idle worker with the message's data is added, its stake moves to the module, and nothing else changes |
| Effects.SubscribeCommits | keeper/msg_server.go:135-156 | accepted if and only if the sender is an enabled worker and the task is in progress |
| Effects.SubscribeEffect | keeper/msg_server.go:158-185 | the sender is appended to the named thread and points at it when the thread has room, is open and does not list it; otherwise nothing changes |
| Effects.ProposeCommits | keeper/msg_server.go:187-253 | accepted if and only if the sender is an enabled worker, the task in progress, and the named thread, if there is one, has no solution, lists the sender, is as long as the list of lines, each with "=", and the key decodes |
| Effects.ProposeEffect | keeper/msg_server.go:236-260 | the named thread alone gets the sender's solution with the message's key and lines, not accepted |
| Effects.RevealCommits | keeper/msg_server.go:268-343 | accepted if and only if the task is in progress, the sender works on the named thread, proposed its solution, which is not accepted, gives as many entries as frames, and each entry names a frame, with every frame full afterwards |
| Effects.RevealEffect | keeper/msg_server.go:323-347 | only the CIDs and hashes of that thread's frames change: the first frame of a name takes those of the name's last entry |
| Effects.LastEntryWins | utils.go:66-87 | of several entries for a name the last well-formed one counts |
| Effects.ValidateCommits | keeper/msg_server.go:350-411 | accepted if and only if the sender is an enabled worker, the task is in progress, the sender works on the named thread, which has a solution, and every line has "=" |
| Effects.ValidateEffect | keeper/msg_server.go:394-414 | that thread alone gets exactly one more validation, with the sender, the message's key, its lines and the parity of the sender's place; the sender is released unless it is the proposer |
| Effects.SubmitCommits | keeper/msg_server.go:416-434 | accepted if and only if the task exists and the named thread, if there is one, has a solution proposed by the sender |
| Effects.SubmitEffect | keeper/msg_server.go:443-471 | the sender, and no other account, is paid the largest amount that goes 2n times into the reward, if the module has it; the named thread alone is completed with the message's directory and duration, whoever pointed at it is idle, and the sender's points, solutions, winnings and durations grow |
| Effects.SubmitNothing | keeper/msg_server.go:423-474 | a settlement that names no thread of the task changes nothing |
| Effects.OnlyNamedThread | keeper/msg_server.go:32-476 | whatever the message, a thread that it changes is the one it names, in the task it names, and lists its sender afterwards |
| Effects.EndEffect | module/module.go:329-346 | the completion pass sets a task's flag if and only if all its threads are completed, adds the empty task if and only if a number below the next one has no task, and changes nothing else |
| Rewards.PoolBounds | VideoUpscalerTask.go:77-85 | winner and validator pools of all threads together cost at most the reward and lose at most 2n-1 to rounding |
| Rewards.ValidatorPoolBounds | VideoUpscalerThread.go:313-335 | shares of a thread's distinct workers never exceed the pool and fall short of the pool's part for their first validations by less than one coin per paid worker; that part is the whole pool when no one (not even the proposer) validated twice and all validators are listed |
| Rewards.SharesAgainstFiles | VideoUpscalerThread.go:328-335 | the sum of rounded shares against the rounded sum |
| Rewards.FilesOfAllAtMostTotal | VideoUpscalerThread.go:314-321 | distinct workers never have more files counted than there are |
| Rewards.FilesOfAllIsTotal | VideoUpscalerThread.go:314-321 | without repeated or unlisted validators every file is counted |
| Rewards.GetValidatorReward | VideoUpscalerThread.go:313-335 | the two loops compute the worker's proportional share of its first validation |
| Rewards.ShareOfFirst | VideoUpscalerThread.go:313-335 | the share is the part of the pool that the files of the worker's first validation are of all files, rounded down; without a validation it is nothing |
| Evaluation.EvaluationWithinPool | module/module.go:366-387 | evaluating a completed thread raises all winnings together by at most the validator pool |
| Evaluation.RewardedOnce | module/module.go:370-382 | each listed worker is released and credited exactly once by its own share, no one else changes |
| Evaluation.WorkerCredited | module/module.go:370-382 | a listed worker ends idle with one more point and validation and its share among its winnings, and nothing else of it changes |
| Evaluation.WinningsGrow | module/module.go:378-380 | all winnings grow by exactly the shares credited |
| Votes.PassCounts | VideoUpscalerThread.go:382-423 | a pass adds to each frame it gets to one valid count for every validation whose own validator signed the frame's hash with the validation's key, and one invalid count for every other one that names it, up to the first that cannot be decoded |
| Votes.BeginEffect | module/module.go:151-261 | the whole chain effect of BeginBlock: exactly the threads that await a verdict, with an accepted thread at or after them, get their counts and verdict, and only minValidators changes besides |
| Votes.VoteThenBlock | keeper/msg_server.go:394-414 | a vote sent in one message and counted in the next block raises a frame's valid count if the line's signature is the one the message's key makes for the frame's hash and the sender's own address, and its invalid count otherwise |
| Tally.ExactTally | VideoUpscalerThread.go:382-423 | when everything decodes a pass raises each frame's counts by exactly the validations whose first frame of that name verifies or fails; the rest are absent |
| Tally.RepeatedPass | VideoUpscalerThread.go:382-423 | whatever is readable, a second pass over stored counts adds again exactly what the first added, valid and invalid, and leaves alone what the first did not reach |
| Tally.RepeatedTally | VideoUpscalerThread.go:382-423 | when everything decodes, two passes over the same validations add every ballot twice |
| Tally.InvalidVotesIgnored | VideoUpscalerThread.go:425-453 | with any invalid counts the verdict is the same |
| Tally.OneFrameAccepted | VideoUpscalerThread.go:425-453 | a solution of one frame is accepted if and only if the frame has the votes needed, however many are against it |
| Ballots.StoredExactlyWhen | module/module.go:230-246 | BeginBlock stores a thread as judged if and only if it accepts that thread or a later one of a task in progress |
| Ballots.CountsLeftBehind | module/module.go:230-246 | a thread that is not accepted keeps the pass's counts if and only if a later thread is accepted |
| Ballots.CountedAgain | module/module.go:230-246 | on each frame the next pass reaches every readable ballot, valid or invalid, is then counted twice if a later thread was accepted, otherwise once; the other frames are as they were |
| Ballots.ValidatesAgain | keeper/msg_server.go:403-411 | an accepted validation, sent again, is accepted if and only if it comes from the proposer |
| Ballots.OneVoterDecides | VideoUpscalerThread.go:427-453 | with one validation stored twice a thread is accepted if and only if that validation alone verifies enough frames |
| Acceptance.AcceptanceBacked | module/module.go:230-246 | in every reachable state at least a fifth of an accepted solution's frames, and at least one, were each verified by a validation that is still stored, with the hash the frame had in some state of the run, and one with the hash it has now; all of them with the hash they have now when no reveal of the run gave a counted frame an unverified hash |
| Acceptance.CountedIsBacked | module/module.go:230-246 | in every reachable state a frame with a vote counted was, in some state of the run, verified as it was revealed then by a validation that is still stored |
| Acceptance.StepCurrent | keeper/msg_server.go:298-346 | from a state whose counted votes are all for the present hashes, one event keeps that if and only if it is no reveal that gives a counted frame an unverified hash |
| Acceptance.RunCurrent | keeper/msg_server.go:298-346 | counted votes are for the present hashes in every state of a run if and only if no event of it is such a reveal |
| Acceptance.AcceptedByDistinctWorkers | VideoUpscalerThread.go:382-453 | from zero counts and without repeated validators, accepted only if enough frames were each verified by as many different workers as are needed, and exactly then when everything decodes |
| Acceptance.FreshCountsAreCurrent | VideoUpscalerThread.go:382-453 | from zero counts, enough frames of an accepted solution are verified as they are revealed now |
| Acceptance.RunVerdicts | VideoUpscalerThread.go:425-453 | along every run an accepted solution keeps enough frames with a vote and one that is verified, and one that is not accepted has not reached the threshold |
| Scenarios.VoteCountedTwice | module/module.go:230-246 | a run from genesis in which a thread that needs two votes is accepted on one valid vote, because another thread was accepted a block before |
| Scenarios.ProposerAcceptedAlone | keeper/msg_server.go:403-411 | a run from genesis in which the proposer's own vote, sent twice, accepts its solution |
| Scenarios.OutvotedAccepted | VideoUpscalerThread.go:425-453 | a run from genesis in which a solution of one frame is accepted with two votes for it and three against it |
| StaleVotes.StaleVoteAccepted | keeper/msg_server.go:298-346 | a run from genesis in which a thread that needs two verified frames is accepted while one is verified as it is revealed, because its proposer revealed again after another thread's acceptance had stored its count |
| Scenarios.UnfundedCreation | keeper/msg_server.go:63-66 | a run from genesis in which an account without coins creates a task and the books no longer balance |
| Scenarios.StakesDrained | keeper/msg_server.go:423-448 | a run from genesis in which a thread is settled three times and the module account ends below the sum of the stakes |
| Scenarios.UnpaidWinnings | keeper/msg_server.go:443-469 | a run from genesis in which the third settlement cannot be paid, its winnings are recorded, and conservation, true before, is lost |
| DeadEnds.SolutionsWhole | keeper/msg_server.go:217-254 | in every reachable state a solution has exactly as many frames as its thread's range |
| DeadEnds.NegativeNeverSolved | keeper/msg_server.go:217-254 | in every reachable state a thread of negative length has no solution and is not completed, and neither is its task |
| DeadEnds.NegativeExactlyWhen | VideoUpscalerTask.go:40-61 | a new task's threads have negative length if and only if the request is reversed by at least as many frames as it has threads |
| DeadEnds.ReversedNeverPaid | keeper/msg_server.go:32-73 | whatever happens before and after such a request, its threads never have a solution, its task is never completed and it is owed the whole reward |
| DeadEnds.LeavingStrands | keeper/msg_server.go:135-185 | once the proposer of an unrevealed solution subscribes elsewhere, the solution stays unrevealed and unaccepted in every continuation |
| DeadEnds.RevealableExactlyWhen | keeper/msg_server.go:268-348 | some continuation reveals an unrevealed solution if and only if the proposer's pointer selects the thread and its names are distinct and hold no "=" |
| Tally.EvaluateVerifications | VideoUpscalerThread.go:382-423 | the nested loops count frame by frame up to the first undecodable vote, which ends the pass |
| Tally.EvaluateFrame | VideoUpscalerThread.go:384-419 | the inner loop counts one frame's ballots and tells whether the pass goes on |
| Tally.IsSolutionAccepted | VideoUpscalerThread.go:427-453 | accepted if and only if at least one frame and at least a fifth of them reach the votes needed |
| Tally.CountReachingIsSize | VideoUpscalerThread.go:440-444 | the counted frames are the places that reach the votes needed |
| Tally.IsReverse | VideoUpscalerThread.go:304-311 | true exactly when the worker's first place is odd |
| Reveal.OrderIndependentReveal | keeper/msg_server.go:325-343 | failure or the revealed frames are the same in every iteration order of the map |
| Reveal.RevealKeepsAllOrNothing | keeper/msg_server.go:319-346 | a successful reveal leaves every frame revealed with distinct names |
| Reveal.HonestRevealSucceeds | keeper/msg_server.go:319-346 | a reveal of the same names with CIDs and hashes passes every check and gives each frame its own |
| Reveal.HonestOutcome | keeper/msg_server.go:325-343 | the frames such a reveal leaves |
| Reveal.ProposedFromLines | keeper/msg_server.go:236-246 | proposed lines made from a map of signatures give frames of exactly those names and signatures |
| Reveal.RevealFrames | keeper/msg_server.go:324-343 | the two loops, in any key order, succeed exactly when all names exist and all frames end up revealed |
| CliFormat.KeyValueRoundTrip | utils.go:17-44 | TransformSliceToMap undoes MapToKeyValueFormat in every iteration order if and only if no key holds "=" |
| CliFormat.FramesRoundTrip | utils.go:66-98 | FromCliToFrames undoes FromFramesToCli in every order if and only if keys are filenames and no field holds a delimiter |
| CliFormat.FramesOfEntries | utils.go:66-98 | what survives the trip: exactly the clean entries |
| CliFormat.EntryParses | utils.go:69-83 | an entry parses if and only if its own separators are the only ones |
| CliFormat.CutUnique | utils.go:21 | splitting at the first separator gives back key and value when the key holds none |
| CliFormat.TransformSliceToMap | utils.go:17-31 | the loop's map, or an error at the first line without "=" |
| CliFormat.MapToKeyValueFormat | utils.go:34-44 | one line per key, in some order |
| CliFormat.FromCliToFrames | utils.go:66-87 | the loop's map, bad entries skipped, later entries winning |
| CliFormat.FromFramesToCli | utils.go:89-98 | one entry per key, in some order |
| FrameSplit.FramePartition | VideoUpscalerTask.go:40-61 | for any request, reversed ones included, every frame of the task lies in exactly one thread's range and every other frame in none |
| FrameSplit.BalancedLengths | VideoUpscalerTask.go:41-43 | range lengths differ by at most one, the longer first, and none is positive for a reversed request |
| FrameSplit.StartStep | VideoUpscalerTask.go:47-58 | ranges are consecutive, from the first frame to the last; for a reversed request the truncated remainder is left over |
| FrameSplit.SplitFrames | VideoUpscalerTask.go:40-61 | the loop computes start + i*q + min(i, r), and fails without a positive thread count |
| FrameSplit.GenerateThreads | VideoUpscalerTask.go:19-31 | one thread per range, named task id and index |
| FrameSplit.ThreadNamesUnique | VideoUpscalerTask.go:26 | thread names of one task are distinct |
| FrameSplit.ThreadNamesCollide | VideoUpscalerTask.go:26 | threads of any two tasks share a name if and only if the digits of task and index glued together are the same number |
| FrameSplit.ThreadNamesCollideAcrossTasks | VideoUpscalerTask.go:26 | such a pair: thread 11 of task 1 and thread 1 of task 11 |
| Decimal.ItoaInjective | keeper/msg_server.go:52 | task ids of different counters differ |
| RoundTrip.DecodeEncode | types.pb.go:3461-4356 | for every thread, solution, validation and frame with int64 numbers, negative ones and empty fields included, Unmarshal of Marshal into a zero record gives it back |
| RoundTrip.UnknownFieldsIgnored | types.pb.go:3752-3772 | well-formed unknown fields of any positive int32 number, nested groups and overlong varints included, put anywhere between the fields of a record or of the records inside it do not change what is decoded |
| WireTable.MarshalledBytes | types.pb.go:1534-1814 | the bytes of every thread, solution, validation and frame with int64 numbers, field by field with their tag bytes |
| WireTable.FrameFields | types.pb.go:4141-4356 | decoding one field's bytes into any frame sets exactly that field, for each of the six tags |
| WireTable.SolutionFields | types.pb.go:3773-3972 | the same for a solution, nested frames included |
| WireTable.ValidationFields | types.pb.go:3973-4140 | the same for a validation |
| WireTable.ThreadFields | types.pb.go:3461-3772 | the same for the texts and numbers of a thread |
| WireTable.ThreadRecords | types.pb.go:3663-3732 | a second solution is merged into the first, a validation is added, and an error inside them is passed on |
| WireTable.MistypedField | types.pb.go:3492-3494 | a field of the record under any other wire type is refused |
| Refusals.VarintVerdict | types.pb.go:3467-3482 | ten bytes with the continuation bit overflow, fewer at the end of the buffer are cut short, and otherwise the varint ends where the bit does |
| Refusals.TagVerdict | types.pb.go:3482-3488 | the end of a group outside a group and field number 0 are refused |
| Refusals.LengthVerdict | types.pb.go:3499-3529 | a text or record that announces more bytes than there are is cut short, or has no valid length |
| Refusals.UnknownVerdict | types.pb.go:4777-4854 | unknown fields of wire types 6 and 7 are refused, fixed-size ones passed over or cut short |
| Codec.DecodePieces | types.pb.go:3752-3772 | with such unknown fields put in, decoding into any record applies the known fields in order |
| Codec.DecodeRaws | types.pb.go:3461-3772 | decoding applies the encoded fields in order, whatever record it starts from |
| Codec.CleanIsSame | types.pb.go:3692-3697 | a nested record means the same with unknown fields put into it |
| Wire.SkipForeign | types.pb.go:4777-4854 | skipTypes passes over exactly one well-formed field, groups nested to any depth and varints of any length up to ten bytes |
| Wire.SkipTypes | types.pb.go:4777-4854 | on any bytes the loop ends in the specified index or error and reads inside the buffer |
| Wire.DecodeVarint | types.pb.go:3467-3482 | on any bytes the loop reads at most ten bytes and gives the value modulo 2^64 |
| Wire.AnyReadBack | types.pb.go:3467-3482 | any varint of up to ten bytes, overlong ones included, is read as its bits modulo 2^64, and nothing behind it is looked at |
| Wire.ReadBack | types.pb.go:3467-3482 | a written 64-bit varint is read back |
| Wire.SovIsLength | types.pb.go:2330-2332 | sovTypes is the length of the varint |
| Marshal.EncodeVarint | types.pb.go:1963-1973 | writes the varint just before the offset and nothing else |
| Marshal.Marshal | types.pb.go:1519-1619 | the buffer has Size() bytes and all of them are the encoding, which for int64 numbers is the one of the wire table |
| Marshal.MarshalToSizedBuffer | types.pb.go:1534-1814 | fills a buffer of the record's size with its encoding |
| Marshal.Size | types.pb.go:2130-2263 | Size() is the length of the encoding |
| Marshal.MarshalThread | types.pb.go:1534-1619 | fills the buffer from its end with the encoding and touches nothing else |
| Marshal.MarshalSolution | types.pb.go:1636-1687 | the same for a solution, in place inside the thread's buffer |
| Marshal.MarshalValidation | types.pb.go:1704-1748 | the same for a validation |
| Marshal.MarshalFrame | types.pb.go:1765-1814 | the same for a frame |
| Marshal.Unmarshal | types.pb.go:3461-4356 | on any bytes, into any record, the loop ends in the specified record or error and reads inside the buffer |
| Marshal.UnmarshalBytes | types.pb.go:3499-3529 | the length checks of a text or nested message |
| KeeperModule.Keeper.CreateVideoUpscalerTask | keeper/msg_server.go:32-73 | the new store, or failure, of the transition |
| KeeperModule.Keeper.AddWorker | keeper/msg_server.go:75-133 | the new store, or failure, of the transition |
| KeeperModule.Keeper.SubscribeWorkerToTask | keeper/msg_server.go:135-185 | the new store, or failure, of the transition |
| KeeperModule.Keeper.ProposeSolution | keeper/msg_server.go:187-265 | the new store, or failure, of the transition |
| KeeperModule.Keeper.RevealSolution | keeper/msg_server.go:268-348 | the new store, or failure, of the transition; the membership test cannot fail |
| KeeperModule.Keeper.SubmitValidation | keeper/msg_server.go:350-414 | the new store, or failure, of the transition; the membership test cannot fail |
| KeeperModule.Keeper.SubmitSolution | keeper/msg_server.go:416-476 | the new store, or failure, of the transition, by the loop over the thread's workers |
| KeeperModule.Keeper.Deliver | keeper/msg_server.go:27-476 | a message has the effect of one step of the transition system, none when it fails, and keeps the invariant |
| KeeperModule.Keeper.BeginBlock | module/module.go:151-261 | on any node the store of the transition and exactly the launches of that node, in any walking order |
| KeeperModule.Keeper.EndBlock | module/module.go:265-346 | on any node the store of the transition and exactly the launches of that node |
| KeeperModule.Keeper.FindPending | module/module.go:125-149 | the loops find what Hooks.Pending names |
| Hooks.PendingExactlyWhen | module/module.go:125-149 | that is number n if and only if task n offers the node work and no lower number does, and nothing if and only if none does |
| KeeperModule.Keeper.EvaluateCompletedThread | module/module.go:366-388 | the workers credited from the validator pool and the thread completed |
| KeeperModule.Keeper.InitGenesis | keeper/genesis.go:10-20 | the initial store satisfies the invariant |

## Left out

- Docker, IPFS, SQLite, command execution, logging, image hashing and directory walking: input and output.
- The goroutines started by the hooks (StartWork, ProposeSolution, SubmitVerification, SubmitSolution and RevealSolution of a thread, RegisterWorker): emitted actions only.
- The hooks' writes to the node's database, and the walk of EndBlock that connects to new workers' IPFS nodes (module/module.go:348-361): no chain effect.
- Key, signature and proof code (crypto/, zkp/): uninterpreted predicates; zkp/ is not used by the modelled code.
- Coin arithmetic and bank internals: one denomination (the stake's denomination is compared as the handler does), unbounded amounts, transfers as balance updates, and no bank-side address errors.
- Integer widths outside the codec: ids, counters, frame numbers and thread indices are unbounded; the codec's int64, int32 and uint64 conversions are explicit.
- The floating-point threshold of IsSolutionAccepted: `int(float64(n)*0.2)` is modelled as n/5, which it equals for any n below 2^50.
- Codecs of the records that hold a Coin (Worker, Task, Params), of the logs and of tx.pb.go and query.pb.go: the same generated pattern; nil elements of repeated fields, which Unmarshal never produces, are not modelled.
- Messages.Decode: the four generated Unmarshal functions are one function, and one method, over four field tables; a record left half filled by a failed decoding is not returned.
- KeeperModule.Keeper: stored records are values that are read, changed and written back, so Go's pointer aliasing inside one handler's copy is not modelled.
- KeeperModule.Keeper.EvaluateCompletedThread: nothing in the repository calls it, so it is not a step of runs.
- Queries, exporting genesis, configuration, wiring and client code: no hard property.
