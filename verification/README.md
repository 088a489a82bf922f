# Verified model of the GeckoFuzz repository

This project models the parts of GeckoFuzz that carry state or have to agree with each other, and proves what they
promise over every input and every run:

- **The fuzzing engine** (`StateManager`, `Snapshots`, `CopyAliasing`, `Decimal`, `AbiValues`, `Fuzzer`, `Transcripts`, `Replay`,
  `Coverage`, `Plays`, `Accounting`, `FuzzLoop`, `Engine`, `DeploymentCounter`, `PrioritySample`): the chain state with its
  checkpoints and copies, call arguments and their saved form, the loop that grows a corpus, and replay. The EVM is an arbitrary deterministic function
  of code, call data, caller, address and state. The main result is that every finding a campaign keeps or reports
  replays to its own oracle (`Engine.FuzzEngine.FuzzCampaign`, `Accounting.FindingsReplay`), where the history of a campaign is
  retold from the EVM's inputs and outputs alone (`Plays.RunsAsPlayed`).
- **The blackbox fuzzer** (`LazyState`, `LazyProofs`, `BytecodeSweep`, `BlackboxFuzzer`): a lazy cache over a remote chain,
  the sweep for dispatched functions, and the loop over raw call data.
- **The miner and validator protocol** (`Validator`, `ValidatorProofs`, `ValidatorHandler`, `OracleId`, `Consensus`): unboundedly many
  callbacks that interleave at each `await` and share one set of voted tokens, the 32-bit oracle id, and the rule by which
  a validator confirms a miner's claim.
- **The escrow program** (`Escrow`, `EscrowProgram`, `EscrowProofs`, `EscrowSettlement`, `MapSum`) and the **interface
  account** (`IdlBuffer`) of the expanded Anchor program that accompanies the client generator.
- **The client generator** (`IdlParser`, `ClientGenerator`, `ClientProofs`): matching instructions, walking to account
  modules, joining, and generating functions whose meaning is checked with a small semantics.
- **Upload, coverage graphs and heartbeats** (`Upload`, `DagCanon`, `Heartbeats`).

Code that updates state in place is modelled by classes and methods with loops (`FuzzStateManager`, `LazyStateManager`,
`Runtime`, `Stored`, `FuzzEngine`, `Miner`, and the loops). Each is proved equal to a function of its inputs and old state,
and the lemmas are about those functions.

## Where the code and its description differ

The model follows the code.

- The header comment of the escrow program says the initializer can close an escrow; `cancel_escrow` asks for no signature, so anyone can
  (`EscrowSettlement.CancelReturnsDeposit`). The deposit still goes back to the initializer.
- The validator writes its progress under `uvulns` and reads it under `Minted`, so every poll starts from the first block
  again (`ValidatorProofs.EveryPollStartsOver`). When the chain has not grown past the start block nothing is fetched
  (`Validator.WindowsCover`).
- `putContractCode` looks an address object up among text keys, so it never finds an entry and always replaces it, storage
  included; in the blackbox fuzzer a first code read does the same (`LazyProofs.SparingRunsReadTruly` states which runs
  stay clear of that).
- A state manager keeps one snapshot. An inner checkpoint overwrites the outer one
  (`Snapshots.OuterRevertFindsInnerSnapshot`).
- `putAccount` stores the object it is given, so a copy can come to share an account object with the original, and a change
  through one shows in the other (`CopyAliasing.UseCopy` says exactly when).
- Replay needs the deployment count of the recording, since the count decides the contracts' addresses
  (`DeploymentCounter.CountersMustAgree`), and declines methods whose name is not unique (`Replay.RecordReplays`).
- The oracle id is the absolute value of a signed 32-bit number, so 2^31 is a possible id (`OracleId.IdRange`).
- A dispatcher entry that ends the bytecode is missed (`BytecodeSweep.StandardEntriesFound`).
- Chunk offsets are cut to 32 bits, which is harmless up to 4294967400 bytes and no further (`Upload.OffsetsTrue`).
- Two instructions `foo` and `foo_ix` give two generated functions of one name (`ClientProofs.FunctionNamesDistinct`).

## Model

| member | source | states |
|---|---|---|
| `StateManager.FuzzStateManager.FromJSON` | fuzzer/src/full/fuzzer.ts:560-571 | rebuilding from plain data gives exactly that data, out of new objects only, and keeps the snapshot |
| `StateManager.FuzzStateManager.Copy` | fuzzer/src/full/fuzzer.ts:601-607 | a copy holds the same contents in objects of its own and has no snapshot |
| `StateManager.FuzzStateManager.Checkpoint` | fuzzer/src/full/fuzzer.ts:585-588 | the snapshot is the current contents; nothing else moves |
| `StateManager.FuzzStateManager.Revert` | fuzzer/src/full/fuzzer.ts:718-721 | the contents go back to the snapshot; without one the state is emptied before it throws |
| `StateManager.FuzzStateManager.GetAccount` | fuzzer/src/full/fuzzer.ts:629-640 | hands out the stored object itself, after creating a blank entry for an unknown address |
| `StateManager.FuzzStateManager.PutAccount` | fuzzer/src/full/fuzzer.ts:685-690 | stores the very object given, in an entry without code or storage |
| `StateManager.FuzzStateManager.ModifyAccountFields` | fuzzer/src/full/fuzzer.ts:672-683 | only that account object changes, every address that holds it shows the change, and so the one entry alone changes exactly when no other holds the object or the change is none; an unknown address is rejected |
| `StateManager.FieldsPrevail` | fuzzer/src/full/fuzzer.ts:672-683 | each field given replaces that field and no other, and of two changes the later prevails field by field |
| `StateManager.FuzzStateManager.PutContractCode` | fuzzer/src/full/fuzzer.ts:692-703 | the entry is replaced whole, whatever it held |
| `StateManager.FuzzStateManager.PutContractStorage` | fuzzer/src/full/fuzzer.ts:705-716 | one slot of one address changes; an unknown address gets a blank entry first |
| `StateManager.FuzzStateManager.ClearContractStorage` | fuzzer/src/full/fuzzer.ts:590-595 | the slots of one known address are emptied, its code and account kept |
| `StateManager.FuzzStateManager.DeleteAccount` | fuzzer/src/full/fuzzer.ts:609-615 | the entry is gone, the others are untouched |
| `StateManager.FuzzStateManager.GetContractCode` | fuzzer/src/full/fuzzer.ts:642-648 | the stored code, or a rejection for an unknown address |
| `StateManager.FuzzStateManager.GetContractStorage` | fuzzer/src/full/fuzzer.ts:650-659 | the stored value, or empty for an unknown address or key |
| `Snapshots.RevertRestores` | fuzzer/src/full/fuzzer.ts:585-588 | any operations without another checkpoint are undone exactly by a revert; reverting again changes nothing |
| `Snapshots.SlotsHoldLastWrite` | fuzzer/src/full/fuzzer.ts:650-721 | over every run from a fresh or just checkpointed state, with checkpoints and reverts anywhere, a slot reads as what was last written to it |
| `Snapshots.EntriesHoldLastWrite` | fuzzer/src/full/fuzzer.ts:590-721 | over the same runs an address has the code last stored for it and the account last stored, with the fields modified since |
| `Snapshots.SingleSnapshotSuffices` | fuzzer/src/full/fuzzer.ts:547-588 | as long as checkpoints do not nest, the one stored snapshot behaves like a stack of snapshots |
| `Snapshots.NestingLosesOuterSnapshot` | fuzzer/src/full/fuzzer.ts:585-588 | on a nested update the one snapshot and a stack of them agree exactly when the update changes nothing, and writing a slot does |
| `Snapshots.OuterRevertFindsInnerSnapshot` | fuzzer/src/full/fuzzer.ts:585-599 | in every nested run the outer revert restores the outer snapshot exactly when nothing had changed between the two checkpoints |
| `Snapshots.CopiesRunAlone` | fuzzer/src/full/fuzzer.ts:601-607 | a copy ends where its own operations take it from the contents it was made of, whatever objects the original shares |
| `CopyAliasing.UseCopy` | fuzzer/src/full/fuzzer.ts:601-690 | over any calls on a copy, given any account objects, each of those takes exactly the changes made to it and stands in the copy where it was put, and the copy otherwise ends where the calls take it; the original moves by exactly the changes made to its own objects, so it changes if and only if one of them is given away and ends with another value |
| `CopyAliasing.OnlyGivenAreWritten` | fuzzer/src/full/fuzzer.ts:629-690 | calls on a copy never change an object that they were not given |
| `CopyAliasing.PuttingReaches` | fuzzer/src/full/fuzzer.ts:672-690 | the one way in: an object put into the copy and then modified at its address is changed |
| `CopyAliasing.UseOriginal` | fuzzer/src/full/fuzzer.ts:601-607 | calls on the original take it where they should, whatever objects they are given, and reach nothing in a copy made before |
| `CopyAliasing.ModifyThrough` | fuzzer/src/full/fuzzer.ts:672-683 | one modification through any other manager changes the original exactly when that address holds one of the original's account objects and its value changes |
| `Decimal.SplitJoin` | fuzzer/src/full/fuzzer.ts:490-493 | splitting an encoded edge at its separator gives both numbers back |
| `Decimal.JoinInjective` | fuzzer/src/full/fuzzer.ts:490-493 | different edges have different encodings |
| `AbiValues.CopyIsIdentity` | fuzzer/src/full/fuzzer.ts:256-362 | a copy has the same values at every depth, in the mirrored lists too |
| `AbiValues.RoundTrip` | fuzzer/src/full/fuzzer.ts:263-374 | saving a value and reading it back into an object gives the value exactly when the object has its shape, however deeply tuples nest |
| `AbiValues.ReadsWhatFits` | fuzzer/src/full/fuzzer.ts:263-374 | which saved values an object can read at all, an unsigned number from a signed one and a tuple from a longer one included, and that it keeps its shape |
| `AbiValues.Mutate` | fuzzer/src/full/fuzzer.ts:252-351 | a mutation draws each changed number within its range and touches nothing else |
| `AbiValues.MutateAbis` | fuzzer/src/full/fuzzer.ts:460-463 | one argument of the call is mutated, the others stay |
| `AbiValues.MutationKeepsForm` | fuzzer/src/full/fuzzer.ts:344-351 | shape, ranges and the mirror between a tuple's list and its components survive every mutation |
| `AbiValues.PushKeepsMirror` | fuzzer/src/full/fuzzer.ts:332-342 | adding a component extends the mirrored list by its value |
| `Fuzzer.Deployed` | fuzzer/src/full/fuzzer.ts:44-69 | contracts stand at consecutive addresses after the deployment count, with their own interfaces |
| `Fuzzer.DeployedCode` | fuzzer/src/full/fuzzer.ts:46-64 | each constructor runs on the state the one before left, returns the contract's code, and the last one's state is where the campaign starts |
| `FuzzLoop.TransactionLeaves` | fuzzer/src/full/fuzzer.ts:77-105 | whatever operations the EVM performed, a call leaves all they did; after an exception it leaves the contents it began with, or those of the EVM's own last checkpoint |
| `Transcripts.OraclesSeeTheCall` | fuzzer/src/full/fuzzer.ts:77-156 | the first oracle runs on exactly the contents that the call's operations lead to, so a slot reads as last written, or on those it is rolled back to; the edges reported start with the call's |
| `Transcripts.ExecuteAsTold` | fuzzer/src/full/fuzzer.ts:77-156 | a transaction and its oracles revert, decide and report edges as the sequence of the EVM's own inputs and outputs tells |
| `FuzzLoop.RunOraclesInTurn` | fuzzer/src/full/fuzzer.ts:107-156 | the loop over the oracles computes the verdict that the lemmas speak about |
| `Transcripts.FirstTrueOracleDecides` | fuzzer/src/full/fuzzer.ts:115-153 | the first oracle to answer true names the violation, each running on the state the earlier ones left, and the edges are those of the call and of the oracles up to it |
| `Replay.InitialCorpusIsAllMethods` | fuzzer/src/full/fuzzer.ts:757-766 | the initial corpus holds one item per method per contract, with its own arguments, and nothing else |
| `Replay.RerunAsTold` | fuzzer/src/full/fuzzer.ts:158-220 | what replaying any text answers: why there is no verdict, or the verdict that the EVM's inputs and outputs tell for the recorded call on the recorded state |
| `Replay.RecordReplays` | fuzzer/src/full/fuzzer.ts:158-220 | replaying what a round records gives the oracle and edges that the EVM's inputs and outputs tell for the round, with the same arguments, and declines exactly when the method name is ambiguous |
| `Replay.RoundsKeepReplayable` | fuzzer/src/full/fuzzer.ts:825-919 | over any number of rounds everything recorded stays replayable |
| `Replay.StartIsReplayable` | fuzzer/src/full/fuzzer.ts:785-821 | a campaign seeded with any testcases starts out well-formed, with empty tables |
| `Replay.StartSeeded` | fuzzer/src/full/fuzzer.ts:785-821 | seeding fails exactly on a malformed testcase; otherwise the start covers exactly what the known testcases run through when replayed, and holds the contracts' methods and an item for each testcase that replays |
| `FuzzLoop.UpdateCoverage` | fuzzer/src/full/fuzzer.ts:867-872 | appends each new transition once and reports whether any was new |
| `FuzzLoop.Fuzz` | fuzzer/src/full/fuzzer.ts:825-919 | whatever is drawn, the loop's tables are those of a campaign reached by fair draws and retold from the EVM round by round, they only grew, and the corpus grew no faster than coverage |
| `Accounting.CoverageGrowsWhenProductive` | fuzzer/src/full/fuzzer.ts:866-872 | coverage grows by an execution exactly when it ran through a transition that neither the start nor an earlier execution knew |
| `Accounting.CampaignAccounting` | fuzzer/src/full/fuzzer.ts:857-908 | over every run: the history is the executions of the rounds whose call went through; coverage only grows and without duplicates; testcases are the productive executions in order and the corpus gained just their items; each finding is the earliest shortest violation and each violated oracle was reported once, at its first violation |
| `Plays.RunsAsPlayed` | fuzzer/src/full/fuzzer.ts:825-908 | any fair run retold from its draws and the EVM: its history is the executions of exactly the rounds whose call did not end with an exception, in draw order; its corpus gained an item for exactly the discoveries |
| `Plays.PlaysUnique` | fuzzer/src/full/fuzzer.ts:838-855 | the draws decide what every round plays |
| `Plays.EdgesCovered` | fuzzer/src/full/fuzzer.ts:857-872 | an edge is covered exactly when it was known at the start or some round ran through it whose EVM call did not end with an exception |
| `Accounting.FindingsReplay` | fuzzer/src/full/fuzzer.ts:158-220 | every finding kept or reported by any reachable campaign replays to the oracle it is filed under |
| `Engine.FuzzEngine.GetContractInfo` | fuzzer/src/full/fuzzer.ts:733-770 | the deployment loop advances the global count and yields the contracts, state and corpus the lemmas speak about |
| `Engine.FuzzEngine.RerunText` | fuzzer/src/full/fuzzer.ts:158-220 | replay, step by step, answers what the EVM's inputs and outputs tell and uses up one deployment per contract |
| `Engine.FuzzEngine.SeedTestcases` | fuzzer/src/full/fuzzer.ts:787-814 | each known testcase, up to the first malformed one, is replayed on a deployment of its own and adds its edges and its item; a declined one is skipped; the count grows by one deployment per contract and replay |
| `Engine.FuzzEngine.FuzzCampaign` | fuzzer/src/full/fuzzer.ts:773-921 | whatever the EVM does and whatever is drawn, the returned tables are those of a campaign reached from the count it started with, its history the executions of the rounds whose call went through, fully accounted for, and each finding returned or reported replays to its own oracle from that count |
| `DeploymentCounter.AddressesDiffer` | fuzzer/src/full/fuzzer.ts:37-42 | below 16^20 different counts give different addresses, although the digits are padded on the right |
| `DeploymentCounter.HexReads` | fuzzer/src/full/fuzzer.ts:37-42 | the text an address is made of reads back as the count in base 16 |
| `DeploymentCounter.CountersMustAgree` | fuzzer/src/full/fuzzer.ts:44-49 | for an address-sensitive contract, replay reproduces the violation exactly when it starts from the recording's count |
| `PrioritySample.Sample` | fuzzer/src/full/fuzzer.ts:478-488 | for any priorities and threshold, the first index whose running sum reaches the threshold, or the fallback when none does |
| `PrioritySample.SharesDisjoint` | fuzzer/src/full/fuzzer.ts:481-486 | for non-negative priorities the shares are disjoint and each as long as its priority |
| `PrioritySample.SampleByShare` | fuzzer/src/full/fuzzer.ts:478-488 | a drawn threshold selects the unique entry whose share contains it, and the fallback is never used |
| `LazyState.LazyStateManager.GetContractStorage` | fuzzer/src/blackbox/fuzzer.ts:324-340 | a slot is fetched at most once; afterwards it reads from the cache |
| `LazyState.LazyStateManager.GetContractCode` | fuzzer/src/blackbox/fuzzer.ts:311-322 | a first code read fetches and replaces the entry; a later one reads it or is rejected |
| `LazyState.LazyStateManager.Apply` | fuzzer/src/blackbox/fuzzer.ts:255-403 | every operation moves cache, dirty marks and snapshot as the specification does |
| `LazyState.LazyStateManager.Copy` | fuzzer/src/blackbox/fuzzer.ts:270-276 | a copy keeps cache and dirty marks and drops the snapshot |
| `LazyProofs.CacheRefinesOverlay` | fuzzer/src/blackbox/fuzzer.ts:210-403 | over every run, each read answers as a three-valued overlay does: untouched, written, or erased |
| `LazyProofs.LazyIsFedManager` | fuzzer/src/blackbox/fuzzer.ts:255-403 | over every run the cache holds what the plain state manager holds when it is fed with the fetches: the same accounts, codes and slots, now and in the snapshot |
| `LazyProofs.ReadsRemotePlusOwnWrites` | fuzzer/src/blackbox/fuzzer.ts:311-340 | a read gives the remote value or the own last write exactly when the location was not erased, or that value happens to be empty |
| `LazyProofs.StepErases` | fuzzer/src/blackbox/fuzzer.ts:366-398 | an operation erases a touched location exactly when it replaces or empties an entry in use |
| `LazyProofs.SparingRunsNeverErase` | fuzzer/src/blackbox/fuzzer.ts:366-398 | a run never erases exactly when each of its operations passes that check before it |
| `LazyProofs.SparingRunsReadTruly` | fuzzer/src/blackbox/fuzzer.ts:311-403 | on such runs every read is the remote value or the own last write, through copies, checkpoints and reverts |
| `BytecodeSweep.Peek` | fuzzer/src/blackbox/bytecode_analyzer.ts:5-15 | looks for an opcode in a short window without reading past the code |
| `BytecodeSweep.ExtractCallableFuncs` | fuzzer/src/blackbox/bytecode_analyzer.ts:17-41 | the jumping loop reports the selectors that the lemmas speak about |
| `BytecodeSweep.SweepReportsDispatchers` | fuzzer/src/blackbox/bytecode_analyzer.ts:17-41 | in code order, the immediates of exactly those PUSH4 at instruction boundaries that EQ, PUSH2 and JUMPI follow |
| `BytecodeSweep.DispatchBytes` | fuzzer/src/blackbox/bytecode_analyzer.ts:5-36 | which bytes make a dispatcher, position by position |
| `BytecodeSweep.NextInstruction` | fuzzer/src/blackbox/bytecode_analyzer.ts:21-36 | the sweep's boundaries: PUSH1 to PUSH32 take as many bytes as the name says, other opcodes none |
| `BytecodeSweep.StandardEntriesFound` | fuzzer/src/blackbox/bytecode_analyzer.ts:5-36 | a compiler's dispatcher entry at a boundary is found exactly when a byte follows it |
| `BlackboxFuzzer.LengthsTrackLargestRead` | fuzzer/src/blackbox/fuzzer.ts:73-82 | a selector's recorded length is one word past the largest offset read, and other selectors keep theirs |
| `BlackboxFuzzer.Mutate` | fuzzer/src/blackbox/fuzzer.ts:474-494 | the selector survives, the length becomes the known one, and at most ten argument bytes change |
| `BlackboxFuzzer.FuzzBlackbox` | fuzzer/src/blackbox/fuzzer.ts:502-646 | each round runs a mutation of a selector or of an input kept before; the coverage holds exactly what the inputs went through without reverting, the corpus the selectors and the inputs that discovered something, the lengths what all inputs read; every input kept calls a function found by the sweep |
| `Validator.GetPastEvent` | fuzzer/cli.ts:35-55 | the loop fetches exactly the specified windows |
| `Validator.WindowsCover` | fuzzer/cli.ts:45-53 | the windows cover the start to the latest block and nothing else, twice only where two meet, and nothing when the chain has not grown past the start |
| `ValidatorProofs.PollDelivers` | fuzzer/cli.ts:35-55 | at any time a poll hands every event of the chain to new callbacks as often as the windows fetched without an error cover its block, counted from the start block, and changes nothing else |
| `ValidatorProofs.AtMostOneVote` | fuzzer/cli.ts:433-490 | under every interleaving and re-delivery no token gets two votes, and a vote means the token was claimed |
| `ValidatorProofs.CallsFollowAnswers` | fuzzer/cli.ts:451-482 | votes have the sense of the judgement the same callback just made, post-processing follows exactly a ready answer, and both only for tokens claimed before |
| `ValidatorHandler.CallbacksHandle` | fuzzer/cli.ts:442-488 | under every interleaving, what each callback learns and does is what the handler written straight through does on its events with the answers it was given and the tokens voted when it was given them: Aye exactly on a positive verdict, Nay on a negative one, frozen and ready answers likewise |
| `ValidatorHandler.VotedAreClaimed` | fuzzer/cli.ts:433-461 | at any time the voted tokens are the placeholder and those some callback has claimed |
| `ValidatorProofs.EveryPollStartsOver` | fuzzer/cli.ts:364-366 | in every run the first block fetched is the constant start block |
| `ValidatorProofs.ProgressIsNoted` | fuzzer/cli.ts:486 | the progress noted never falls, is the block of an event passed, and is no smaller than that of any other event passed |
| `ValidatorProofs.EveryMintedTokenIsVoted` | fuzzer/cli.ts:436-490 | once all callbacks have finished after an error-free poll, each token minted in range was voted on exactly once unless its oracle was seen frozen |
| `OracleId.RoundMultipliesBy31` | fuzzer/cli.ts:222-224 | shifting and subtracting with 32-bit wrapping multiplies by 31 modulo 2^32 |
| `OracleId.ToOracleId` | fuzzer/cli.ts:217-227 | the loop computes the magnitude of the base-31 polynomial read as a signed 32-bit number |
| `Consensus.CodeUnitsStandForName` | fuzzer/cli.ts:221-225 | the code units hashed are those of the name, with surrogates for characters beyond the basic plane |
| `OracleId.HashConcat` | fuzzer/cli.ts:221-225 | the hash of a concatenation follows from the hashes of its parts |
| `OracleId.SharedIds` | fuzzer/cli.ts:226 | two names share an id exactly when their polynomials agree up to sign modulo 2^32 |
| `OracleId.IdRange` | fuzzer/cli.ts:226 | ids reach 2^31 and no further, exactly for hashes of -2^31; a real name that gets there is given |
| `Consensus.RewardPositive` | fuzzer/cli.ts:247-254 | a reward is due exactly for an unfrozen oracle whose share and base reward have one sign |
| `Consensus.RewardsAddUp` | fuzzer/cli.ts:247-254 | whatever oracles are found, they get as much of the base reward as their unfrozen shares add up to |
| `Consensus.Miner.OnBug` | fuzzer/cli.ts:309-330 | claims the oracle before anything else and mints once, only when a reward is due; a reward that is no whole number throws after the claim |
| `Consensus.Miner.OnBugs` | fuzzer/cli.ts:309-330 | one campaign's reports lead to one mint per rewarded oracle, in order, up to the first that throws |
| `Consensus.AyeMeansMintable` | fuzzer/cli.ts:376-388 | a validator confirms a claim exactly when its text replays to a named oracle for which a miner that has reported nothing yet mints that very claim |
| `Consensus.MinerAgrees` | fuzzer/cli.ts:309-388 | the same, with a new miner handling that oracle |
| `Consensus.ConfirmedClaimsAgree` | fuzzer/cli.ts:376-388 | two confirmed claims on one text name the same oracle id and the same reward |
| `Consensus.MintedClaimsAreJudged` | fuzzer/cli.ts:309-388 | a validator that replays from the same count under the same terms confirms whatever a miner mints from a campaign, except exactly the claims whose recorded method name is ambiguous or whose oracle has no name |
| `EscrowProgram.Runtime.InitializeEscrow` | crates/client/tests/test_data/expanded_anchor_program.rs:1815-1830 | the handler and its account checks, field by field, end as specified or with the specified error |
| `EscrowProgram.Runtime.CancelEscrow` | crates/client/tests/test_data/expanded_anchor_program.rs:1831-1839 | the same for cancelling |
| `EscrowProgram.Runtime.Exchange` | crates/client/tests/test_data/expanded_anchor_program.rs:1840-1852 | the same for the two transfers, the hand-over and the closing |
| `EscrowProgram.Runtime.Execute` | crates/client/tests/test_data/expanded_anchor_program.rs:1770-1809 | a failed transaction leaves the ledger as it was, a successful one as specified |
| `EscrowProofs.RunConserves` | crates/client/tests/test_data/expanded_anchor_program.rs:1815-1852 | over every run, whatever accounts coincide, a mint's tokens change only by minting and burning |
| `EscrowProofs.StepKeepsSafe` | crates/client/tests/test_data/expanded_anchor_program.rs:1815-1852 | every step of the program and of other parties keeps deposits locked, funded and distinct |
| `EscrowProofs.EscrowsStaySafe` | crates/client/tests/test_data/expanded_anchor_program.rs:1815-1852 | so in every reachable state each live escrow's deposit is the program's, covers the promise, and backs no other escrow |
| `EscrowSettlement.RecordLifetime` | crates/client/tests/test_data/expanded_anchor_program.rs:2510-2536 | a record appears only by initialization, disappears only by settlement, and never changes in between |
| `EscrowSettlement.SettledAtMostOnce` | crates/client/tests/test_data/expanded_anchor_program.rs:2800-2817 | over every run, initializations equal settlements plus the live record, if any |
| `EscrowSettlement.InitializeLocksDeposit` | crates/client/tests/test_data/expanded_anchor_program.rs:2032-2151 | exactly when initializing succeeds; it records the offer and hands over the deposit without moving tokens |
| `EscrowSettlement.CancelReturnsDeposit` | crates/client/tests/test_data/expanded_anchor_program.rs:2741-2761 | in every reachable state a live escrow can be cancelled exactly by naming its recorded accounts as writable, unsigned, and the deposit returns to the initializer whole |
| `EscrowSettlement.TransferExactly` | crates/client/tests/test_data/expanded_anchor_program.rs:3066-3091 | exactly when a transfer succeeds, overflow included, and what it moves, aliased or not |
| `EscrowSettlement.TransferDeltas` | crates/client/tests/test_data/expanded_anchor_program.rs:3066-3091 | while supplies fit 64 bits no transfer overflows, so its other checks alone decide |
| `EscrowSettlement.ExchangeSwaps` | crates/client/tests/test_data/expanded_anchor_program.rs:2418-2459 | in every reachable state, exactly when an exchange succeeds, and its net effect on every account even when roles coincide |
| `IdlBuffer.Stored.Write` | crates/client/tests/test_data/expanded_anchor_program.rs:1681-1707 | appends in place after the current data, or fails and changes nothing |
| `IdlBuffer.Stored.Resize` | crates/client/tests/test_data/expanded_anchor_program.rs:1640-1665 | grows an unwritten account by at most ten thousand bytes toward the target, or fails |
| `IdlBuffer.Stored.SetBuffer` | crates/client/tests/test_data/expanded_anchor_program.rs:1717-1740 | copies the buffer's data over this account's and leaves the buffer alone, or fails |
| `IdlBuffer.AccountsHoldContent` | crates/client/tests/test_data/expanded_anchor_program.rs:1602-1740 | over every sequence of instructions the data fits the account and equals the concatenation of all writes since creation or the last buffer copied in |
| `IdlBuffer.ResizingReachesTarget` | crates/client/tests/test_data/expanded_anchor_program.rs:1645-1662 | an unwritten account reaches its target size after exactly as many calls as ten-thousand-byte steps are needed |
| `IdlBuffer.ChangesNeedAuthority` | crates/client/tests/test_data/expanded_anchor_program.rs:625-667 | an account changes or disappears only with its authority's signature, and never two at once |
| `IdlBuffer.HandoverInRuns` | crates/client/tests/test_data/expanded_anchor_program.rs:1708-1716 | after any run, exactly the authority can hand the account on; from then on exactly the new one can act on it, and nothing else changes |
| `IdlBuffer.BufferCreationInRuns` | crates/client/tests/test_data/expanded_anchor_program.rs:992-1047 | after any run, a buffer is made exactly out of an unused account that holds a header, by a signing authority that is not the erased one |
| `IdlBuffer.ClosingInRuns` | crates/client/tests/test_data/expanded_anchor_program.rs:1375-1430 | after any run, exactly the authority closes an account, not into itself, and nothing else changes |
| `IdlBuffer.ErasedStays` | crates/client/tests/test_data/expanded_anchor_program.rs:625-667 | an account whose authority is erased stays as it is for ever |
| `IdlBuffer.WritesInRuns` | crates/client/tests/test_data/expanded_anchor_program.rs:1681-1707 | after any run, a write succeeds exactly when the authority has signed it and content and data fit; it appends and leaves the bytes beyond alone |
| `IdlBuffer.ResizesInRuns` | crates/client/tests/test_data/expanded_anchor_program.rs:1640-1665 | after any run, exactly the authority can resize, to no less than the size, while nothing has been written; the account grows by at most ten thousand bytes and keeps what it holds |
| `IdlBuffer.CopiesInRuns` | crates/client/tests/test_data/expanded_anchor_program.rs:1717-1740 | after any run, another account's content is copied over exactly when one authority has signed for both and it fits; the bytes beyond stay |
| `IdlBuffer.CreationInRuns` | crates/client/tests/test_data/expanded_anchor_program.rs:1602-1638 | after any run, an account can be created exactly where there is none, with its payer's signature, and starts without content in the capped size |
| `IdlParser.ScanInstructions` | crates/client/src/idl.rs:355-392 | the shared iterator finds what the single-pass specification finds |
| `IdlParser.ScanSucceedsOnSubsequences` | crates/client/src/idl.rs:363-383 | it succeeds exactly when the names are a subsequence of the named and unit structs |
| `IdlParser.ScanAgreesWithLookup` | crates/client/src/idl.rs:363-392 | with distinct struct names it finds what looking each name up would find |
| `IdlParser.ScanFindsWhatIsWritten` | crates/client/src/idl.rs:355-392 | what is found for a name are the fields of a struct of that name as the file writes them |
| `IdlParser.SetAccountModules` | crates/client/src/idl.rs:471-492 | the recursive collector appends what the walk specifies, and panics when it does |
| `IdlParser.WalkCollectsOutermost` | crates/client/src/idl.rs:471-492 | exactly the outermost prefixed modules are collected, in source order, each once |
| `IdlParser.WalkPanics` | crates/client/src/idl.rs:480-486 | the walk panics exactly when it must enter a module without a body |
| `IdlParser.JoinAccounts` | crates/client/src/idl.rs:408-457 | fails exactly when a module does not declare its struct; otherwise each pair gets the fields of the last module of its group, or keeps its own |
| `IdlParser.LastDeclaresIt` | crates/client/src/idl.rs:452-457 | a group gets the fields of the last module that declares it, and none exactly when no module does |
| `IdlParser.DeclaresWhatIsWritten` | crates/client/src/idl.rs:408-445 | a module declares the fields its first struct of the group's name is written with, and fails only when that is missing or unnamed |
| `IdlParser.Parse` | crates/client/src/idl.rs:141-469 | exactly when the parse panics, fails or succeeds, and what each pair then holds |
| `IdlParser.LastInstructionMod` | crates/client/src/idl.rs:144-169 | the instruction structs come from the file's last module of that name |
| `IdlParser.AccountSideIsTheRest` | crates/client/src/idl.rs:144-160 | everything but the instruction and private modules is walked for account modules |
| `IdlParser.AccountModulesByName` | crates/client/src/idl.rs:408-415 | account modules are those named by the prefix, and the rest of the name gives the struct |
| `ClientProofs.ParamsDistinct` | crates/client/src/program_client_generator.rs:35-55 | a function's parameters are distinct exactly when the interface's parameter names are and its account names are |
| `ClientProofs.EveryParamUsedOnce` | crates/client/src/program_client_generator.rs:57-114 | both bodies use each of their parameters exactly once and nothing else |
| `ClientProofs.FormsMeanTheInterface` | crates/client/src/program_client_generator.rs:79-114 | calling either form builds exactly the interface's instruction and account structs with each argument in its field |
| `ClientProofs.FunctionsMeanTheInstructions` | crates/client/src/program_client_generator.rs:23-119 | the generated functions are one pair for each instruction, in order, and nothing else; the first of a pair sends that very instruction's structs and the second returns their encoded forms |
| `ClientProofs.FunctionNamesDistinct` | crates/client/src/program_client_generator.rs:26-33 | a program's functions have distinct names exactly when its instruction names differ and none is another with `_ix` appended |
| `Upload.Plan` | crates/client/src/client.rs:464-485 | the chunking loop issues the specified writes |
| `Upload.PlanTiles` | crates/client/src/client.rs:464-485 | the writes are the consecutive pieces of at most 900 bytes, with offsets cut to 32 bits |
| `Upload.OffsetsTrue` | crates/client/src/client.rs:468-471 | all offsets are true exactly when the data is no longer than 4294967400 bytes |
| `Upload.TilesShowData` | crates/client/src/client.rs:486-489 | after some writes, in any order and however often, the account shows the data wherever one reached |
| `Upload.AnyOrderUploads` | crates/client/src/client.rs:426-489 | every completion order leaves the account equal to the data, as the sequential upload does |
| `Upload.Upload` | crates/client/src/client.rs:664-697 | performing the writes one by one on the account's bytes ends as specified, or fails at the first that does not fit |
| `DagCanon.SanitizeDag` | telemetry-backend/backend.js:58-70 | collecting into a set, sorting and decoding yields the canonical form |
| `DagCanon.DecodeEncode` | telemetry-backend/backend.js:61-69 | decoding an encoded numeric edge recovers it |
| `DagCanon.LessIsLexicographic` | telemetry-backend/backend.js:58-70 | the order sorted by is the one of a dictionary: at the first difference the smaller character, a proper prefix first |
| `DagCanon.CanonicalListsEdges` | telemetry-backend/backend.js:58-70 | the canonical form lists exactly the graph's edges, strictly sorted by encoded text |
| `DagCanon.CanonicalForm` | telemetry-backend/backend.js:58-70 | two edge lists have one canonical form exactly when they have the same edges, and taking it again changes nothing |
| `Heartbeats.CapTimeStartsBucket` | stats-backend/index.js:47-51 | a bucket starts at a multiple of the step, less than one step from the time, toward zero |
| `Heartbeats.CoveringCounts` | stats-backend/index.js:92-100 | a bucket's count is the number of records covering it |
| `Heartbeats.CoresAddUp` | stats-backend/index.js:92-100 | cores add up record by record |
| `Heartbeats.Collect` | stats-backend/index.js:92-100 | each bucket counts exactly the records covering it, and their cores, and both totals are the sums of the records' bucket counts |

## Left out

- The EVM, EEI, gas, `web3`, IPFS, gRPC, the databases, processes and files: foreign calls. The EVM is an arbitrary deterministic function, the remote chain an immutable one.
- JSON, base64 and RLP as text. Saving and loading is an invertible codec: state, arguments and records come back as they were, and the theorems about replay say so in their preconditions.
- `get_abi_instance`: its tuple branch is never taken, and the others only pick a constructor.
- AbiValues.Mutate: arguments are values, not objects updated in place. Which components of a tuple change is arbitrary.
- AbiValues.CopyIsIdentity: says nothing about the inner lists that a copied tuple shares with the original. The sharing cannot be observed, because only fresh copies are mutated and a mutated component's list is replaced in its parent.
- AbiValues.RoundTrip: reading a saved value with missing fields into an integer object counts as a failure, where JavaScript would go on with undefined ranges.
- FuzzLoop.RunOraclesInTurn: stops at the first oracle that answers true. In the source the remaining oracles still run after the verdict is out, on a copy that is thrown away; the shared edge buffer they would write to is taken by value, also in the theorems about coverage and edges. The code behind the buffer is not part of this model.
- CopyAliasing.UseCopy: the end of the copy is stated but for the values of the accounts that are not given to it (`Snapshots.CopiesRunAlone` has these for runs without given objects); code and storage are byte values, so that only account objects can be shared; the modelled code never writes into the buffers behind them.
- Engine.FuzzEngine.FuzzCampaign: the queue of states only ever holds the base state, so the draw from it is modelled apart, in `PrioritySample`. Zero-argument methods and an empty corpus are excluded by a precondition, since selecting from them has no meaning. A bug handler that throws would end the campaign; handlers are `Consensus.Miner.OnBugs`.
- Randomness is arbitrary within its range and the wall clock is a number of rounds. `known` addresses are never written, so `accountExists` and `accountIsEmpty` are omitted.
- LazyState.LazyStateManager.Apply: the text form of dirty marks is taken as injective.
- BlackboxFuzzer.FuzzBlackbox: the detection of token transfers and the files it writes; which states inputs run on is part of the arbitrary run.
- Validator.Step: voting, readiness and freezing are arbitrary answers, and exceptions of one callback end that callback only. The chain's events do not change while the validator runs.
- Consensus.MintedClaimsAreJudged: shares and base rewards are real numbers, without rounding or text that is no number; how the miner selects a project is omitted.
- Escrow.Transfer: the SPL token program is modelled from its interface; delegates, close authorities, frozen and native accounts, rent, lamports and account discriminators are omitted. The program's derived address never signs as an outside party. Creating an escrow at an address that already holds lamports is not told apart from a fresh one.
- IdlBuffer.Stored.Resize: the runtime's own limits on account size and on growth per instruction, and the rent transferred.
- IdlParser.Parse: the extraction of handlers and of the program id from the syntax tree, and conversion of names to camel case, are inputs; raw identifiers are not treated.
- ClientGenerator.Call: a semantics for the few forms that are generated, not for Rust.
- DagCanon.SanitizeDag: the hash of the canonical form, a function of that form; the library's sort is insertion into a sorted list.
- Heartbeats.Collect: timestamps, durations and cores are integers, as the database columns are (`db-schema/db.js`, lines 7-10).
- `contracts/test`, `keys.rs`, the price estimator, `stake`, configuration, the command line and the deployment files: stubs, tables, formulas over floating-point prices and calls of foreign services, none of which carries state of its own.
