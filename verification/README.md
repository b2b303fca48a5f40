# Verified cores of the Joystream tools and runtime

A Dafny model of the parts of the Joystream repository that carry real invariants, with proofs.
`dafny verify dfyconfig.toml` checks everything. One module stands for one component:

| file | what it models |
|---|---|
| `PreservedState.dfy` | the CLI's JSON state file shared by any number of processes: boot-time creation, locked read-merge-write, the metadata cache read outside the lock |
| `StakingSetup.dfy`, `StakingLocks.dfy` | setting up a staking account as a protocol over chain state, and the rule for which balance locks may coexist (runtime and CLI copies) |
| `BloatBonds.dfy` | saturating fees with a rounded coefficient, and whether the bonds of a video pay for its deletion |
| `WeightFile.dfy` | the fee analysis: line-driven parser, linear evaluator, and the Rust weight expression they should agree with |
| `ForumAccess.dfy` | ancestor walk, first-wins moderators, access to several categories by counting |
| `OverlayStore.dfy`, `SizePool.dfy`, `TrimmedMean.dfy`, `DigitGrouping.dfy` | the trie benchmark's overlay and flush, histogram sampler, trimmed average and number printing |
| `StorageBuckets.dfy`, `MultisigAddress.dfy`, `JsonPretty.dfy` | bucket ranking, multisig address canonicity, the stateful JSON printer |
| `Ordering.dfy`, `Machine.dfy`, `Wrappers.dfy` | sorting and counting, machine integers, options and results, shared by the above |

## What came out

Some properties one would expect hold only under a condition; each is proved as an
if-and-only-if or with an exact account of the difference.

- **State file.** `setPreservedState` never loses an update, except through `initStateFs`, which
  looks for the file and creates it without the lock: a process that saw no file can overwrite
  another's commit. Updates are never lost if and only if the file already existed or there is at
  most one process (`UpdatesNeverLostIff`).
- **Metadata cache.** Every entry on disk is the metadata of its own key in every run, but the
  whole-record write back can drop an entry that was committed in between
  (`CacheEntryOverwritten`). An entry once on disk stays there in every run if and only if there is
  at most one process, or the file's cache field holds no record at all (`EntriesNeverLostIff`).
- **Staking set-up.** It succeeds exactly under a condition on the snapshot and the answers
  (`SucceedsIff`). The top-up adds 200 units for the candidate stake, while the runtime's
  `CandidateStake` is ten dollars, 1 666 666 666 660 units: an unbound account topped up from
  another one is set up if and only if the required stake, the 200 units and what the fee estimate
  leaves over the fee reach that stake (`CandidateStakeMustFit`); below it the set-up fails whoever
  pays (`SmallStakesCannotBeSetUp`). A second run sends nothing if and only if the fees of the
  first left the required stake in place (`SecondPlanIsEmpty`).
- **Bloat bonds.** The bonds are computed from a call by the lead, the shortest there is. Members
  and curators are covered all the same, since one per-object fee is to spare: it pays for 183 more
  bytes and no more (`SpareBytesAreExact`). Rounding eats into the per-object profit exactly beyond
  a limit between 85 and 134 million objects, depending on rounding mode and actor
  (`FullProfitIff`); a video may have twenty. Both limits are exact for every entry size at which the
  fees and not the storage cost decide the bonds: video entries up to 1 480 and object entries up to
  236 bytes (`FeesDecideUpTo`); larger entries only raise the bonds.
- **`set_stake`** has no conflict check of its own; it keeps the one-rivalrous-lock rule exactly
  when the comparator would have agreed, or it is a no-op or a restake (`SetStakeKeepsIff`).
- **Sampler.** Over all draws the first histogram entry is hit once too often and the last once
  too seldom; sampling is proportional exactly for a single-entry histogram (`ProportionalIff`).
- **Fee analysis.** The evaluator fails exactly when a scaled write's variable is given; otherwise
  it is right if and only if every unscaled line that a later one of its kind overwrites says zero
  (`EvaluatesTheRustWeight`). A function is recorded if and only if an `impl` header without type
  parameters precedes it (`TableLookup`). The weight files of the repository put the real bodies under `impl<T: …> WeightInfo for …` and zeros under
  `impl WeightInfo for ()`, so all their records come out empty (`GenericImplYieldsEmptyRecords`).
- **JSON printer.** Nothing is escaped, so a string with a quote in it can print like two strings
  (`QuotesAreNotEscaped`); without such characters the text reads back as the value (`ReadsBack`).
- **Benchmark.** `run_benchmark` returns exactly when every kept duration and every squared
  deviation fits an i32 (modulo 2^32 in a wrapping build) and, in a checked build, their sum fits a
  u32 (`RunBenchmark`). Ten arbitrary durations cannot cause a panic if and only if the others are
  i32 numbers no further apart than 23 930 microseconds in a checked build, 47 937 in a wrapping one
  (`OutliersDoNotPanicIff`).

Where code and documentation disagree the code is followed. The comment at
runtime/src/lib.rs:216-219 multiplies the entry size by the cleanup profit; the code multiplies it
by the minimum bond per byte. The fee analysis takes reads and writes as 25 and 100 million weight;
the runtime's own table (runtime/src/weights/rocksdb_weights.rs) has 8 997 000 and 54 966 000, which
`BloatBonds` uses.

## Assumptions

- One `writeFileSync` is one atomic step, and the file lock is mutually exclusive. A read that
  throws under the lock keeps it; what a lock library does when a process exits is not modelled.
- The metadata of a chain is an oracle from genesis-and-version key to metadata.
- Prompts, key availability, fee estimates and the fate of a submitted transaction are inputs
  (`Answers`, `Verdict`); the membership pallet's candidate, confirm and remove calls are modelled with
  their own checks. `set_lock` replaces a lock of the same id or appends one and ignores a zero
  amount.
- No pallet but membership touches the binding lock.
- The council exchanges a candidacy lock for a councilor lock only on an account that holds the
  former, since a candidate's record and lock come and go together.
- Member, curator, group and video ids take eight bytes, as in runtime/src/primitives.rs; an
  unsigned extrinsic is a length prefix, a version byte, two index bytes and its arguments.
- The rounding of `Perbill` products and ratios is a parameter with four modes; results hold for
  each.
- A library sort yields a sorted permutation. Hashes, key derivation and terminal colours are
  function parameters.
- Weight file lines are classified tokens, one expression per line as the generator writes them.

## Model

| member | source | states |
|---|---|---|
| PreservedState.AtMostOneInside | cli/src/base/StateAwareCommandBase.ts:114-126 | in every run of any number of processes at most one stands between lock and unlock, and it holds the lock |
| PreservedState.FailedReadKeepsLock | cli/src/base/StateAwareCommandBase.ts:116-118 | after a locked read that throws, every run keeps the lock with that process, commits nothing and never lets the process act again |
| PreservedState.FailedLockEnds | cli/src/base/StateAwareCommandBase.ts:116 | a lock that cannot be taken changes nothing and ends the process |
| PreservedState.FailedWriteEnds | cli/src/base/StateAwareCommandBase.ts:119-124 | a write that throws changes nothing, leaves only the release to do, and that gives the lock back and ends the process |
| PreservedState.LockNeedsFile | cli/src/base/StateAwareCommandBase.ts:114-116 | a waiting process gets the lock if and only if nobody holds it and there is a file |
| PreservedState.BootChecksForFile | cli/src/base/StateAwareCommandBase.ts:89-96 | with a file a process goes on to its command, without one it first writes the defaults |
| PreservedState.FreshFileReads | cli/src/base/StateAwareCommandBase.ts:98-110 | a fresh file reads as the defaults, the undefined one included, and nothing else |
| PreservedState.CacheKeptOrFilled | cli/src/base/ApiCommandBase.ts:120-128 | a cached key is kept with nothing changed, a missing one is added, on the default object itself when the file lacks the field |
| PreservedState.CommitReadsBack | cli/src/base/StateAwareCommandBase.ts:98-110 | one commit read back: mentioned fields take the update (undefined falls back to the default), all others read as before, aliased defaults included |
| PreservedState.RunKeepsSerial | cli/src/base/StateAwareCommandBase.ts:98-126 | from any sound state, after any run the file read back is the last write of each field in commit order |
| PreservedState.UninterruptedSection | cli/src/base/StateAwareCommandBase.ts:114-126 | a locked section nobody interrupts is one atomic commit |
| PreservedState.UpdateLostByLateCreation | cli/src/base/StateAwareCommandBase.ts:89-96 | a concrete run in which unlocked creation overwrites a committed update |
| PreservedState.UpdatesNeverLostIff | cli/src/base/StateAwareCommandBase.ts:89-126 | no run ever loses an update if and only if the file existed or there is at most one process |
| PreservedState.CacheEntriesStayTrue | cli/src/base/ApiCommandBase.ts:119-129 | in every run, boot races included, each cache entry on disk is the metadata of its own key |
| PreservedState.CacheEntryOverwritten | cli/src/base/ApiCommandBase.ts:120-128 | the whole-record write back of a cache read earlier drops another process's entry, aliased defaults included |
| PreservedState.EntryLostByLateCreation | cli/src/base/StateAwareCommandBase.ts:89-96 | without a file, unlocked creation drops a committed entry |
| PreservedState.EntriesNeverLostIff | cli/src/base/ApiCommandBase.ts:119-129 | every cache entry on disk stays there in every run if and only if there is at most one process, or the file exists and its cache field is not a record |
| PreservedState.StateFile.InitStateFs | cli/src/base/StateAwareCommandBase.ts:89-96 | afterwards there is a file that reads exactly as before, a missing one as the defaults although JSON drops the undefined ones |
| PreservedState.StateFile.SetPreservedState | cli/src/base/StateAwareCommandBase.ts:112-126 | a missing file or a held lock is a lock error, success and write failure release the lock, a read failure keeps it, failures change nothing, success applies the update field by field |
| StakingLocks.CliAgreesWithRuntime | cli/src/Api.ts:570-589 | the CLI check accepts exactly what the runtime comparator does not find conflicting |
| StakingLocks.NeverTwoRivalrousLocks | runtime/src/lib.rs:1305-1328 | over every run of guarded stakes and bonds, restakes, unlocks, slashes, unchecked non-rivalrous locks and elections an account never holds two rivalrous locks |
| StakingLocks.StakeEffect | runtime-modules/staking-handler/src/lib.rs:107-120 | a stake is admitted if and only if nothing rivals it and the balance covers it; then it is the amount asked and every other lock keeps its amount, else nothing changes |
| StakingLocks.BondEffect | runtime/src/lib.rs:1320-1328 | bonding is possible if and only if the account holds nothing rivalrous, and then sets the bonded amount |
| StakingLocks.RestakeEffect | runtime-modules/staking-handler/src/lib.rs:156-180 | a stake that is there becomes the amount asked, zero included, unless the balance is below it |
| StakingLocks.UnlockEffect | runtime-modules/staking-handler/src/lib.rs:122-124 | the lock is gone and every other lock keeps its amount |
| StakingLocks.LockFreelyEffect | runtime-modules/membership/src/lib.rs:802-807 | an unchecked lock is set to the amount asked exactly if it is not rivalrous |
| StakingLocks.SlashEffect | runtime-modules/staking-handler/src/lib.rs:126-154 | a slash takes the amount asked, at most the stake, and a full one leaves no lock |
| StakingLocks.ElectEffect | runtime-modules/council/src/lib.rs:1418-1448 | the candidacy lock is gone, the councilor lock holds the stake, every other lock keeps its amount |
| StakingLocks.ExchangeKeepsIff | runtime-modules/council/src/lib.rs:1418-1448 | the exact condition under which unlocking one id and locking another with no check, as an election does, keeps that rule |
| StakingLocks.SetStakeKeepsIff | runtime-modules/staking-handler/src/lib.rs:156-180 | the exact condition under which `set_stake` keeps that rule |
| StakingLocks.SlashConserves | runtime-modules/staking-handler/src/lib.rs:126-154 | stake lost equals amount reported, at most what was asked, and the balance falls by the same, or to zero when it holds less |
| StakingLocks.AdmittedIffAtMostOneRivalrous | runtime/src/lib.rs:1306-1314 | a list of locks is admitted on a fresh account exactly when at most one is rivalrous |
| StakingLocks.AdmittedIffAllLocked | runtime-modules/staking-handler/src/lib.rs:182-188 | staking distinct ids leaves exactly those locks in order just when the list is admitted |
| StakingLocks.ApplyLeavesOthers | runtime-modules/staking-handler/src/lib.rs:110-180 | an operation on one lock leaves every other lock present exactly if it was |
| StakingLocks.AdmissionIgnoresOrder | runtime/src/lib.rs:1306-1314 | admitted in one order if and only if admitted in every order |
| StakingSetup.Session.SetupStakingAccount | cli/src/base/AccountsCommandBase.ts:334-430 | the first failing check, stated on chain, keys and answers, decides the error and leaves the chain untouched with nothing sent; otherwise the planned transactions are sent up to the first failure |
| StakingSetup.PlanPassesIff | cli/src/base/AccountsCommandBase.ts:342-412 | the checks pass if and only if a given source is known, the lock does not conflict, the account is not another member's, it is confirmed or known, and it is funded or the user agrees; else the first that fails names the error |
| StakingSetup.PlannedSteps | cli/src/base/AccountsCommandBase.ts:383-427 | exactly what is missing is transferred, from the given source or the chosen one; an unbound account is made a candidate, an unconfirmed one confirmed |
| StakingSetup.FailureStopsThere | cli/src/base/AccountsCommandBase.ts:400-427 | the first transaction that does not go through ends the set-up: a failed top-up costs at most its fee, a failed candidate call binds nothing, a failed confirm call leaves the account bound and unconfirmed |
| StakingSetup.OnlyThreeAccountsMove | cli/src/base/AccountsCommandBase.ts:400-427 | nothing of any account but the staking account, its source and the controller changes |
| StakingSetup.Session.SetupTwice | cli/src/base/AccountsCommandBase.ts:334-430 | after a success an immediate second run succeeds and sends nothing if and only if the fees left the required stake in place, as they always do with other source and controller and a fee within the estimate |
| StakingSetup.CandidateEffect | runtime-modules/membership/src/lib.rs:1060-1103 | what a successful candidate call changed and which checks it passed |
| StakingSetup.ConfirmEffect | runtime-modules/membership/src/lib.rs:1146-1176 | what a successful confirm call changed |
| StakingSetup.RemovalIff | runtime-modules/membership/src/lib.rs:1115-1134 | a removal succeeds if and only if the account is bound to that member and pays its fee; it takes the binding and its lock and nothing else |
| StakingSetup.SetupConfirms | cli/src/base/AccountsCommandBase.ts:383-429 | success leaves the account confirmed for the member, its locks as planned, and its balance known to the unit, whichever accounts coincide |
| StakingSetup.SetupFunds | cli/src/base/AccountsCommandBase.ts:383-412 | with other source and controller and a fee within the estimate, the balance reaches the stake plus the candidate stake when unbound |
| StakingSetup.SetupFundsIff | cli/src/base/AccountsCommandBase.ts:383-429 | exactly when it does in general, coinciding accounts and higher fees included |
| StakingSetup.SetupSurvivesOthers | cli/src/base/AccountsCommandBase.ts:349-429 | the result still holds when other users act between the snapshot and each submission |
| StakingSetup.SecondPlanIsEmpty | cli/src/base/AccountsCommandBase.ts:352-427 | after a success planning again finds nothing to send, for any further answers, if and only if the balance less the fees the account paid is at least the required stake |
| StakingSetup.SetupAdmitsLock | cli/src/base/AccountsCommandBase.ts:352-356 | after a success the runtime finds no conflict with the requested lock and at most one rivalrous lock is held |
| StakingSetup.SucceedsIff | cli/src/base/AccountsCommandBase.ts:342-430 | success if and only if the checks pass and each transaction called for is paid and admitted, read off the snapshot and the answers, whichever accounts coincide |
| StakingSetup.CandidateStakeMustFit | cli/src/base/AccountsCommandBase.ts:383-386 | an unbound account topped up from another one, all else in order, is set up if and only if stake plus 200 plus estimate reaches the runtime's candidate stake plus fee |
| StakingSetup.SmallStakesCannotBeSetUp | runtime/src/lib.rs:1210-1217 | with the runtime's candidate stake a set-up that needs a top-up never succeeds when stake plus 200 plus estimate is below ten dollars plus the fee, whoever pays |
| StakingSetup.RunsStayConsistent | runtime-modules/membership/src/lib.rs:1060-1176 | over every run of transfers and membership calls by anybody, included, refused or failing, and of other pallets' stakes, bonds, restakes, unlocks, slashes and elections on any account, every account keeps at most one rivalrous lock, and exactly the bound accounts hold the binding lock |
| StakingSetup.RunsConserveFunds | cli/src/base/AccountsCommandBase.ts:400-427 | over every such run the free balances of all accounts together lose exactly the fees charged and the slashes burned |
| BloatBonds.CurrencyDerivation | runtime/src/constants.rs:131-150 | the currency literals are what the source expressions come to |
| BloatBonds.CoefficientDerivation | runtime/src/constants.rs:106-118 | the fee numerator is weight times the rounded coefficient, whose integer part is zero |
| BloatBonds.RoundingError | runtime/src/constants.rs:108-117 | a rounding and a difference of two err by less than one unit, and rounding is monotone |
| BloatBonds.RoundedGrowth | runtime/src/lib.rs:1119-1137 | separately rounded fees grow by at most the first step plus one unit per object |
| BloatBonds.FeeSaturatesOnce | runtime/src/utils.rs:22-37 | a fee is the sum of base, weight and length parts, saturated once |
| BloatBonds.FeeIsExact | runtime/src/utils.rs:22-37 | no u64 weight and u64 length saturate a fee |
| BloatBonds.CleanupBondIsLeast | runtime/src/utils.rs:40-60 | the bond is the least amount meeting storage cost and fee plus profit, at any size and with saturation |
| BloatBonds.ExistentialBondIsLeast | runtime/src/utils.rs:40-72 | the bond is the least amount meeting storage cost, deposit and fee plus profit |
| BloatBonds.DeleteWeightIsAffine | runtime-modules/content/src/weights.rs:657-669 | the delete weight is affine in objects and buckets over the whole u32 range |
| BloatBonds.DeleteWeightsWithoutBuckets | runtime-modules/content/src/lib.rs:4632-4645 | the weight without assets, and with assets but no witness, u32 narrowing included |
| BloatBonds.DeleteVideoLengths | runtime-modules/content/src/permissions/mod.rs:18-26 | the encoded length of the call for each actor, with and without witness |
| BloatBonds.DeletionFeeBound | runtime-modules/content/src/lib.rs:4632-4645 | deletion costs at most the one-object fee plus the per-object fee and one unit for each further object and the byte fee of up to 183 extra bytes, u32 narrowing included |
| BloatBonds.BondsCoverDeletion | runtime/src/lib.rs:844-858 | for any number of objects, entry sizes and witness, and calls up to 183 bytes longer than the configured one, the returned bonds pay the deletion fee, the video profit, and the object profits up to one unit each |
| BloatBonds.SpareBytesAreExact | runtime-modules/content/src/permissions/mod.rs:18-37 | that holds for any entry sizes up to 183 extra bytes, and if and only if so for every entry size at which the fees decide the bonds |
| BloatBonds.FeesDecideUpTo | runtime/src/utils.rs:40-60 | the fees decide the configured bonds if and only if a video entry is at most 1 480 and an object entry at most 236 bytes |
| BloatBonds.FullProfitIff | runtime/src/lib.rs:1119-1143 | for each actor and rounding mode the object profits are paid in full within the mode's limit, beyond u32, or rounding down, and only then for every entry size at which the fees decide the bonds |
| BloatBonds.CandidateStakeIsTenDollars | runtime/src/utils.rs:75-77 | the candidate stake is exactly ten dollars, and would be more only for a removal call above 4 994 527 bytes |
| WeightFile.ParseWeights | analyses/fee-analysis/analysis_cli/parser.py:16-96 | the line loop computes the fold of the line state machine |
| WeightFile.ParserInvariant | analyses/fee-analysis/analysis_cli/parser.py:29-94 | after any whole items the parser is between functions with empty accumulators and exactly their table |
| WeightFile.ParsingYieldsTable | analyses/fee-analysis/analysis_cli/parser.py:29-94 | parsing a generated file gives its table |
| WeightFile.QualifiedIsInjective | analyses/fee-analysis/analysis_cli/parser.py:33-94 | two functions get two names, across pallets too since a pallet's name holds no colon |
| WeightFile.EachFunctionHasItsRecord | analyses/fee-analysis/analysis_cli/parser.py:29-94 | each function of each pallet has the record of its own body, whatever other functions and pallets the file has |
| WeightFile.UnusualLines | analyses/fee-analysis/analysis_cli/parser.py:31-94 | a term on a closing line opens the next record, and a header or function inside a function takes over at once |
| WeightFile.CalcVarsWeight | analyses/fee-analysis/analysis_cli/analysis.py:30-48 | the sum over given variables, or a key error exactly when a scaled write's variable is given |
| WeightFile.CalcWeight | analyses/fee-analysis/analysis_cli/analysis.py:51-56 | that sum plus base, reads, writes and extrinsic base |
| WeightFile.RustWeightSaturatesOnce | runtime-modules/content/src/weights.rs:657-669 | a chain of saturating operations equals the exact value saturated once |
| WeightFile.EvaluatesTheRustWeight | analyses/fee-analysis/analysis_cli/analysis.py:30-56 | evaluating a parsed body fails if and only if a scaled write's variable is given, and else is right if and only if only zeros are overwritten by later lines of their kind |
| WeightFile.RepeatedReadsAreLost | analyses/fee-analysis/analysis_cli/parser.py:66-68 | a concrete body whose first reads line is lost |
| WeightFile.NothingBeforeHeader | analyses/fee-analysis/analysis_cli/parser.py:29-34 | any lines before the first plain impl header leave no trace in the table |
| WeightFile.TableLookup | analyses/fee-analysis/analysis_cli/parser.py:31-51 | a name is in the table if and only if a function of that name follows a plain impl header |
| WeightFile.TableRecord | analyses/fee-analysis/analysis_cli/parser.py:37-51 | its record is that of the last such body |
| WeightFile.Analyse | analyses/fee-analysis/analysis_cli/parser.py:16-96 | parse a file with any preamble, look up, evaluate: off the exact weight by what was overwritten; equal to the Rust weight plus the base if and only if the body repeats only zeros, or, above u64, if what was overwritten is exactly the excess |
| WeightFile.GenericBodiesAreLost | analyses/fee-analysis/analysis_cli/parser.py:31-33 | items under generic headers alone never reach the table |
| WeightFile.GenericImplYieldsEmptyRecords | runtime-modules/membership/src/weights.rs:73-260 | a real implementation under a generic header with zero defaults after it yields only empty records, so its evaluation is right if and only if the real weight is zero |
| WeightFile.GenericHeaderLosesABody | analyses/fee-analysis/analysis_cli/parser.py:31-33 | a concrete file whose function weighs seven and is recorded as weighing nothing |
| ForumAccess.ChainExistsIffAcyclic | cli/src/Api.ts:606-615 | the upward walk reaches a root if and only if it meets no cycle |
| ForumAccess.ForumCategoryAncestors | cli/src/Api.ts:606-615 | on acyclic ancestry the walk terminates with exactly the chain above the category |
| ForumAccess.EnsureCategoryMutable | cli/src/base/ForumCommandBase.ts:43-60 | accepted exactly when the category exists and nothing on its chain is archived |
| ForumAccess.ForumCategoryModerators | cli/src/Api.ts:617-637 | each worker with access once, paired with the assigned category nearest the root |
| ForumAccess.AccessIsInherited | cli/src/Api.ts:617-637 | moderators of an ancestor moderate everything below it |
| ForumAccess.CountList | cli/src/base/ForumCommandBase.ts:104-108 | one list adds one to each worker it names, given that it names each once |
| ForumAccess.GetIdsOfModeratorsWithAccessToCategories | cli/src/base/ForumCommandBase.ts:101-112 | exactly the workers with access to every listed category, each once, duplicates of categories allowed |
| OverlayStore.ViewIsLastOperation | analyses/bench/src/simple_trie.rs:45-71 | after any operations a read answers with the last operation on its key |
| OverlayStore.FlushPreservesView | analyses/bench/src/generator.rs:60-67 | flushing in any order answers every key as the overlay view did |
| OverlayStore.FlushIgnoresOrder | analyses/bench/src/generator.rs:61-66 | any two iteration orders give the same database |
| OverlayStore.OperationsThenFlush | analyses/bench/src/generator.rs:37-67 | operations then flush: each key answers with its last operation |
| OverlayStore.SimpleTrie.Insert | analyses/bench/src/simple_trie.rs:57-61 | the value is found again under the returned hash |
| OverlayStore.SimpleTrie.EmplaceAt | analyses/bench/src/simple_trie.rs:63-66 | the key now reads as the value |
| OverlayStore.SimpleTrie.RemoveAt | analyses/bench/src/simple_trie.rs:68-71 | the key now reads as absent |
| OverlayStore.SimpleTrie.Flush | analyses/bench/src/trie.rs:295-303 | the loop over the overlay and the write leave every answer unchanged |
| SizePool.FromHistogram | analyses/bench/src/trie.rs:330-341 | cumulative keys and total; a total that leaves u32 panics in a checked build and wraps in the other |
| SizePool.SamplingNeverFails | analyses/bench/src/trie.rs:343-350 | for every histogram sampling fails only on a zero total, wrapped totals included |
| SizePool.DistributionIsLast | analyses/bench/src/trie.rs:333-336 | a key belongs to the last entry with that running total, zero counts included |
| SizePool.WrappedDistributionIsLast | analyses/bench/src/trie.rs:333-336 | and so it does when the totals wrap around |
| SizePool.SelectedRange | analyses/bench/src/trie.rs:344-348 | the exact draws that select each entry |
| SizePool.HitCount | analyses/bench/src/trie.rs:329-350 | each entry is hit its count, the first once more, the last once less |
| SizePool.HitYieldsSize | analyses/bench/src/trie.rs:343-350 | a draw that hits an entry yields that entry's size |
| SizePool.ProportionalIff | analyses/bench/src/trie.rs:329-350 | sampling is proportional to the counts if and only if there is one entry |
| TrimmedMean.RunBenchmark | analyses/bench/src/core.rs:104-129 | raw and trimmed average and the sum of squared deviations modulo 2^32, exactly when each kept duration and square fits i32 and, under checks, the sum fits u32 |
| TrimmedMean.SumDeviations | analyses/bench/src/core.rs:119-129 | the chain of conversions, products and sum against the sum of squares in closed form, per build |
| TrimmedMean.AverageIgnoresOrder | analyses/bench/src/core.rs:114-117 | the average does not depend on measurement order |
| TrimmedMean.OutliersDoNotMatter | analyses/bench/src/core.rs:114-117 | with at most ten arbitrary durations the average lies between the bounds of the others |
| TrimmedMean.OutliersDoNotPanicIff | analyses/bench/src/core.rs:114-129 | with at most ten arbitrary durations and the others between two bounds it always returns if and only if the upper one fits i32 and they are at most 23 930 (checked) or 47 937 (wrapping) apart |
| TrimmedMean.CheckedBuildPanics | analyses/bench/src/core.rs:119-129 | fifteen kept durations at each end of 23 931 make a checked build panic |
| TrimmedMean.WrappingBuildPanics | analyses/bench/src/core.rs:119-129 | one kept duration 47 938 above the others makes a wrapping build panic |
| DigitGrouping.PrettyPrint | analyses/bench/src/trie.rs:50-59 | the insertion loop computes the grouped text |
| DigitGrouping.PrettyTextRoundTrip | analyses/bench/src/trie.rs:50-59 | removing commas gives the decimal digits and their value is the number |
| DigitGrouping.DecimalIsCanonical | analyses/bench/src/trie.rs:50-52 | the digits are the only ones without leading zero that have the number's value |
| DigitGrouping.PrettyTextCommas | analyses/bench/src/trie.rs:52-57 | no comma leads and commas stand at every fourth place from the right |
| DigitGrouping.PrettyTextIsInjective | analyses/bench/src/trie.rs:50-59 | equal texts come from equal numbers |
| StorageBuckets.ComparatorIsConsistent | cli/src/QueryNodeApi.ts:190-200 | the sort callback is antisymmetric and a total preorder |
| StorageBuckets.SelectStorageBucketsForNewChannel | cli/src/Api.ts:498-509 | exactly the policy count, from the input without repetition, roomiest first, nothing left is roomier |
| StorageBuckets.SelectionCapacityIsUnique | cli/src/QueryNodeApi.ts:192-200 | whichever sort is used the k-th bucket has the same free size and count |
| MultisigAddress.KeyLeIsLexicographic | cli/src/base/AdvancedTransactionsCommandBase.ts:252-262 | the key order is decided by the first byte that differs |
| MultisigAddress.AddressIsOfAscendingKeys | cli/src/base/AdvancedTransactionsCommandBase.ts:252-262 | the address is derived from the ascending list of the others and a given signer, and the threshold |
| MultisigAddress.AddressIsCanonical | cli/src/base/AdvancedTransactionsCommandBase.ts:252-262 | the address is the same whoever signs and however the others are listed |
| MultisigAddress.OfflineCheckAgrees | cli/src/base/SignOfflineCommandBase.ts:48-94 | the offline check of either call derives that same address, and none for a call hash that does not match or another method |
| JsonPretty.Printer.Any | cli/src/base/DefaultCommandBase.ts:116-127 | the printer with mutable indentation prints what the pure printer prints and restores the indentation |
| JsonPretty.Printer.Arr | cli/src/base/DefaultCommandBase.ts:107-114 | the same for arrays |
| JsonPretty.Printer.Obj | cli/src/base/DefaultCommandBase.ts:96-105 | the same for objects |
| JsonPretty.JoinHolds | cli/src/base/DefaultCommandBase.ts:100-110 | the joined text holds every part at its offset with the separator between neighbours |
| JsonPretty.ReadsBack | cli/src/base/DefaultCommandBase.ts:78-127 | uncoloured, at any indentation, what is printed reads back as the value, by a reader of the layout, when strings hold no quote, keys no colon and literals are those of JSON |
| JsonPretty.PrettyIsInjective | cli/src/base/DefaultCommandBase.ts:78-127 | two such values print alike only if they are the same |
| JsonPretty.QuotesAreNotEscaped | cli/src/base/DefaultCommandBase.ts:121-123 | without that condition one string can print like two |

## Left out

- Node service, RPC, command dispatch, generated API clients and types: wiring without logic of its own.
- Interactive prompts, keyring, signing and extrinsic submission: inputs of the models, not modelled themselves.
- promptForStakingAccount: the retry loop around the set-up, which need not terminate.
- Pallets beyond the staking handler, the three membership calls and the exchange of locks at a council election: not part of this model.
- DealWithFees and the adjustable fee multiplier: fees are those `compute_fee` computes.
- Update in place of the bucket list and the duration vector by the library sort: both are modelled on sequences, so aliasing of the array is not captured.
- The square roots of the standard deviation, plotting, regression and timing of the bench crate: floating point and input/output.
- Regular expressions of the weight parser: lines are tokens; malformed database lines, on which the parser raises, are not modelled.
- Prices in fiat currency in the fee analysis: floating-point scaling of the modelled weight.
- Worker ids above 2^53, on which the JavaScript number conversion fails.
- `MaxLocks` of the balances pallet: an account's lock list is unbounded.
