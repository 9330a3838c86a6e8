# Hardgate, verified

Hardgate gates a repository: it measures code, collects evidence from producers such as coverage and
mutation tools, and decides whether a change is accepted. This project models the algorithms and
protocols behind that decision and proves what they promise.

| module | what it models |
|---|---|
| `RoleGraph`, `RustOwnership`, `OwnershipMeaning` | which Rust files are test code: a worklist spreads production and test roles over the module graph, a second pass treats disconnected cycles, and missing context withdraws the proof |
| `RoleViews`, `Utf8` | splitting one file between its two roles: sweeps over byte ranges, line roles and masked copies |
| `BestFit`, `Ratchet`, `RatchetOrder`, `LegacyRatchet`, `RatchetMeaning`, `RenameLineage`, `PathOrder` | the legacy ratchet: which present findings old debt excuses, of each kind and in the whole report, and under which path the old debt is looked up |
| `EvidenceProtocol`, `EvidenceHistory`, `EvidenceAlone`, `EvidenceProducer`, `EvidenceMeaning`, `Runs` | publishing evidence: the protocol of any number of attempts that may fail or be killed between any two steps, what its reader can accept and where that came from, attempts that nobody disturbs, and the code of producer and reader as steps of that protocol |
| `EvidenceWorkspace` | the private copy in which checks run, its statuses, and the session that keeps or removes it |
| `RollingHash`, `CloneWindows`, `CloneIndex` | the index of token windows: a rolling hash, buckets and capacities, and why no pair of equal windows is missed |
| `Clones`, `CloneReport`, `CloneLines`, `CloneMeaning`, `CloneExample` | coalescing clone matches with an arithmetic test in place of comparing tokens, the sort before and the report after it, and the lines that are reported |
| `UnifiedDiff`, `DiffRoundTrip`, `DiffReadBack`, `DiffMeaning`, `DiffStatus` | reading Git's zero-context diff and its name and status records, proved against renderers of both, with plain and quoted paths |
| `ShellWords`, `ShellMeaning` | quoting words for a command line and splitting it again |
| `SourceTree`, `TreeWalk`, `TreeCopy`, `TreeSnapshot`, `TreeMeaning` | copying a project tree and taking its snapshot: two walks that leave out different things and must agree |
| `Acceptance`, `AcceptanceMeaning` | from engine observations and findings to the verdict and the exit code |
| `Lease` | the leases for mutation runs and workloads: threads that share, wait for and drop file locks |
| `RustScope`, `ScopeMeaning`, `SpanPosition`, `MemoryBudget` | the option lists of the Rust producers, the coordinates of mutants, and how much memory and how many workers a run gets |

Loops and objects of the program are methods and classes here. Each is proved against a function or a
predicate, and the promises are lemmas about that. The modules named Meaning say over again, in the words
of their inputs alone, what the definitions of their part come to: names, numbers and places are written
out there, and no definition of the model is used where its own value is at stake. Where the program runs concurrently with others
(publication, the lease) the model is a state machine over its steps, and the theorems hold in every
reachable state of every interleaving. The producer's and the reader's code is given as well, and is
proved to take only steps of that machine.

Inputs that stand for parts outside the model: the result of parsing Rust sources and manifests; token
streams with their lines, and a hash of each symbol; the baseline and the changed lines; the tree as a finite map
whose entries are names in directories, and what the host says of places outside it; the validity of a
report as a function of producer, partition, report and inputs; what the operating system answers in a
call. SHA-256 and the serialisation of receipts are injective.

## Where code and promise differ

The model follows the code. These promises do not hold of it, and a lemma gives the input and the
exact condition:

- An accepted report need not be the one that its attempt produced. The attempt writes the shared
  pending file, and validates and hashes what that file holds later (`src/evidence/publication.rs:25-57`).
  If another writer replaces it by another valid report in between, that report is accepted under the
  attempt's certificate (`EvidenceAlone.ReplacedReportIsAccepted`). The accepted report is always what
  the pending file held at sealing (`EvidenceHistory.AcceptedIsSealed`); it is the attempt's own exactly
  when the file then held the same bytes as right after the attempt wrote it, and so whenever nobody
  else changed it in between (`EvidenceHistory.AcceptedIsProducedExactly`).
- Rename lineage is documented to map the current path back to the baseline path
  (`docs/ARCHITECTURE.md:83`). `canonical_path` (`src/adoption.rs:241-251`) follows the records to
  their end, so a lineage made by hand with two renames in a row, or with a swap of two names, misses
  the path before the last rename (`RenameLineage.RenameChainIsOverrun`,
  `LegacyRatchet.ChainedRenameBlocksOldDebt`); for any lineage at all the condition is that of
  `RenameLineage.CanonicalIsBaselineExactly`. The lineages that the program builds are not of that
  kind: a rename in a diff pairs a path of the base with one that the base does not have, so the
  baseline path is always found (`RenameLineage.DiffLineageFindsBaseline`), and findings of all kinds
  keep their keys (`Ratchet.RenamedFindingsKeepTheirKeys`).
- A merged clone match keeps the start lines of its first part. When another part starts on an
  earlier line on side B, the report begins too late. Two short files show it: of all that the index
  finds in them, the last clone is reported two lines late (`CloneExample.ListIsComplete`,
  `CloneExample.ShiftedMergeReportsLateLine`). The reported lines are right exactly when no part starts
  on an earlier line than the first (`CloneLines.CoalescedAnchoredExactly`); the sort sees to side A
  (`CloneLines.SortedAnchoredExactly`).
- A waiter past its deadline does not always fail: the lock is tried before the clock is read
  (`Lease.LateWaiterMayStillAcquire`). How every wait ends is told by `Lease.WaitEndsExactly`: it does
  fail at its first late poll when no poll before found the lock free.
- A thread sees only the lease it took last. Asking for a mutation lease again is safe while the thread
  takes no other (`Lease.OnePathIsReentrant`). There are two lock paths, one for mutation runs and one for
  workloads, and both leases are kept in the same thread-local (`src/resources/lease.rs:98-106`,
  `src/resources/lease.rs:275-309`): after a workload's lease the thread no longer sees its mutation lease
  and would wait for itself (`Lease.WorkloadHidesMutationLease`, `Lease.OtherPathWaitsForItself`), and a
  workload's lease is never shared at all (`Lease.WorkloadWaitsForItself`). The program stays clear of
  this: a process that takes the workload's lease only supervises the one that takes mutation leases
  (`src/resources/runtime/linux/supervisor.rs:17-33`, `src/resources.rs:32-34`).
- A job that is kept may still carry its completion marker: when the marker could not be saved, or when
  neither the job nor the marker could be removed (`EvidenceWorkspace.Workspace.Close`).
- `accepted` beside an exit code other than zero is possible only with another saved outcome
  (`Acceptance.AcceptedExitsZeroExactly`), which loading a report never produces
  (`Acceptance.LoadedAcceptanceExitsZero`).

## Model

| member | source | states |
|---|---|---|
| RustOwnership.RustOwnership.FromInputs | src/discovery/rust_ownership.rs:153-202 | The table ends settled for the inputs: every file has a role, and a file carries production exactly when it is no test file and either the context is untrusted or plain module edges join it to a production seed or an unresolved file; what that says of the inputs themselves is `OwnershipMeaning.RoleExactly` |
| RustOwnership.RustOwnership.ReadInputs | src/discovery/rust_ownership.rs:154-191 | The scan of the inputs builds the file table and the declared roles and notices exactly when some input is incomplete |
| RustOwnership.RustOwnership.Resolve | src/discovery/rust_ownership.rs:204-251 | After both passes a bit is on exactly when a chain of module edges carries it from a seed, or from a file that no seed reaches |
| RustOwnership.RustOwnership.ModuleGraph | src/discovery/rust_ownership.rs:205-225 | Edges are exactly the declarations with one existing candidate; the incoming set is exactly their targets |
| RustOwnership.RustOwnership.SeedVisits | src/discovery/rust_ownership.rs:226-241 | The first queue seeds exactly the roots, declared roles, conventional roots without parents and test files; what that says of the inputs is `OwnershipMeaning.SeedsTell` |
| RustOwnership.RustOwnership.UnresolvedVisits | src/discovery/rust_ownership.rs:243-250 | The second queue holds production for exactly the files that the first pass did not reach |
| RustOwnership.RustOwnership.Propagate | src/discovery/rust_ownership.rs:253-273 | The worklist terminates on every graph, cycles included, records exactly what chains carry from the queue, and leaves nothing undone along any edge |
| RustOwnership.RustOwnership.DisableModuleProof | src/discovery/rust_ownership.rs:75-81 | Production is added to every file that is no test file; nothing else changes |
| RustOwnership.SpreadIsLeastSolution | src/discovery/rust_ownership.rs:253-273 | What the worklist leaves solves the seed and edge equations and lies below every other solution |
| RustOwnership.QueueOrderDoesNotMatter | src/discovery/rust_ownership.rs:253-273 | Two runs over queues that seed the same facts end in the same table |
| RustOwnership.VisitIsProgress | src/discovery/rust_ownership.rs:259-271 | One effective visit keeps the worklist's invariant, so that what is recorded or waits is always what chains carry |
| RustOwnership.ResolvedTable | src/discovery/rust_ownership.rs:204-251 | After resolving no file is without a role, test files never carry production, and the others do exactly when plain edges lead to them from an origin |
| RustOwnership.AllSeedsAreProper | src/discovery/rust_ownership.rs:226-250 | No seed of either pass makes a test file production |
| RustOwnership.ProofWithdrawnWhenUntrusted | src/discovery/rust_ownership.rs:192-201 | Withdrawing the proof under the code's test gives the table that is told by the inputs alone |
| RustOwnership.StrandedHasStrandedParent | src/discovery/rust_ownership.rs:226-250 | A file that no seed reaches is declared as a module by another such file |
| RustOwnership.StrandedHangsFromCycle | src/discovery/rust_ownership.rs:243-250 | Following declarations upwards from an unreached file ends in a cycle of unreached files |
| RustOwnership.SourceBecomesTestExactly | src/discovery/rust_ownership.rs:275-286 | A source file with a role is re-roled as test exactly when it is not fixed by a custom rule and production does not reach it |
| RustOwnership.ReRoledExactly | src/discovery/rust_ownership.rs:153-286 | From inputs to role: a source file becomes test code exactly when it is not fixed and it is a test file, or the context is trusted and no chain of plain edges links it to production or to an unresolved cycle |
| RustOwnership.WithoutProofOnlyAddsProduction | src/discovery/rust_ownership.rs:74-81 | Incomplete context takes files out of the test role and never puts one in |
| OwnershipMeaning.RoleExactly | src/discovery/rust_ownership.rs:275-286 | Over the inputs alone: a source file gets the test role exactly when no custom rule classifies its last parsed input and that is a test file, or nothing is in doubt and no walk of plain module declarations leads to it from a file that starts production or is left over; every other file keeps its role |
| OwnershipMeaning.ProductionExactly | src/discovery/rust_ownership.rs:153-273 | In a settled table a file has the production bit exactly when it is no test file and either something is in doubt or such a walk leads to it; the table holds the syntax of its last parsed input |
| OwnershipMeaning.SeedsTell | src/discovery/rust_ownership.rs:226-241 | Production starts at a file that is no test file and whose Cargo role has the production bit; or that has no Cargo role, is declared a test by no input, and is either no module of any file or named lib.rs or main.rs |
| OwnershipMeaning.OriginsTell | src/discovery/rust_ownership.rs:226-251 | With the second pass production starts at those files and at the files to which no module declarations lead from any file that has a role by itself |
| OwnershipMeaning.TableTells | src/discovery/rust_ownership.rs:154-191 | The table holds for each parsed path the syntax of its last parsed input and whether a custom rule classified that |
| OwnershipMeaning.DeclaredTells | src/discovery/rust_ownership.rs:167-172 | A path is declared a test exactly when some parsed input of it says so |
| OwnershipMeaning.EdgesTell | src/discovery/rust_ownership.rs:205-225 | A module edge exists exactly where the last parsed input of the parent declares a module with exactly one candidate that is a file, the child |
| OwnershipMeaning.UndeclaredStaysSource | src/discovery/rust_ownership.rs:275-286 | A source file that is no test file, has no Cargo role, is not declared a test, and is no module of any file or named as a root, stays source |
| OwnershipMeaning.RangesTell | src/discovery/rust_ownership.rs:93-117 | The test ranges of a file are those of its last parsed input, and none where a custom rule classifies it |
| RoleGraph.ProductionTravelsPlainly | src/discovery/rust_ownership.rs:259-271 | Production reaches a file exactly along plain edges through files that are no test files |
| RoleGraph.ClosedHoldsChain | src/discovery/rust_ownership.rs:253-273 | A set of facts closed under the steps holds every chain from its seeds |
| RoleViews.LineRoles | src/discovery/rust_ownership.rs:105-151 | One entry per physical line: nothing exactly on lines with non-blank bytes of both roles, else whether it is test code |
| RoleViews.CursorDecides | src/discovery/rust_ownership.rs:124-141 | The range under the sweep's moving index decides for all ranges, overlapping ones included |
| RoleViews.LinesTile | src/discovery/rust_ownership.rs:119-126 | The physical lines follow each other without gap and end at line feeds or at the end of the source |
| RoleViews.Mask | src/discovery/rust_ownership.rs:314-352 | The masked copy keeps length, line ends and the bytes of its role and blanks the rest; bytes and lines are counted; a role without bytes has no view |
| RoleViews.MaskTells | src/discovery/rust_ownership.rs:314-383 | In a mask each byte is the source's own if selected or a line feed or carriage return, else a space; white space is tab, line feed, form feed, carriage return and space |
| Utf8.WellFormedExactly | src/discovery/rust_ownership.rs:340-351 | Bytes pass as UTF-8 exactly when they encode some text character by character |
| RoleViews.RoleSize.Include | src/discovery/rust_ownership.rs:364-374 | The counter's new state after a byte |
| RoleViews.RoleSize.FinishLine | src/discovery/rust_ownership.rs:376-381 | The counter's new state at a line's end |
| RoleViews.TallyCounts | src/discovery/rust_ownership.rs:355-382 | The running counter ends with the number of the role's bytes and with the number of lines that belong to the role |
| RoleViews.Views | src/discovery/rust_ownership.rs:288-312 | A file of one role has one view of the whole source; a mixed file is partitioned by two |
| RoleViews.MasksPartition | src/discovery/rust_ownership.rs:288-352 | Every byte shows in the view of its role and in no other unless it is white space, the byte counts add up to the source, each line count is at most the physical lines, and those are at most the sum |
| RoleViews.RolesShareBytes | src/discovery/rust_ownership.rs:314-352 | Two complementary masks choose each byte once |
| RoleViews.RolesShareLines | src/discovery/rust_ownership.rs:355-382 | Every physical line belongs to at least one of two complementary masks |
| RoleViews.ViewsAreText | src/discovery/rust_ownership.rs:340-351 | Masking well-formed UTF-8 gives well-formed UTF-8, so the conversion back to text cannot fail |
| BestFit.GreedyIsValid | src/adoption.rs:144-161 | Every covered finding has its own baseline value of its key, at least as large as itself |
| BestFit.Exchange | src/adoption.rs:144-161 | Any valid assignment can give the first finding what best-fit gives it without covering less, in total or for any key |
| BestFit.GreedyIsOptimal | src/adoption.rs:144-161 | No valid assignment covers more findings, in total or for any one key |
| BestFit.MoreBaselineCoversMore | src/adoption.rs:115-162 | With more baseline values nothing less is covered, in total or for any one key |
| BestFit.OrderDoesNotMatter | src/adoption.rs:142-161 | How many findings are covered does not depend on the order they come in, in total and for each key |
| Ratchet.BuildPool | src/adoption.rs:130-141 | The pool holds, for each key, the baseline's values in ascending order |
| Ratchet.RatchetNumeric | src/adoption.rs:115-162 | The retained findings and the advice interleave to the vector, attributable findings stay, each advised finding has its own baseline value, no assignment grandfathers more in all or of any key, and each finding in turn takes the smallest value that fits |
| Ratchet.RetainOne | src/adoption.rs:143-160 | One finding takes the smallest fitting value of its key out of the pool, or stays |
| Ratchet.GreedySplitIsRatchet | src/adoption.rs:142-161 | The split that best-fit makes is the outcome the ratchet owes |
| RatchetOrder.FindingOrderDoesNotMatter | src/adoption.rs:142-161 | For the same findings in another order the ratchet retains as many and grants as many values of each key |
| Ratchet.MoreBaselineGrandfathersMore | src/adoption.rs:115-162 | More baseline debt never grandfathers fewer findings |
| Ratchet.MoreBaselineExcusesMore | src/adoption.rs:163-199 | More counted baseline debt never excuses fewer counted findings |
| Ratchet.AddedDebtRetainsNoMoreNumeric | src/adoption.rs:115-162 | A baseline with added findings retains no more of a numeric kind |
| Ratchet.AddedDebtRetainsNoMoreCounted | src/adoption.rs:163-199 | A baseline with added findings retains no more of a counted kind |
| Ratchet.RenamedFindingsKeepTheirKeys | src/adoption.rs:201-251 | With renames whose new paths are no old paths, a finding of any of the five kinds has the key that the same finding has in the baseline under its old path |
| Ratchet.RatchetMultiset | src/adoption.rs:163-199 | Only eligible findings that the change does not own go, of each key as many as both sides have and the first ones; the rest stay in order |
| Ratchet.CountRatchetMoves | src/adoption.rs:180-197 | One more finding goes exactly when it is a candidate and fewer candidates of its key went before than the baseline has |
| Ratchet.InterleavingConserves | src/adoption.rs:142-198 | What is kept and what is taken are together the vector, with multiplicities |
| Ratchet.CloneKeyIgnoresSides | src/adoption.rs:232-240 | Swapping the two sides of a clone does not change its key |
| PathOrder.PathOrderIsTotal | src/adoption.rs:235-239 | The order of paths, component by component, is total and antisymmetric |
| PathOrder.DirectoriesStayTogether | src/engines/clones.rs:229-238 | In this order no path outside a directory comes between two paths inside it |
| LegacyRatchet.GateReport.ApplyLegacyRatchet | src/adoption.rs:25-93 | All five kinds are ratcheted, each as its kind owes; grandfathered plus retained is the total before, and the retained are counted; the report passes exactly when none is left; coverage, mutation, orchestration and tool findings stay. What is owed to single findings is told by `RatchetMeaning` |
| LegacyRatchet.AddedDebtRetainsNoMore | src/adoption.rs:25-93 | Of two runs of the whole ratchet the one whose baseline has debt added retains no more findings and gives no less advice |
| RatchetMeaning.TouchedFindingsStay | src/adoption/legacy_hunk.rs:11-62 | In the whole report every finding that the change touches is retained: a budget of a changed file, a suppression or invariant on a changed line, a function with a changed line from its first to its last, a clone with a changed line on either side |
| RatchetMeaning.PastDebtGoes | src/adoption.rs:25-93 | Against a past report that holds each untouched finding no better, exactly the touched findings are retained, and clones without a fingerprint, in their order |
| RatchetMeaning.OwnDebtGoes | src/adoption.rs:25-93 | A report ratcheted against itself with an empty change retains nothing but clones without a fingerprint |
| RatchetMeaning.GrantedHasBaseline | src/adoption.rs:106-240 | Whatever is let go has an old finding behind it at the path before the renames, with the same named fields, and with a measure no smaller for budgets and functions |
| RatchetMeaning.AttributionTells | src/adoption/legacy_hunk.rs:11-62 | Attribution of the five kinds said with line numbers and the changed lines |
| RatchetMeaning.KeysTell | src/adoption.rs:106-240 | Two findings of a kind have one key exactly when their baseline paths and named fields agree |
| RatchetMeaning.MeasuresTell | src/adoption.rs:25-93 | What is compared is the actual measure of budgets and functions; clones without a fingerprint are never let go, the other counted kinds always may be |
| RatchetMeaning.AdviceTells | src/adoption.rs:62-93 | The advice lists of each kind exactly what was let go |
| LegacyRatchet.ChainedRenameBlocksOldDebt | src/adoption.rs:106-113 | Under a lineage made by hand with two renames in a row, old debt gets another key than in the baseline, so it blocks |
| RenameLineage.CanonicalPath | src/adoption.rs:241-251 | The walk over the lineage terminates on every lineage and returns the canonical path |
| RenameLineage.CanonicalLeavesOrCycles | src/adoption.rs:241-251 | The canonical path lies outside the lineage exactly when the walk leaves it; else it lies on a cycle |
| RenameLineage.AcyclicEndsOutside | src/adoption.rs:241-251 | On an acyclic lineage the canonical path is one that no record renames |
| RenameLineage.CanonicalIsBaselineExactly | src/adoption.rs:241-251 | The canonical path is the path in the baseline exactly when the old path has no record of its own, is the path itself, or lies on a cycle without it |
| RenameLineage.CanonicalIsBaselineWithoutJoins | src/adoption.rs:241-251 | Where no two paths come from one, that is exactly when the old path has no record or is the path itself |
| DiffStatus.ParseDiffStatus | src/git_evidence.rs:154-236 | The loop over NUL-terminated records computes the parser's function of the output: inventory paths and lineage, or an error |
| DiffStatus.DiffStatusReadsBack | src/git_evidence.rs:154-257 | What Git writes for any records is read back as exactly the inventory paths that they name and the lineage of the renames, a later record for a path winning |
| DiffStatus.StatusTells | src/git_evidence.rs:172-219 | A status is one letter of its list, or R or C with three digits, and takes two paths exactly in the second case |
| DiffStatus.ReadableExactly | src/git_evidence.rs:154-236 | For any records: they are read exactly when each is a status with its one or two readable paths behind it; anything else is an error |
| RenameLineage.DisjointLineageFindsBaseline | src/adoption.rs:241-251 | Where no new path is an old path, the canonical path is the path in the baseline, for every path |
| RenameLineage.DiffLineageFindsBaseline | src/git_evidence.rs:154-206 | Records of a diff against the base give a lineage under which every path is looked up under its baseline path, and a renamed path under one that the base has |
| RenameLineage.RenameChainIsOverrun | src/adoption.rs:241-251 | A lineage made by hand with a chain of two renames, or with a swap of two names, is followed to the wrong path |
| EvidenceProducer.Checkout.Produce | src/evidence/execution.rs:5-61 | One attempt, with edits by others between any two statements and any operation failing: it ends committed or failed with its guards run, its states are a run of the protocol, the receipt of a success holds an exit that the producer may end with, and a failure whose removals succeed leaves the records as they were |
| EvidenceProducer.Checkout.Prepare | src/evidence/execution.rs:22-30 | Revoke, remove the receipt, capture non-empty inputs, create the job with its copy, compare the copy and then the checkout: at the end the slot is empty, the checkout holds the captured inputs and the copy has been seen to hold them |
| EvidenceProducer.Checkout.CreateJob | src/evidence/workspace.rs:39-76 | The job exists from its own step on, with whatever was copied |
| EvidenceProducer.Checkout.VerifyCopy | src/evidence/workspace.rs:22-37 | Success means that the copy was seen to hold the captured inputs and after it the checkout holds them |
| EvidenceProducer.Checkout.RunStage | src/evidence/execution.rs:122-148 | After a command the copy was seen to hold the captured inputs and after it the checkout holds them, else it fails |
| EvidenceProducer.Checkout.RunLastStage | src/evidence/execution.rs:105-148 | The same after the last command, whose two comparisons are steps of the protocol |
| EvidenceProducer.Checkout.Execute | src/evidence/execution.rs:63-148 | The loop over prerequisite, auxiliary commands and producer completes exactly when there is a version, every exit before the last is zero, the last is zero, or 2 or 3 of cargo-mutants, or 1 of Stryker, and no tree was seen changed; after each command, one after the other, both trees were compared and found the same |
| EvidenceProducer.Checkout.MakePending | src/evidence/publication.rs:3-81 | Write the pending report, validate what the file then holds, and make the receipt with the digest of what it holds after that |
| EvidenceProducer.Checkout.PublishFiles | src/evidence/publication.rs:94-117 | Success means: the report was renamed, then seen with the receipt's hash, then the receipt's bytes seen, and at the end the checkout holds the captured inputs; the registry is untouched |
| EvidenceProducer.Checkout.Certify | src/evidence/authentication.rs:36-78 | Success means: the slot was empty and names the receipt, and the records are the former ones with the receipt's bytes added under their digest |
| EvidenceProducer.Checkout.SaveVerified | src/evidence/publication.rs:82-133 | Publish, certify, remove the job, commit: success leaves slot and record of this receipt and no job; an error runs the guards made so far, after which the records are the former ones and the slot is empty or as before, where the removals succeed |
| EvidenceProducer.Checkout.DropGuards | src/evidence/authentication.rs:22-34 | On an error slot, record and receipt are removed in this order as far as they were made; each removal that the system carries out has its effect, and nothing else in the registry changes |
| EvidenceProducer.Checkout.DropReceipt | src/evidence/publication.rs:140-152 | The pending receipt's guard removes the receipt of an uncommitted publication |
| EvidenceProducer.Checkout.VerifyOwn | src/evidence/authentication.rs:76-88 | The slot is read and then the record; success means that both are of this receipt |
| EvidenceProducer.Checkout.VerifyRegistry | src/evidence/authentication.rs:80-128 | The reader accepts receipt bytes exactly when the slot named their digest when it was read and the record held them when it was read after that |
| EvidenceProducer.Checkout.Verify | src/evidence/mod.rs:130-208 | With edits between any two of its reads the reader accepts exactly what the protocol calls acceptable at the moments of its reads, partition included |
| EvidenceMeaning.AcceptanceTells | src/evidence/mod.rs:130-208 | An ordered reading accepts exactly when the receipt found is of this checkout and version 2, its producer serves the kind, has version and commands, ended as it may and, for cargo-mutants, after a passed workspace test; slot and record hold it, its job is gone, and report and inputs are as recorded and valid |
| EvidenceMeaning.PassingTells | src/evidence/mod.rs:298-302 | A producer's commands pass exactly when each ended by itself, all but the last with zero, and the last with zero, or 2 or 3 under cargo-mutants, or 1 under Stryker |
| EvidenceMeaning.RecordTells | src/evidence/execution.rs:63-148 | What is recorded: producer, version and partition, the commands in their order, how the last one ended, and whether a prerequisite passed |
| EvidenceMeaning.AnyAttemptMayStop | src/evidence/execution.rs:5-61 | Between any two steps a running attempt may fail or be killed, and one whose guards run may be killed |
| EvidenceProtocol.NextKeepsInv | src/evidence/publication.rs:82-133 | Every step of any attempt, failure, kill, guard effect or edit by others keeps the invariant |
| EvidenceProtocol.RunKeepsInv | src/evidence/execution.rs:5-61 | The invariant holds in every state of every run |
| EvidenceHistory.AcceptsExactlyCertified | src/evidence/mod.rs:130-208 | In a reachable state an undisturbed reader accepts exactly the evidence of an attempt that marked the slot after all its checks, dropped no record, has its job removed, and whose receipt, report and inputs are those now found |
| EvidenceHistory.AcceptedIsVouched | src/evidence/mod.rs:130-208 | Whatever happens between its reads, a reader accepts only what one attempt vouches for: receipt, slot, record, report hash and inputs as it found them are that attempt's, and its job was gone |
| EvidenceHistory.AcceptedWasChecked | src/evidence/publication.rs:94-125 | Accepted evidence has a history: the inputs were captured, found in the copy and after that in the checkout after the last command, compared, the published report hashed, the receipt read back, the inputs compared again, and only then the slot marked, before the reader looked at it |
| EvidenceHistory.AcceptedIsSealed | src/evidence/publication.rs:25-81 | The accepted report is what the pending file held at the step that sealed the receipt; right after the attempt wrote that file it held what the attempt produced |
| EvidenceHistory.AcceptedIsProducedExactly | src/evidence/publication.rs:25-81 | The accepted report is the one that the attempt produced exactly when the pending file held the same bytes at sealing as after the write; it did if nobody else changed that file in between |
| EvidenceHistory.RevokedUntilMarkedAgain | src/evidence/execution.rs:22-23 | What is accepted by a reader that looks at the slot after a revocation was marked after it |
| EvidenceHistory.UnwoundIsNeverAccepted | src/evidence/authentication.rs:22-34 | An attempt whose record its guard removed vouches for nothing that is read after that |
| EvidenceHistory.SlotWasMarked | src/evidence/authentication.rs:62-74 | A slot that was empty and names a receipt was marked in between by that receipt's attempt |
| EvidenceHistory.StepsAreOrdered | src/evidence/execution.rs:5-61 | The steps of one attempt happen in the order of the code |
| EvidenceProtocol.RecordsDiffer | src/evidence/publication.rs:62-80 | Two attempts never share a record name |
| EvidenceAlone.UndisturbedAttemptIsAccepted | src/evidence/execution.rs:5-61 | From any reachable state an undisturbed attempt with a valid report ends with its evidence accepted, and the accepted report is the produced one |
| EvidenceAlone.ReplacedReportIsAccepted | src/evidence/publication.rs:25-57 | A run from the start: the pending file is replaced by another valid report before validation, and that report is accepted under the attempt's certificate |
| EvidenceWorkspace.Workspace.SetStatus | src/evidence/workspace_lifecycle.rs:63-80 | The status changes in memory first; the file follows only under the same owner |
| EvidenceWorkspace.Workspace.Failed | src/evidence/workspace.rs:90-99 | The status becomes interrupted, publication-failed or failed by what happened |
| EvidenceWorkspace.Workspace.Preserve | src/evidence/workspace.rs:108-115 | An open job is marked before it is let go; success exactly when it was not open or the mark was saved |
| EvidenceWorkspace.Workspace.Close | src/evidence/workspace.rs:117-150 | The job goes exactly from an open status with owner and directory intact, uncancelled, the marker saved and every removal succeeding; otherwise it stays, not open, and keeps its marker exactly when that could not be saved or not be removed again |
| EvidenceWorkspace.Workspace.Drop | src/evidence/workspace.rs:194-207 | An open job that was not closed is marked and kept |
| EvidenceWorkspace.Session.Run | src/evidence/read_only.rs:71-128 | The sticky flag stays false exactly while every call ended with exit zero on unchanged trees and saved its diagnostics |
| EvidenceWorkspace.Session.Close | src/evidence/read_only.rs:130-141 | The copy is removed exactly when every call was good, the checkout is unchanged, publication was recorded and the removal may and does succeed |
| EvidenceWorkspace.GoodTells | src/evidence/read_only.rs:71-128 | A call is good exactly when the copy held the inputs before it, it ended with zero, copy and checkout held them after it, and its diagnostics were saved |
| RollingHash.RollingIsFresh | src/engines/clones/index.rs:212-216 | Taking the first symbol out of the hash and the next one in, with 64-bit wrap-around, gives the hash that the next window has from scratch |
| RollingHash.InitRollingHash | src/engines/clones/index.rs:240-246 | The hash of the first window from scratch |
| RollingHash.CalcPowBase | src/engines/clones/index.rs:248-254 | The wrapped power by which the leading symbol counts |
| RollingHash.HashTells | src/engines/clones/index.rs:183-246 | One more symbol multiplies the hash by 31337 and adds the symbol's, modulo the word size; nothing hashes to zero |
| CloneWindows.WindowsExactly | src/engines/clones/index.rs:183-210 | The windows that are looked at are exactly the runs of the least number of tokens that span enough lines |
| CloneWindows.RawMatchesExactly | src/engines/clones/index.rs:256-304 | The raw matches are exactly those of two windows with the same tokens that are not too close in one file: none is missed, none is made up |
| CloneWindows.RawMatchIsWindow | src/engines/clones/index.rs:282-304 | Every raw match is a verified window of the least sizes and starts on the lines of its first tokens |
| CloneIndex.BucketSuffices | src/engines/clones/index.rs:222-237 | Comparing a window with the earlier ones of its hash finds what comparing it with all earlier ones finds |
| CloneIndex.CloneIndexState.CheckAndRecord | src/engines/clones/index.rs:222-237 | One more window: the map of buckets and the matches stay those of the windows so far, or the error tells which capacity it would break |
| CloneIndex.CloneIndexState.CompareExistingWindows | src/engines/clones/index.rs:256-280 | The matches with the bucket's windows are added in order, or the capacity of matches would be exceeded |
| CloneIndex.CloneIndexState.IndexFileWindows | src/engines/clones/index.rs:169-219 | The sliding loop takes exactly the windows of one stream, each under its hash |
| CloneIndex.BuildIndex | src/engines/clones/index.rs:105-167 | The index holds every equal pair of windows, or fails exactly when a capacity does not hold, naming the first window it cannot take |
| CloneIndex.DetectClonesBorrowed | src/engines/clones.rs:188-210 | From streams to violations: unless one of the capacities 200000 and 512 does not hold, every two equal windows are part of what is reported, and each violation names the two paths, the start lines of its first part, the greatest end lines of its parts, and the repeated symbols with their number |
| Clones.AlignedMergeIsVerified | src/engines/clones.rs:306-334 | For verified matches on the same streams the arithmetic test makes the merged match verified |
| Clones.AlignedImpliesComparison | src/engines/clones.rs:306-327 | The arithmetic test implies the token comparison that it replaces |
| Clones.VerifiedSlicesMatch | src/engines/clones.rs:354-362 | A match is verified exactly when the recheck of its slices succeeds |
| Clones.MergeIsVerified | src/engines/clones.rs:277-334 | Whatever branch allowed it, a merge of verified matches is verified |
| Clones.Coalesce | src/engines/clones.rs:239-262 | The loop's result is the fold of its step; every match in it is verified and grew from a raw one, and every raw match is contained in or overlaps one of them |
| Clones.CoalesceOne | src/engines/clones.rs:240-262 | One match grows the last one, is dropped for it, or starts a new one |
| Clones.NeighboursBeganApart | src/engines/clones.rs:247-261 | Nothing mergeable is left unmerged: each coalesced match began with a raw match that its finished neighbour could neither take nor drop |
| CloneReport.RecheckNeverDrops | src/engines/clones.rs:336-362 | The recheck of tokens never drops a verified match; only the two minimum sizes do |
| CloneReport.WindowsAlwaysReport | src/engines/clones.rs:336-395 | Every coalesced match of full windows is reported |
| CloneReport.SortedIsPermutation | src/engines/clones.rs:226-238 | Sorting keeps every match as often as it was there |
| CloneReport.SortedIsOrdered | src/engines/clones.rs:226-238 | Sorted matches ascend by the files, component by component, and then by the start lines of both sides |
| CloneReport.OrderIsUnique | src/engines/clones.rs:226-238 | Matches that differ in file or start line have one order only |
| CloneReport.SidesDoNotMatter | src/engines/clones.rs:336-395 | Swapping the sides of a match swaps the sides of its violation and keeps its fingerprint and sizes |
| CloneMeaning.RawMatchesTell | src/engines/clones/index.rs:183-304 | The raw matches are exactly the pairs of runs of the least number of tokens that span enough lines, have the same kinds and symbols, and are not too close in one stream, each with its own lines |
| CloneMeaning.MergesTell | src/engines/clones.rs:277-334 | Verified matches merge exactly on the same streams, near each other on both sides, when what the merged match spans repeats token by token: neither the gap nor the arithmetic test lets anything else through |
| CloneMeaning.OverlapTells | src/engines/clones.rs:268-276 | Two matches count as overlapping exactly when they share a token on side A or on side B |
| CloneMeaning.ReportTells | src/engines/clones.rs:336-395 | A violation of a coalesced match names, side by side, each path with the least start line of its first part and the greatest end line of its parts; its symbols are those of the token span, counted, and its lines the smaller of the two spans |
| CloneReport.DetectClones | src/engines/clones.rs:220-267 | For raw windows in any order: one violation with files, lines and fingerprint per coalesced match of the sorted windows, in order, and every raw window is represented |
| CloneLines.MergeStaysAnchoredExactly | src/engines/clones.rs:328-335 | The reported start lines are those of the first tokens exactly when the right match starts on no earlier line on either side |
| CloneLines.SortedAlignedMergeStaysAnchored | src/engines/clones.rs:229-238 | For sorted matches of equal alignment they always are |
| CloneLines.CoalescedAnchoredExactly | src/engines/clones.rs:239-335 | The start lines of any coalesced match are those of its first tokens exactly when no raw match merged into it starts on an earlier line than the first one, on either side |
| CloneLines.SortedAnchoredExactly | src/engines/clones.rs:226-335 | For sorted matches, exactly when none starts on an earlier line on side B |
| CloneExample.ListIsComplete | src/engines/clones/index.rs:105-304 | The eight matches of the example are all that the index finds in its two files |
| CloneExample.ShiftedMergeReportsLateLine | src/engines/clones.rs:239-335 | Sorted and coalesced, the index's own matches of two files give a clone whose reported start on side B is two lines late |
| UnifiedDiff.ParseDiff | src/git_evidence.rs:312-319 | The line loop computes the parser's function of the output, or an error |
| UnifiedDiff.DiffParser.Consume | src/git_evidence.rs:328-358 | What one line does to the parser's fields, and when it is an error |
| UnifiedDiff.DecodeQuotedPath | src/git_evidence.rs:419-437 | The index loop computes the decoder's function and demands UTF-8 |
| UnifiedDiff.ParseDecimal | src/git_evidence.rs:381-384 | Reading a rendered number gives the number |
| DiffRoundTrip.NormalizeUndoesRaw | src/git_evidence.rs:237-257 | Normalising a joined normal relative path gives the path |
| DiffRoundTrip.DecodeOneByte | src/git_evidence.rs:438-474 | Each of Git's escapes, octal ones included, decodes to its byte and ends where it should |
| DiffRoundTrip.DecodeInvertsEncode | src/git_evidence.rs:419-474 | Wherever the quoted form of some bytes stands, decoding gives the bytes back and stops right after the closing quote |
| DiffRoundTrip.ParseSide | src/git_evidence.rs:400-418 | A rendered side, plain or quoted, with or without tab, or absent, is read back as its path |
| DiffRoundTrip.ParseRenderedHeader | src/git_evidence.rs:360-384 | A rendered hunk header with any heading is read back as its new-side range |
| DiffReadBack.BodyIsSkipped | src/git_evidence.rs:334-357 | In a hunk no body line, whatever follows its mark, changes the parser |
| DiffReadBack.DiffReadsBack | src/git_evidence.rs:312-474 | Reading a rendered diff gives for every path exactly the union of the new-side ranges of the files about it; no path is listed without a line |
| DiffReadBack.ReportedExactly | src/git_evidence.rs:312-474 | A line is reported for a path exactly when a hunk about that inventory path covers it on its new side |
| DiffMeaning.HeaderTells | src/git_evidence.rs:360-384 | For any line: a hunk header is read with this start and count exactly when the line is written as one, with any Unicode white space around its two ranges, numbers with any zeros and a plus sign, a count of one when none is given |
| DiffMeaning.HunkTells | src/git_evidence.rs:340-399 | A header of an inventory file adds exactly its new lines and starts a hunk; it is an error without a file, from line zero, or beyond the last machine word |
| DiffMeaning.NoHeaderFails | src/git_evidence.rs:340-384 | Any other line that begins like a header is an error |
| DiffMeaning.LineTells | src/git_evidence.rs:328-357 | A title forgets both sides, the sides are read outside hunks only, any other line does nothing |
| DiffMeaning.LinesAdded | src/git_evidence.rs:385-399 | Exactly the lines from the start on are added to the one path, unless they are no line numbers |
| DiffMeaning.NumberTells | src/git_evidence.rs:381-384 | A number is read exactly from its decimal digits, with any zeros and at most one plus sign before them, up to the largest machine word |
| DiffMeaning.PathTells | src/git_evidence.rs:237-257 | A path is read exactly when it is relative, nothing in it leads upward, and some part is a name; parts that are empty or a single dot do not count |
| DiffMeaning.NamesAreKept | src/git_evidence.rs:237-257 | Every other part is kept in its place |
| DiffMeaning.EscapeTells | src/git_evidence.rs:438-474 | For any bytes: an escape is read as this byte exactly when it is the byte's letter or up to three octal digits of its value; anything else is an error |
| ShellWords.ShellLexer.Feed | src/engines/orchestration.rs:390-428 | What one character does to the lexer's fields |
| ShellWords.ShellWordsSplit | src/engines/orchestration.rs:370-378 | The character loop computes the words of the text |
| ShellWords.QuotedWordsSplitBack | src/engines/orchestration.rs:370-441 | Splitting the joined quotations of any words gives the words: empty ones, quotes, backslashes and white space included |
| ShellWords.RequotingKeepsWords | src/commands/fmt.rs:92-114 | Quoting the words of any command line keeps its words |
| ShellWords.QuotingIsInjective | src/commands/fmt.rs:112-114 | Different word lists never share a quoted command line |
| ShellWords.OnePlaceholderIsReplaced | src/commands/fmt.rs:92-101 | The single placeholder is replaced in place by all the paths in order |
| ShellWords.ExpandTemplate | src/commands/fmt.rs:82-104 | A command exists exactly with one placeholder behind the program, and splits into the template's words around the paths |
| ShellMeaning.ExpansionTells | src/commands/fmt.rs:82-104 | The word `{files}` gives way to the paths, between the words before it and behind it |
| ShellMeaning.LinesSplit | src/engines/orchestration.rs:370-441 | A line of words, written of bare and escaped characters and of stretches in single and double quotes with any white space between them, splits into exactly the texts of these words |
| ShellMeaning.SeparatorsTell | src/engines/orchestration.rs:390-410 | Words are separated by exactly the 25 characters that Unicode calls white space |
| ShellMeaning.DoubleQuotedIsKept | src/engines/orchestration.rs:411-424 | A word in double quotes without quote or backslash splits to itself, white space included |
| TreeCopy.CopyTree | src/evidence/workspace_copy.rs:12-39 | The walk ends with the copy of all that is kept, or with an error exactly when something kept cannot be copied, and visits each kept directory exactly once |
| TreeCopy.CopyEntry | src/evidence/workspace_copy.rs:41-63 | What is added for one entry and when it is an error; files keep bytes and mode, links are redirected into the copy |
| TreeCopy.CopyLink | src/evidence/workspace_copy.rs:173-192 | A link is redirected to its canonical path in the copy, or to the interpreter that its virtual environment declares; any other link out of the tree, a broken one and one to omitted data are refused |
| TreeCopy.CopyFile | src/evidence/workspace_copy.rs:65-87 | The buffered loop copies every byte whatever counts the reads return |
| TreeCopy.FilesMatch | src/evidence/workspace_copy.rs:106-143 | The chunked comparison succeeds exactly for equal files of the expected size |
| TreeSnapshot.CaptureWith | src/evidence/snapshot.rs:35-68 | The walk ends with the snapshot of all that is included, or with an error exactly when something included is refused, and visits each included directory exactly once |
| TreeSnapshot.SymlinkBinding | src/evidence/snapshot.rs:88-119 | A link is bound to its canonical path or to a declared interpreter and its bytes, or refused for exactly the code's reasons |
| TreeSnapshot.InterpreterInCopy | src/evidence/environment.rs:7-78 | What a virtual environment declares as its interpreter is the same in the tree and in its copy |
| SourceTree.MarkerIsKept | src/evidence/environment.rs:7-50 | Where an interpreter link is not omitted its environment's configuration file is not omitted either |
| TreeSnapshot.CopyHasSameSnapshot | src/evidence/snapshot.rs:35-119 | The snapshot of a copy is the snapshot of its source for every output policy, and is refused exactly when that of the source is |
| TreeSnapshot.LinksStayInCopy | src/evidence/workspace_copy.rs:173-192 | Every link of a copy resolves in the copy to the path it names in the source: none leads back to the live source |
| TreeSnapshot.CopyingTwiceIsCopyingOnce | src/evidence/workspace_copy.rs:12-63 | Copying a copy changes nothing |
| TreeMeaning.SnapshotTells | src/evidence/snapshot.rs:35-119 | A snapshot holds exactly the included input files with their bytes, the links with the place inside that each leads to, and the interpreters with the bytes of what they lead to |
| TreeMeaning.SameSnapshotSameInputs | src/evidence/snapshot.rs:70-86 | Trees with equal snapshots have the same input files with the same bytes, the same links to the same places, and the same interpreters with the same bytes |
| TreeMeaning.EditsAreSeen | src/evidence/snapshot.rs:35-86 | Changing the bytes of an input file changes the snapshot |
| TreeMeaning.AdditionsAreSeen | src/evidence/snapshot.rs:35-86 | A tree without one of its input files has another snapshot |
| TreeMeaning.CopyTells | src/evidence/workspace_copy.rs:12-63 | The copy holds exactly what is not left out: files with bytes and mode, directories, and links to what they led to |
| TreeMeaning.InterpretersTell | src/evidence/environment.rs:12-98 | A link is an interpreter exactly as `bin/python` with or without a version in `.venv`, `venv` or a directory in `.tox`, where `pyvenv.cfg` is a file of the tree and declares what the link leads to |
| TreeMeaning.RelativeLinkLeads | src/evidence/snapshot.rs:88-119 | A relative link leads as many directories up as it has leading dots and then down its names |
| TreeMeaning.FortyLinksAreFollowed | src/evidence/snapshot.rs:88-119 | A chain of links leads to its end exactly when it has no more than forty |
| SourceTree.WalkFindsCanonical | src/evidence/workspace_copy.rs:173-180 | Resolving through any links and parent steps ends at a path that is no link |
| SourceTree.CanonicalResolves | src/evidence/snapshot.rs:98-113 | A canonical path resolves to itself |
| SourceTree.OmittedBelow | src/evidence/snapshot.rs:18-24 | What lies below an omitted path is omitted |
| SourceTree.SnapshotOmitsMore | src/evidence/snapshot.rs:18-24 | Snapshots leave out all that copies leave out |
| TreeWalk.Step | src/evidence/workspace_copy.rs:14-37 | Visiting a directory and adding its wanted subdirectories keeps the worklist's invariant and never visits twice |
| TreeWalk.AllVisited | src/evidence/snapshot.rs:37-66 | With no work left every wanted directory was visited |
| Acceptance.StateIsMaximum | src/diagnostics/execution.rs:138-158 | An engine's state is the highest-ranked one ever observed for it |
| Acceptance.OrderDoesNotMatter | src/diagnostics/execution.rs:138-158 | The states depend only on which observations were made, not on order or repetition |
| Acceptance.GateReport.ObserveEngine | src/diagnostics/execution_observations.rs:5-7 | The map's new state after one observation |
| Acceptance.GateReport.ObserveEvidenceFailure | src/diagnostics/execution_observations.rs:9-30 | Exactly the engines of the failed step become incomplete; each takes the failure as its reason unless it has one |
| Acceptance.GateReport.ObserveExecutionResults | src/diagnostics/execution_observations.rs:52-87 | Every mutation, step and coverage finding is observed as incomplete or failed |
| Acceptance.GateReport.Reconcile | src/diagnostics/execution.rs:114-134 | Exactly the selected engines that were observed take the observed state; only incomplete ones keep a reason |
| Acceptance.GateReport.Finalize | src/diagnostics/mod.rs:178-184 | The verdict depends on the findings alone; the engines on everything observed before and in finalizing |
| Acceptance.AcceptedExactly | src/diagnostics/machine.rs:17-41 | A finalized run is accepted exactly when it has no finding, checked the whole repository with nothing enabled left out, and every selected engine was seen to finish and never to fail or stay incomplete |
| Acceptance.AcceptedExitsZeroExactly | src/commands/outcome.rs:35-47 | An accepted run exits with zero exactly when no other outcome was saved with its report |
| Acceptance.ExitCodeExactly | src/commands/outcome.rs:27-62 | Without a saved outcome zero means no finding and two means missing evidence |
| Acceptance.LoadedAcceptanceExitsZero | src/commands/report/input.rs:30-57 | A loaded report that claims acceptance exits with zero and has no finding, whatever the file says |
| Acceptance.MissingEvidenceShows | src/diagnostics/execution_observations.rs:52-87 | Missing evidence always shows as an incomplete engine |
| Acceptance.FinalizingAgain | src/diagnostics/mod.rs:178-184 | Finalizing twice is finalizing once |
| Acceptance.CodeFindings | src/diagnostics/mod.rs:113-176 | Blockers never exceed the total, so the code findings are the difference |
| AcceptanceMeaning.FindingsTell | src/diagnostics/execution_observations.rs:52-108 | Of each engine finalizing observes exactly what its own findings show: failed for each kind of finding, incomplete for missing evidence, and for each step by its name and exit |
| AcceptanceMeaning.StatesTell | src/diagnostics/execution_observations.rs:32-88 | An engine ends incomplete exactly when something left it so, failed exactly when something failed it and nothing left it incomplete, else as it was |
| AcceptanceMeaning.FailureStatesTell | src/diagnostics/execution_observations.rs:9-31 | A step that cannot be evaluated leaves its engines incomplete and every other engine as it was |
| AcceptanceMeaning.EvidenceFailureTells | src/diagnostics/execution_observations.rs:9-31 | Which engines these are: all five source engines for reading and classifying sources, else the one that the step feeds |
| AcceptanceMeaning.PlanTells | src/diagnostics/execution_observations.rs:32-51 | An engine of the plan takes its state when it is selected and was observed, and has a reason exactly when it is then incomplete |
| AcceptanceMeaning.ExitTells | src/commands/outcome.rs:27-62 | A run exits with its saved outcome, else with two when evidence is missing, zero without any finding, one otherwise |
| AcceptanceMeaning.StepExitsTell | src/commands/outcome.rs:49-62 | A step that ended with 1 fails its engine and the run exits with one; one that ended with 127 leaves both incomplete and the run exits with two |
| AcceptanceMeaning.LoadingTells | src/commands/report/input.rs:30-57 | A loaded report is refused exactly when it passes with findings, and exits as its findings, verdict and status say |
| Lease.RunKeepsInv | src/resources/lease.rs:72-106 | Every interleaving of acquiring, polling, dropping threads and other processes keeps locks and live leases in step |
| Lease.OneLeasePerPath | src/resources/lease.rs:72-106 | In every reachable state a path has at most one live lease, and its lock is ours exactly while that lease is alive |
| Lease.LockedWhileHandlesRemain | src/resources/lease.rs:99-106 | A lease keeps its lock exactly as long as more handles were given out than dropped |
| Lease.SharedExactly | src/resources/lease.rs:85-92 | A request succeeds at once exactly when the thread's last lease is alive and on that path; then no lock changes |
| Lease.RefusedExactly | src/resources/lease.rs:72-83 | A request for a mutation lease fails at once exactly for a child process or after cancellation, whatever the thread has, and changes nothing |
| Lease.RefusalsLeaveNoTrace | src/resources/lease.rs:72-83 | A run without its refused requests is a run too and ends in the same state |
| Lease.RequestThenPoll | src/resources/lease.rs:72-98 | A request that is not shared waits and changes nothing else; at a free lock the next poll gets it, unless the request is a workload's and the poll is cancelled |
| Lease.OnePathIsReentrant | src/resources/lease.rs:85-92 | While a thread asks for mutation leases on one path only, whatever others ask for, it shares at once exactly when it has a live lease |
| Lease.WorkloadWaitsForItself | src/resources/lease.rs:275-309 | A thread that has a lease and asks for a workload's lease on its path waits for itself |
| Lease.WorkloadHidesMutationLease | src/resources/lease.rs:98-106 | A run in which a thread takes a mutation lease and a workload's lease and then, asking for the mutation lease again, waits for itself |
| Lease.OtherPathWaitsForItself | src/resources/lease.rs:99-106 | A request for a path leased earlier than the last one waits for the thread's own lease |
| Lease.WaitingForItselfFails | src/resources/lease.rs:225-255 | Such a wait can only fail |
| Lease.PollExactly | src/resources/lease.rs:234-255 | A poll takes the lock exactly when it is free, even past the deadline, and gives up exactly when it is busy and the wait was cancelled or is over |
| Lease.WaitEndsExactly | src/resources/lease.rs:225-255 | In every run a wait ends with the lock at the first poll that finds it free, however late, unless an earlier poll was late or cancelled, where it fails; a workload cancelled at its free poll fails too |
| Lease.BusyWaiterFailsAtFirstLatePoll | src/resources/lease.rs:225-255 | Where the first late or cancelled poll comes before any that finds the lock free, the wait fails there |
| Lease.LateWaiterMayStillAcquire | src/resources/lease.rs:234-255 | A run in which a waiter takes the lock after its deadline |
| RustScope.ReadScope | src/evidence/producer_rust.rs:192-235 | The option loop computes the scope of the arguments or an error |
| RustScope.ScopeValue | src/evidence/producer_rust.rs:257-276 | A value comes from behind the equals sign or from the next argument and is neither empty nor an option |
| RustScope.BaselineTokens | src/evidence/producer_rust.rs:112-130 | The loop that skips a filter and the token behind it computes what the baseline keeps |
| RustScope.BaselineKeepsOptions | src/evidence/producer_rust.rs:112-130 | That loop stays aligned with options and values and keeps exactly the options that are no filters |
| RustScope.BaselineIsUnfilteredScope | src/evidence/producer_rust.rs:112-235 | The baseline's scope is the coverage scope of the arguments without package, filter, shard and timeout options |
| RustScope.MutationBaseline | src/evidence/producer_rust.rs:105-170 | The baseline's command is the toolchain's cargo testing the locked workspace in the kept scope, with the configured settings behind it, or the scope's error |
| RustScope.BaselineTestsWorkspace | src/evidence/producer_rust.rs:105-170 | Whatever options and configuration say, the command tests the workspace in the kept scope and holds each configured feature flag |
| RustScope.ScopeIsIdempotent | src/evidence/producer_rust.rs:192-276 | The printed coverage scope is accepted again and printed as it is |
| RustScope.MentionsExactly | src/evidence/producer_rust.rs:172-190 | In an accepted list looking at each argument finds an option exactly when the list holds it: no value is taken for one |
| ScopeMeaning.AcceptedExactly | src/evidence/producer_rust.rs:192-276 | An option list is accepted exactly when it is written of options that the run allows, named one by one, alone or with a value that is neither empty nor begins like an option |
| ScopeMeaning.ScopeTells | src/evidence/producer_rust.rs:192-255 | The run gets every option with its value behind it in the order written; a mutation run hands target options to the tests and build options to cargo |
| ScopeMeaning.KeptTells | src/evidence/producer_rust.rs:112-130 | The baseline keeps exactly the options that do not narrow the run, as written, without wrappers |
| ScopeMeaning.BaselineTells | src/evidence/producer_rust.rs:105-170 | The command token by token: cargo, toolchain, the locked workspace tests, what is kept, the flags not yet there, features, profile, and the configured arguments |
| SpanPosition.Position | src/evidence/mutation_scope.rs:110-141 | The byte of the first character boundary with the coordinates, or nothing exactly when no boundary has them |
| SpanPosition.PointTells | src/evidence/mutation_scope.rs:110-141 | A line number is one more than the line feeds before a place; a column counts the characters since the last one that are no carriage returns |
| SpanPosition.OffsetIsLength | src/evidence/mutation_scope.rs:110-141 | A byte offset is the length of the UTF-8 encoding of the text before it |
| SpanPosition.OffsetsAreCharacters | src/evidence/mutation_scope.rs:110-141 | In the bytes of a text each character starts at its offset, is as long as its width, and is its own encoding |
| SpanPosition.PointsGrow | src/evidence/mutation_scope.rs:123-136 | Coordinates never fall along the text and stay the same exactly across carriage returns |
| SpanPosition.OrderAgrees | src/evidence/mutation_scope.rs:96-101 | Byte order is coordinate order for valid points |
| SpanPosition.OverlapsExactly | src/discovery/rust_ownership.rs:93-103 | A span overlaps a test range exactly when one of its bytes is test code or an empty range lies strictly inside it |
| SpanPosition.CheckSpan | src/evidence/mutation_scope.rs:94-105 | A mutant passes exactly when both points are coordinates, the first lies before the second, and the bytes between are no test span |
| SpanPosition.ValidateRust | src/evidence/mutation_scope.rs:63-108 | A report passes exactly when it lists outcomes and each mutant in them names a bound source and passes its span check |
| SpanPosition.PassedMutantsChangeNoTestCode | src/evidence/mutation_scope.rs:82-106 | No byte between the points of a mutant that passes is test code of its source |
| MemoryBudget.PlanExists | src/resources/worker_plan.rs:24-40 | A plan exists exactly when the machine is not under pressure, the estimate is positive and one requested worker fits |
| MemoryBudget.PlanIsLargest | src/resources/worker_plan.rs:24-49 | The planned workers are the largest count that was requested and fits beside reserve and coordinator |
| MemoryBudget.PlanTells | src/resources/worker_plan.rs:24-49 | In bytes: so many workers are planned exactly when they were asked for and fit beside the reserve and 536870912 bytes on a machine without pressure |
| MemoryBudget.AlignedStays | src/resources/budget.rs:9-13 | An aligned limit is a whole number of pages for every page size that divides the alignment |
| MemoryBudget.BudgetStaysWithin | src/resources/budget.rs:22-62 | After the kernel's rounding a budget stays within half the headroom, a quarter of the memory and eight gibibytes, and the high mark within four fifths of it |
| MemoryBudget.BudgetTells | src/resources/budget.rs:22-62 | In bytes: the limit is the largest multiple of 65536 within half of what is available beside the reserve, a quarter of the memory and 8589934592; there is one exactly when 67108864 is within these and the machine is not under pressure |
| MemoryBudget.HighTells | src/resources/budget.rs:22-62 | The mark at which a run slows down is the largest multiple of 65536 within four whole fifths of the limit |

## Left out

- EvidenceProducer.Checkout.Execute: a producer's version is given trimmed.
- EvidenceProducer.Checkout.Produce: between its statements others edit the checkout and remove jobs; other attempts on the same report are part of the state machine only, where every interleaving is covered. The runtime inputs of partitioned runs and the normalisation of the producer's report are left out; the normalised bytes are a parameter.
- EvidenceProducer.Checkout.Verify: runtime inputs and file metadata (owner, mode, hard links) are not modelled; report validation, with that of a partition's report, is one function of producer, partition, report and inputs and reads the report once; capturing a tree is one moment.
- EvidenceHistory.AcceptsExactlyCertified: the registry is written by attempts alone; an edit of the registry by the same user is outside the model, as it is outside the program's claim.
- Lease.PollExactly: preparing the lock file (directory, ownership, mode), inheriting a lease in a child and the messages of a queued workload are not modelled; the thread-local cell is a field of the machine's state, not a method's variable.
- Ratchet.RatchetNumeric: measures are real numbers in the model; a floating-point value that compares with nothing is not covered.
- LegacyRatchet.GateReport.ApplyLegacyRatchet: a suppression's or invariant's line is given as its words, single spaces between them; the texts of advisories, their sorting and the annotation of retained messages are left out.
- CloneReport.DetectClones: the sort is a stable insertion sort by the same comparison; the message and the recommendation of a violation are left out, and the symbols stand for their fingerprint.
- CloneIndex.BuildIndex: tokenizing sources, excluding files and putting changed files first come before it; the streams are given in the order in which they are indexed.
- UnifiedDiff.ParseDiff: the porcelain status, untracked files and the merge base are other parsers and not part of this model.
- DiffReadBack.DiffReadsBack: it speaks of rendered text that is UTF-8, which the parser demands; for other text the parser returns an error.
- TreeCopy.CopyTree: the entries of a directory come in any order, so sorting and parallel copying are covered; times and a source that changes while it is copied are not.
- TreeSnapshot.CaptureWith: the bytes stand for their digest; parsing `pyvenv.cfg` and looking at the executable it declares are one function of its text, the link's name and the target.
- SourceTree.WalkFindsCanonical: a link target that leaves the root and comes back through an absolute path outside it counts as leaving; at most forty links are followed.
- Acceptance.GateReport.Finalize: file and function counts, timing and the display fields are left out; the five kinds of findings without further effect are counts.
- SpanPosition.ValidateRust: JSON access gives each part of a mutant or nothing; classification and file reading are done before.
- RustScope.MutationBaseline: the configuration file is given as its settings; parsing it and its other entries are left out.
- MemoryBudget.BudgetStaysWithin: the fallback without telemetry and the processor count are constants of the host and left out; memory pressure is in hundredths of a percent.
- Paths are sequences of components, already normal; equality of paths is equality of components.
- Process spawning, signals, sandboxing, cgroups and output capture.
- Syntax analysis of sources, configuration merging and validation, classification tables, coverage and mutation report parsers.
- Rendering of reports, command-line parsing, the doctor, the initialiser, the protocol server and the launcher.
