# Verified core of the liquidity bot

A Dafny 4.11 project that models the parts of the trading bot whose correctness is a matter of state and
arithmetic rather than of market opinion, and proves what they promise. `dafny verify dfyconfig.toml` checks
all of it.

| file | what it models |
|---|---|
| `AuditFile`, `AuditWriter`, `AuditRuns`, `AuditTamper`, `AuditWelds` | the hash-chained audit trail: verifier, crash-recovering writer, runs of processes that die anywhere, tamper evidence, and exactly which honest writes look like tampering (`core/audit.py`) |
| `MainChain` | the longest lineage of a forked trail (`core/audit.py`) |
| `Betting`, `EBh` | anytime-valid evidence: the betting e-process with Ville's inequality, e-BH with its false discovery rate (`core/evidence.py`) |
| `CsvText`, `FillLedger` | the CSV dialect and the append-only fill ledger with its replay guard (`core/fill_ledger.py`) |
| `FaultAuthority`, `WedgeGuard` | the fault authority and the cycle-wedge guard that drives it, over snapshots, stops and kills (`core/fault.py`, `runner.py`, `core/persistence.py`) |
| `FillAccounting` | averaging, fee deltas, the entry-fee pool and cash in `_handle_fill` (`main.py`) |
| `ExitLadder`, `ExitHoldings` | the exit escalation ladder with preemption and late fills, and what the position holds over a run of exits (`main.py`, `execution/order_manager.py`) |
| `ProbeBudget`, `ProbeTold`, `ProbeRestarts` | the scarcity-priced token bucket for probe admission, what becomes of each probe told from the events, and what snapshots, stops and kills make of the budget (`main.py`, `core/persistence.py`) |
| `TargetBook`, `TargetPlan` | one rebalancing plan, its settlement, and repeated plans (`core/target_book.py`) |
| `IdeaMarket`, `MarketTold`, `IdeaBooks`, `IdeaTold`, `IdeaLab` | the hypothesis lab: market measures, paper books, what their records mean, population (`core/idea_lab.py`) |
| `Prelude` | optional values, minimum and maximum, sums |

Floats are `real`. Time, equity, draws of the random generators, and everything the disk, the venue or the
operator may do are inputs, so a theorem over all inputs covers every failure they can cause. The hash of the
trail is a function parameter; where a result needs it, it is injective and never gives the genesis marker.
Code that changes things in place is a class or a loop, proved equal to a function on values; what the code
promises is then proved of that function over all inputs and all runs.

## What the proofs found

Each of these is a property that does not hold as the code or its documentation puts it. The code is modelled
as it is; the member named gives the input, or the exact condition.

- `main_chain_indices` is documented never to raise. It raises when a linked record's "prev" is a JSON array or object (`MainChain.MainChainIndices`), and otherwise ends on every input.
- A trail that does not exist is reported as tampered (`AuditRuns.CrashesNeverLookLikeTampering` says exactly when).
- Adoption is documented to leave complete records alone. A last line that is JSON but no object is erased with its alarm at the next start (`AuditTamper.ScalarTailIsErased`; `AuditTamper.StartSilencesExact` says exactly which alarms a start turns off), and an altered object on a last line without a newline keeps its alarm through a log call only under the condition of `AuditTamper.UnterminatedEvidenceExact`.
- A single honest writer can end with a trail that looks tampered: when the re-read of the tail fails after a torn write (`AuditRuns.FailedAdoptionLooksLikeTampering`), and when the repair of a missing newline fails (`AuditWelds.FailedRepairLosesTheParent`). `AuditWelds.AccusedExact` says for every run, of one writer or many, exactly when: some write starts a line below terminated bytes that are not JSON, or completes a record whose parent is gone. After a re-read that succeeds, one case is left (`AuditWelds.RereadAlarmExact`).
- The wealth of the e-process is floored at zero, which the documented product is not. The floor costs the guarantee exactly when losses may go beyond twice the bound: for data never below -L, Ville's inequality holds on every null tree and for every threshold if and only if L <= 2B (`Betting.VilleExact`).
- The line end that heals a torn ledger row does not isolate it when the tear is inside a quoted field: the next fill is swallowed (`FillLedger.BookedExact`); a row can be torn that way exactly when one of its fields needs quotes (`FillLedger.TearExact`).
- After a restart a fill is refused exactly when some row, complete or torn, reads as its key (`FillLedger.RefusedExact`): a ledger without one complete row can refuse a fill it never saw (`FillLedger.RefusedUnseen`).
- A fill whose write was cut short is refused as long as the process lives (`FillLedger.AttemptIsRemembered`); only a restart lets it in.
- A manager that was never armed arms itself exactly when, after a fault halted it, a clear removed the last fault and nothing but warnings came since (`FaultAuthority.ArmsUnaskedExact`).
- A wedge cleared by hand in a failing streak is not latched again by that streak, however long: from a quiet guard the wedge is latched exactly when there was a Trip-th failure and the operator has not named it since (`WedgeGuard.WedgeLatchedExact`), and new risk is refused exactly when something blocking was latched since the table was last emptied (`WedgeGuard.RiskRefusedExact`). The run from boot is `WedgeGuard.HandClearIsReachable`.
- A latched fault is documented to survive a restart. It survives a clean stop, but a kill brings back the last snapshot's faults, exactly (`WedgeGuard.KillKeepsExact`): a critical fault latched since is gone and new risk is allowed (`WedgeGuard.CriticalIsLost`, `WedgeGuard.KillAllowsRiskExact`).
- The probe budget is documented to survive restarts. A kill brings back the balance and the orders of the last snapshot, and no snapshot is written at a placement, so what was charged since is spent again (`ProbeRestarts.KillsCostWhatTheyForget`). The bound holds with every kill that forgets no net charge (`ProbeRestarts.HarmlessKillsKeepTheBound`), and over all runs with kills exactly when the bucket has no capacity (`ProbeRestarts.BoundedExact`, with the run in `ProbeRestarts.KillsBreakTheBound`). An order refunded since the snapshot is refunded again (`ProbeRestarts.RefundableExact`, `ProbeRestarts.RefundedTwice`).
- A close is off the true net by the fees still pooled and the entry value of what was oversold or left as dust; a flat close is exact only if the pool is not negative, for an unpaid rebate stays out of the report (`FillAccounting.CloseExact`).
- An exit sized while a fill recovered by a cancel outside the ladder is still queued is sized on a stale position (`ExitLadder.UndrainedOversells`). The one place that cancels exits so is the switch to dry orders, after which a flatten in the same tick puts up more than is held (`ExitLadder.ForcedDryExample`); its order is then a simulated one. A position reopened by a late entry fill may have more exits out than it holds (`ExitLadder.ReopenExact`).
- A preemption that finds the position sold down to dust closes it and still places its exit (`ExitLadder.ClosedYetEscapesExact`, `ExitLadder.DustDrainExample`).
- The first child of a sliced drought-floor probe, which carries no price, is charged the stashed price of a later decision (`ProbeBudget.ChildChargeExact`; `ProbeBudget.FloorParentPaysForAnother` gives the run from a fresh bot).
- The rebalancer is documented to trade to the band's edge and then rest. With an aim rate below one its no-trade zone is band/rate, and from outside it trades at every plan for ever (`TargetBook.RepeatedPlans`).

## Model

| member | source | states |
|---|---|---|
| AuditFile.VerifyChain | core/audit.py:322-410 | the loop reports the verdict of the scan function for every file, the absent one included |
| AuditFile.TamperExact | core/audit.py:347-410 | for every readable file, the exact meaning of every verdict field: no alarm exactly for a sound sequence of records followed by at most one last line that is not JSON; seams are the records not chained to the line above |
| AuditFile.ScanOfSound | core/audit.py:353-395 | the scan meets no break exactly on a sound sequence, and has then counted records, forks and digests right |
| AuditFile.ScanExact | core/audit.py:353-395 | what the scan holds after any lines, tampered ones included: the first break is the line after the longest sound beginning, whose records, forks and digests it has counted; what follows is only counted |
| AuditFile.VerdictExact | core/audit.py:397-410 | every field of the verdict of every file, absent and tampered ones included, by the length of its longest sound beginning |
| AuditWriter.AuditTrail.ReadTail | core/audit.py:136-144 | the bounded window holds exactly the last 512 lines that are not blank, with their places |
| AuditWriter.AuditTrail.ScanBack | core/audit.py:172-178 | the backward scan finds the last adoptable record and counts what it passed |
| AuditWriter.AuditTrail.AdoptTail | core/audit.py:115-204 | the new writer and file are those of the adoption function, whatever read or repair fails |
| AuditWriter.AuditTrail.Log | core/audit.py:237-297 | the new writer, file and return value are those of the log function, for a write cut after any bytes |
| AuditWriter.AuditTrail.constructor | core/audit.py:92-113 | a new writer is a fresh one that has adopted the tail |
| AuditWriter.FindGoodLast | core/audit.py:165-178 | adoption takes the last numbered record of the window, whatever altered lines stand below it, and counts those |
| AuditWriter.AdoptedExact | core/audit.py:160-191 | what adoption leaves in the writer, of any file it can read: the larger of the two numbers, the digest to chain to, the counts; the next record is numbered above both |
| AuditWriter.WindowExact | core/audit.py:136-144 | what a writer sees of a file: its last 512 lines that are not blank, in order and with their places |
| AuditWriter.NumbersRise | core/audit.py:237-297 | over every run of calls, whatever happens to the file meanwhile: zero is returned exactly for the writes that fail, which are counted as dropped; every other number is above all earlier ones |
| AuditWriter.LogExact | core/audit.py:257-297 | a committed call leaves its record as the last line, under the number it returns and chained to the writer's digest; a failed one keeps number and digest and has the tail read again |
| AuditRuns.CrashesNeverLookLikeTampering | core/audit.py:115-297 | in every run of one writer whose tail reads and repairs succeed, with writes failing after any bytes, deaths and restarts anywhere, the verifier reports tampering exactly while the file does not exist, and never a seam |
| AuditRuns.NextLogHeals | core/audit.py:237-297 | after any such run (one writer, tail reads succeeding) and one more successful log the file is one clean chain of complete lines, all earlier records first, sequence numbers 1, 2, 3, ... |
| AuditRuns.RecordsAreNeverLost | core/audit.py:115-204 | in every such run (one writer, tail reads succeeding) a record on disk stays on disk at its place |
| AuditRuns.SeamsAreBenign | core/audit.py:379-395 | any number of stale or crashing writers: as long as no write lands on an unterminated line, no tampering is reported, and seams are exactly the records not chained to the line above |
| AuditRuns.FailedAdoptionLooksLikeTampering | core/audit.py:243-247 | the run in which one writer alone is accused: the re-read after a torn write fails |
| AuditWelds.AppendAlarmExact | core/audit.py:261-297 | one write of any writer to any file the verifier has no complaint about: it raises the alarm exactly if it starts a line below terminated bytes that are not JSON, or completes a record whose parent is not on disk |
| AuditWelds.AccusedExact | core/audit.py:115-297 | for every run, of one writer or many, reads and repairs failing or not: the verifier never reports an existing file exactly when no write of the run is alarming to the file its own re-read left |
| AuditWelds.RereadExact | core/audit.py:146-204 | a re-read that succeeds leaves exactly the records and chains the writer to the last one, or leaves its memory as it was when there is none |
| AuditWelds.RereadAlarmExact | core/audit.py:160-204 | in every run, a writer whose re-read has just succeeded writes something alarming exactly when it completes a record, remembers one, and the file holds none |
| AuditWelds.FailedRepairLosesTheParent | core/audit.py:192-204 | the run in which one writer alone gets into that case |
| AuditTamper.EditIsDetected | core/audit.py:373-395 | changing the body of a complete record and keeping its hash is reported, wherever it stands, on the unterminated last line too, and whatever else the file holds |
| AuditTamper.RearrangementExact | core/audit.py:373-410 | in any file whose committed lines are records that hash right, blank lines and a torn last line allowed, tampering is reported exactly when some record's parent is neither genesis nor above it |
| AuditTamper.LostParentIsDetected | core/audit.py:379-395 | dropping, moving or repeating records of a legitimate file so that a survivor is no longer below its parent is reported, a torn last line or not |
| AuditTamper.EvidenceIsKept | core/audit.py:146-191 | once the first break is a complete object on a terminated line, no construction, log, failed write or death of any writer turns the alarm off |
| AuditTamper.AdoptionContentExact | core/audit.py:154-163 | adoption removes a last line that is not a JSON object, and nothing else |
| AuditTamper.StartSilencesExact | core/audit.py:154-163 | for any file under alarm, a start turns the alarm off exactly when the last line is no JSON object and the rest is sound, or sound but for one more line that is not JSON |
| AuditTamper.UnterminatedEvidenceExact | core/audit.py:172-204 | an altered object on an unterminated last line stays reported after one log call exactly when the call writes nothing or re-reads the tail and finds a record to adopt |
| MainChain.Deepen | core/audit.py:441-459 | the first pass builds the parent map and finds the last of the deepest records, or stops on a "prev" that cannot be looked up |
| MainChain.WalkBack | core/audit.py:462-467 | the walk back ends on every input, cycles included, with exactly the indices it can reach |
| MainChain.MainChainIndices | core/audit.py:413-467 | the result for every input: the walk from the last deepest record, every record when none is linked, or the error |
| MainChain.LongestLineage | core/audit.py:441-467 | when hashes are distinct and parents stand above, the result is exactly one lineage in file order, no lineage is longer, and one as long ends no later |
| MainChain.LineageBound | core/audit.py:445-459 | no lineage is longer than the depth of its last record |
| MainChain.SoundIsWellOrdered | core/audit.py:413-440 | files the verifier finds sound, without repeated records, meet the condition |
| Betting.BettingEprocess | core/evidence.py:48-67 | the returned array holds at each index the wealth of the observations up to it |
| Betting.StakeExact | core/evidence.py:59-65 | after two observations or more the stake is the one number in [0, 1/(2B)] with the largest lam times the sum of y less lam squared over two times the sum of y squared, and the only one unless every y was zero |
| Betting.ReachesExact | core/evidence.py:57-67 | the event of reaching a threshold is that some returned value reaches it |
| Betting.Ville | core/evidence.py:48-67 | for every horizon, threshold and history-dependent finite distribution under the null, the probability of ever reaching c is at most 1/c, provided no bet is cut by the floor |
| Betting.VilleForBoundedData | core/evidence.py:48-67 | the same when no outcome is below minus some number of at most twice the bound |
| Betting.VilleExact | core/evidence.py:48-67 | for data never below -L, Ville's inequality holds for every null tree and every threshold if and only if L is at most twice the bound |
| Betting.SolventExact | core/evidence.py:63-65 | at any history, the floor leaves an outcome uncut exactly when no null pair of it with a gain grows the wealth on average |
| Betting.DeepLossesBreakVille | core/evidence.py:48-67 | for every loss beyond twice the bound, a null tree and a threshold that is reached with more than the promised chance |
| Betting.PeakExact | core/evidence.py:70-75 | the running maximum reaches a level exactly when the process does |
| Betting.VerdictsAreKept | core/evidence.py:70-82 | a claim made on running maxima is not undone by any amount of further data |
| Betting.FalseClaimsAreRare | core/evidence.py:70-82 | without an edge the ledger claims one, whenever it is read, with probability at most one over the threshold |
| EBh.EBenjaminiHochberg | core/evidence.py:85-93 | the loop over the stably sorted values rejects what the ranking function says |
| EBh.KStarExact | core/evidence.py:88-92 | without a sort: k* is the largest k such that k of the e-values reach m/(alpha k) |
| EBh.RejectedExact | core/evidence.py:85-93 | the rejected set has k* members, each with an e-value of at least m/(alpha k*), and with a hypothesis every one whose e-value is larger |
| EBh.EBhExact | core/evidence.py:85-93 | without a sort or a threshold: k* is the largest k such that k of the e-values e have e * alpha * k at least m, and exactly those e-values of k* are rejected |
| EBh.FdrControl | core/evidence.py:85-93 | on every finite probability space, under any dependence, null means at most one bound the expected false discovery proportion by alpha |
| CsvText.ReadWritten | core/fill_ledger.py:393-399 | at a record boundary a written row is read back as one more row, equal to it, whatever its fields contain |
| CsvText.CutLine | core/fill_ledger.py:282-288 | what any cut of a written row leaves: nothing, a fragment whose fields but the last are the row's, or the row |
| CsvText.HealExact | core/fill_ledger.py:393-399 | the line end before the next row isolates a torn fragment exactly when the fragment does not stop inside quotes |
| FillLedger.Ledger.LoadKeys | core/fill_ledger.py:189-221 | the loaded cache is the set of keys of the data rows, or unknown when the file cannot be read |
| FillLedger.Ledger.KeyOnDisk | core/fill_ledger.py:224-231 | the scan finds a key exactly when some row reads as it |
| FillLedger.Ledger.AppendFill | core/fill_ledger.py:296-401 | the new file and cache are those of the append function, whichever reads fail and however much of the write arrives |
| FillLedger.Ledger.Write | core/fill_ledger.py:349-401 | what is written: the healing line end or the header of a new file, then the row in the file's own columns |
| FillLedger.WrittenAdds | core/fill_ledger.py:349-401 | a write cut anywhere in the data row outside quotes adds nothing, a narrower fragment, or one row with the fill's key; the row has the header's width |
| FillLedger.RunsNeverBookTwice | core/fill_ledger.py:153-175 | over any run of fills, data rows torn anywhere outside a quoted field, failing reads and restarts no two complete rows agree in all four key columns, and the old rows stay in front as they are |
| FillLedger.NewLedgerNeverBooksTwice | core/fill_ledger.py:153-175 | so for every such run from an absent ledger, whose header is the built-in one |
| FillLedger.AppendedExact | core/fill_ledger.py:173-175 | after a restart a fill is refused exactly when a row on disk agrees with it in all four columns; one that differs from every row in any of them is appended, and the row read back holds its own value under every column |
| FillLedger.FilesHoldTheFirsts | core/fill_ledger.py:296-401 | in any run where no read or write fails, restarts anywhere: the whole file is the header and one row, in order, for the first delivery of each combination of the four |
| FillLedger.AttemptIsRemembered | core/fill_ledger.py:326-347 | once the cache is loaded a fill is refused from its first attempt on, however little of it was written, and the cache forgets nothing |
| FillLedger.UnloadedExact | core/fill_ledger.py:300-325 | when the keys cannot be loaded the fill is looked up on disk: refused when that fails too or a row reads as it, written otherwise |
| FillLedger.PlainRowsAreFair | core/fill_ledger.py:282-288 | where no field of the row needs quotes, any cut of its write is one such runs allow |
| FillLedger.ReplayChangesNothing | core/fill_ledger.py:296-347 | replaying recorded fills in any order, over restarts and whatever fails, leaves the file as it is |
| FillLedger.ReplayLaterChangesNothing | core/fill_ledger.py:296-347 | what is recorded is refused at any later time |
| FillLedger.RefusedExact | core/fill_ledger.py:300-347 | after a restart a fill is refused exactly when a row on disk, complete or torn, reads as its key |
| FillLedger.FragmentRefuses | core/fill_ledger.py:189-231 | a row torn inside its remaining size at any record boundary reads as the key of another fill of the order, which is then refused though no complete row was added |
| FillLedger.RefusedUnseen | core/fill_ledger.py:296-401 | the run from an absent file that gets there |
| FillLedger.BookedExact | core/fill_ledger.py:349-401 | after a torn tail, a fill that arrives whole is read back as one more row exactly when the file did not stop inside a quoted field |
| FillLedger.TearExact | core/fill_ledger.py:282-288 | every tear of a row leaves the file outside quotes exactly when no field of the row needs quotes |
| FaultAuthority.FaultManager.Arm | core/fault.py:94-98 | the new state is the arming function's |
| FaultAuthority.FaultManager.Latch | core/fault.py:100-134 | the new table and state are the latch function's: overflow, escalation, counts and detail included |
| FaultAuthority.FaultManager.ClearFault | core/fault.py:136-152 | the new table and state are the clear function's, and the result says whether the key was there |
| FaultAuthority.FaultManager.ToDict | core/fault.py:178-185 | the saved entries are the records in order |
| FaultAuthority.FaultManager.Restore | core/fault.py:187-224 | the new table and state are the restore function's, malformed entries included |
| FaultAuthority.LatchKeeps | core/fault.py:100-134 | halted exactly when a critical fault is in the table, armed only over warnings, degraded only over a nonempty table, at most 128 faults and the overflow; a critical latch or an overflow halts, and no key is lost |
| FaultAuthority.ClearRemoves | core/fault.py:136-152 | clearing removes exactly the named key |
| FaultAuthority.ArmKeeps | core/fault.py:94-98 | arming acts exactly in INIT without faults, so it never arms over one |
| FaultAuthority.RecordsTold | core/fault.py:100-152 | after every run of latches and clears each record is there exactly since a latch no clear has followed, and holds their number, first time, last detail and worst severity; what a full table turns away lands on the overflow's record |
| FaultAuthority.ClearArmsTheUnarmed | core/fault.py:100-152 | over every run of latches and clears without an arm, a clear arms the manager exactly when some fault had halted it and the clear removes the last fault |
| FaultAuthority.LeftInitExact | core/fault.py:100-152 | over every such run the manager has left INIT exactly when some latch was critical or overflowed the table |
| FaultAuthority.ArmsUnaskedExact | core/fault.py:94-152 | over every such run the manager ends armed exactly when, after it had left INIT, a clear removed the last fault and nothing but warnings was latched since |
| FaultAuthority.RestoreKeeps | core/fault.py:187-224 | restoring any snapshot keeps the invariant |
| FaultAuthority.RestartKeepsFaults | core/fault.py:178-224 | for every reachable table, the full one included, a restart brings back every fault that is not recoverable, in order, with severity and count, and the state they demand |
| FaultAuthority.RestartAllowsRiskExact | core/fault.py:178-224 | new risk is allowed after a restart exactly when every fault that is not recoverable was a warning |
| WedgeGuard.BotRunner.NoteCycleOk | runner.py:1518-1549 | guard and fault table after a clean or paused cycle |
| WedgeGuard.BotRunner.NoteCycleFailure | runner.py:1550-1587 | guard and fault table after a failed cycle, and the streak returned |
| WedgeGuard.BotRunner.ClearFaultCommand | runner.py:634-655 | guard and fault table after the operator names a fault |
| WedgeGuard.BotRunner.Snapshot | core/persistence.py:600-601 | the fault table goes into the snapshot |
| WedgeGuard.RunKeeps | runner.py:1518-1587 | in every reachable state the fault invariant holds and the guard's counters agree with its flags |
| WedgeGuard.FailuresRefuseRisk | runner.py:1550-1573 | a streak of failures as long as the trip, with anything else latched meanwhile and even with a full table, halts the bot |
| WedgeGuard.RecoveryCount | runner.py:1532-1549 | while the wedge is latched the recovery count is the number of successes since the last failure; pauses add nothing |
| WedgeGuard.AutoClearExact | runner.py:1532-1549 | in every run a clean cycle lifts the wedge exactly when it is the trip-th success since the last failure |
| WedgeGuard.StreakExact | runner.py:1532-1562 | over every run with successes, pauses, failures, latches, clears, snapshots and restarts the failure count is the number of failures since the last success, pause or restart |
| WedgeGuard.TripLatchesExact | runner.py:1560-1573 | in every such run a failure latches the wedge exactly when it makes that streak as long as the trip, so a streak after a healed or cleared wedge latches again |
| WedgeGuard.WedgedExact | runner.py:1518-1587 | over every run from boot the wedge is latched exactly from a failure that completes a streak until the operator names it, a restart, or the trip-th success since the last failure |
| WedgeGuard.NoRiskBeforeRecovery | runner.py:1532-1587 | once wedged, nothing but the operator, a restart or a full healthy streak lets new risk in |
| WedgeGuard.WedgeHeals | runner.py:1532-1549 | with nothing else latched the bot is armed again exactly from the trip-th clean cycle on |
| WedgeGuard.WedgeLatchedExact | runner.py:1560-1573 | over every run of failures, other latches and operator clears from a quiet guard: the wedge is latched exactly when there was a Trip-th failure and the operator has not named it since |
| WedgeGuard.RiskRefusedExact | core/fault.py:100-152 | over every run of an armed bot without a restart: new risk is refused exactly when a blocking latch, the wedge's or another, was made since the table was last emptied |
| WedgeGuard.HandClearIsReachable | runner.py:1560-1587 | the run from boot that gets there: the trip's failures halt the bot, the operator clears the wedge, and any number of further failures leaves new risk allowed |
| WedgeGuard.LatchedUntilNamed | core/fault.py:94-224 | any other fault stays, never softer, through successes, failures, automatic clears, snapshots and clean stops until the operator names it, and through kills once a snapshot holds it; a blocking one refuses new risk as long |
| WedgeGuard.KillKeepsExact | core/persistence.py:240-249 | a clean stop keeps exactly the faults that are not recoverable, a kill brings back exactly those of the last snapshot |
| WedgeGuard.KillAllowsRiskExact | core/persistence.py:240-249 | after a kill new risk is allowed exactly when every fault of the snapshot that is not recoverable was a warning |
| WedgeGuard.OnlyTheWedgeIsDropped | core/fault.py:187-210 | a restart drops "cycle_wedged" from the snapshot and no other fault |
| WedgeGuard.CriticalIsLost | core/fault.py:100-134 | the run from boot in which a critical fault latched after the snapshot is lost |
| FillAccounting.Engine.HandleFill | main.py:2161-2443 | positions, results, fee marks, cash and closes after a fill are those of the accounting function |
| FillAccounting.Engine.HandleEntry | main.py:2179-2381 | the entry branch: averaging, original size, the pool, fees and cash |
| FillAccounting.Engine.HandleExit | main.py:2383-2443 | the exit branch: gross, fee delta, drained pool share, clamp, settlement and the close |
| FillAccounting.ConservationHolds | main.py:2315-2441 | for any interleaving of fills of any orders and positions, an open position's accrued result is what its own fills earned, and cash moved by that less the fees still pooled |
| FillAccounting.CloseExact | main.py:2394-2443 | what any close reports, flat, oversold or dust: the true net of all fees, off by the fees still pooled and the entry value sold beyond or left; when a flat close is exact |
| FillAccounting.BookTellsTheFills | main.py:2179-2443 | after every run from a fresh book, from the order and fill fields alone: which positions are open, each on the side of the order that opened it, with the size, values and fees its fills add up to |
| FillAccounting.FlatCloseTold | main.py:2394-2443 | a flat close reports the exit value less the entry value when the opening order bought, the negative when it sold, less all fees but a rebate still pooled |
| FillAccounting.CashExact | main.py:2361-2441 | over every run and all positions cash has moved by exactly the reports and the open accruals, less the fees pooled or left in a pool |
| FillAccounting.FeesCountedOnce | main.py:2370-2399 | each order's fees are booked once, however its fills are split, interleaved or restated |
| ExitLadder.ExitDesk.SubmitExit | main.py:2577-2649 | dedup, preemption with the drain of late fills, then the escape: the new state is the request function's |
| ExitLadder.ExitDesk.Escape | main.py:2650-2793 | dust close, slice escalation, rung, slippage cap and the counter that rejected orders climb too |
| ExitLadder.ExitDesk.CancelOrders | execution/order_manager.py:672-699 | every cancel books and queues what its last look finds |
| ExitLadder.ExitDesk.Cycle | execution/order_manager.py:1218-1296 | one poll: queued fills first, then each open order's, all applied in order |
| ExitLadder.ExitDesk.HandleFill | main.py:2383-2443 | an exit fill in the position, the counter and the close |
| ExitLadder.ExitsNeverOversell | main.py:2598-2649 | in every fair run at most one exit is live, and it and the undelivered exit fills never exceed the position |
| ExitLadder.EscapeExact | main.py:2742-2786 | an escape with no live exit is safe exactly when it and the undelivered fills fit the position |
| ExitLadder.ClosedYetEscapesExact | main.py:2637-2650 | a request leaves the position closed and places an order exactly when the preemption's drain closes it as dust above the tolerance and the dust gets past the other checks |
| ExitLadder.DustDrainExample | main.py:2637-2650 | the state in which that happens |
| ExitLadder.UndrainedOversells | runner.py:794-812 | cancel everything outside the ladder, then close in full: exposure is the position plus what is queued, safe exactly when nothing is |
| ExitLadder.ForcedDryExample | runner.py:687-701 | ten held, four sold late, forced dry and flattened: fourteen up for sale |
| ExitLadder.ReopenExact | main.py:2187-2192 | reopening by a late entry fill is safe exactly when the exits still out fit it |
| ExitLadder.CounterExact | main.py:2387-2393 | in every run from every state the counter is the number of attempts, rejected and partly filled ones included, since an exit order's completion was last delivered or the position last closed |
| ExitLadder.PlacedExact | main.py:2667-2787 | after any run the order of an accepted attempt carries that number as its rung, is a market order exactly when it exceeds the configured one, and its slippage cap is at least that of every earlier rung |
| ExitLadder.RestsExact | main.py:2687-2750 | after any run, exactly which orders rest as maker orders: the first rung, a two-sided book, a kind configured so |
| ExitLadder.DedupExact | main.py:2598-2649 | while an exit is live a request changes nothing, unless it is a risk-off one and that exit rests: then it is cancelled |
| ExitLadder.AskedExact | main.py:2650-2760 | what an exit asks for: nothing from a position below the venue minimum, which is closed instead; otherwise its share, or the whole position when that share is below the minimum |
| ExitHoldings.HeldTold | main.py:2383-2443 | over every fair run in which the position stays open: what it holds, less the exit fills it has yet to be told of, is what it held plus every entry fill less everything the venue reported sold, each once |
| ExitHoldings.FillsTold | execution/order_manager.py:1218-1296 | over every run from every state the exit orders together have sold exactly what polls, last looks and forced cancels reported of them while they were open |
| ExitHoldings.LargestTold | main.py:2187-2320 | the size dust is measured against is the largest the position had after an entry fill since it was opened |
| ExitHoldings.ClosesExact | main.py:2430-2443 | delivering fills closes the position exactly when, from the first on, some of them leave no more than a ten-thousandth of that size or the tolerance |
| ExitLadder.LadderClimbs | main.py:2667-2787 | from any state, while no completion is delivered and the position stays open the counter counts every attempt |
| ExitLadder.EscapeEndsInMarket | main.py:2667-2750 | in any such stretch that begins with the counter at zero, whatever completed before it, every attempt after the configured number is a market order, and none earlier |
| ExitLadder.TakeThenStruggle | main.py:2387-2393 | an example: after a profit take that filled whole, any number of rejected exits is counted from zero and the next order is a market order exactly from the configured attempt on |
| ExitLadder.CapExact | main.py:2668-2669 | the cap starts at the configured slippage and is multiplied by the factor at each rung until the absolute cap |
| ExitLadder.CapClimbsExact | main.py:2668-2669 | with a slippage and an absolute cap above zero the cap never shrinks from rung to rung if and only if the factor is at least one |
| ProbeBudget.PruneEvents | main.py:3835-3845 | the loop leaves the pruned window |
| ProbeBudget.PrunedExact | main.py:3835-3845 | in a window in order of time exactly the entries older than the span go |
| ProbeBudget.LiquidityBot.TuitionGovernorFactor | main.py:3862-3901 | the factor is the governor function's |
| ProbeBudget.GovernorInRange | main.py:3862-3901 | the factor stays between its floor and one and brakes exactly when the window's losses exceed the cap |
| ProbeBudget.FewLossesNeverBrake | main.py:4092-4122 | no more losses than the clip divisor never engage the brake |
| ProbeBudget.LiquidityBot.BudgetRefill | main.py:3903-3919 | the refilled state, clamp, seeding and governor included |
| ProbeBudget.RefillExact | main.py:3903-3919 | the balance after a refill: the daily rate times the time passed times the governor's share, up to the burst hours; nothing at the first or for time that runs backwards |
| ProbeBudget.PriceBounds | main.py:3921-3959 | a price is between one token (or the capacity) and the capacity, and at most one over the floor |
| ProbeBudget.PriceExact | main.py:3929-3958 | the price in each regime of the two roots; a larger root never makes a probe dearer |
| ProbeBudget.LiquidityBot.ProbeAdmissionDecision | main.py:3961-4044 | stash hygiene, refill, price, roll, stash, and the drought floor after a denial |
| ProbeBudget.AdmissionExact | main.py:3990-4028 | a wanted probe is priced and stashed exactly when the refilled balance is positive and the draw times the price is below it; always when the balance covers the price, never with a draw at or above balance over price |
| ProbeBudget.LiquidityBot.DroughtFloor | main.py:3706-3825 | the floor probe: when it is admitted and that it takes no price |
| ProbeBudget.LiquidityBot.RecordProbeAdmission | main.py:3755-3795 | the deduction: an explicit price, the stashed one, or none |
| ProbeBudget.LiquidityBot.EnterDirect | main.py:5317-5361 | the direct placement: tag and deduction |
| ProbeBudget.LiquidityBot.PlaceLadder | main.py:6204-6299 | the rungs that rested, the refundable tag on the first |
| ProbeBudget.LiquidityBot.LadderEntry | main.py:6125-6202 | one deduction for a ladder that rested, none for one that did not |
| ProbeBudget.LiquidityBot.CreateAlgoParent | main.py:5222-5263 | a sliced parent takes the price with it, so the stash cannot be charged for it again |
| ProbeBudget.LiquidityBot.SubmitAlgoChild | main.py:1624-1648 | the first child that lands records the parent's one admission |
| ProbeBudget.LiquidityBot.MaybeRefund | main.py:4046-4090 | the final event of an order: the tag goes, an unfilled probe is refunded up to the capacity |
| ProbeBudget.LiquidityBot.DropLadderProbeTag | main.py:2142-2159 | a fill takes the tag from every open rung of its ladder |
| ProbeBudget.LiquidityBot.NoteProbeTuition | main.py:4092-4122 | a probe close enters the window with its clipped loss |
| ProbeBudget.LiquidityBot.SeedDroughtClock | main.py:2917-2926 | the drought clock starts with the first cycle |
| ProbeBudget.LiquidityBot.Snapshot | core/persistence.py:667-671 | what a snapshot holds of the budget |
| ProbeBudget.LiquidityBot.Resume | core/persistence.py:305-343 | the bot a snapshot brings back: balance inside [-C, C], no clock, no stash, no sliced parents |
| ProbeBudget.SpendIsBounded | main.py:3903-4044 | over every run whose restarts are clean stops and where a priced probe is charged before the next decision the balance stays in (-C, C], and charges less refunds are at most 2C plus rate times elapsed time, whatever the governor does |
| ProbeBudget.PlacementChargesQuote | main.py:3975-4028 | a landing placement takes exactly the price its own decision quoted, once however many rungs rest, and tags only its first order; floor probes and other placements take nothing |
| ProbeBudget.OthersChargeNothing | main.py:3755-3795 | every other event takes nothing, so a vetoed probe is never charged |
| ProbeBudget.ChildChargeExact | main.py:1643-1648 | a sliced parent is charged its own price exactly when it carries one, is no probe, or nothing is waiting in the stash |
| ProbeBudget.FloorParentPaysForAnother | main.py:1624-1648 | for every budget with a drought floor, the run from a fresh bot in which a floor probe's first child is charged another asset's price |
| ProbeBudget.RefundsWithinCharges | main.py:4046-4074 | over every run whose restarts are clean stops refunds plus what may still be refunded never exceed the charges |
| ProbeBudget.SpentIsNeverRefunded | main.py:4046-4074 | an order that filled or lost its tag is never refunded in any later run whose restarts are clean stops |
| ProbeBudget.EndsRefund | main.py:2142-2186 | a final event or a fill ends an order's refund in every later run whose restarts are clean stops, and a fill on any rung that of every open rung of its ladder |
| ProbeTold.RefundTold | main.py:4046-4090 | after any run from the placement of a priced order its final event gives back exactly the price charged, up to the capacity, if refunds are on and neither it nor, beyond the tolerance, an order of its ladder has filled; nothing otherwise, or a second time |
| ProbeTold.SliceTakesQuote | main.py:5222-5263 | a sliced parent holds exactly the price its own decision was quoted, and nothing is left waiting |
| ProbeTold.ParentPaysOnce | main.py:1624-1648 | once a child has landed its parent takes nothing more, in any later run without a restart |
| ProbeTold.DroughtTold | main.py:3706-3825 | over every run a wanted probe the budget does not price is let through exactly when the floor is on and the last entry and the last floor probe, told from the events, are old enough |
| ProbeTold.TuitionExact | main.py:4092-4122 | what a close adds: nothing for a gain, else the loss, at most the cap over the divisor; the window is a day |
| ProbeRestarts.KillsCostWhatTheyForget | core/persistence.py:305-343 | over every run of the direct and the ladder path with snapshots, stops and kills anywhere: the balance stays in (-C, C], and net charges are at most 2C plus rate times elapsed time plus what was charged since the snapshots the kills brought back |
| ProbeRestarts.HarmlessKillsKeepTheBound | core/persistence.py:305-343 | the bound without the last term holds when every kill comes with no net charge since its snapshot |
| ProbeRestarts.KillIsPaidExact | core/persistence.py:305-343 | a kill leaves all charges paid for by one capacity and the refill exactly when the net charge since the snapshot is at most what was spare then |
| ProbeRestarts.KillsBreakTheBound | core/persistence.py:667-671 | with any capacity, a run from a fresh bot, killed after each placement, exceeds every bound while no time passes |
| ProbeRestarts.BoundedExact | core/persistence.py:305-343 | over all runs with kills from a fresh bot the bound holds if and only if the capacity is zero |
| ProbeRestarts.KillsRewind | core/persistence.py:305-343 | after any run with kills the bot is the bot of the events that survive: each kill rewinds to the last snapshot and starts anew |
| ProbeRestarts.SurvivingRefundsWithinCharges | main.py:4046-4074 | so refunds stay within charges among the surviving events |
| ProbeRestarts.RefundableExact | core/persistence.py:505-506 | an order of the snapshot can still be refunded in some later run exactly when it waits in the bot or in the snapshot |
| ProbeRestarts.RefundedTwice | core/persistence.py:505-506 | the run from a fresh bot in which one charge is refunded twice |
| TargetBook.Plan | core/target_book.py:154-216 | the loops give the orders of the plan function: priced assets outside their bands, sells first, buys scaled to cash |
| TargetBook.GuardNeverBinds | core/target_book.py:187-188 | for nonnegative holdings and targets the band edge is nonnegative and on the way from the holding to the aim |
| TargetBook.Contraction | core/target_book.py:175-189 | one frictionless step stays on its side of the target, never moves away, shrinks the excess over band/rate by one minus the rate, and trades exactly when rate times distance exceeds the band |
| TargetBook.RepeatedPlans | core/target_book.py:175-189 | the closed form of n steps; below a rate of one it trades for ever, at one it rests after the first |
| TargetBook.PressureNeverEnlarges | core/target_book.py:176-189 | wider bands or a slower aim never enlarge, turn or start a move |
| TargetBook.SellsWithinHoldings | core/target_book.py:190-199 | no sell exceeds the value held |
| TargetBook.BuysAreFunded | core/target_book.py:204-215 | all buys together spend at most the cash plus what the emitted sells free |
| TargetBook.HaltKeepsSells | core/target_book.py:200-203 | halting buys leaves the sells as they are |
| TargetBook.OrdersFromMoves | core/target_book.py:180-215 | every order comes from the one move of its asset, and no asset is ordered twice |
| TargetPlan.PlanExact | core/target_book.py:154-216 | the whole plan, asset by asset and without its passes: every negative trade of the venue minimum is sold in full; unless buys are halted every positive one is bought at one and the same share, all of it when cash and sells pay for everything and else the share that spends exactly that, leaving out what becomes too small |
| TargetBook.SettledPlanIsSound | core/target_book.py:154-216 | settling a plan at its prices preserves equity and takes no holding and no cash below zero |
| TargetBook.FrictionlessStep | core/target_book.py:175-215 | a plan nothing clamps moves every priced weight by exactly its own step |
| TargetBook.BookContracts | core/target_book.py:154-216 | repeated unclamped plans of a whole book move each weight by its own iteration, whatever the others do, at constant equity |
| TargetBook.StressOnlyBrakes | core/target_book.py:230-253 | the overlay is at most neutral, bounded, and worse stress never brings activity back |
| TargetBook.PressureExact | core/target_book.py:230-253 | the overlay: bands widen by the sum of the shares by which the observations are beyond their thresholds, the aim slows by one plus it, each to its limit; buys halt exactly at the brake |
| TargetBook.TiltsKeepTotal | core/target_book.py:125-135 | tilts preserve the invested total and leave no negative weight |
| TargetBook.TiltedExact | core/target_book.py:125-135 | tilted weights stand to each other as the weights times one plus the bounded tilt; without a positive total they stay |
| IdeaMarket.SameTargets | core/idea_lab.py:190-248 | targets at a bar are the same in histories that agree up to it |
| IdeaMarket.SameReading | core/idea_lab.py:81-120 | so is the market reading |
| IdeaMarket.ReadingExact | core/idea_lab.py:96-120 | trending exactly when the lag products add up to more than twice the root of their squares, reverting below minus that; leaders that keep leading never read as reverting; when it is a shock |
| IdeaMarket.RelativeSumsToZero | core/idea_lab.py:102-103 | relative returns add up to nothing across the assets |
| IdeaMarket.TiltsBalance | core/idea_lab.py:190-203 | tilts add up to nothing, and reversal is the opposite of momentum |
| IdeaMarket.InverseVolBalances | core/target_book.py:96-102 | inverse-volatility weights times volatility are one number |
| IdeaMarket.TargetsAreFunded | core/target_book.py:90-135 | targets are nonnegative and invest at most the invested fraction, whatever the market does |
| MarketTold.RetsExact | core/idea_lab.py:70-71 | of positive closes there is one return a step, and each takes its close to the next |
| MarketTold.SdExact | core/idea_lab.py:74-78 | the deviation is the root of the one v with n (n - 1) v = n times the sum of squares less the square of the sum |
| MarketTold.VolScaledExact | core/target_book.py:105-122 | volatility targeting multiplies a weight by the cap or by what takes its annual volatility to the target, whichever is less |
| MarketTold.TiltsExact | core/idea_lab.py:188-203 | a tilt is half the move's distance from the mean in deviations, for momentum, and the opposite for reversal; when there is none |
| MarketTold.FloorExact | core/target_book.py:257-265 | an asset is floored exactly when its close has lost more than the drawdown from some positive close of the window |
| MarketTold.TargetsExact | core/idea_lab.py:233-254 | the order of weighing, targeting, tilting and floors, and the closes each reads |
| IdeaBooks.ShadowBook.Decide | core/idea_lab.py:225-289 | the orders and the book of the decision function: seeding, twin, peak, pressure and plan |
| IdeaBooks.ShadowBook.StepBook | core/idea_lab.py:292-339 | decide, fill each order on the next bar, mark: the step function |
| IdeaBooks.ShadowBook.Execute | core/idea_lab.py:303-333 | one order: traded through or not, cut to cash or holding, booked with its fee |
| IdeaBooks.DecisionsDoNotLookAhead | core/idea_lab.py:225-289 | histories that agree up to i give the same orders and book at i |
| IdeaBooks.StepsDoNotLookAhead | core/idea_lab.py:292-339 | a step reads one bar ahead and no further |
| IdeaBooks.LedgerBalances | core/idea_lab.py:256-333 | over a book's whole run starting cash is cash plus what its trades cost net plus fees, and every holding is the sum of its trades |
| IdeaBooks.SeedExact | core/idea_lab.py:256-266 | seeding keeps cash nonnegative exactly when the targets with the fee on top fit into the whole |
| IdeaBooks.StepSolvent | core/idea_lab.py:256-333 | with room for the fee no step takes cash or a holding below zero |
| IdeaTold.FillExact | core/idea_lab.py:303-327 | what fills of an order, from the bars alone: when the next bar trades through the limit, at the limit, for the least of the notional, what is held, and what the cash pays for with the fee |
| IdeaTold.MoneyTold | core/idea_lab.py:256-333 | over a book's whole run: cash is the start less what buys cost plus what sells brought less the fee on the value of each; a holding is units bought less units sold |
| IdeaTold.CountersTold | core/idea_lab.py:303-333 | over a book's whole run: an attempt for each order, a fill for each that filled, the value of those, and the fee on everything ever traded, the seeding included |
| IdeaTold.ReturnsCompound | core/idea_lab.py:334-336 | over a run with positive equity, compounding the recorded returns takes the equity after the seeding to the equity at the last bar |
| IdeaTold.TwinExact | core/idea_lab.py:267-274 | the twin starts with the book's equity, the invested fraction in equal parts, the rest in cash |
| IdeaTold.TwinCompounds | core/idea_lab.py:334-339 | the twin is never touched, and compounding its returns takes its first worth to its last |
| IdeaTold.PeakTold | core/idea_lab.py:275 | the peak is the best equity the book ever decided on, its starting cash at least |
| IdeaTold.StressExact | core/idea_lab.py:276-283 | the stress a decision is taken under: fill share and mean of the latest markouts from a full window on, the share of the peak that is lost |
| IdeaTold.PressedTold | core/idea_lab.py:284-287 | a book trading alone is marked as pressed exactly when some decision of its run had an overlay that is not neutral |
| IdeaTold.SeedTold | core/idea_lab.py:255-266 | after a newborn book's first decision it holds of each asset the value of its target, or nothing without money or seeding |
| IdeaTold.SellsTold | core/idea_lab.py:225-289 | a solvent book sells an asset exactly when its weight is above the target by so much that the pressed share of the distance passes the pressed band by the minimum, and sells the part beyond |
| IdeaLab.Laboratory.Step | core/idea_lab.py:400-422 | births, books, retirements, events and reading after a step are those of the step function, over book objects advanced in place |
| IdeaLab.Laboratory.Propose | core/idea_lab.py:424-440 | the proposals of a reading: order of the family, birth limit, known ids, premises, full population |
| IdeaLab.Laboratory.RetireAndFlag | core/idea_lab.py:442-451 | which books are retired and the events noted |
| IdeaLab.PopulationIsBounded | core/idea_lab.py:394-451 | in every run each id is born at most once, the living never exceed max(1, max_alive), the baseline is never retired |
| IdeaLab.ProposalsFit | core/idea_lab.py:424-440 | what a reading brings to life is in the family, new to the lab, argued for by the reading, and no more than allowed |
| IdeaLab.ProposalsExact | core/idea_lab.py:424-440 | exactly which ideas a reading brings to life: the first members of the family it argues for whose names are new, as many as both limits leave room for; and when the next one is noted as refused |
| IdeaLab.ProposesExact | core/idea_lab.py:409-422 | in every run a step proposes, and takes the pressure off the baseline, exactly when it is the first, the market reads differently from the step before, or the baseline was pressed; any other step only ages the books |
| IdeaLab.RetireExact | core/idea_lab.py:442-451 | a step retires exactly the failing books |
| IdeaLab.NothingIsRetried | core/idea_lab.py:394-451 | no book is forgotten, renamed or brought back later |
| IdeaLab.LabDoesNotLookAhead | core/idea_lab.py:400-422 | histories that agree up to i + 1 give the same lab after step i |
| IdeaLab.RunsDoNotLookAhead | core/idea_lab.py:400-422 | so for whole runs |
| IdeaLab.BooksAreAlone | core/idea_lab.py:400-451 | a book's money, holdings and record in the lab are those of the same idea trading alone from its first bar |
| IdeaLab.LabLedgerBalances | core/idea_lab.py:303-333 | the ledger identity and solvency for every book of every run of the lab |

## Left out

- ExitLadder.ExitsNeverOversell: covers venue fills of at most an order's remaining size; an order the venue kept after an unconfirmed cancel (`execution/order_manager.py:614-652`) is outside it.
- FillLedger.RunsNeverBookTwice: a tear inside a quoted field is outside it; `BookedExact` and `TearExact` say what it does and when it can happen. A header read that fails falls back to the built-in columns; the run is then covered only if those are the file's own. A header that lacks a key column or ends with one is outside it, as is a tear in the header row of a new file.
- ProbeBudget.SpendIsBounded: runs with sliced children, whose prices are deducted later than the next decision, are outside it; so are clocks that run backwards.
- ProbeBudget.PlacementChargesQuote: the direct and the ladder path; `ChildChargeExact` is what holds of the sliced one.
- TargetPlan.PlanExact: for nonnegative holdings, targets and bands and a rate of at most one; the guard on negative weights never binds there (`TargetBook.GuardNeverBinds`).
- ExitHoldings.HeldTold: for the fair runs of `ExitsNeverOversell`, while the position stays open.
- IdeaBooks.StepsDoNotLookAhead and the other results about books: closes are positive. At a close of zero the source divides by it; what it reads off such bars is covered (`IdeaMarket.SameTargets`, `IdeaMarket.SameReading`).
- Rounding of floats, and overflow of the running products, are not modelled.
- The audit file is classified by line: bytes that are not UTF-8, a "seq" that is an infinite number (its conversion raises an error that neither `_parse_record` nor its callers catch), NUL padding after power loss, collisions of the truncated hash, and two writers inside one append are not modelled.
- The ledger is text: a tear inside a multi-byte character (the read then raises), a blank first line, and a file replaced between the size check and the read are not modelled.
- `fill_row`'s number formatting, `DECISION_FP` and the counters of dropped fields are not modelled.
- Snapshots are taken as written or not: the backup generation used when the newest one is corrupt, malformed sections, and a section missing from an old snapshot are not modelled. A stop whose last snapshot fails is a kill. Orders cancelled at the venue by a live shutdown end in the next process.
- The lock, the alert sink and the time stamps' source of the fault manager are left out; a runner without a fault authority is not modelled.
- `_handle_fill` is modelled for money; stops, high water, tier state, theses, labels, markouts and the pool split of `CapitalManager` are not. Positions are values in a map, so two names for one position object are not.
- The exit price, its reference and its fallbacks are left out; only that a price exists is used. `OrderManager` is an environment that fills, cancels, expires and rejects.
- The share-cap admission mode, the rolling admission window, the exploration roll and the event counters of the probe budget are left out; square roots are inputs.
- The hold codes a plan reports, and the band's cube root, are left out: the half-width is a nonnegative input.
- The grading report, deflated Sharpe ratios, disposition counters and the `reshape` hook of the lab are left out; an idea's id is any function of it.
- Signals, features, models, feeds, servers, telemetry and the long book are heuristics or plumbing with no property of their own here.
