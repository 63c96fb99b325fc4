# Arkive verification model

A Dafny model of the parts of Arkive that other parts rely on without checking: the offline appliance's
snapshot vault with its mirrors and command loop, the recurring billing engine, the pricing engine, three
text and byte codecs, the audit ledger, the move of an account between tenants, and the attribution of
cloud costs. `dafny verify dfyconfig.toml` checks all of it.

## What the model says

**Appliance.** A volume is a set of snapshot directories with files of bytes, plus top-level files. A write
can fail before it starts, stop after any number of bytes, or land; a directory listing comes in any order.
`VaultCommit` and `MirrorSync` give the meaning of one commit and of one mirror pass as functions;
`VaultStores.VaultStore` is the class with its loops, proved equal to them. `VaultRuns` reasons over any
sequence of commits, passes, losses and exchanges of mirrors. `AgentCommands` and `AgentRuns` put the state
machine and the command handlers around the vault, with an exception possible at every call;
`Agents.Agent` is the class. Signatures, digests and JSON are parameters with the laws a lemma needs; a digest
is never asked to be injective, only not to collide on the texts concerned.

**Billing.** Dates are Gregorian with a time of day. `BillingEngine` is the scheduler and the dunning
machine as functions, `BillingProfiles` the profile objects and the sweep. `Pricing` is the calculation
of lines and totals, `PricingOverrides` compares a preview with really storing the change, `PricingEngine`
holds the add-on row objects that a preview edits in place, and `PricingAssignments` compares with
assigning, which pins prices anew. Python's `round` is exact rounding half to even
over rationals. What a bill comes to is stated apart from its lines: what one more terabyte, seat, unit of an
add-on or appliance costs.

**Codecs, ledgers, conservation.** `Credstore` is the chunk framing over an abstract cipher, `Analytics` the
marker injection, `Contacts` the address splitter, `Audit` the hash chain, `AccountMigration` the bulk moves,
`CloudCosts` the attribution over exact reals.

## Where the code does not do what it promises

Each of these is a lemma about the code as it is: a failing case, and the exact condition under which the promise
holds.

- A short write to the primary raises but leaves the file, and delivering the command again then seals the
  truncated object (`VaultCommit.RedeliverySealsTruncatedObject`, `VaultCommit.SealedObjectIsIntactIff`). An object
  has a file after a successful commit exactly when its id is not `""`, `"."` or `".."` (`VaultCommit.CommitDetermines`).
- A mirror pass can report no error and leave the mirror out of sync: pruning is skipped for an empty primary,
  directory removals fail silently, and top-level files are never copied
  (`MirrorSync.EmptyPrimaryStaysOutOfSync`, `MirrorSync.ErrorFreeSyncIsInSyncIff`).
- Protected storage is said to be opened in unsealed states alone. Commits and object reads are; mirror passes,
  integrity checks and the look for a snapshot go over the volumes while they are sealed
  (`AgentRuns.PassesGoOverSealedStorage`, `AgentRuns.StorageIsClosedBetweenCommands`).
- The appliance is said to enforce its state transitions (appliance/agent/state_machine.py, lines 4-6). Handlers also
  assign the state: a fully successful first ingest after activation leaves the table, so does QUARANTINE after a failed
  seal, and a failed commit is resealed straight from the open window (`AgentRuns.FirstIngestLeavesTheTable`,
  `AgentRuns.QuarantineAfterFailedSealLeavesTheTable`, `AgentRuns.FailedCommitSkipsSealing`). A delivery, and a whole
  run, keeps to the table exactly under `AgentRuns.DeliveryKeepsToTableIff` and `AgentRuns.RunKeepsToTableIff`.
- Expired and out-of-sequence commands are said to be rejected (appliance/agent/main.py, lines 7-9). An expired
  ingest runs again (`Fleet.ExpiredIngestRunsAgain`); a replay and an earlier command are accepted exactly under
  `Fleet.ReplayIsAcceptedIff` and `Fleet.EarlierCommandIsAcceptedIff`.
- After a failed attestation a sealed appliance turns down every command the cloud issues, QUARANTINE included
  (`Fleet.FailedAttestationBlocksCommands`).
- Local approval leaves quarantine, and leaves the storage open when the parked ids cannot be gone through
  (`AgentCommands.ParkedRequestLeavesStorageOpen`, `AgentCommands.LocalApprovalEffect`).
- The sweep is said to retry a failed charge the next day; it is due again from three days after it on
  (`BillingEngine.RetryIsDueAfterThreeDays`).
- A charge that is taken for a failure and that the processor confirms later is made again from three days after it
  on: its settlement never reaches the schedule (`BillingEngine.ConfirmedChargeIsMadeAgain`,
  `BillingEngine.SettlementsDoNotMoveTheSchedule`).
- A change list that removes an add-on and sets it again previews too small a bill, and a new quantity for an add-on
  whose catalog price has changed previews the old price (`PricingAssignments.RemovedAndSetAgainIsNotPreviewed`,
  `PricingAssignments.StalePinPreviewsTheOldPrice`, `PricingAssignments.PreviewRowsAreAssignedRowsIff`).
- Changing the analytics id loses page text when a start marker stands before the end of the head tag
  (`Analytics.MarkerInTheHeadTagSwallows`, `Analytics.LastInjectionWinsIff`).
- An angle bracket in a quoted display name keeps the following addresses in one piece
  (`Contacts.BracketInQuotedNameKeepsTheList`, `Contacts.AddressIsSplitOffIff`).
- An audit entry without detail, or with one that the database gives back differently, makes the ledger fail its
  own check; so does a clock that steps back (`Audit.NoneDetailBreaksTheChain`, `Audit.RecordKeepsChainIff`).
- A policy that two members of a downgraded account share stays behind in the old tenant although all its users
  leave (`AccountMigration.SharedPolicyStaysBehind`, `AccountMigration.PoliciesFollowIff`).
- An assignment stays behind when the manager of its appliance moves without its user
  (`AccountMigration.ManagerLeavesAssignmentBehind`, `AccountMigration.AssignmentsFollowIff`).
- Rows that belong to their owner directly move from every tenant, not only from the one left
  (`AccountMigration.RowInThirdTenantMovesToo`, `AccountMigration.OwnedRowsStayPutIff`).

## Model

| member | source | states |
|---|---|---|
| ApplianceState.StateMachine.Transition | appliance/agent/state_machine.py:59-66 | a transition succeeds exactly when the table allows it, and a refused one leaves the state alone |
| ApplianceState.StateMachine.Assign | appliance/agent/main.py:1486-1486 | the assignment by which a handler sets a state past the table |
| VaultFiles.SafeNameIsUsableAndAlmostInjective | appliance/agent/vault.py:38-42 | an id keeps its name up to 200 bytes without separators; two ids with hexadecimal digests that do not collide get usable file names, and share one exactly when one is the hashed name of the other |
| VaultFiles.Utf8LengthIs | appliance/agent/vault.py:40-40 | the length of an id is that of its characters, each in as few bytes as UTF-8 can hold it |
| VaultFiles.IsTmpIff | appliance/agent/vault.py:260-260 | temporary files are those with something before the suffix |
| VaultCommit.WriteIntoIsAppendOnly | appliance/agent/vault.py:112-139 | whatever fails, a write into a volume changes and removes no file that was there |
| VaultCommit.CommitDetermines | appliance/agent/vault.py:112-139 | after a successful commit every object file exists and holds what was there before, or the first listed object of that name |
| VaultCommit.SealedObjectIsIntactIff | appliance/agent/vault.py:112-139 | when an object of a successful commit reads back as that object |
| VaultCommit.RedeliverySealsTruncatedObject | appliance/agent/vault.py:118-127 | a cut-short commit fails, its redelivery succeeds, and the object cannot be read back |
| VaultCommit.RepeatedCommitAddsNothing | appliance/agent/vault.py:93-139 | repeating a successful commit at any later time, with any failures, leaves the volume as it is |
| VaultCommit.WriteIntoIs | appliance/agent/vault.py:112-139 | what any write into a volume leaves, file by file, whatever fails in it, and exactly when it goes through |
| VaultCommit.CommitReachesMirror | appliance/agent/vault.py:93-155 | after a commit a healthy mirror without the file serves the object when the volumes before it cannot be read, and has a manifest; a commit that fails leaves the mirrors alone |
| MirrorSync.SyncReconcilesEveryFile | appliance/agent/vault.py:204-266 | under any pattern of failures each mirror file ends with its old bytes, the whole primary bytes, or removed for want of a primary counterpart |
| MirrorSync.SyncNeverLosesGround | appliance/agent/vault.py:164-317 | under any pattern of failures the missing and extra sets of the report never grow, but for a probe file that cannot be removed, which becomes extra in exactly that case |
| MirrorSync.ErrorFreePass | appliance/agent/vault.py:204-266 | what a pass without errors achieves, file by file and directory by directory |
| MirrorSync.ErrorFreeSyncIsInSyncIff | appliance/agent/vault.py:164-317 | exactly when a pass without errors makes the report say in sync |
| MirrorSync.EmptyPrimaryStaysOutOfSync | appliance/agent/vault.py:246-250 | with an empty primary a pass without errors leaves an extra file and the report out of sync |
| MirrorSync.SecondSyncDoesNothing | appliance/agent/vault.py:164-266 | after an error-free pass a second one copies and prunes nothing |
| MirrorSync.PassBringsFilesOver | appliance/agent/vault.py:204-243 | whatever else fails, a file that the mirror lacks in that size is brought over exactly when its copy can be made and no top-level file is in the way |
| MirrorSync.PassIs | appliance/agent/vault.py:204-266 | what a whole pass leaves at every file, copied, pruned or kept, whatever fails in it |
| MirrorSync.PassCounts | appliance/agent/vault.py:164-267 | what a pass counts: files and snapshots brought over, directories and strays pruned, and an error for each file that cannot be brought over and each snapshot that jams |
| MirrorSync.PassDirs | appliance/agent/vault.py:204-266 | which directories a mirror has after a pass, failed copies and removals included |
| MirrorSync.UnwritableMirrorIsLeftAlone | appliance/agent/vault.py:181-203 | a mirror that is absent or not writable costs one error and keeps its files |
| MirrorSync.PassIsErrorFreeIff | appliance/agent/vault.py:164-266 | exactly when a pass reports no error, temporary files on the primary and the order of its listing included |
| MirrorSync.HealthyPassIsErrorFree | appliance/agent/vault.py:204-266 | on a healthy mirror a pass reports no error and leaves every file of the primary there |
| VaultRuns.PrimaryIsAppendOnly | appliance/agent/vault.py:93-139 | over any run of commits, passes and mirror exchanges a primary file once written never changes |
| VaultRuns.FirstCommitReadsBack | appliance/agent/vault.py:93-155 | over any run after a first successful commit its objects read back as committed, and committing again adds nothing |
| VaultRuns.ReadIsCommittedObjectOrFailure | appliance/agent/vault.py:141-155 | over any run, with losses and swapped mirrors, a read gives the committed object if any readable volume holds it whole, and otherwise fails; never another object |
| VaultRuns.ErrorFreeSyncCopiesBytes | appliance/agent/vault.py:204-243 | although sizes alone are compared, an error-free pass gives the mirror the primary's very bytes |
| VaultRuns.NoPassWithoutPrimary | appliance/agent/vault.py:176-177 | while the primary is not there no number of passes touches a mirror |
| VaultRuns.LostObjectIsOnTheMirrorUntilTheNextSync | appliance/agent/vault.py:141-266 | an object lost from the primary is read from a synced mirror, until the next error-free pass removes it there |
| VaultStores.VaultStore.CommitSnapshot | appliance/agent/vault.py:93-110 | refused when sealed; else exactly the modelled commit on the primary and then on every mirror |
| VaultStores.VaultStore.WriteVolume | appliance/agent/vault.py:112-139 | the loop over objects and the manifest equals the recursive write with the same failures |
| VaultStores.VaultStore.ReadObject | appliance/agent/vault.py:141-155 | refused when sealed; else the first volume that has and can decode the file answers |
| VaultStores.VaultStore.CopySnapshot | appliance/agent/vault.py:204-243 | the copy loop of one snapshot, with its temporary files and counters |
| VaultStores.VaultStore.PruneSnapshot | appliance/agent/vault.py:244-266 | the prune loop of one snapshot |
| VaultStores.VaultStore.SyncMirrors | appliance/agent/vault.py:164-267 | every mirror becomes its reconciled self, the primary stays, and the counts are the sums over the mirrors |
| VaultStores.TotalsAddUp | appliance/agent/vault.py:164-267 | every counter of a sync is the sum of that counter over the mirrors |
| VaultStores.VaultStore.VerifyMirrors | appliance/agent/vault.py:269-317 | missing, extra and in-sync per mirror, and overall in sync exactly when all are |
| VaultStores.RootReportIs | appliance/agent/vault.py:285-317 | what the report of one mirror lists as missing and extra, and when it says in sync |
| AgentCommands.DeliveryClosesStorage | appliance/agent/main.py:1408-1562 | storage closed before a delivery is closed after it wherever a handler raises, and exactly the commits and object reads in between happen unsealed |
| AgentCommands.ReceiptMeansCommitted | appliance/agent/main.py:1484-1519 | a seal receipt means an accepted ingest that ended sealed, with manifest and object files on the primary |
| AgentCommands.IngestOutcome | appliance/agent/main.py:1484-1519 | what an accepted ingest comes to: exactly when there is a receipt, what it reports, what becomes of the vault, and the state it ends in |
| AgentCommands.IngestForNothing | appliance/agent/main.py:1488-1488 | exactly when an ingest is for no snapshot, and then nothing is committed |
| AgentCommands.ReceiptReports | appliance/agent/main.py:1497-1519 | every receipt names the appliance, the hash of the manifest, the number of items of the command or else of its objects, and their bytes |
| AgentCommands.TotalBytesAddUp | appliance/agent/main.py:1499-1499 | bytes add up object by object, however the list is put together |
| AgentCommands.RecoveryOpensIff | appliance/agent/main.py:1536-1541 | a recovery opens the storage exactly when some volume has the snapshot, and else only looks for it |
| AgentCommands.ReconfigurationExchangesMirrors | appliance/agent/main.py:1445-1454 | reconfiguring the storage exchanges the mirrors and nothing else |
| AgentRuns.RejectedRunChangesNothing | appliance/agent/main.py:1408-1425 | any run of rejected commands changes at most the trusted key, sets no state and touches no volume |
| AgentCommands.LocalApprovalEffect | appliance/agent/main.py:1913-1920 | exactly when local approval leaves quarantine, and exactly when it leaves storage open: the parked ids cannot be gone through |
| AgentCommands.ParkedRequestLeavesStorageOpen | appliance/agent/main.py:1521-1562 | such a request is accepted and parked, and approving it leaves storage open |
| AgentCommands.ApprovalTakesTheRequest | appliance/agent/main.py:1913-1920 | an approval takes its request away and no other, and a second one fails |
| AgentRuns.StorageIsClosedBetweenCommands | appliance/agent/main.py:1408-1562 | over any run of deliveries, mirror passes and integrity checks storage is closed between commands; exactly the commits and object reads happen unsealed |
| AgentRuns.PassesGoOverSealedStorage | appliance/agent/vault.py:164-267 | mirror passes and integrity checks of a sealed appliance go over the primary and the mirrors, as soon as there are any |
| AgentRuns.OpenWindowsAreBracketed | appliance/agent/main.py:1408-1562 | over any run every step is in the table or a direct assignment, every unsealed state stands between UNSEAL_REQUESTED and SEALING or SEALED, and between commands the machine is where it started, SEALED, SEALING or QUARANTINED |
| AgentRuns.DeliveryTrail | appliance/agent/main.py:1484-1562 | the ways one delivery can go through the states; another end than SEALING and SEALED means an exception |
| AgentRuns.DeliveryKeepsToTableIff | appliance/agent/main.py:1408-1562 | one delivery takes only steps of the table exactly when it is rejected, or is a quarantine from a state that has the step, an ingest into a sealed appliance whose commit and manifest hash do not fail, a recovery that sets no state or finds the appliance sealed and its ids readable as a list, or any other command |
| AgentRuns.RunKeepsToTableIff | appliance/agent/state_machine.py:32-66 | every state change of a run is one of the table exactly when every accepted command keeps to it when its turn comes |
| AgentRuns.FirstIngestLeavesTheTable | appliance/agent/main.py:1484-1503 | after activation a successful ingest, with receipt and without exception, takes a step the table lacks |
| AgentRuns.QuarantineAfterFailedSealLeavesTheTable | appliance/agent/main.py:1434-1436 | from SEALING the QUARANTINE command takes a step the table lacks |
| AgentRuns.FailedCommitSkipsSealing | appliance/agent/main.py:1463-1469 | a failed commit is resealed straight from the open window |
| AgentRuns.QuarantineIsAbsorbing | appliance/agent/main.py:1374-1425 | over any run of cloud commands a quarantined appliance stays so, and nothing is committed or read; only passes and checks go on |
| AgentRuns.RecoveryHandsOutReads | appliance/agent/main.py:1521-1562 | a recovery that runs, even one that finds nothing, hands out exactly the requested objects whose read succeeds, in order, and every unit is what one of its reads gave |
| AgentRuns.AgentRunIsFaithful | appliance/agent/main.py:1408-1562 | over any run every data file on every volume holds its committed object or an initial segment of it |
| AgentRuns.RecoveredUnitsAreCommittedObjects | appliance/agent/main.py:1408-1562 | end to end: after any run, what a recovery hands out for a data object is the object committed under that id |
| AgentRuns.AgentRunKeepsPrimary | appliance/agent/main.py:1408-1562 | over any run of commands and passes a primary file once written never changes |
| AgentRuns.ReceiptMeansRecoverable | appliance/agent/main.py:1484-1562 | after a seal receipt, over any later commands and passes, every recovery that runs with the primary readable hands out every requested object that the ingest was the first to write |
| AgentRuns.ReceiptMeansPartsRecoverable | appliance/agent/main.py:1550-1557 | and with a chunked object every part of it as committed, when the ingest was the first to write them all |
| Agents.Agent.VerifyCommand | appliance/agent/main.py:1374-1406 | the check of address, quarantine, signature and policy hash |
| Agents.Agent.DoIngest | appliance/agent/main.py:1484-1503 | the ingest handler up to the commit: effect on state, vault and the states gone through, with each call able to raise |
| Agents.Agent.SealUp | appliance/agent/main.py:1497-1519 | the rest of the window: sealing, receipt, report |
| Agents.Agent.ReadPartsInto | appliance/agent/main.py:1536-1562 | reading an object's parts adds the readable ones to the units and no objects |
| Agents.Agent.ReadObjects | appliance/agent/main.py:1542-1557 | the read loop skips what cannot be read and follows the parts of chunked objects |
| Agents.Agent.PerformRecovery | appliance/agent/main.py:1536-1562 | the recovery handler: existence check, window, reads, reseal, and the states gone through |
| Agents.Agent.RequestRecovery | appliance/agent/main.py:1521-1534 | parks the request when approval is required, else recovers at once |
| Agents.Agent.VerifyOrRetrust | appliance/agent/main.py:1412-1419 | verify, adopt the advertised key once, verify again |
| Agents.Agent.DispatchCommand | appliance/agent/main.py:1426-1462 | the handler of the command; a sync thread that cannot be started turns a receipt into a receipt with an error |
| Agents.Agent.HandleCommand | appliance/agent/main.py:1408-1482 | one delivery with its answer, its effect, the reseal on exception, and the states gone through |
| Agents.Agent.LocalApproveRecovery | appliance/agent/main.py:1913-1920 | takes the parked request and recovers, without quarantine check or reseal |
| Fleet.ApplianceRecord.Heartbeat | cloud/app/api/appliances.py:1364-1393 | the state taken down is the reported one, or QUARANTINED after a failed attestation |
| Fleet.ApplianceRecord.IssueCommand | cloud/app/fleet.py:146-177 | commands are numbered without gaps, expire fifteen minutes after issue and carry the policy hash of the last state taken down |
| Fleet.IssuedCommandIsAcceptedIff | cloud/app/fleet.py:132-177 | exactly when the appliance accepts an issued command: address, equal ingest bits, no quarantine or QUARANTINE, trusted key |
| Fleet.FailedAttestationBlocksCommands | cloud/app/api/appliances.py:1392-1393 | a sealed or staging appliance accepts commands issued for its state exactly when it passed its attestation |
| Fleet.ReplayIsAcceptedIff | appliance/agent/main.py:1374-1406 | exactly when a command accepted once is accepted again, whatever happened in between and however late it is |
| Fleet.EarlierCommandIsAcceptedIff | appliance/agent/main.py:1374-1406 | a command with a smaller number is accepted after a larger one under the same condition |
| Fleet.ExpiredIngestRunsAgain | appliance/agent/main.py:1374-1406 | an ingest command that was carried out is accepted again after it expired |
| Rounding.RoundIsNearestEven | cloud/app/billing_engine.py:303-303 | Python's round is the only nearest integer, the even one on a tie |
| Calendar.BeforeIsEarlier | cloud/app/billing_engine.py:53-53 | comparing dates field by field is comparing instants |
| Calendar.AddDaysMovesTime | cloud/app/billing_engine.py:219-219 | adding days moves the instant by exactly that many days |
| Calendar.OrdinalByDivision | cloud/app/billing_engine.py:219-219 | the day of a date by the Gregorian formula, without going through years and months |
| Calendar.PointInTimeIsOneDate | cloud/app/billing_engine.py:53-53 | every point in time from year 1 on is that of exactly one date |
| Calendar.AddMonthByDivision | cloud/app/billing_engine.py:32-37 | the code's division and remainder give the next month |
| Calendar.AnniversaryDay | cloud/app/billing_engine.py:32-37 | the k-th iterate is k calendar months later on the smallest of the start day and all month lengths passed through |
| Calendar.ClampedDayNeverRecovers | cloud/app/billing_engine.py:32-37 | a clamped day never grows again |
| Calendar.CatchUpIsFirstIterateAfterNow | cloud/app/billing_engine.py:191-194 | the catch-up loop stops at the first iterate strictly after now |
| BillingEngine.RunKeepsInvariant | cloud/app/billing_engine.py:40-81 | the scheduler's invariant over any run of activations, resumptions, trials, pauses, retirements, changes of the amount, saved cards, settlements and sweeps with any outcomes |
| BillingEngine.ActiveProfilesAreScheduled | cloud/app/billing_engine.py:177-221 | over any run an active profile has fewer than four failed attempts, as many as its non-successes in a row since it was last cleared, and a next charge date |
| BillingEngine.CancellationIsTheFourthFailure | cloud/app/billing_engine.py:208-221 | a sweep cancels exactly at the fourth non-success in a row since the last success, resumption, trial or clearing card, at least nine days after the first |
| BillingEngine.SavedCardClearsDunning | cloud/app/api/billing.py:1051-1075 | at any point of any run a saved card leaves an active profile without failed attempts, and due at once if there were any |
| BillingEngine.SettlementsDoNotMoveTheSchedule | cloud/app/api/billing.py:1079-1100 | over any run the schedule, status and dunning are what they would be without the settlements |
| BillingEngine.ConfirmedChargeIsMadeAgain | cloud/app/api/billing.py:1093-1100 | a charge recorded as failed and confirmed later is made again exactly from three days after it on |
| BillingEngine.ChargesMoveTheScheduleForward | cloud/app/billing_engine.py:177-206 | every completed charge is recorded and moves the date strictly forward and past now; a second sweep at once charges nothing |
| BillingEngine.SuccessKeepsTheAnniversary | cloud/app/billing_engine.py:189-196 | a success advances by the least number of whole months that passes now |
| BillingEngine.RetryIsDueAfterThreeDays | cloud/app/billing_engine.py:208-221 | a failed charge that does not cancel is due again exactly from three days after it on |
| BillingEngine.ResumingForgivesWhatFellDue | cloud/app/billing_engine.py:48-55 | a resumption charges nothing, and is due at once only when its date is this moment |
| BillingEngine.FirstActivationIsDueInAMonth | cloud/app/billing_engine.py:40-67 | after a first activation, paid or not, the profile is due from one calendar month on, and no sweep before that charges |
| BillingEngine.TrialChargesAtItsEnd | cloud/app/billing_engine.py:70-81 | a trial is due from its last day on, and no sweep before that charges |
| BillingEngine.SweepRecords | cloud/app/billing_engine.py:93-117 | what a sweep records of a due profile, by card, amount, answer and notice |
| BillingEngine.ActivationFailsIff | cloud/app/billing_engine.py:40-67 | exactly when a first activation ends in an exception |
| BillingEngine.PausingAndResuming | cloud/app/billing_engine.py:48-55 | a pause and a resumption ahead of the date change nothing but the dunning |
| BillingEngine.RetiredStartsAnew | cloud/app/account_migration.py:234-243 | a retired profile is never due, and switching it on again starts a month from then |
| BillingEngine.NextChargeHasTheNewAmount | cloud/app/api/billing.py:1051-1075 | a changed amount is the one that the next charge is made of |
| BillingEngine.SettlementIsRecorded | cloud/app/api/billing.py:1093-1100 | a settlement is recorded on its charge and on no other |
| BillingEngine.InactiveProfilesAreNotSwept | cloud/app/billing_engine.py:177-188 | a cancelled or paused profile is not charged again by any run of sweeps |
| BillingEngine.ProrationIsAShare | cloud/app/billing_engine.py:294-303 | proration lies between nothing and the whole difference, up or down, and is the whole difference for a full period |
| BillingEngine.ProrationShrinksWithTime | cloud/app/billing_engine.py:294-303 | it never moves away from nothing as time passes, up or down |
| BillingEngine.ProrationIsOdd | cloud/app/billing_engine.py:294-303 | going back costs the opposite of going there |
| BillingEngine.ProrationInTwoSteps | cloud/app/billing_engine.py:294-303 | two steps at one time differ from one by at most a cent |
| BillingEngine.ProrationIsByWholeDays | cloud/app/billing_engine.py:294-303 | it is the share of the whole days left, in thirtieths, to the nearest cent and on a tie to the even one |
| BillingProfiles.BillingProfile.ChargeProfile | cloud/app/billing_engine.py:93-117 | appends one charge with the next attempt number and the status of the processor, or failed without card or amount |
| BillingProfiles.BillingProfile.HandleFailure | cloud/app/billing_engine.py:208-221 | the dunning step: past due and three days, or cancelled |
| BillingProfiles.BillingProfile.Activate | cloud/app/billing_engine.py:40-67 | first activation charges, a resume repairs the schedule, and exactly when it ends in an exception |
| BillingProfiles.BillingProfile.Disable | cloud/app/api/billing.py:1619-1620 | a pause turns charges off and keeps the rest |
| BillingProfiles.BillingProfile.RetireProfile | cloud/app/account_migration.py:234-243 | retirement cancels and leaves no date |
| BillingProfiles.BillingProfile.SaveCard | cloud/app/api/billing.py:1051-1075 | a saved card brings the amount up to date and clears the dunning of an active past-due profile |
| BillingProfiles.BillingProfile.ApplyOutcome | cloud/app/api/billing.py:1093-1100 | a settlement changes the status of one charge and the last status |
| BillingProfiles.BillingProfile.StartTrial | cloud/app/billing_engine.py:70-81 | a trial defers the first charge to its end |
| BillingProfiles.BillingProfile.ChargeIfDue | cloud/app/billing_engine.py:183-205 | the sweep's part for one profile, rolled back on an exception |
| BillingProfiles.RunDueCharges | cloud/app/billing_engine.py:177-206 | the sweep treats every profile on its own and counts the charged ones |
| BillingProfiles.CompletedAreCharged | cloud/app/billing_engine.py:177-206 | the answer of a sweep is the number of profiles with one more charge than before |
| Pricing.NothingIsChargedTwice | cloud/app/billing_calc.py:178-252 | no seat-granting add-on nor the cloud add-on has its own line, and no capacity covered by an appliance add-on is billed from the plan |
| Pricing.EachAddOnIsBilledOnce | cloud/app/billing_calc.py:196-227 | every other active add-on is billed exactly once, in order |
| Pricing.MoreNeverCostsLess | cloud/app/billing_calc.py:91-176 | with rates that are not negative, more terabytes or seats never lower the recurring total |
| Pricing.BillIs | cloud/app/billing_calc.py:91-252 | the totals added up from price list, quantities and selections, without the lines |
| Pricing.OneMoreTerabyte | cloud/app/billing_calc.py:124-134 | one more licensed terabyte costs the rate from minimum and allowance on, and nothing below |
| Pricing.OneMoreSeat | cloud/app/billing_calc.py:151-176 | what one more licensed seat costs against the users and members included, those in use and those granted |
| Pricing.OneMoreUnit | cloud/app/billing_calc.py:136-227 | what one more unit of an add-on costs, by the way it is priced |
| Pricing.OneMoreAppliance | cloud/app/billing_calc.py:229-252 | what one more appliance of the plan costs, covered or not |
| Pricing.LinesAreConsistent | cloud/app/billing_calc.py:118-252 | every line charges its quantity at its price, plan lines what is licensed beyond what is included, and only add-ons are listed without a price |
| Pricing.TbIsNearest | cloud/app/billing_calc.py:66-67 | stored bytes are licensed as the nearest number of terabytes |
| PricingOverrides.PreviewRowsAreStoredRowsIff | cloud/app/billing_calc.py:272-291 | exactly when a change list folds into the rows that storing it would give |
| PricingOverrides.RemovedAndSetAgainIsLost | cloud/app/billing_calc.py:278-291 | removing an add-on and setting it again in one list previews without its row |
| PricingOverrides.PreviewIsTheBillOfTheStoredTenant | cloud/app/billing_calc.py:91-252 | a preview is the bill, lines and totals, of a tenant whose records hold the values, rows keeping their pins |
| PricingAssignments.PreviewRowsAreAssignedRowsIff | cloud/app/api/billing.py:577-588 | exactly when a change list folds into the rows that assigning the add-ons gives, which pins today's price and version |
| PricingAssignments.PreviewIsTheBillOfTheAssignedTenant | cloud/app/api/billing.py:577-588 | the preview is then the bill of the tenant that assigned them |
| PricingAssignments.RemovedAndSetAgainIsNotPreviewed | cloud/app/billing_calc.py:278-291 | the recurring totals differ by five units of the add-on |
| PricingAssignments.StalePinPreviewsTheOldPrice | cloud/app/api/billing.py:580-583 | after a change of the catalog price the totals differ by the change times the quantity |
| PricingOverrides.PreviewWithDistinctCodes | cloud/app/billing_calc.py:272-302 | so for every change list with distinct codes |
| PricingEngine.ApplyAddonOverrides | cloud/app/billing_calc.py:272-291 | folds the changes into the active list and really changes the row objects, removed ones included |
| PricingEngine.Calculation.Add | cloud/app/billing_calc.py:110-116 | appends the line and keeps both totals equal to the sums over the lines |
| PricingEngine.Calculation.AddAddOns | cloud/app/billing_calc.py:196-227 | the add-on loop's lines and covered capacities |
| PricingEngine.Calculate | cloud/app/billing_calc.py:91-252 | the bill of the tenant under overrides, with balanced totals, and what happens to each row object |
| PricingEngine.Preview | cloud/app/billing_calc.py:294-302 | current bill, proposed bill, their difference, and the row objects as the proposal left them |
| Credstore.EncryptBytes | cloud/app/credstore.py:39-56 | the framing loop equals the recursive framing, with its limits on frames |
| Credstore.DecryptBytes | cloud/app/credstore.py:59-77 | the parsing loop equals the recursive parse on every input, malformed ones included |
| Credstore.EncryptIsAssembled | cloud/app/credstore.py:39-56 | encryption succeeds exactly when every frame fits its length field, and is the frames 0 to max(1, ceil(n / chunk)) - 1 in order |
| Credstore.FrameIs | cloud/app/credstore.py:47-53 | the bytes of one frame: length, nonce, and its chunk under its number, big-endian |
| Credstore.SmallDataIsOneFrame | cloud/app/credstore.py:39-56 | data of up to one chunk is the prefix and a single frame |
| Credstore.FirstFramesDecrypt | cloud/app/credstore.py:59-77 | the first n frames decrypt to the matching prefix, given only that the cipher inverts |
| Credstore.DecryptEncrypt | cloud/app/credstore.py:39-77 | decrypting an encryption gives the data, for every byte string |
| Credstore.OlderBlobDecrypts | cloud/app/credstore.py:75-77 | a blob without the prefix, of the older format, still decrypts |
| Credstore.PartOfLengthFails | cloud/app/credstore.py:66-73 | a blob that ends within a length does not decrypt |
| Credstore.CutFrameGoesToTheCipher | cloud/app/credstore.py:66-73 | what there is of a first frame that is cut off goes to the cipher, whatever its length promises |
| Credstore.OnlyAnInitialSegmentDecrypts | cloud/app/credstore.py:59-77 | any selection of frames decrypts exactly when it is the first ones in order, and then to the matching prefix |
| Analytics.IndexFile.InjectIndex | cloud/app/analytics.py:38-63 | the page on disk becomes the injected page when it can be read and written, and the answer tells whether it changed |
| Analytics.NewPage | cloud/app/analytics.py:45-53 | the new page of the two branches |
| Analytics.LastWinsIff | cloud/app/analytics.py:45-53 | for any unmistakable pair of markers: the last block counts exactly when no start marker stands before the place of the block |
| Analytics.LastInjectionWinsIff | cloud/app/analytics.py:19-55 | injecting b after a is injecting b, for all pages and ids, exactly under that condition |
| Analytics.FreshPageIsInjectedOnce | cloud/app/analytics.py:19-55 | on a page with a head tag and no start marker injection is idempotent and revocable and keeps the rest of the page |
| Analytics.HeadEndIsBehindTheFirstTag | cloud/app/analytics.py:22-22 | the block goes behind the first head tag with its attributes, and has no place exactly when there is none |
| Analytics.MeasurementIdIff | cloud/app/analytics.py:19-19 | the valid ids: a prefix in either case, a hyphen, and letters, digits and hyphens |
| Analytics.BlockSaysTheId | cloud/app/analytics.py:25-35 | a valid id with white space around it is loaded and configured in the block; any other leaves the block empty |
| Analytics.MarkedBlockIsReplaced | cloud/app/analytics.py:45-48 | what stands from the first start marker to the next end marker is replaced, and nothing else |
| Analytics.MarkerInTheHeadTagSwallows | cloud/app/analytics.py:45-53 | a page that fails the condition, and loses text at the second injection |
| Contacts.SplitAddresses | cloud/app/contacts.py:178-205 | the scanning loop gives the trimmed non-blank pieces between top-level separators |
| Contacts.SplitOfJoin | cloud/app/contacts.py:178-205 | splitting the comma-joined parts gives the parts again, for every value |
| Contacts.PartIsAlone | cloud/app/contacts.py:178-205 | each part alone splits to itself |
| Contacts.NothingElseIsLost | cloud/app/contacts.py:178-205 | all characters but white space and top-level separators survive in order |
| Contacts.ListSplitsIntoItsEntries | cloud/app/contacts.py:178-205 | a list of bare and quoted addresses between commas or semicolons comes apart into exactly these, whatever white space is around them |
| Contacts.AddressIsSplitOffIff | cloud/app/contacts.py:178-205 | an address with a quoted name is the first part of a list exactly when the name leaves no bracket open |
| Contacts.BracketInQuotedNameKeepsTheList | cloud/app/contacts.py:178-205 | behind such a name a list of bare addresses comes out as one part |
| Audit.Ledger.Record | cloud/app/audit.py:66-92 | the table with one more row, chained to the row latest in time |
| Audit.Ledger.VerifyChain | cloud/app/audit.py:125-132 | true exactly when every row's hash is that of its fields behind the row before |
| Audit.LastHashDeterminesLedger | cloud/app/audit.py:125-132 | two passing ledgers with one last hash, and no digest collision between their rows, have one length and the same hashed fields throughout |
| Audit.RecordKeepsChainIff | cloud/app/audit.py:66-92 | a record keeps the ledger passing exactly when its detail reads back as hashed and the clock has moved on |
| Audit.NoneDetailBreaksTheChain | cloud/app/audit.py:78-85 | a record without detail makes every ledger fail |
| Audit.BuiltLedgerPassesIff | cloud/app/audit.py:66-132 | over any run at increasing times the ledger passes exactly when all details read back as hashed |
| AccountMigration.Database.ReparentUserData | cloud/app/account_migration.py:351-399 | the bulk updates, with the ids looked up before any row moves |
| AccountMigration.Database.MovePolicies | cloud/app/account_migration.py:375-384 | the policy loop moves exactly the policies that no staying collection uses |
| AccountMigration.Database.Downgrade | cloud/app/account_migration.py:305-329 | the user and then every other member of a dedicated tenant, one after the other |
| AccountMigration.MoveKeepsRooted | cloud/app/account_migration.py:351-399 | moving any user keeps every row in the tenant of its vault, collection or appliance |
| AccountMigration.MembersKeepRooted | cloud/app/account_migration.py:316-329 | so does moving any list of members |
| AccountMigration.DowngradeMovesExactly | cloud/app/account_migration.py:316-385 | a vault moves exactly when it was in the source and its owner moves; a policy exactly when all its collections belong to one moving member |
| AccountMigration.DowngradeMovesCollections | cloud/app/account_migration.py:316-385 | collections move exactly with their vaults and keep vault and policy |
| AccountMigration.DowngradeMovesDocuments | cloud/app/account_migration.py:316-369 | documents and receipts move exactly with their vaults |
| AccountMigration.DowngradeMovesVersions | cloud/app/account_migration.py:316-373 | versions, jobs and pending actions move exactly with their collections |
| AccountMigration.DowngradeMovesMembers | cloud/app/account_migration.py:128-329 | who becomes a member of which tenant, and whose copy gets a date of deletion |
| AccountMigration.DowngradeMovesUserRows | cloud/app/account_migration.py:316-393 | the rows of a user in the tenant that is left, and the rows a user owns, move exactly with the members |
| AccountMigration.DowngradeMovesStorage | cloud/app/account_migration.py:316-399 | storage and commands move exactly with their appliances |
| AccountMigration.PolicyMovesIff | cloud/app/account_migration.py:375-384 | a policy moves exactly when it is used and all its collections are in vaults of one moving member |
| AccountMigration.ApplianceMovesIff | cloud/app/account_migration.py:360-397 | an appliance moves exactly when a moving member has an assignment in the tenant that lets them manage it |
| AccountMigration.OwnedRowsStayPutIff | cloud/app/account_migration.py:387-389 | rows outside the tenant that is left stay put exactly when the user owns none outside both tenants |
| AccountMigration.RowInThirdTenantMovesToo | cloud/app/account_migration.py:387-389 | a row in a third tenant that moves |
| AccountMigration.PoliciesFollowIff | cloud/app/account_migration.py:375-384 | policies end in the tenant of their collections exactly when none was used by two owners |
| AccountMigration.SharedPolicyStaysBehind | cloud/app/account_migration.py:316-384 | two moving members with one policy |
| AccountMigration.DowngradeMovesAssignments | cloud/app/account_migration.py:316-399 | over a whole downgrade appliances move exactly with a managing member, assignments exactly with their user |
| AccountMigration.AssignmentsFollowIff | cloud/app/account_migration.py:316-399 | after any list of members assignments are in the tenant of their appliance exactly when every appliance is managed by one who moves if and only if each of its users moves |
| AccountMigration.ManagerLeavesAssignmentBehind | cloud/app/account_migration.py:360-399 | a manager who moves alone tears an assignment off |
| CloudCosts.MapSamples | cloud/app/cloud_costs.py:425-559 | total, category, node, storage, network and resource rows of one bill |
| CloudCosts.MatchIsAResource | cloud/app/cloud_costs.py:370-387 | exactly when an id finds a resource of the bill, which one, and that its own wins |
| CloudCosts.CostliestUnmatchedAreListed | cloud/app/cloud_costs.py:552-558 | the rows for resources are the costliest, at most twenty-five, that no charged entity is |
| CloudCosts.AttributeNodes | cloud/app/cloud_costs.py:479-508 | node shares by match, by role, or evenly, with their rows |
| CloudCosts.AttributeStorage | cloud/app/cloud_costs.py:510-533 | storage shares by match or evenly, with their rows |
| CloudCosts.AttributeNetwork | cloud/app/cloud_costs.py:535-550 | network shares in proportion to the other shares, or evenly |
| CloudCosts.CategoriesAddUpToTheBill | cloud/app/cloud_costs.py:343-448 | after the division of storage the categories add up to the provider's amounts within 0.0001, exactly without storage cost |
| CloudCosts.CategoryRowsAddUpToTheTotalRow | cloud/app/cloud_costs.py:449-465 | the category rows add up to the total row within the rounding of seven rows |
| CloudCosts.TallyIsByCategory | cloud/app/cloud_costs.py:440-442 | each category gets the services of that category and no others |
| CloudCosts.StorageIsDividedByBytes | cloud/app/cloud_costs.py:343-448 | what is stored stays with storage and what is backed up goes to the backups, in proportion to the bytes |
| CloudCosts.EachCategoryHasItsRow | cloud/app/cloud_costs.py:461-465 | one row per category, with its amount |
| CloudCosts.EntityRowIs | cloud/app/cloud_costs.py:485-533 | the row of an entity: its id, its charge, and whether its resource was found |
| CloudCosts.UnmatchedResourcesHaveRows | cloud/app/cloud_costs.py:552-558 | a resource has a row only if it cost something and no charged entity stands for it, and then has one unless twenty-five that cost no less do |
| CloudCosts.LooksAlikeIff | cloud/app/cloud_costs.py:380-386 | exactly when two resource ids are taken for the same |
| CloudCosts.ChargedNodesAre | cloud/app/cloud_costs.py:467-478 | only the provider's own nodes are charged as soon as one is known to be |
| CloudCosts.NodeRowsCarryTheirCost | cloud/app/cloud_costs.py:479-508 | matched or without roles, the node rows add up to the node cost within half a ten-thousandth a row |
| CloudCosts.StorageRowsCarryTheirCost | cloud/app/cloud_costs.py:510-533 | the storage rows add up to the storage cost within half a ten-thousandth a row |
| CloudCosts.NetworkRowsCarryTheirCost | cloud/app/cloud_costs.py:535-550 | the network rows add up to the network cost within half a ten-thousandth a row |
| CloudCosts.MatchedSharesAreProportional | cloud/app/cloud_costs.py:485-492 | matched nodes are charged in proportion to their matched costs, others nothing |
| CloudCosts.EachPaysItsPart | cloud/app/cloud_costs.py:479-533 | every entity pays the part that its resource is of all matched resources; storage services otherwise all pay the same |
| CloudCosts.RolesPayTheirPrice | cloud/app/cloud_costs.py:493-508 | without matches the nodes of a priced role together pay that price, each the same, and all others the even share |
| CloudCosts.NetworkFollowsTheCharges | cloud/app/cloud_costs.py:535-550 | network cost follows the other charges, or is even without any |

## Left out

- Signatures, digests, JSON, the cipher, character case outside ASCII and the payment processor are parameters; lemmas name the laws they need.
- Volumes deeper than two levels, snapshot ids with a slash, two mirror roots on one volume, file modes, and the error sample text of a pass.
- MirrorSync.PassIs: where a copy fails, nothing is said of temporary files that the primary has of its own; all other files are covered.
- MirrorSync.PassCounts: the counts are those of a primary without temporary files of its own; when there is no error is said for every primary.
- MirrorSync.PassDirs: as for the counts.
- Credstore.OlderBlobDecrypts: an older blob whose nonce begins with the prefix is taken for a framed one, and what the cipher makes of that is not said.
- Commands, mirror passes and integrity checks are atomic steps in any order; interleaving inside a handler is not modelled, and the thread that syncs mirrors after an ingest is a separate step of a run.
- Activation and start-up of the agent, which set a state of their own, and approvals at the appliance inside a run: a run starts after them and consists of commands, passes and checks.
- Years beyond 9999 and negative trial lengths.
- One-off and proration charges, which add to a profile's history without touching its schedule.
- Floating point: shares, terabytes and cents are exact rationals rounded where the code rounds.
- `CloudCosts.AttributeNodes`: conservation is not claimed for the distribution by role, which does not add up to the category by design.
- Naming of service categories and of a storage service's billing id.
- Override codes are taken as already in lower case, with one active row per add-on; labels and detail texts of lines, and the eligibility checks and quantity limits of assigning an add-on, are not modelled.
- Audit columns that the hash does not cover (tenant, category, severity, previous hash), rows with equal time stamps, and the copy to the log store.
- When a tenant's billing profile is retired, plan changes in place, upgrades' billing carry-over to another profile, and the rollback when a move raises.
- Phone and mail normalisation, feature flags, metering, catalogs, sign-in, and everything behind HTTP, HTML, the disks and the cloud SDKs.
