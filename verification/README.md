# Russignol: verified models of the signer and its host utility

Russignol is a hardware signer for Tezos bakers: a device that holds two BLS keys on an SD card and
signs consensus operations, and a host utility that flashes cards, repairs them and rotates keys.
This project models the parts whose correctness is hardest to see from the code and proves, for all
inputs and all runs, what they promise.

`dafny verify dfyconfig.toml` checks the whole project.

| file | part of the system |
|---|---|
| `HighWatermark.dfy`, `NoDoubleSign.dfy` | the device's watermark tracker, the signing request that drives it, and double-sign protection over whole runs with power losses, failing writes and recovery dialogs |
| `Card.dfy`, `Findings.dfy`, `Repair.dfy`, `RepairPlan.dfy`, `RepairLoop.dfy`, `RepairSafety.dfy`, `RepairFaults.dfy`, `RepairExecutor.dfy`, `DiskCheck.dfy`, `BootSeed.dfy` | `disk check`: diagnosis of a card, the repair plan, its execution, and the repeated check-and-repair loop |
| `Wallet.dfy`, `Promotion.dfy`, `PromotionSafety.dfy`, `Rollback.dfy` | the three-file alias rename and the four-rename promotion with hand-written rollback, under every pattern of I/O failure |
| `Rotation.dfy`, `RotationRuns.dfy`, `WalletView.dfy` | the whole key-rotation workflow over invocations, crashes and re-runs, and the proof that file-level renames refine its steps |
| `Rootfs.dfy`, `Flash.dfy` | hashing one partition of an image while it streams past, the write tee and the read-back check |
| `ShellQuote.dfy` | re-running through `sg -c`, against a POSIX shell tokenizer |
| `Migration.dfy`, `KeyJson.dfy` | choosing source keys for the two roles, and the JSON file written for them, against a JSON reader |
| `SwapWindow.dfy`, `BakingRights.dfy`, `Thousands.dfy` | the swap-window search, the batched rights scan, and two separator algorithms |

How the models are built:

- Operations that change state in the source are classes or methods; each is proved equal to a pure
  function of the old state, and the theorems are about those functions.
- Disks, nodes, signers, operators and clocks are parameters that answer arbitrarily. A failing
  write is a parameter too: on the device it may leave the old or the new mark behind, on a card it
  leaves a repair half-done, in the wallet it leaves the file as it was.
- `Hidden` (in `Repair.dfy`) is what a file reveals once its owner is restored: any content at all.
- Hashes are abstract functions; collision freedom is a hypothesis only where a theorem needs it.

## What the code does not promise

Several expected properties turned out to hold only under a condition. Each has its exact condition
as a lemma or a contract clause; the others among the lemmas named are instances.

- **The repair loop.** A card without `.setup_complete` whose staged config is superseded at the
  node's level is staged and deleted alternately for ever: staging ignores existing floors, deletion
  does not. The loop settles if and only if the card is not one of these
  (`RepairLoop.ConvergesIff`, `OscillatingCardExists`). Three rounds are enough and can be needed.
- **No repair makes things worse** if and only if the node does not report an empty chain id for a card
  whose chain_info is readable (`RepairSafety.NoWorseIff`); `disk check` never resolves such a node.
  A repair that *fails* makes things worse if and only if it lost a pending boot config or a readable
  chain_info on the way (`RepairFaults.FaultHurtsIff`): staging truncates the file it replaces. In
  `disk check` only the first can happen (`DiskCheck.RunDiskCheck`).
- **"Superseded".** The comments at host-utility/src/disk.rs:456-460 describe a per-file rule; the
  verdict matches it exactly (`BootSeed.SupersededIffNoop`). The device itself takes one maximum per
  key over the marks it can authenticate (libs/signer/src/high_watermark.rs:742-751), so a superseded
  config is a no-op there exactly when every key has an authentic mark (`SupersededNoopIff`), and a
  no-op config need not be called superseded (`NoopSupersededIff`, `NoopNotSuperseded`).
- **Double signing.** Every event keeps the device safe if and only if it is harmless
  (`NoDoubleSign.StepExact`). There are two ways not to be. A write that reports failure may
  nevertheless have replaced the mark underneath a live ceiling, because `rollback_disk_watermark`
  and `write_watermark` clear the ceiling only after a successful sync. And a recovery dialog applies
  the level it was raised with, without looking again: if its key has meanwhile signed above that
  level, confirming it lowers the floor (`ConfirmExact`, `StaleDialogRun`), although
  rpi-signer/src/app.rs:894-899 says that lowering is what must never happen inline. Each way has a
  lemma that goes on to repeat a signature.
- **Rollback reports** can be wrong both ways. A promotion whose failing rename had already changed one
  file is reported as fully rolled back (`Rollback.SilentReportExact`, `HalfwayFailureIsSilent`), and an
  alias that is back in every file can be named as not restored (`RestoredIff`, `RestoredButNamed`).
- **Incoming keys.** Outgoing keys are never lost, but an incoming one is: restoring a backup removes
  whatever its target name holds, which after a half-way promotion is the new key. The exact conditions
  are `Rollback.ConsensusLostIff` and `CompanionLostIff`; `HalfwayPromotionLosesKey` is a run.
- **Crashes during promotion.** After the third rename a resumed run checks only the consensus key and
  may then forget the companion's backup while no companion alias is live. That can happen exactly on
  wallets with a live consensus alias, a companion backup and no live companion (`Rotation.CanDropIff`),
  which a fourth step whose last restore fails leaves as well (`LastRestoreFails`). After the first or second rename no
  re-run touches the wallet at all (`CutOffBeforeThird`, `CanChangeIff`).
- **Dry runs.** `--dry-run` reaches only a fresh rotation; a resumed one changes the wallet all the same
  (`Rotation.DryRunChangesIff`).
- **The fallback swap window** avoids the delegate's slots only if there are none
  (`SwapWindow.CalculateSwapWindow`).
- **The rights scan** hits `step_by(0)` for `blocks_per_cycle` from -1 to 1 (`BakingRights.QueryNextBakingRights`).
- **Quoting** leaves `=` bare, so a relative executable path such as `A=b` would be an assignment
  (`ShellQuote.AssignmentIff`); an absolute path, which is what the process passes, never is.
- **Migration** fills an override from the first entry with the referred key's alias, which is another
  key's secret when an alias occurs twice (`Migration.OverrideSecretIff`). It accepts one secret under two
  aliases: the roles share a secret exactly when the two keys picked do (`SameSecretIff`).

## Model

| member | source | states |
|---|---|---|
| `HighWatermark.Tracker.constructor` | libs/signer/src/high_watermark.rs:800-833 | a fresh tracker holds exactly the stored authentic marks, in memory and on disk, with no ceiling |
| `HighWatermark.Tracker.CheckAndUpdate` | libs/signer/src/high_watermark.rs:412-460 | admits exactly a mark strictly above the slot's entry by level then round; advances that one entry and remembers the previous one; a refusal changes nothing and says exactly what was wrong: no mark, level too low, or round too low |
| `HighWatermark.Tracker.RollbackUpdate` | libs/signer/src/high_watermark.rs:473-477 | the slot's entry is the remembered one again, every other slot untouched |
| `HighWatermark.Tracker.CeilingCovers` | libs/signer/src/high_watermark.rs:484-491 | true exactly when the ceiling is at or above the mark |
| `HighWatermark.Tracker.WriteMark` | libs/signer/src/high_watermark.rs:524-568 | a synced write replaces the stored mark and drops the ceiling; a failed one keeps the ceiling and leaves either mark on disk |
| `HighWatermark.Tracker.WriteCeiling` | libs/signer/src/high_watermark.rs:582-612 | writes level + maximal round unless the entry or ceiling is already there |
| `HighWatermark.Tracker.UpdateToLevel` | libs/signer/src/high_watermark.rs:699-730 | all three entries move first; files are then written in order until the first failure |
| `HighWatermark.Tracker.SeedFloor` | libs/signer/src/high_watermark.rs:742-751 | no change if any entry of the key is at or above the level, else the update |
| `HighWatermark.MaxLevel` | libs/signer/src/high_watermark.rs:634-641 | the greatest level among a key's entries, attained by one of them, absent exactly when there is none |
| `HighWatermark.Tracker.PowerCycle` | libs/signer/src/high_watermark.rs:800-833 | memory is what stable storage held, with no ceiling |
| `HighWatermark.Tracker.HandleSign` | libs/signer/src/server.rs:514-735 | the answer to every request, signature or one of nine refusals, in terms of the request, the alerts and the marks alone, the foreign chain refused before any of them; the new state of the slot in every case; no other slot changes |
| `HighWatermark.PrecheckExact` | libs/signer/src/server.rs:555-624 | each precheck refuses exactly its own case: a foreign chain, a key without marks, a level more than four cycles above all of them |
| `HighWatermark.AnswerUnique` | libs/signer/src/server.rs:514-735 | every request has exactly one answer, so each case of the table is an if-and-only-if |
| `HighWatermark.RefusedKeepsEntry` | libs/signer/src/server.rs:683-695 | a request that signs nothing leaves the entry as it was |
| `NoDoubleSign.SignCellExact` | libs/signer/src/server.rs:642-707 | one request keeps the slot at or above everything signed, in memory and on disk, if and only if its undo is not torn under a ceiling; what it signs is above everything signed before |
| `NoDoubleSign.CeilingCellSafe` | libs/signer/src/high_watermark.rs:582-612 | a background ceiling write keeps a slot safe however it fails |
| `NoDoubleSign.UpdatedCellExact` | libs/signer/src/high_watermark.rs:699-751 | moving a floor to any level keeps a slot safe if and only if nothing above that level has been signed and no higher ceiling is left in force without being on file |
| `NoDoubleSign.RequestExact` | libs/signer/src/server.rs:514-735 | a request keeps the whole device safe if and only if it does not undo a covered advance through a torn write |
| `NoDoubleSign.StepExact` | libs/signer/src/server.rs:514-735 | every event (request, ceiling, seed, showing, confirming or dismissing a dialog, power loss) keeps the device safe if and only if it is harmless: no torn undo, no floor below a signed mark, no ceiling left bare |
| `NoDoubleSign.SeedExact` | libs/signer/src/high_watermark.rs:742-751 | seeding is harmful if and only if a write reported as failed has replaced the mark under a higher ceiling |
| `NoDoubleSign.OfferIsAbove` | libs/signer/src/server.rs:575-622 | when a request is refused with a recovery dialog, its level lies above everything its key has signed |
| `NoDoubleSign.ConfirmExact` | rpi-signer/src/main.rs:1106-1132 | a confirmation whose writes succeed is safe if and only if its key has signed nothing above the offered level since the request was refused |
| `NoDoubleSign.RunSafe` | libs/signer/src/server.rs:514-735 | safety over every finite run of harmless events, and every dialog still above what its key had signed when it was raised |
| `NoDoubleSign.NeverSignsTwice` | libs/signer/src/high_watermark.rs:412-460 | from any stored marks, over every harmless run with power losses and dialogs, the marks signed per key and operation strictly increase |
| `NoDoubleSign.OnlyOwnChain` | libs/signer/src/server.rs:555-573 | over every run, whatever fails and whatever the operator does, every signature is for the device's own chain |
| `NoDoubleSign.CeilingSpeedsUp` | libs/signer/src/server.rs:664-681 | under a ceiling a mark is signed whatever a write would have done |
| `NoDoubleSign.CeilingBlocksItsLevel` | libs/signer/src/high_watermark.rs:582-612 | after a power loss nothing at or below a ceiling's level is signed any more |
| `NoDoubleSign.OffersIff` | libs/signer/src/server.rs:575-624 | a recovery dialog is queued exactly by a request on the device's chain whose key has no mark, or none near enough |
| `NoDoubleSign.DialogStays` | rpi-signer/src/app.rs:905-924 | an open dialog keeps the level it was raised with until it is dismissed or power is lost |
| `NoDoubleSign.NothingToConfirm` | rpi-signer/src/app.rs:943-945 | a confirmation after a dismissal or a power loss changes nothing |
| `NoDoubleSign.UnbackedCeilingRepeats` | libs/signer/src/high_watermark.rs:502-513 | whenever a ceiling is backed by neither memory nor storage, and whichever alerts are installed let its level through, request, power loss and request sign one mark twice |
| `NoDoubleSign.TornUndoRepeats` | libs/signer/src/high_watermark.rs:502-513 | every torn undo from every safe state has a continuation that repeats a signature, under the same condition on the alerts |
| `NoDoubleSign.BareCeilingRepeats` | libs/signer/src/high_watermark.rs:699-730 | so has every floor, seeded or confirmed, that leaves a ceiling bare |
| `NoDoubleSign.StaleConfirmRepeats` | rpi-signer/src/main.rs:1106-1132 | after confirming a dialog whose level lies below a signed mark, that mark is signed again |
| `NoDoubleSign.StaleDialogRun` | rpi-signer/src/app.rs:992-1021 | with both alerts on and no failure: a request too far ahead raises the dialog, the baker catches up past its level while it is open, and confirming it repeats a signature; for all levels so spaced |
| `NoDoubleSign.StaleDialogExists` | rpi-signer/src/app.rs:992-1021 | such a run exists from a freshly loaded device |
| `Classifier.TallyMeaning` | host-utility/src/disk.rs:690-724 | the loop's running variables are the issues found, "some foreign owner", "some valid file" and the least valid level |
| `Classifier.MinDecidesBehind` | host-utility/src/disk.rs:726-741 | comparing only the least valid level with the head decides whether any file is far behind |
| `Classifier.ClassifyFiles` | host-utility/src/disk.rs:690-724 | the file loop computes those four values for every file list |
| `Classifier.ClassifyKeyWatermarks` | host-utility/src/disk.rs:655-759 | the issues of one key: a missing directory unless a config will seed it, the file faults in order, one floor warning, one ownership fault |
| `Classifier.ClassifyWatermarks` | host-utility/src/disk.rs:634-653 | the issues of all keys, plus the unknown-node note exactly when a valid file could not be compared |
| `Classifier.Classify` | host-utility/src/disk.rs:301-415 | the imperative classifier produces the declarative diagnosis, in report order |
| `Findings.DiagnosisExact` | host-utility/src/disk.rs:301-798 | an issue, with its kind, severity, partition, remedy and action, is in the diagnosis if and only if the card's fields and the node call for it: one condition for each of the 22 kinds, with the numbers spelled out |
| `Findings.RoleCount` | host-utility/src/disk.rs:495-512 | one issue per missing role |
| `Findings.HealthyIff` | host-utility/src/disk.rs:202-206 | "the card is good" if and only if keys and both roles, chain_info, every key's marks, the boot config and the panic log are each as they should be |
| `Repair.CollectActions` | host-utility/src/disk.rs:800-802 | the actions carried by the issues, in order |
| `Repair.PlanRepairs` | host-utility/src/disk.rs:800-820 | the planning loop computes the plan that `PlanFacts` characterises |
| `Repair.PlanFacts` | host-utility/src/disk.rs:800-820 | a plan has no repetition and holds exactly the carried actions that no broader planned action replaces |
| `Repair.ApplyAllResult` | host-utility/src/disk.rs:1355-1398 | applying a compatible list gives the card computed field by field from the set of its actions |
| `Repair.OrderIrrelevant` | host-utility/src/disk.rs:1283-1319 | compatible lists with the same actions have the same effect, in any order and with repetitions |
| `RepairPlan.DiagnoseCarries` | host-utility/src/disk.rs:301-415 | the diagnosis carries an action if and only if the card's fields call for it, over all branches of all classifiers |
| `RepairPlan.PlanMembership` | host-utility/src/disk.rs:800-820 | membership in the plan, read off the card |
| `RepairPlan.PlanConflictFree` | host-utility/src/disk.rs:800-820 | no duplicates, at most one staging, never staging with deletion, never rewriting with chmod or chown |
| `RepairPlan.DiagnoseRemedies` | host-utility/src/disk.rs:190-200 | every issue carries an action exactly when its remedy is a fixable one |
| `RepairPlan.PlanComplete` | host-utility/src/disk.rs:190-206 | the plan is empty if and only if no issue is fixable |
| `RepairLoop.RoundIsNext` | host-utility/src/disk.rs:1564-1593 | one diagnose-plan-execute round, as a closed form over the card's fields |
| `RepairLoop.RoundReveals` | host-utility/src/disk.rs:1355-1384 | a run that restores an owner lets the next diagnosis see what the file holds |
| `RepairLoop.DeletionKeepsFaults` | host-utility/src/disk.rs:417-473 | deleting a stale config never turns a pending watermark directory into a fault |
| `RepairLoop.StagedConfigIsNeeded` | host-utility/src/disk.rs:456-473 | a config staged for a watermark fault is not superseded while the fault lasts |
| `RepairLoop.Converges` | host-utility/src/disk.rs:301-473 | after three rounds every further round leaves the card unchanged, and the plan is empty or re-stages what is staged, whatever the chowns reveal |
| `RepairLoop.NeverSettles` | host-utility/src/disk.rs:417-440 | an oscillating card changes in every round, for ever |
| `RepairLoop.ConvergesIff` | host-utility/src/disk.rs:301-473 | the loop settles if and only if the card does not oscillate |
| `RepairLoop.OscillatingCardExists` | host-utility/src/disk.rs:364-391 | such a card exists |
| `RepairLoop.ThreeRoundsNeeded` | host-utility/src/disk.rs:516-613 | the bound is tight: chown, then rewrite, then deletion |
| `RepairLoop.SlowCardExists` | host-utility/src/disk.rs:516-613 | a card that needs all three rounds exists |
| `RepairSafety.CountDiagnosis` | host-utility/src/disk.rs:301-415 | the number of Critical issues of any diagnosis, field by field: keys, chain_info, and each file and directory of each key |
| `RepairSafety.CriticalsNeverIncrease` | host-utility/src/disk.rs:800-820 | applying any planned actions, any subset in any order, never increases the Critical issues of the next diagnosis, unless a readable chain id would be blanked |
| `RepairSafety.EmptyChainIdHurts` | host-utility/src/disk.rs:557-570 | blanking it adds exactly one Critical issue |
| `RepairSafety.NoWorseIff` | host-utility/src/disk.rs:557-570 | every selection from the plan is harmless if and only if the node does not report an empty chain id for a serviced card with a readable, well-owned chain_info |
| `RepairFaults.LostSeedsHurt` | host-utility/src/watermark.rs:262-266 | a failed re-staging that truncated the pending config adds one Critical issue per missing watermark directory |
| `RepairFaults.LostChainHurts` | host-utility/src/card_fs.rs:35-59 | a failed rewrite that lost a readable, well-owned chain_info adds exactly one |
| `RepairFaults.NothingDone` | host-utility/src/card_fs.rs:35-59 | a repair that fails before it did anything leaves the card as it was |
| `RepairFaults.AllDone` | host-utility/src/card_fs.rs:35-59 | one that fails after everything was done leaves it repaired |
| `RepairFaults.FailedRewriteShowsMode` | host-utility/src/card_fs.rs:35-71 | a failed rewrite of a well-kept chain_info shows as a mode to reset exactly when it had opened the file and not closed it up again |
| `RepairFaults.FaultHurtsIff` | host-utility/src/disk.rs:1355-1398 | a repair that fails at any point makes the diagnosis worse if and only if it lost pending seeds or a readable chain_info |
| `RepairExecutor.TargetStays` | host-utility/src/disk.rs:1355-1398 | other compatible repairs never remove an action's target |
| `RepairExecutor.PlanIsExecutable` | host-utility/src/disk.rs:1283-1398 | every confirmed subset of a plan finds its targets, with a node where one is needed |
| `RepairExecutor.CardReader.ApplyAction` | host-utility/src/disk.rs:1355-1398 | an action changes the card as specified, not at all when refused, and as far as it got when its I/O fails; which refusals there are, by the mounted partition and the state of the card |
| `RepairExecutor.CardReader.RunStages` | host-utility/src/disk.rs:1290-1334 | stagings run in order until the first one that fails half-way or whose read-back names no chain |
| `RepairExecutor.CardReader.RunGroup` | host-utility/src/disk.rs:1311-1316 | a partition's group runs in order until the first refusal |
| `RepairExecutor.CardReader.RunGroups` | host-utility/src/disk.rs:1298-1317 | the three partition groups in turn, until the first failure |
| `RepairExecutor.CardReader.ExecuteRepairs` | host-utility/src/disk.rs:1283-1319 | grouped execution equals list-order execution; whatever fails, the card is the result of some confirmed actions and at most one half-done one, everything of earlier partitions done and nothing of later ones; a planned list fails only on I/O or on a config that names no chain |
| `DiskCheck.ResolvedNodeFits` | host-utility/src/disk.rs:1409-1531 | whatever the fetches return, a resolved node is on the chain the card names, and a first fetch already there is kept |
| `DiskCheck.ResolvedNodeExact` | host-utility/src/disk.rs:1409-1531 | the resolved node in every case: the first fetch for a card that names no chain or is on its chain, else the second on that chain, without an explicit endpoint and for Mainnet or interactively, else none |
| `DiskCheck.NeverStale` | host-utility/src/disk.rs:557-570 | against such a node chain_info is never called stale |
| `DiskCheck.RepairsKeepChain` | host-utility/src/disk.rs:417-434 | no planned repair moves a readable chain id to another chain, and a wrong-chain config is deleted only when chain_info is readable |
| `DiskCheck.FailingRun` | host-utility/src/disk.rs:1283-1398 | the same for a run that stops in the middle of a repair, and what such a run does to the Critical issues |
| `DiskCheck.ConfirmActions` | host-utility/src/disk.rs:1220-1236 | exactly the agreed actions remain, in order, without repetition |
| `DiskCheck.RunDiskCheck` | host-utility/src/disk.rs:1539-1593 | end to end, failures included: the right node, chain safety, no stale report, good cards and dry runs unchanged, exactly the agreed repairs applied, and the Critical issues increase if and only if a failed re-staging lost pending seeds |
| `DiskCheck.ChecksConvergeIff` | host-utility/src/disk.rs:1495-1593 | repeating the command, which resolves its node anew from what the card names on each run, settles after three runs if and only if the card does not oscillate |
| `BootSeed.SupersededIffNoop` | host-utility/src/disk.rs:456-473 | superseded if and only if consuming the config under the documented rule changes no floor and no chain id |
| `BootSeed.SeedLeavesIff` | libs/signer/src/high_watermark.rs:742-751 | seeding changes nothing on the device if and only if one authentic mark of the key is at or above the level |
| `BootSeed.BootNoopIff` | rpi-signer/src/watermark_setup.rs:141-179 | the exact no-op condition of a config the device takes, with what it takes spelled out |
| `BootSeed.NotTaken` | rpi-signer/src/watermark_setup.rs:156-179 | a config changes nothing before setup, during a migration, or when it does not validate |
| `BootSeed.SupersededNoopIff` | host-utility/src/disk.rs:461-473 | a superseded config is a no-op on the device if and only if every key has an authentic mark |
| `BootSeed.DeletionIsSafe` | host-utility/src/disk.rs:435-440 | when the marks are the device's own, deleting a superseded config loses nothing |
| `BootSeed.NoopNotSuperseded` | host-utility/src/disk.rs:461-473 | so a no-op config need not be called superseded |
| `BootSeed.NoopSupersededIff` | host-utility/src/disk.rs:461-473 | a config that is a no-op on the device is called superseded if and only if the card is inspected, has a key, and every file covers the level |
| `Wallet.RenameSucceeds` | host-utility/src/keys.rs:296-364 | without faults a rename succeeds if and only if the alias is in the primary file |
| `Wallet.RenameUpToExact` | host-utility/src/keys.rs:296-364 | exactly the files before the first failing one are renamed, for every fault schedule |
| `Wallet.RenamedMaps` | host-utility/src/keys.rs:324-348 | the rename as a change of the alias map: the target takes the value, every other alias keeps its own |
| `Wallet.RenamedIsRelabel` | host-utility/src/keys.rs:324-348 | with a free target it is a relabelling, order included |
| `Wallet.RenameBackUndoes` | host-utility/src/keys.rs:324-348 | renaming back restores the file exactly |
| `Promotion.Store.RenameAliasLocally` | host-utility/src/keys.rs:296-364 | the three-file loop under any fault schedule is the rename function, with the same reads and writes attempted |
| `Promotion.Store.PromoteWithBackup` | host-utility/src/rotate_keys.rs:1489-1571 | the promotion with its compensation is the promotion function under any fault schedule, and reports what the operator is told |
| `Promotion.Store.RestoreBackups` | host-utility/src/rotate_keys.rs:1534-1541 | both restores are attempted, each failure is named |
| `Promotion.Store.RollbackAliases` | host-utility/src/rotate_keys.rs:2368-2376 | the rollback on request, which stops at the first failure |
| `PromotionSafety.OutgoingKeysNeverLost` | host-utility/src/rotate_keys.rs:1489-1571 | under every fault schedule each file still maps the live alias or its `-old` backup to each outgoing key it held |
| `PromotionSafety.RestoreUndoesBackups` | host-utility/src/rotate_keys.rs:1509-1571 | two restores exactly undo two backups |
| `Rollback.SecondStepReport` | host-utility/src/rotate_keys.rs:1513-1526 | after a failed companion backup a file is as it was if and only if the rename had moved nothing in it and the undo reached what it had to bring back |
| `Rollback.ThirdStepReport` | host-utility/src/rotate_keys.rs:1528-1546 | the same for a failed consensus promotion and its two undos |
| `Rollback.FourthStepReport` | host-utility/src/rotate_keys.rs:1548-1571 | the same for a failed companion promotion and its three undos |
| `Rollback.FirstStepReport` | host-utility/src/rotate_keys.rs:1509-1511 | the same for a failed consensus backup, which is not undone |
| `Rollback.RestoredIff` | host-utility/src/rotate_keys.rs:1489-1571 | whatever it reports, a failed promotion has restored all files, order included, if and only if in every file the failing rename had moved nothing and every undo reached what it had to bring back; over files and fault schedule |
| `Rollback.ConsensusRestoredIff` | host-utility/src/rotate_keys.rs:1513-1571 | an outgoing consensus key is back under its name in a file if and only if its restore reached the file, named as unrestored or not |
| `Rollback.CompanionRestoredIff` | host-utility/src/rotate_keys.rs:1528-1571 | the same for the outgoing companion key |
| `Rollback.ConsensusLostIff` | host-utility/src/rotate_keys.rs:1528-1571 | an incoming consensus key is gone from a file if and only if the restore put another key over it: after a third step that had reached the file, or a fourth whose demotion had not |
| `Rollback.CompanionLostIff` | host-utility/src/rotate_keys.rs:1548-1571 | an incoming companion key is gone if and only if a fourth step had reached the file and the restore then put another key over it |
| `Rollback.SilentThirdStepLosesKey` | host-utility/src/rotate_keys.rs:1528-1546 | when that third step is reported as rolled back, the incoming key is always gone |
| `Rollback.SilentReportExact` | host-utility/src/rotate_keys.rs:1472-1482 | a failure naming no alias has restored everything if and only if no file the failing rename got past lists the alias it moves |
| `Rollback.TouchesNoneIff` | host-utility/src/keys.rs:296-364 | a rename leaves all files alone if and only if no file before the first failing read, parse or write lists the alias |
| `Rollback.RollbackReportExact` | host-utility/src/rotate_keys.rs:1472-1482 | if failing renames change nothing, no alias is named if and only if all files equal the originals |
| `PromotionSafety.PromotedMeansSwapped` | host-utility/src/rotate_keys.rs:1489-1571 | success means the live aliases carry the pending keys and the backups the outgoing ones, in every file |
| `Rollback.HalfwayFailureIsSilent` | host-utility/src/rotate_keys.rs:1513-1526 | a schedule under which every wallet of one shape is left half-way and reported as rolled back |
| `Rollback.RestoredButNamed` | host-utility/src/rotate_keys.rs:1513-1526 | a schedule under which every wallet of that shape is fully restored and its consensus alias reported as not |
| `Rollback.HalfwayPromotionLosesKey` | host-utility/src/rotate_keys.rs:1528-1546 | a schedule under which the incoming consensus key is gone from the primary file and everything is reported as rolled back |
| `Rollback.RequestedRollback` | host-utility/src/rotate_keys.rs:2368-2376 | where each value is afterwards, per file and fault schedule |
| `Rotation.StepKeeps` | host-utility/src/rotate_keys.rs:134-298 | every step of every invocation keeps the workflow invariant |
| `Rotation.RotationIsSafe` | host-utility/src/rotate_keys.rs:1349-1408 | over all runs with crashes and re-runs: promotion starts only without backups, and a backup is forgotten only after a check, in the same invocation, that the signer holds the live consensus key and it is active on chain |
| `RotationRuns.DetectExact` | host-utility/src/rotate_keys.rs:1755-1835 | each of the six states, and the error, is recognised exactly when aliases, chain status and active key are as that state says |
| `RotationRuns.EveryEventJustified` | host-utility/src/rotate_keys.rs:134-298 | over every run, every event is justified by what its own invocation detected and did before: imports, submissions, waits, swaps, clearings and rollbacks |
| `RotationRuns.SwapsOnlyActivated` | host-utility/src/rotate_keys.rs:2141-2278 | a promotion begins only with all four aliases, no backup, and keys seen to activate or a pending consensus key reported active |
| `RotationRuns.SubmitsOnlyInactive` | host-utility/src/rotate_keys.rs:1842-1942 | keys are submitted only when the invocation imported them, or found them imported and not in use |
| `RotationRuns.EveryStateFinishes` | host-utility/src/rotate_keys.rs:231-298 | from every recognised state short of a swap the rotation can be carried to the same end |
| `RotationRuns.ResumeFinishes` | host-utility/src/rotate_keys.rs:2280-2360 | so can a swap whose renames had completed |
| `RotationRuns.ReplaceStartsOver` | host-utility/src/rotate_keys.rs:203-228 | with `--replace` pending keys are cleared and a fresh rotation can be completed; a swap under way is refused |
| `RotationRuns.ImportsBoth` | host-utility/src/rotate_keys.rs:1092-1107 | an import sets exactly the two pending aliases, each to its own key |
| `RotationRuns.DeclineEnds` | host-utility/src/rotate_keys.rs:1842-1942 | declining to submit clears the pending aliases and nothing else; declining elsewhere changes nothing |
| `RotationRuns.NoEndsIt` | host-utility/src/rotate_keys.rs:1349-1408 | a refusal or an error outside a rename ends the invocation with the wallet as it is |
| `RotationRuns.FailedCheck` | host-utility/src/rotate_keys.rs:2280-2360 | a failed check offers the rollback to a resumed swap only |
| `RotationRuns.NotReady` | host-utility/src/rotate_keys.rs:763-779 | an invocation that fails its preconditions does not begin |
| `Rotation.BackupsSurviveRuns` | host-utility/src/rotate_keys.rs:1647-1711 | no step of any run overwrites or drops a backup except by restoring it or by a licensed forget |
| `Rotation.StuckWithoutLiveConsensus` | host-utility/src/rotate_keys.rs:763-779 | without a live consensus alias no run changes the wallet |
| `Rotation.CanChangeIff` | host-utility/src/rotate_keys.rs:763-779 | some run changes an idle wallet if and only if it has a live consensus alias |
| `Rotation.CutOffBeforeThird` | host-utility/src/rotate_keys.rs:1509-1526 | a crash after the first or second rename leaves a wallet no run changes |
| `Rotation.CutOffAfterThird` | host-utility/src/rotate_keys.rs:1528-1571 | what a crash after the third rename leaves |
| `Rotation.LastRestoreFails` | host-utility/src/rotate_keys.rs:1548-1571 | a failed fourth step whose last restore fails leaves the same kind of wallet, with no crash |
| `Rotation.ResumeCanDropCompanion` | host-utility/src/rotate_keys.rs:2280-2360 | on such a wallet an invocation can forget the companion backup while no companion is live |
| `Rotation.CanDropIff` | host-utility/src/rotate_keys.rs:1647-1711 | an invocation can do so if and only if it starts on a wallet with a live consensus alias, a companion backup and no live companion |
| `Rotation.DryRunChangesIff` | host-utility/src/rotate_keys.rs:165-201 | the recognised states from which `--dry-run` goes on to change the wallet, exactly |
| `WalletView.RenamedView` | host-utility/src/keys.rs:324-348 | a completed rename of the file is the rename of the alias map |
| `WalletView.RenameRefinesWorkflow` | host-utility/src/keys.rs:296-364 | under every fault schedule the file-level rename is one of the outcomes the workflow allows, with the same reported success |
| `WalletView.PromoteRefinesWorkflow` | host-utility/src/rotate_keys.rs:1489-1571 | under every fault schedule the whole promotion with its compensation is a run of the workflow's promoting and undoing steps |
| `WalletView.RollbackRefinesWorkflow` | host-utility/src/rotate_keys.rs:2368-2376 | so is the rollback on request |
| `Rootfs.RootfsRegionHasher.Write` | host-utility/src/rootfs.rs:87-116 | for every buffer the hasher afterwards stands for the stream extended by it, or reports the table error and is finished |
| `Rootfs.RootfsRegionHasher.Finish` | host-utility/src/rootfs.rs:75-84 | the result is the simple form's result on the whole stream |
| `Rootfs.HashChunks` | host-utility/src/rootfs.rs:75-121 | chunking invariance: every way of splitting an image gives the result for the whole image |
| `Rootfs.DigestExistsIff` | host-utility/src/rootfs.rs:27-84 | a digest exists if and only if the table is valid and the image reaches the region's end, and is the hash of exactly that region |
| `PartitionTable.RegionIsSecondPartition` | host-utility/src/rootfs.rs:27-48 | for every boot code and every four partition records, the region read from the table that holds them is the extent of the second record, or the matching error |
| `PartitionTable.NoTable` | host-utility/src/rootfs.rs:27-33 | a sector is refused as truncated or unsigned exactly when it is |
| `PartitionTable.DigestOfSecondPartition` | host-utility/src/rootfs.rs:75-121 | the digest of an image that begins with a table is the hash of its second partition |
| `Rootfs.BadTableIsFinal` | host-utility/src/rootfs.rs:87-116 | an unusable table stays the verdict whatever follows |
| `Rootfs.HashingWriter.Write` | host-utility/src/rootfs.rs:157-167 | the inner writer's answer is returned unchanged, and the hasher has seen exactly the accepted bytes |
| `Rootfs.HashingWriter.Finish` | host-utility/src/rootfs.rs:148-154 | the hash is the verdict on exactly the accepted bytes |
| `Rootfs.HashingWriter.WriteAll` | host-utility/src/rootfs.rs:157-167 | under short writes and errors the accepted bytes are the prefix the answers let through, and all of them exactly on success |
| `Rootfs.WillingWriterTakesAll` | host-utility/src/rootfs.rs:157-167 | a writer that never refuses takes as much as it has room for |
| `Flash.HashReaderPrefix` | host-utility/src/image.rs:2075-2080 | hashes exactly the first `len` bytes, or all there are, for any read sizes |
| `Flash.VerifyReadback` | host-utility/src/image.rs:2120-2144 | passes if and only if the device is long enough and its prefix hashes like the image |
| `Flash.FinishFlash` | host-utility/src/image.rs:925-950 | each outcome exactly when it should be: incomplete write, short or differing read-back, or a manifest with the digest of the image if it has one; with a collision-free hash the device then starts with the image |
| `Flash.RecordedHashIsOnCard` | host-utility/src/image.rs:2120-2144 | the recorded hash is the hash of the card's own partition 2, at the range the card's own table names |
| `Flash.RecordedHashIsSecondPartition` | host-utility/src/image.rs:2120-2144 | on a card with a partition table it is the hash of the second partition on the card |
| `ShellQuote.QuoteReads` | host-utility/src/device_access.rs:324-333 | for every string, its quoted form reads back as that one word, whatever follows |
| `ShellQuote.ReexecRoundTrip` | host-utility/src/device_access.rs:339-356 | tokenizing the command gives exactly the executable, the arguments and the device |
| `ShellQuote.ReexecInjective` | host-utility/src/device_access.rs:339-356 | different invocations never become the same command |
| `ShellQuote.DeviceAppendedOnce` | host-utility/src/device_access.rs:339-356 | `--device` is appended if and only if no argument is `--device` or starts with `--device=` |
| `ShellQuote.AssignmentIff` | host-utility/src/device_access.rs:324-333 | the quoted executable is read as an assignment if and only if it is one made of unquoted characters |
| `ShellQuote.AbsolutePathIsCommand` | host-utility/src/device_access.rs:324-333 | an absolute path is never read as an assignment |
| `ShellQuote.RelativePathMayAssign` | host-utility/src/device_access.rs:324-333 | `A=b` is one |
| `Migration.MigrationExact` | host-utility/src/migrate_keys.rs:77-150 | for distinctly named keys: success with a backup if and only if all secrets are derivable, the rules pick two different keys, no other address is listed for them, and the backup holds them verbatim |
| `Migration.RefusalExact` | host-utility/src/migrate_keys.rs:77-130 | each refusal, from the source file, the overrides and the chain alone |
| `Migration.ChoosesAlways` | host-utility/src/migrate_keys.rs:227-349 | role assignment succeeds exactly on the pair the rules pick: overrides by alias or address first, then the unique on-chain match, then position |
| `Migration.TwoKeysBijection` | host-utility/src/migrate_keys.rs:266-338 | with two keys nothing is lost and nothing used twice |
| `Migration.OverrideSecretIff` | host-utility/src/migrate_keys.rs:258-338 | for all entries, repeated aliases included: an override is filled from the first entry with the referred key's alias, secret and public record alike, so it gets the referred secret if and only if that entry holds it |
| `Migration.RepeatedAliasMisleads` | host-utility/src/migrate_keys.rs:258-263 | an instance with two keys under one alias |
| `Migration.SameSecretIff` | host-utility/src/migrate_keys.rs:305-338 | the two roles get one secret if and only if the two keys the rules pick hold the same one |
| `Migration.DistinctSecretsStayDistinct` | host-utility/src/migrate_keys.rs:305-338 | if no two source entries hold the same value, the roles differ under every override and chain answer |
| `Migration.SameSecretTwice` | host-utility/src/migrate_keys.rs:305-338 | an instance with one secret under two aliases |
| `KeyJson.RelabeledSecretKeysJson` | host-utility/src/migrate_keys.rs:176-192 | the buffer loop writes the specified text |
| `KeyJson.SecretKeysRoundTrip` | host-utility/src/migrate_keys.rs:176-192 | a JSON reader returns the same roles and secrets in order if and only if no secret needs escaping |
| `KeyJson.NeverOutgrown` | host-utility/src/migrate_keys.rs:172-178 | the pre-sized buffer is never outgrown by secrets of up to 160 characters |
| `SwapWindow.OwnSlots` | host-utility/src/rotate_keys.rs:1235-1249 | exactly the delegate's round-0 levels, sorted |
| `SwapWindow.FindGap` | host-utility/src/rotate_keys.rs:1251-1272 | the loop keeps a largest gap of at least 30, if there is one |
| `SwapWindow.BestWindowIsLongest` | host-utility/src/rotate_keys.rs:1251-1272 | the chosen window is free of own slots, and no free interval before a later slot is longer |
| `SwapWindow.FallbackMeansNoGap` | host-utility/src/rotate_keys.rs:1292-1306 | when no gap is chosen, no such interval reaches 30 levels |
| `SwapWindow.CalculateSwapWindow` | host-utility/src/rotate_keys.rs:1199-1307 | the two together, inside the queried levels; the fallback window avoids the slots exactly when there are none |
| `BakingRights.BatchesPartition` | host-utility/src/blockchain.rs:386-410 | every level of the two-cycle horizon lies in exactly one of at most six batches, four when the cycle length is even |
| `BakingRights.QueryNextBakingRights` | host-utility/src/blockchain.rs:363-466 | for any node, asked for one range after another: a found level is the least one any answered query reported; "none" rests on at least one answer and a fully scanned horizon or the seed limit; an error means no query was answered |
| `BakingRights.FoundIsNextRight` | host-utility/src/blockchain.rs:363-466 | against a truthful node the level is an own right, and an earlier one can only hide in a failed batch |
| `BakingRights.NoneScheduledExact` | host-utility/src/blockchain.rs:351-358 | a right missed by "none scheduled" lies in a failed or never-asked batch |
| `Thousands.GroupingUnique` | host-utility/src/utils.rs:790-800 | a text has only one grouping into threes from the right |
| `Thousands.FormatWithThousands` | host-utility/src/blockchain.rs:220-230 | sign, then the grouping of the decimal digits |
| `Thousands.FormatWithSeparators` | host-utility/src/utils.rs:790-800 | the grouping of the decimal digits |
| `Thousands.AlgorithmsAgree` | host-utility/src/utils.rs:790-800 | in-place insertion and backward building agree on every number |
| `Thousands.FormatRoundTrip` | host-utility/src/blockchain.rs:220-230 | for every signed value, removing the commas returns its text, sign included, and the digits its magnitude |

## Left out

- Mounting, partitioning, `dd`, sudo, eCryptfs and device polling.
- Prompts, spinners and message texts; an issue keeps its kind, severity, partition, remedy and action.
- RPC, HTTP and octez-client calls: they appear as arbitrary answers.
- BLS, MACs and PIN encryption: authentic marks and derivable secrets are parameters.
- Marks torn inside their 72 bytes: a failed device write leaves the old mark or the new one, never a mixture.
- `disk_entries` of the tracker, which only feeds the status page.
- Sign requests that carry no level and round, and operations without a watermark.
- Wallet writes that fail half-way through one file: each file write is all or nothing.
- The progress display and privilege escalation around flashing.
- The attesting-rights scan, which repeats the baking-rights scan.
- 64-bit overflow in the swap window, the rights scan and the separators.
- JSON numbers, literals and `\u` escapes, which the secret-keys writer never produces.
- Parsing the source card's `secret_keys` and `public_key_hashs` files, and the read-back of marks in debug builds.
- Setup, purge, install, upgrade, status and hardware probing.
- KeyJson.NeverOutgrown: counts characters, which are bytes for the base58 secrets the device stores.
- Rotation.RotationIsSafe: alias probes are exact; a probe that itself fails ends the invocation.
- RepairLoop.ConvergesIff: a round applies every planned repair; a node without an id or a name makes each staging fail its read-back, and such a run ends there.
- RepairFaults.FaultHurtsIff: chmod, a single chown, truncation and deletion either happen or leave the file alone.
- NoDoubleSign.StepExact: a request's prechecks and its admission are one step, and a tapped confirmation takes effect at some later step.
