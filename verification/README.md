# Model of the Graffito app's protocols and ledgers

A Dafny model of the logic a user's funds and notes depend on, with proofs of what it keeps.

- **Scan lane, pending queue, scan gate.** `Netq` and `Gate` are the mutable lane and gate with
  their value-level operations, `NetqRuns` what any run of a lane does; `ScanLane` has the lock
  regions, the worker's drain loop and the apply loop as methods. `ScanSystem` is the whole
  executor as a step relation: the UI thread one callback at a time, workers and other posters
  interleaving between any two lock regions or unlocked calls, panicking jobs included.
  `ScanInvariant` proves what every step keeps, `ScanTheorems` what that means for every
  reachable state, `ScanProgress` that no kick is dropped but the two the source drops and that
  all work comes to its end.
- **Contacts.** `Contacts` is the tombstoned merge, once as a function and once as the source's
  loops. `ContactsRegister` proves it a per-key register (greatest stamp, deletion wins ties),
  `ContactsMerge` order and cap, `ContactsAbsorption` exactly when a second merge of the same
  state changes nothing, `ContactsConvergence` that all ways of merging agree, `ContactsOpposite`
  exactly when two opposite merges do, `ContactsDevice` the device operations over runs,
  `ContactsCloud` what leaves the device and what a removal means to a merge, `ContactsMeaning`
  the merge in its own numbers and comparisons.
- **Money.** `Ledger` is a notebook's store with its recording operations, `Scans` what applying a
  scan does to its coins, `ChainCoins` what either does to the coins of one note's chain of
  replacements; `RbfChains` follows a note through any run of its own and other notes' fee bumps
  and of scans. `RecordsMeaning` and `ScansMeaning` say what recordings and scans leave in coins,
  balance and records. `BumpSources`, `BumpPartition` and `BumpRecords` are the multi-key bump and
  the record it updates. `WalletStores` is the open notebook in memory beside the files of the
  others, `WalletConservation` the account of a consolidation and a sweep, `WalletOutcomes` what
  their broadcast results do. `Confirm` is the confirm screen's summary and what its silence
  means, `ConfirmMeaning` what its rows say; `Hex` and `OpReturn` are the encodings these rest on.
- **Text.** `Utf8` and `EditOps` are byte-offset editing of UTF-8 (RFC 3629), `Utf8Scalars` the
  encoding it is checked against; `Text`, `NetErr` and `Descriptors` the error-text scrubber and
  the descriptor scanner.

Where the code does something else than its comments say, the model follows the code:

- A wallet consolidation promises to lose only the fee. It ends by reloading the open notebook
  from its file. When that notebook takes no part and holds scan pages not yet saved, the reload
  changes the balance: `ConsolidationConservesIff` gives the exact condition,
  `ReloadDropsUnsavedPage` an instance.
- `record_bumped_note` and `record_bumped_tx` call a confirmed record "vanished", but look it up
  without regard to its status, so they update it. The model does the same.
- The note bump's build says that the ledger retains locked coins. A full scan whose source has
  dropped what the mempool spends takes them out, and the build then fails: `FullScanDropsInput`.
- A scan's gate slot is raised after the submission, not before the worker is spawned; the
  worker may post its result first. `DrainNeverUnderflows` shows that this is harmless.
- After a panic the gate stays closed, as the source says: `GateReopensIffNoPanic`.

Where a property one would expect fails, its failing inputs and its exact condition are proved:

- Change may be spent before it confirms, so a second note may spend the first one's change.
  Bumping the first then takes the second one's locked input out of the ledger, and the second
  can no longer be bumped: `ParentBumpDropsInput`, and `BumpableIff` for any run.
- A scan may list a superseded change coin, or miss the last one: `FullScanChainIff` and
  `IncrementalScanChainIff` say exactly which scans leave the chain's one change coin in place.
- Bumping a consolidation updates its record and leaves the ledger alone, so the superseded
  coin stays spendable at its old value: `ConsolidationBumpKeepsOldCoin`.
- No warning on the confirm screen does not mean that the inputs cover the outputs. Sums wrap at
  sixty-four bits, so a silent summary may show a fee for outputs worth more than the inputs:
  `SilentOverspend`, and `SilentCoversIff` for every silent summary.
- Two devices that merge each other's state need not agree. Each merge drops a contact the
  other one keeps whenever the live contacts of both exceed the cap (`CapSplits`), and equal
  stamps may leave each its own: `OppositeMergesIff`.
- The device matches an untagged entry loosely and the merge exactly. Touching a contact with an
  untagged entry before its tagged one leaves two of one key: `TouchDoubles`, and
  `OpKeepsDistinctIff` for every operation.
- Removing an untagged entry writes the tombstone under the tagged key, so any device that still
  has the entry brings it back: `UntaggedReturns`, and `RemovedStaysDeadIff` for every entry.
- Past retention a deletion is forgotten, and merging the same state again may bring its contact
  back: `RetentionResurrects`, and `MergeAbsorbsIff` for all states.
- A scrubbed error text may read as a rate limit when it is scrubbed again: `BlankBeforeCode`,
  and `ShownAgainIff` for every text.

Parameters stand for what comes from outside: the clock (`now`), built and decoded transactions,
address parsing and printing (`Codec`), the test for word characters (`WordTest`), which notebooks
the held key can derive (`realizable`), and which jobs panic.

## Model

| member | source | states |
|---|---|---|
| `Netq.Lane.Admit` | app-core/src/netq.rs:88-103 | Admission changes the lane as specified: run when idle, coalesce on a queued key only, otherwise queue under a fresh id. |
| `Netq.Lane.Complete` | app-core/src/netq.rs:110-118 | Completion of the running id promotes the queue head; any other id changes nothing. |
| `NetqRuns.FreshLaneWellFormed` | app-core/src/netq.rs:75-118 | Over any events from a fresh lane: nothing is queued behind an idle lane, ids are consecutive behind the running one, queued keys are distinct. |
| `NetqRuns.AnswerMeans` | app-core/src/netq.rs:88-103 | Run exactly when idle, coalesced exactly when the key is queued, otherwise the next id behind the queue; the running key does not count. |
| `NetqRuns.CompletionMeans` | app-core/src/netq.rs:110-118 | Only the running job's own id completes it; then the oldest waiting job runs, or none. |
| `NetqRuns.StartsAfterExactly` | app-core/src/netq.rs:88-118 | A job queued at position p starts on exactly the (p+1)-th completion, whatever is submitted meanwhile, and then never again. |
| `NetqRuns.RunningUntilDone` | app-core/src/netq.rs:88-118 | Submissions never displace the running job; once completed it does not come back. |
| `NetqRuns.LeftForGood` | app-core/src/netq.rs:57-59 | Ids are never reused: every id in the lane stays above one that has left. |
| `Netq.Lane.Depth` | app-core/src/netq.rs:120-123 | The depth is the number of jobs admitted after the running one. |
| `Gate.ScanGate.AdmitNotebook` | app-core/src/scan_gate.rs:39-41 | Raises the notebook count and nothing else. |
| `Gate.ScanGate.DrainNotebook` | app-core/src/scan_gate.rs:45-47 | Lowers the notebook count, not below zero. |
| `Gate.ScanGate.AdmitSpending` | app-core/src/scan_gate.rs:51-53 | Raises the spending count and nothing else. |
| `Gate.ScanGate.DrainSpending` | app-core/src/scan_gate.rs:57-59 | Lowers the spending count, not below zero. |
| `Gate.ScanGate.SetWalletStores` | app-core/src/scan_gate.rs:75-77 | Sets the wallet-stores slot and nothing else. |
| `ScanLane.ScanLaneState.Submit` | src/pending.rs:143-163 | The submission's lock region; "nothing scheduled" exactly when the lane coalesced. |
| `ScanLane.ScanLaneState.Takeover` | src/pending.rs:188-196 | The worker's lock region after a job, with its two ways out. |
| `ScanLane.ScanLaneState.TakeNext` | src/pending.rs:188-200 | With map and queue paired, the next admitted job is handed over with its closure, or the lane is idle and the map empty. |
| `ScanLane.ScanLaneState.Drain` | src/pending.rs:178-202 | Undisturbed, the worker loop runs every admitted job from its own on, once each and in order, and leaves lane and map empty. |
| `ScanLane.PendingQueue.Push` | src/pending.rs:34-35 | A post goes to the end of the queue. |
| `ScanLane.PendingQueue.TakeAll` | src/pending.rs:43-45 | The whole queue is taken in order and left empty. |
| `ScanLane.UiState.UpdateScanGate` | src/pending.rs:752-763 | The UI flag says whether any of the three signals is up. |
| `ScanLane.UiState.ApplyPost` | src/pending.rs:2272-2277 | A final result releases its own slot; a page never moves the gate. |
| `ScanLane.UiState.ApplyPending` | src/pending.rs:53-57 | The batch is applied completely and in order, and the flag keeps matching the gate. |
| `ScanLane.BatchDrains` | app-core/src/scan_gate.rs:39-77 | Applying a batch lowers each count by its finals of that class and clears the flag iff it holds a wallet-stores result. |
| `ScanInvariant.SubmitKeepsPaired` | src/pending.rs:143-163 | A submission keeps the job map's keys equal to the queued ids. |
| `ScanInvariant.TakeoverKeepsPaired` | src/pending.rs:188-196 | Completing the running job hands over exactly the next admitted job, whose closure is always there. |
| `ScanInvariant.StepKeepsInv` | src/pending.rs:24-202 | Every step of UI thread, workers and posters keeps all parts of the system invariant. |
| `ScanInvariant.ApplyTakesOne` | src/pending.rs:2272-2277 | Applying a final result takes exactly its own scan out of the unapplied ones. |
| `ScanTheorems.JobsRunOneByOne` | src/pending.rs:178-202 | In every interleaving the log of begins and ends is begin 0, end 0, begin 1, end 1, …: no overlap, each admitted job once, in order, panics included. |
| `ScanTheorems.LaneMatchesWorkers` | src/pending.rs:122-202 | Whenever the lock is free, the map's keys are the queued ids, and a job runs exactly when the one worker there is owns it. |
| `ScanTheorems.TakeoverNeverLost` | src/pending.rs:189-196 | The "never observed" break and the stale-id branch cannot be reached. |
| `ScanTheorems.NeverWedged` | src/pending.rs:166-177 | While a job is running, its worker or its submitter can take a step. |
| `ScanTheorems.WorkPerStep` | src/pending.rs:143-202 | A worker step is one unit of work, an admitted submission adds its job's cost, nothing else changes the work left. |
| `ScanTheorems.IdleAfterExactly` | src/pending.rs:178-202 | Once submissions stop the lane is idle exactly after the remaining worker steps, whatever the other threads do. |
| `ScanTheorems.EverySubmissionServed` | app-core/src/netq.rs:19-31 | Run, queued or coalesced, every submission is followed by a run of its key, or one is still waiting to begin; at idle that run has ended. |
| `ScanProgress.KickRefusedIff` | src/pending.rs:829-834 | In every reachable state a kick of any class and key goes through exactly when it is not a spending or wallet-stores scan with one of its class in flight (the other guard is at 2624); callbacks begin whenever none runs. |
| `ScanProgress.RunsSettle` | src/pending.rs:24-202 | Without new work no run of any threads is longer than a bound, and the states in which no thread can step are exactly those where all jobs are over and all posts applied. |
| `ScanProgress.ScansComeThrough` | src/pending.rs:24-202 | From every reachable state there is a run that brings no new work to such a state. |
| `ScanTheorems.GateBalanced` | src/pending.rs:747-763 | Between UI callbacks each count is the number of scans of its class queued, scanning, posted but unapplied, or dead of a panic; at most one for the two guarded classes. |
| `ScanTheorems.SignAllowedIffNothingInFlight` | src/pending.rs:747-763 | Between callbacks the flag is off exactly when no counted scan is in flight. |
| `ScanTheorems.DrainNeverUnderflows` | src/pending.rs:1905-1908 | No drain meets an empty count, even if the result was posted before the gate was raised, and no step but a drain and the submitter's raise moves the gate. |
| `ScanTheorems.GateReopensIffNoPanic` | src/pending.rs:173-177 | At quiescence the gate is open exactly when no counted scan panicked. |
| `ScanTheorems.AppliedInOrder` | src/pending.rs:48-58 | Posts are applied once each in push order; those of lane jobs come job by job in admission order, pages before the final. |
| `ScanTheorems.NoPostStranded` | src/pending.rs:26-38 | A queued post always has a callback scheduled or a poster about to schedule one. |
| `Contacts.MergeContacts` | app-core/src/contacts.rs:179-195 | The contact loop computes the union: later wins, a tie keeps the local one but takes a missing name. |
| `Contacts.MergeTombstones` | app-core/src/contacts.rs:197-209 | The tombstone loop keeps the later deletion per key. |
| `Contacts.Resolve` | app-core/src/contacts.rs:211-227 | The conflict loop keeps a contact iff it is later than its deletion, and lists exactly the beaten keys. |
| `Contacts.RetainUnbeaten` | app-core/src/contacts.rs:228-230 | Deletions of beaten keys go, the others stay in order. |
| `Contacts.RetainRecent` | app-core/src/contacts.rs:232-234 | Deletions past retention go, the others stay in order. |
| `Contacts.MergeState` | app-core/src/contacts.rs:178-245 | The loops of the merge compute the specified state. |
| `ContactsMeaning.LaterContactStays` | app-core/src/contacts.rs:185-190 | Of two contacts the later stays as it is; of two equally late ones the local one, under its own name if it has one. |
| `ContactsMeaning.OnlyContactStays` | app-core/src/contacts.rs:179-195 | A contact that one side has comes through as it is or not at all. |
| `ContactsMeaning.KeptNinetyDays` | app-core/src/contacts.rs:232-234 | A deletion that stands is kept exactly while now is at most 7,776,000,000 milliseconds past it. |
| `ContactsMeaning.FirstHundred` | app-core/src/contacts.rs:236-237 | The first hundred surviving contacts are kept, in order. |
| `ContactsMeaning.TombstonesGoUp` | app-core/src/contacts.rs:239-242 | The merged tombstones go up by address, then by network. |
| `ContactsMeaning.LessMeans` | app-core/src/contacts.rs:239-242 | Text order is by the first character that differs, what begins a text before it. |
| `ContactsRegister.ReconciledAt` | app-core/src/contacts.rs:179-230 | Before collection and cap, each key holds the picked contact or the later deletion, never both. |
| `ContactsRegister.MergeIsRegister` | app-core/src/contacts.rs:179-230 | A key is live iff some contact is later than every deletion, tombstoned iff some deletion is at least as late as every contact; what is left is the latest. |
| `ContactsRegister.MergeKeepsOrder` | app-core/src/contacts.rs:171-173 | Survivors keep the local order, followed by incoming-only ones in theirs. |
| `ContactsMerge.SortedInOrder` | app-core/src/contacts.rs:239-242 | Sorting distinct tombstones gives the strictly ordered list of the same tombstones. |
| `ContactsMerge.MergedWellKept` | app-core/src/contacts.rs:178-245 | Whatever arrives, a merge keeps tombstones distinct and ordered, the list capped, live and deleted keys apart, and a duplicate-free contact list duplicate-free. |
| `ContactsMerge.CutIsIncoming` | app-core/src/contacts.rs:236-237 | What the cap cuts is incoming-only when the local list fits the cap. |
| `ContactsAbsorption.MergeAbsorbsIff` | app-core/src/contacts.rs:178-245 | Merging the same incoming state again changes nothing, element for element, exactly when the first merge filled the list or no key returns: none whose local deletion is past retention and beats both contacts while the incoming state has a contact and no deletion that beats it. |
| `ContactsAbsorption.TombstonesAbsorb` | app-core/src/contacts.rs:197-242 | The tombstone list is always absorbed. |
| `ContactsAbsorption.MergeAbsorbs` | app-core/src/contacts.rs:178-245 | With every local deletion within retention, merging again changes nothing. |
| `ContactsConvergence.MergesConverge` | app-core/src/contacts.rs:144-177 | Any two merge trees over the same states give the same contact per key, the same contacts up to order and the same tombstone list. |
| `ContactsOpposite.MergeCommutesIff` | app-core/src/contacts.rs:185-230 | Before collection and cap, opposite merges leave the same contact under a key exactly when the key dies, only one side holds it, the stamps differ, or the tie differs in nothing but a missing name; they always leave the same deletion. |
| `ContactsOpposite.OppositeMergesIff` | app-core/src/contacts.rs:178-245 | Opposite merges of two states within the cap, whenever each runs, keep the same contacts exactly when the live keys of both fit the cap together and no live key ties in a way that depends on the order. |
| `ContactsOpposite.OppositeMergesAgree` | app-core/src/contacts.rs:178-245 | With the live keys within the cap, sides of any length agree on a key exactly when it does not tie in such a way. |
| `ContactsOpposite.OppositeTombstones` | app-core/src/contacts.rs:197-242 | Opposite merges at one time always leave the same tombstone list. |
| `ContactsOpposite.CapSplits` | app-core/src/contacts.rs:236-237 | Of any two states within the cap whose live keys exceed it together, each merge drops a contact the opposite one keeps: the cap condition is needed. |
| `ContactsOpposite.FullListNeverLearns` | app-core/src/contacts.rs:236-237 | A full list never takes in a new contact; the other side takes it in and drops one of the full list. |
| `ContactsConvergence.RetentionResurrects` | app-core/src/contacts.rs:232-234 | An instance for every contact: a deletion past retention is forgotten, and merging the same state again brings the contact back. |
| `ContactsDevice.Device.TouchContact` | src/lib.rs:1160-1190 | Touching moves or inserts the contact at the front, stamps it, caps the list and forgets the deletion. |
| `ContactsDevice.Device.TakeContact` | src/lib.rs:1162-1166 | The first matching contact is taken out, the others keep their order. |
| `ContactsDevice.Device.NameContact` | src/lib.rs:1198-1211 | Naming restamps in place and forgets the deletion. |
| `ContactsDevice.Device.RemoveContact` | src/lib.rs:1224-1237 | Removing drops the contact and records or restamps its deletion. |
| `ContactsDevice.Device.MergeIncoming` | src/screens/contacts.rs:141-150 | The device takes the merged state over. |
| `ContactsMeaning.FromCloudIsSynced` | src/screens/contacts.rs:141-150 | A contact that only the cloud had is as it was there, and synced. |
| `ContactsDevice.TouchedMeans` | src/lib.rs:1140-1190 | Name, sync choice and key survive a touch, the entry comes under the active network, the others keep their order, and only past the cap is one lost. |
| `ContactsMeaning.TouchKeepsHundred` | src/lib.rs:1160-1190 | A touch keeps the touched contact and the first ninety-nine others. |
| `ContactsDevice.NamedAt` | src/lib.rs:1192-1211 | Naming restamps the first entry the contact stands under and no other, and drops its deletions even when there is no such entry. |
| `ContactsDevice.RemovedAt` | src/lib.rs:1213-1237 | Removing takes away every entry the contact stands under, tagged or not, and records as of now the deletion of the tagged key alone; all else stays as it was. |
| `ContactsDevice.RunsKeepWellKept` | src/lib.rs:1160-1237 | Any run of touch, name, remove and merge keeps deletions distinct, live and deleted keys apart, and the cap; contacts stay duplicate-free throughout exactly when every touch fits. |
| `ContactsDevice.OpKeepsDistinctIff` | src/lib.rs:1160-1237 | Naming, removing and merging never make a duplicate; touching makes one exactly when an untagged entry comes before the tagged one. |
| `ContactsDevice.TouchDoubles` | src/lib.rs:1160-1190 | An instance: an untagged entry ahead of the tagged one is doubled by a touch. |
| `ContactsDevice.TaggedRunsFit` | src/lib.rs:1160-1237 | Without blank tags every touch of every run fits. |
| `ContactsDevice.NoResurrection` | app-core/src/contacts.rs:158-166 | A deletion at d survives any run whose contacts of that key are stamped at most d, within retention, unless the user revives the key. |
| `ContactsCloud.SyncedOnlyHolds` | app-core/src/contacts.rs:92-111 | Every tombstone leaves the device, and exactly the synced contacts, in their order. |
| `ContactsCloud.CloudCopyReveals` | app-core/src/contacts.rs:92-111 | A device merging the cloud copy gets no contact of a key that neither it nor a synced contact here has. |
| `ContactsCloud.RemovedKeyLeaves` | app-core/src/contacts.rs:97-105 | Of a removal the tagged key leaves in its tombstone, whether the contact was synced or not; the key of an untagged entry gets no tombstone. |
| `ContactsCloud.RemovedStaysDeadIff` | src/lib.rs:1213-1237 | Against any other state, a removed contact stays away under a key it stood under exactly when that state has no contact there or deletes it itself, or this device has a late enough deletion of that very key: the new one for the tagged key, only an older one for the blank. |
| `ContactsCloud.UntaggedReturns` | src/lib.rs:1224-1237 | Any untagged entry that is removed comes back from a device that still has it, whatever the stamps. |
| `Ledger.Store.RecordSigned` | app-core/src/store.rs:624-636 | Locks the first coin at each spent outpoint, appends change and note. |
| `Ledger.Store.RecordComposedNote` | app-core/src/compose.rs:394-489 | Records the note pending with its inputs locked and its change only when it returns to the notebook. |
| `Ledger.Store.RecordBumpedNote` | app-core/src/compose.rs:640-668 | Drops every coin of the chain, adds the replacement's own change, renames the record and extends its chain; an unknown id changes nothing. |
| `Ledger.Store.RecordBumpedTx` | app-core/src/compose.rs:740-749 | Updates the first record that knows the txid, or nothing. |
| `Ledger.LockedCoin` | app-core/src/store.rs:624-631 | Locking changes nothing but the lock of the coins it names. |
| `RecordsMeaning.ComposedCoins` | app-core/src/compose.rs:413-422 | Composing makes one coin when there is change and it returns to the notebook, the last output, free to spend; otherwise none. |
| `RecordsMeaning.ComposeAccount` | app-core/src/compose.rs:394-489 | The balance falls by the inputs, less change that returns. |
| `RecordsMeaning.ComposedRecord` | app-core/src/compose.rs:394-489 | One record is added, last, with what was composed. |
| `RecordsMeaning.BumpedCoins` | app-core/src/compose.rs:645-656 | A bump takes every coin of the chain, no other, and makes the replacement's own change if it has one. |
| `RecordsMeaning.BumpAccount` | app-core/src/compose.rs:645-656 | The balance changes by exactly the two. |
| `RecordsMeaning.BumpedRecord` | app-core/src/compose.rs:640-668 | The record gets the new id, its chain one more txid, its bytes, fee and size; without a record nothing happens. |
| `Scans.ConfirmNotes` | app-core/src/store.rs:867-885 | Exactly the pending notes with a txid in a block are confirmed. |
| `Scans.CarryOver` | app-core/src/store.rs:1254-1262 | The loop carries over, once each, the coins of pending transactions the chain has never seen. |
| `Scans.OrphanNotes` | app-core/src/store.rs:1299-1304 | Exactly the notes found to be orphans are marked. |
| `Scans.ReconcileUtxosFull` | app-core/src/store.rs:1215-1316 | The chain's coins, each as locked as it was, then the carried ones; orphans are marked and their outputs dropped. |
| `Scans.MergeUtxosIncremental` | app-core/src/store.rs:1318-1333 | A known coin gets its new height, an unknown one is added unlocked. |
| `Scans.ApplyScan` | app-core/src/store.rs:864-895 | Confirming, then the full or the incremental coins. |
| `Scans.FullScanAt` | app-core/src/store.rs:1210-1316 | After a full scan a coin is there exactly when the chain lists it or it is the change of a pending transaction the chain has never seen, and no orphan made it; a listed coin is locked iff the store had it locked, a carried one is unchanged. |
| `Scans.IncrementalScanAt` | app-core/src/store.rs:1318-1333 | An incremental scan takes nothing away, adds what it lists and changes nothing but heights. |
| `ScansMeaning.CoinAfterFullScan` | app-core/src/store.rs:1229-1262 | Without orphans: a listed outpoint has the listing's value and height and is locked exactly if the store had a coin there locked; an unlisted one is as it was if a pending, unseen note made it, and gone otherwise. |
| `ScansMeaning.NotesAfterFullScan` | app-core/src/store.rs:1274-1304 | A note is confirmed by a block, orphaned exactly when pending, never seen, with all inputs gone and none made by another pending note, and otherwise left alone. |
| `ScansMeaning.NotesAfterIncremental` | app-core/src/store.rs:867-885 | An incremental scan only confirms. |
| `ScansMeaning.OrphansMakeNothing` | app-core/src/store.rs:1305-1315 | When a full scan finds an orphan, no coin of an orphaned note is left and every other coin is. |
| `ScansMeaning.BalanceAfterFullScan` | app-core/src/store.rs:1229-1262 | With nothing locked and no orphan the balance is what the chain lists plus coins of pending notes it has never seen. |
| `ChainCoins.FullScanChainIff` | app-core/src/store.rs:1244-1262 | A full scan keeps the one change coin of a pending note exactly when it lists no output of the chain but the last change, once and at its value, and does not know the last transaction without its change. |
| `ChainCoins.IncrementalScanChainIff` | app-core/src/store.rs:1318-1333 | An incremental scan keeps it exactly when it lists no output of the chain but the last change. |
| `RbfChains.ScanKeepsChangeIff` | app-core/src/store.rs:864-895 | The same for any scan that leaves the note pending, orphan detection included. |
| `RbfChains.BumpChainLaw` | app-core/src/compose.rs:620-668 | Over any run of the note's bumps, between which other notes are composed and bumped, other transactions recorded and bumped and scans applied: the id is the last txid and the record is otherwise as composed. If every scan since the last bump fits, no superseded coin is left and there is one change coin exactly when the last replacement returns change, with its value. Each input has the fate that superseding bumps and scans left it; without scans it is locked as composing left it, or superseded and gone. |
| `RbfChains.BumpableIff` | app-core/src/compose.rs:572-588 | After any such run the ledger holds every input a bump needs exactly when no input was last superseded by another bump, or dropped by a full scan, without a scan listing it since. |
| `RbfChains.SeenInMempool` | app-core/src/store.rs:1269-1304 | A scan that sees the note in the mempool, and recovers nothing new, leaves it pending and as it was. |
| `RbfChains.FullScanDropsInput` | app-core/src/store.rs:1229-1262 | A full scan that neither lists nor carries an input takes it out of the ledger, locked or not, and the note cannot be bumped. |
| `RbfChains.ParentBumpDropsInput` | app-core/src/compose.rs:640-668 | Whenever a note spends a pending note's change, bumping the parent removes the child's locked input and the child cannot be bumped. |
| `Hex.TxidRoundTrip` | app-core/src/compose.rs:403-411 | Recording a txid and building from it are inverse; nothing but 64 hex digits is read. |
| `Hex.TxidReversed` | app-core/src/compose.rs:812-818 | A txid is read from 64 digits, its bytes from the last to the first. |
| `BumpSources.BuildReads` | app-core/src/compose.rs:701-727 | The build reads every input in order with its index, value and reversed txid, and refuses a missing record, an unreadable txid and an unreadable script, in this order. |
| `BumpSources.GroupInputs` | app-core/src/compose.rs:812-823 | The grouping loop succeeds iff every txid can be read, and then each owner's group is that owner's inputs in order, owners in first-seen order. |
| `BumpSources.AssignKeys` | app-core/src/compose.rs:826-839 | Each group is signed by the first identity of its owner; the first group without one is reported. |
| `BumpSources.BumpRawTxMultiBuild` | app-core/src/compose.rs:789-848 | Success exactly when a pending record knows the txid, has one owner per input, can be read and every owner has a key; otherwise the first failure in the source's order. |
| `BumpPartition.GroupsPartition` | app-core/src/compose.rs:810-823 | The groups are a stable partition: owners distinct, each input once, value kept; and the input order is the original one iff the record was built source by source. |
| `BumpRecords.LookupsAgreeIff` | app-core/src/compose.rs:701-707 | The build's and the record's look-ups meet exactly when no settled record before knows the txid; disjoint chains suffice. |
| `BumpRecords.BumpUpdatesWhatWasRead` | src/screens/confirm.rs:1003-1027 | Whatever is bumped, settled or recorded between Sign and the tap on Broadcast, exactly the record the build read is updated, for any txid of its chain, with the new fee, size, value and bytes. |
| `BumpRecords.EveryBumpSpendsTheSame` | app-core/src/compose.rs:685-727 | Every build from a record's chain signs the same inputs to the same script; once settled, none succeeds. |
| `WalletStores.Wallet.SaveStoreFile` | src/pending.rs:1270-1272 | A store is saved exactly when its notebook is listed. |
| `WalletStores.Wallet.Activate` | src/lib.rs:1504-1665 | The file, or a new store, replaces the store in memory. |
| `WalletStores.Wallet.ApplyConsolidation` | src/pending.rs:1216-1293 | Stale and failed results change nothing; otherwise destination, other sources and reload happen as specified. |
| `WalletStores.Wallet.BookDestination` | src/pending.rs:1234-1273 | The destination's store gets the record, its own inputs' locks and the coin, and is saved. |
| `WalletStores.Wallet.BookSources` | src/pending.rs:1274-1287 | Every other source is locked and saved, in the snapshot's order; a missing store is skipped. |
| `WalletStores.LockCoins` | src/pending.rs:1279-1283 | Each outpoint locks the first coin it names, if there is one. |
| `WalletStores.Wallet.ApplySweep` | src/pending.rs:1062-1117 | Stale and failed results change nothing; otherwise coins are locked in memory or on file and the record is saved with the open store. |
| `WalletOutcomes.ConsolidationResult` | src/pending.rs:1216-1293 | A result books exactly when it is good and of this wallet; then the total falls by the fee and the reload difference, by the fee alone exactly under the condition on the open notebook; otherwise nothing changes. |
| `WalletOutcomes.ConsolidationBooks` | src/pending.rs:1234-1287 | What a good result leaves in every listed notebook: locks, coin and every field of the record. |
| `WalletOutcomes.ConsolidationWithoutKey` | src/pending.rs:1234-1293 | Without the key, or for a destination it does not yield, nothing is booked there, sources are locked on file all the same, and the activated notebook is reloaded if its key is there. |
| `WalletOutcomes.UnlistedUntouched` | src/pending.rs:1270-1287 | A notebook whose file is not known gets none, but for the activated one. |
| `WalletOutcomes.SweepResult` | src/pending.rs:1062-1117 | A sweep's result is dropped when another notebook is open or the broadcast failed; a good one adds one record, every field stated, to the open notebook, locks its inputs there and saves it. |
| `WalletOutcomes.SweepLocks` | src/pending.rs:1071-1092 | Every listed notebook has exactly its named inputs locked, and only the open one a new record. |
| `WalletConservation.LockingLowers` | app-core/src/store.rs:617-619 | Locking distinct spendable coins lowers the balance by exactly their value. |
| `WalletConservation.ConsolidatedAt` | src/pending.rs:1227-1293 | What each listed notebook's store is after a consolidation, whichever is open, source or destination. |
| `WalletConservation.ConsolidationAccount` | src/pending.rs:1227-1293 | The spendable total falls by the fee, plus or minus what reloading an untouched open notebook changes. |
| `WalletConservation.ConsolidationConservesIff` | src/pending.rs:1227-1293 | It falls by exactly the fee iff the open notebook takes part, is not listed, or agrees with its file. |
| `WalletConservation.ReloadDropsUnsavedPage` | src/pending.rs:1288-1293 | A concrete wallet in which an unsaved page is lost from the balance. |
| `WalletConservation.ConsolidationLocksExactly` | src/pending.rs:1234-1293 | Every listed notebook's coin list afterwards: the one before with exactly the listed inputs locked and, at the destination, one coin at its end; only the destination gets the record; an open notebook that takes no part has its file's coins. |
| `WalletConservation.ConsolidationCanBeBumped` | src/pending.rs:1234-1269 | The booked record is found by its txid, reads back the snapshot's inputs, owners and script, and balances against the coin that was added. |
| `WalletConservation.ConsolidationBumpKeepsOldCoin` | app-core/src/compose.rs:740-749 | Bumping the booked consolidation renews the record and not the ledger: the superseded coin stays at its old value, the replacement has none, and the balance is too high by the raise of the fee. |
| `WalletConservation.SweepAccount` | src/pending.rs:1071-1117 | A sweep always lowers the total by exactly its notebook inputs. |
| `OpReturn.PayloadRoundTrip` | notes-core/src/tx.rs:216-252 | A payload is read back iff it is not empty and its length fits sixteen bits. |
| `OpReturn.PayloadIsPushed` | notes-core/src/tx.rs:236-252 | What is read is the end of the script behind a push of two to four bytes. |
| `OpReturn.PayloadIff` | notes-core/src/tx.rs:236-252 | What is read, exactly: one push of up to 75 bytes, or behind 0x4c or 0x4d with its length; the shortest is not asked for. |
| `Confirm.SummarizeSignedTx` | app-core/src/confirm.rs:130-322 | One row per input and output in order, totals and fee in wrapped sums, every warning in turn. |
| `Confirm.TooEarly` | app-core/src/confirm.rs:146-156 | A warning exactly for a height lock above a known tip. |
| `Confirm.InputRows` | app-core/src/confirm.rs:186-211 | The input loop: rows in order, the wrapped sum, and whether a prevout is missing. |
| `Confirm.OutputRows` | app-core/src/confirm.rs:224-286 | The output loop: rows in order, the wrapped sum, the warnings in order. |
| `Confirm.OneOutput` | app-core/src/confirm.rs:227-285 | Kind and warning of one output, recipients before own scripts before the chosen change. |
| `Confirm.FeeOf` | app-core/src/confirm.rs:288-308 | A fee only when it can be computed; the two money warnings otherwise. |
| `Confirm.RecipientFound` | app-core/src/confirm.rs:164-181 | A script counts as recipient iff a listed address, or without a list the one recipient, resolves to it. |
| `Confirm.KindExactly` | app-core/src/confirm.rs:265-285 | An output's kind, said without the order of the tests, and the name or number of the first listed recipient it pays. |
| `Confirm.SilentIff` | app-core/src/confirm.rs:130-322 | No warning iff every prevout is known, wrapped outputs do not exceed wrapped inputs, every other output is an OP_RETURN or decodes and is recognized, and a height lock is met at a known tip. |
| `Confirm.SilentBooksBalance` | app-core/src/confirm.rs:287-296 | A silent summary shows a fee, and inputs are fee plus the note, recipient, self and change rows exactly when both sums wrapped equally often. |
| `Confirm.SilentCoversIff` | app-core/src/confirm.rs:287-308 | For a silent summary true outputs do not exceed true inputs iff their sum wrapped no more often, in particular whenever the outputs' sum fits sixty-four bits. |
| `Confirm.SilentOverspend` | app-core/src/confirm.rs:287-308 | An instance: 1000 in, outputs of 2^64 - 1 and 501, no warning and a fee of 500. |
| `ConfirmMeaning.InputsAddUp` | app-core/src/confirm.rs:186-213 | The input total is the amounts shown, added in sixty-four bits, if every input shows one; otherwise there is none. |
| `ConfirmMeaning.OutputsAddUp` | app-core/src/confirm.rs:224-286 | The output total is the amounts shown, added alike. |
| `ConfirmMeaning.FeeIsDifference` | app-core/src/confirm.rs:287-308 | The fee is the difference of the totals, if there are two and it is not negative. |
| `ConfirmMeaning.InputRowMeans` | app-core/src/confirm.rs:186-211 | An input's row: its coin's value, source and address, or unknown. |
| `ConfirmMeaning.EncryptedIff` | app-core/src/confirm.rs:215-223 | Notes count as encrypted exactly when the first OP_RETURN output's payload has a private header. |
| `ConfirmMeaning.NoteRowMeans` | app-core/src/confirm.rs:227-250 | An OP_RETURN output's row: a note if the payload begins with PNTE, else data; decoded unless encrypted; a value only if there is one. |
| `ConfirmMeaning.PaidRowMeans` | app-core/src/confirm.rs:251-285 | Title, amount and warning of every other output. |
| `ConfirmMeaning.CaptionMeans` | app-core/src/confirm.rs:265-285 | The caption and kind of an output that pays no recipient, dust up to 546. |
| `ConfirmMeaning.LockMeans` | app-core/src/confirm.rs:138-156 | Up to 499,999,999 a lock is a height; only a height above a known tip is warned of. |
| `ConfirmMeaning.WarningsInOrder` | app-core/src/confirm.rs:130-322 | Lock time first, then the outputs in order, then the money. |
| `Utf8.BoundaryIff` | src/editops.rs:10-16 | In valid text the one-byte test finds exactly the places where it falls into two valid texts. |
| `Utf8Scalars.ValidIff` | src/editops.rs:10-16 | The texts the editor works on are exactly the encodings of sequences of scalar values. |
| `EditOps.ClampBoundary` | src/editops.rs:10-16 | The loop finds the greatest boundary at or below the offset. |
| `EditOps.Splice` | src/editops.rs:28-35 | The buffer holds the text with the clamped range replaced. |
| `EditOps.SpliceUndone` | src/editops.rs:17-35 | For all offsets slice and splice keep text valid, and splicing the slice back restores it. |
| `EditOps.EitherWay` | src/editops.rs:17-35 | A selection dragged backwards slices and splices as the same selection forwards. |
| `EditOps.WordStart` | src/editops.rs:37-54 | Walks back over word characters to one that is none; off a word, nowhere; the result cast to thirty-two bits. |
| `EditOps.WordEnd` | src/editops.rs:55-75 | Walks on over word characters; off a word, over the one character under the cursor; the result cast to thirty-two bits. |
| `EditOps.WordSelectedFromAnywhere` | src/editops.rs:37-75 | The two ends bound a maximal run, and every offset in its closed range finds the same two. |
| `Text.WordsOfJoin` | src/util.rs:229 | Splitting joined words gives the words back. |
| `NetErr.ShownIsClean` | src/util.rs:205-238 | For every server text: not empty, at most 123 characters, no tag opens. |
| `NetErr.ShownMeans` | src/util.rs:212-238 | Text that begins with either code shows the busy answer; other text its collapsed start, cut at 120, or the other answer if nothing is left. |
| `NetErr.CutAtTag` | src/util.rs:225-228 | The start ends at the first tag and holds none. |
| `NetErr.CollapsingOpensNoTag` | src/util.rs:221-229 | Collapsing white space never opens a tag. |
| `NetErr.ShownKeepsWords` | src/util.rs:221-238 | Text is shown word for word up to its first tag, or cut to 120 characters and marked. |
| `NetErr.ShownAgainIff` | src/util.rs:212-238 | Showing a shown text changes nothing exactly when the server's text is a rate limit or is none even with its white space collapsed; otherwise it turns into the rate-limit answer. |
| `NetErr.BlankBeforeCode` | src/util.rs:219-229 | The failing texts: a blank before anything that reads as a rate limit. |
| `Descriptors.ScanPattern` | src/util.rs:498-510 | The scan for one pattern terminates and adds exactly the new tokens, in order. |
| `Descriptors.ExtractAllDescriptors` | src/util.rs:494-516 | The scan terminates and returns the specified tokens. |
| `Descriptors.DescriptorsComplete` | src/util.rs:491-517 | Distinct tokens, each from a hit to the next delimiter, and every occurrence of either pattern lies inside one; the trimmed text when there is none. |
| `Descriptors.TokenMaximal` | src/util.rs:502-506 | A token holds no delimiter and ends at one or at the end of the text. |
| `Descriptors.TokenMeans` | src/util.rs:498-506 | A token begins with a pattern, holds no quote, comma, brace or white space, and ends before one or with the text. |
| `Descriptors.TokensExactly` | src/util.rs:494-516 | The tokens are exactly those at the first hit of each undelimited run, per pattern, those of `tr(` first. |
| `Descriptors.TrimMeans` | src/util.rs:495 | Trimming takes white space off both ends and nothing else. |

## Left out

- User interface, windows, timers, toasts, log lines, navigation and the network-activity dot: presentation only; of the UI only the busy flag is modelled.
- Network clients and the fetching of scans: a scan job is some page posts, then one final post, or a panic.
- Scans.ApplyScan: what decoding a bundle leaves of the notes (recovered, filled in, pruned) is a parameter, as are its tip and time; block heights and times of notes are not modelled.
- Failure to schedule a callback after the event loop has ended, and a poisoned mutex: the process is then shutting down.
- Slicing a key to 24 bytes for a log line, which can panic on a key with a wide character at that place.
- Counter widths: the gate counters, job ids and ledger amounts are unbounded numbers; `Confirm` models sixty-four bit wrap-around.
- Transaction builders, signatures, key derivation, sealing, and the choice of lock time: txids are opaque values that are new when the source makes them so.
- Ledger.Store.RecordComposedNote: the note's text, attachments, password and post-quantum layers and the contact it touches are not modelled.
- Guards and fee arithmetic of the note bump's build step (`bump_fee_build`).
- JSON files and the cloud slot: convergence is stated for merged states.
- ScanLane.ScanLaneState.Drain: states the loop undisturbed by further submissions; interleaving is in `ScanSystem`.
- ScanLane.UiState.ApplyPending: states a batch whose closures submit nothing themselves; closures that do are in `ScanSystem`.
- WalletStores.Wallet.ApplySweep: the spending wallet's own coin cache, pruned and scanned again, is not part of this model.
- WalletStores.Wallet.Activate: does not model the notebook index it reads again, the settings it copies into the store, or a failing disk write.
- Confirm.SummarizeSignedTx: starts from the decoded transaction; the fee-rate text, the txid and the glyphs of a note's bytes are not modelled, a header's private flag is a parameter, and outpoints are keys instead of their text.
- NetErr.ShownIsClean: offsets count characters instead of bytes.
- Descriptors.DescriptorsComplete: offsets count characters instead of bytes.
