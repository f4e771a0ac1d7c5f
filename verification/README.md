# Tacenta: durability, inventories, bounded queues and canonical formats, verified

This project models five parts of Tacenta in Dafny and proves what they are for.

* **The durable coordinator and its write fence.** `Fence` is the latching, generation-fenced
  handle over a compare-and-write store; `Coordinator`, `Attaching`, `GroupClient` and `GroupSends` are the coordinators that
  commit ratchet state through it before a ciphertext leaves; `OperationSnapshot` is the file they
  commit; `Delivery` is how events reach the caller. Any number of coordinators, crashes,
  reopenings, and writes that fail, land unknown or are lost unknown are steps of the machines.
* **Hosted device inventories.** `Inventory` and `InventoryRules` hold the lifecycle rules, `InventoryCodec` the stored
  bytes, `InventoryTx` and `InventorySerial` the transactions interleaving statement by statement
  under Read Committed (section 13.2.1 of the PostgreSQL documentation), and `InventoryStore` the
  in-memory store and its agreement with the database one.
* **Bounded retention.** `Outbox`, `OutboxRules` and `OutboxCodec` (control handoffs), `DeferredRosters` (controls
  waiting for their predecessor), `RateLimit` and `SignIn` (the sign-in limiter): each is compared
  with a record that forgets nothing.
* **Group wire formats.** `Wire`, `WireFormats`, `WireRules` and `WireReader` are the seven canonical codecs of
  sections 5 to 11 of spec/group-wire-formats.md.
* **The account snapshot.** `Codec`, `Sections`, `Persist`, `PersistRoundTrip` and `PersistRules`,
  and `AccountLife` and `AccountRules` for the account operations whose stores it keeps.

`Bytes` and `Order` hold the integers, parsers, orders and counting the others share.

State machines are functions `Apply` on a world and a step, and `Run` on a sequence of steps; a
main result is a statement about `Run(steps)` for every sequence. Code that updates fields is a
class whose methods are proved to compute the functions the machines are made of. What the code
calls and this model does not look into (commitments, key checks, the core's validation, payload
decoding, UTF-8, a credential check, the outcome of a write) is a function value or an argument, and
everything is proved for all of them.

Where code and documentation differ, the model follows the code: the comment in `persist.rs` that a
key's label is never empty is not enforced by the code, `receive` counts no loss when no
receiver is attached, and attaching a group asks for the store's latch but not for the
coordinator's freeze. Each has a lemma that says exactly when the promise holds
(`SameStoreExactly`, `UnattachedExactly`, `AttachLaw`) and one with an input that breaks it
(`EmptyLabelIsLost`, `UnattachedReceivePassesALoss`, `FrozenAttachSendsAPositionTwice`).

## Model

| member | source | states |
|---|---|---|
| Fence.InnerStore.CommitWhenAt | crates/tacenta-client/src/operation_store.rs:215-224 | a write is refused unless the durable generation is the expected one, and otherwise lands or not with the outcome the platform reports |
| Fence.DurableStore.Next | crates/tacenta-client/src/operation_store.rs:359-361 | the next generation is above the caller's and above every generation this handle offered or saw; there is none exactly when the counter is exhausted |
| Fence.DurableStore.Commit | crates/tacenta-client/src/operation_store.rs:335-348 | a latched handle forwards nothing to the store; any write that does not commit latches; only a commit moves what the handle observed |
| Fence.DurableStore.Adopt | crates/tacenta-client/src/operation_store.rs:323-332 | the new handle is unlatched, has seen exactly what was recovered, and has neither mark lowered |
| Fence.DurableStore.Recover | crates/tacenta-client/src/operation_store.rs:350-353 | an unreadable store changes nothing; a readable one is adopted whole |
| Fence.DurableStore.RecoverNotBehind | crates/tacenta-client/src/operation_store.rs:310-321 | a snapshot older than one committed is refused and leaves the handle latched with its marks unchanged |
| Fence.StepKeeps | crates/tacenta-client/src/operation_store.rs:310-361 | every opening, closing, recovery and publication keeps the chain invariant of all handles |
| Fence.CommitsFormOneChain | crates/tacenta-client/src/operation_store.rs:323-361 | over every interleaving of handles on a store that does not go back, landed generations strictly increase, each commit overwrites exactly the snapshot its writer last saw, a handle never offers a generation twice, and a latched handle reaches nothing |
| Fence.OlderThanCommittedLatches | crates/tacenta-client/src/operation_store.rs:310-321 | a recovery in the machine that meets something older than the handle committed latches it and adopts nothing; any other lifts the latch and adopts what is there |
| Fence.NoFalseRollback | crates/tacenta-client/src/operation_store.rs:310-321 | a store that never goes back is never taken for one that did |
| OperationSnapshot.Encode | crates/tacenta-client/src/operation_store.rs:60-87 | the buffer it fills is the layout of the snapshot, and it gives none exactly when a length does not fit four bytes |
| OperationSnapshot.Decode | crates/tacenta-client/src/operation_store.rs:95-155 | walking the cursor computes the parse of the layout, of either version |
| OperationSnapshot.AcceptedExactly | crates/tacenta-client/src/operation_store.rs:60-155 | bytes are accepted as a snapshot exactly when they are its layout, or its version-one layout and it has no group controls |
| OperationSnapshot.FileBytes | crates/tacenta-client/src/operation_store.rs:60-87 | the file field by field: tag, version, generation, provider and application state behind their lengths, the four lists behind their counts, the cursor |
| OperationSnapshot.HeaderExactly | crates/tacenta-client/src/operation_store.rs:394-408 | the header gives a generation exactly when the tag, a known version and the eight bytes of that generation are there |
| OperationSnapshot.HeaderAgrees | crates/tacenta-client/src/operation_store.rs:394-408 | for every accepted file the thirteen-byte header gives the generation of the full decode |
| OperationSnapshot.TornIsRefused | crates/tacenta-client/src/operation_store.rs:95-155 | every proper prefix of an accepted file is refused |
| OperationSnapshot.OldTagIsUnreadable | crates/tacenta-client/src/operation_store.rs:60-155 | a snapshot value that still carries version one encodes to bytes no decode accepts |
| GroupClient.CommitProviderState | crates/tacenta-client/src/group_operations.rs:1801-1813 | publishes the caller's snapshot with a new provider state under a fresh generation, or changes nothing the caller keeps |
| GroupClient.GroupClient.SendDirect | crates/tacenta-client/src/group_client.rs:649-667 | a ciphertext is put on the wire only after the store holds the advanced state; a failed export leaves the store untouched, and a send that could not export or commit leaves the coordinator frozen on its old snapshot; which of the five results is returned follows from the freeze, the export, the commit and the relay |
| GroupClient.GroupClient.Recover | crates/tacenta-client/src/group_client.rs:618-644 | the coordinator runs again exactly when a snapshot no older than any it committed was read and restored and every commit of the group's rebuild succeeded; every failure leaves it frozen |
| GroupClient.GroupClient.Rebuild | crates/tacenta-client/src/group_client.rs:1521-1546 | the held controls are committed one after another on the recovered snapshot up to the first commit that does not succeed, and the provider state is not touched |
| GroupClient.RecoverIsSteps | crates/tacenta-client/src/group_client.rs:618-644 | a recovery is read, restore, the commits of the rebuild and (only then) done of the machine, with the same handle, store and snapshot |
| GroupClient.SendDirectIsThreeSteps | crates/tacenta-client/src/group_client.rs:649-667 | a direct send is encrypt, commit and (only then) dispatch of the machine, with the same store and handle |
| GroupSends.GroupSendIsRecorded | crates/tacenta-client/src/group_client.rs:1021-1066 | a group ciphertext is committed together with the ratchet state that made it: after a commit the store holds both and the bytes can be sent; without one the coordinator is on its old snapshot, and frozen if a generation was left |
| GroupSends.ItemIsCommitted | crates/tacenta-client/src/group_client.rs:778-800 | a received item is committed with the provider state it left, or the coordinator is frozen on its old snapshot |
| GroupSends.FailedRestoreStaysFrozen | crates/tacenta-client/src/group_client.rs:618-644 | a provider that does not take the recovered state leaves the coordinator frozen and the store untouched |
| GroupSends.AttachingDropsThePending | crates/tacenta-client/src/group_client.rs:537-606 | attaching gives up a ciphertext that was not committed: no later commit is about it |
| GroupSends.RecordedStays | crates/tacenta-client/src/group_client.rs:1071-1098 | over every run: once the store holds a group ciphertext it holds it through every crash, reopening, recovery, lost or unknown write and other coordinator, until a commit is asked to drop it |
| GroupSends.RecordedCanBeSent | crates/tacenta-client/src/group_client.rs:1071-1098 | whoever opens on the store then can send exactly those bytes |
| Coordinator.OpenReadKeeps | crates/tacenta-client/src/group_client.rs:381-397 | reading the store to open keeps the invariant: what landed accounts for every ciphertext, and every coordinator at work holds what it last saw |
| Coordinator.OpenFinishKeeps | crates/tacenta-client/src/group_client.rs:386-411 | so does finishing an opening, with the stored provider state or on an empty store, whatever the write does |
| Coordinator.EncryptKeeps | crates/tacenta-client/src/group_client.rs:649-660 | so does an encryption that advances the ratchet in memory |
| Coordinator.CommitPendingKeeps | crates/tacenta-client/src/group_client.rs:658-662 | so does the commit that follows it, whatever the outcome of the write |
| Coordinator.CommitOtherKeeps | crates/tacenta-client/src/group_operations.rs:76-88 | so does any other commit of a running or rebuilding coordinator |
| Coordinator.DispatchKeeps | crates/tacenta-client/src/group_client.rs:663-667 | so does putting on the wire what a commit made ready or the snapshot retains |
| Coordinator.RecoverReadKeeps | crates/tacenta-client/src/group_client.rs:618-630 | so does reading the store to recover |
| Coordinator.NoPositionIsSentTwice | crates/tacenta-client/src/group_client.rs:381-667 | over every run of any number of coordinators on one store that does not go back, in which no attaching lands a snapshot behind what is accounted for, two ciphertexts sent at one ratchet position are one encryption, and every position sent was durable first |
| Coordinator.AttachKeeps | crates/tacenta-client/src/group_client.rs:537-606 | attaching a group, which asks for the store's latch and not for the coordinator's freeze, keeps the invariant of all coordinators when it cannot land, or its snapshot is past every ciphertext sent or held by another open client |
| Coordinator.LandsExactly | crates/tacenta-client/src/group_client.rs:537-606 | it lands exactly when it changes what the snapshot holds, the store is not latched and still holds what the coordinator last saw, a generation is left and the write reaches the medium |
| Coordinator.UnfrozenAttachIsSound | crates/tacenta-client/src/group_client.rs:436-438 | that holds whenever the coordinator is not frozen, and inside a recovery |
| Attaching.AskingFirstIsSafe | crates/tacenta-client/src/group_client.rs:537-606 | so over every run whose callers check the freeze before they attach, no position is sent twice and each was durable first |
| Attaching.AttachLaw | crates/tacenta-client/src/group_client.rs:537-606 | exactly when attaching is safe: no continuation that attaches nothing further sends a position twice, if and only if it cannot land or its snapshot is past every ciphertext that was sent or that another open client can still send |
| Attaching.SentIsSentAgain | crates/tacenta-client/src/group_client.rs:537-644 | landing behind a ciphertext already sent is continued to a run that sends its position again |
| Attaching.HeldIsSentAgain | crates/tacenta-client/src/group_client.rs:537-644 | landing behind a ciphertext another client holds, ready, retained, read to recover or read to open, is continued to a run that sends it and then its position again |
| Attaching.FrozenAttachSendsAPositionTwice | crates/tacenta-client/src/group_client.rs:537-644 | a run from the start that breaks the law: a control is held in the snapshot, another coordinator sends, a failed recovery lifts the latch, and attaching applies the control and publishes the old provider state |
| GroupClient.NeverRunsOnAnOlderSnapshot | crates/tacenta-client/src/group_client.rs:618-644 | however its store is replaced under it, a coordinator is frozen or works from the newest snapshot it committed or recovered |
| GroupClient.BehindStoreFreezes | crates/tacenta-client/src/operation_store.rs:310-348 | while the store holds something older, no step changes it, and the first recovery, or commit that can take a new generation, that meets it freezes the coordinator; the same for an emptied store unless a group is attached |
| GroupClient.BehindStoreKeepsItFrozen | crates/tacenta-client/src/operation_store.rs:310-348 | and a frozen coordinator stays frozen for as long as that lasts |
| GroupClient.SoloSends | crates/tacenta-client/src/group_client.rs:649-667 | between advancing and committing the coordinator is frozen; it runs on what it committed, or stays frozen on the snapshot it had |
| GroupClient.SoloAttaches | crates/tacenta-client/src/group_client.rs:1521-1546 | attaching commits through the handle on the snapshot held and thaws nothing |
| GroupClient.SoloRecoversExactly | crates/tacenta-client/src/group_client.rs:618-644 | whatever the store now holds, a recovery ends unfrozen if and only if it can be read, is taken and is no older than what this coordinator committed, and then runs on exactly that |
| Delivery.PushBounded | crates/tacenta-client/src/group_operations.rs:2602-2607 | what is kept is a suffix of what was there and then the new record, at most sixty-four in all, and something is dropped only to leave exactly sixty-four |
| Delivery.BoundedTwice | crates/tacenta-client/src/group_operations.rs:2602-2637 | pushing one at a time or all at once keeps the same records |
| Delivery.UndeliveredEvents | crates/tacenta-client/src/group_operations.rs:2666-2687 | an id is offered again if and only if some record keeps that event with its context and the cursor is not past it; each once, ascending |
| Delivery.AdvanceCursor | crates/tacenta-client/src/group_operations.rs:2692-2719 | after the cursor moves, an event keeps its context if and only if it had it and is at or above the cursor; every record is as it was or has only lost its context |
| Delivery.PartitionOfIssued | crates/tacenta-client/src/group_client.rs:700-727 | every issued id is exactly one of acknowledged, offered or lost, and the reported loss is the exact count of the last |
| Delivery.ItemCommitKeeps | crates/tacenta-client/src/group_client.rs:778-800 | a commit inside a receive, landed or not, keeps the delivery invariant |
| Delivery.EndKeeps | crates/tacenta-client/src/group_client.rs:743-759 | the end of a completed receive keeps it too |
| Delivery.CursorPassesOnlyHandedOver | crates/tacenta-client/src/group_client.rs:682-800 | over every run with crashes, failed commits and partial batches the cursor passes only events a completed receive offered or reported lost, and the relay acknowledgement covers only a prefix of settled items |
| Delivery.FrozenOrCurrent | crates/tacenta-client/src/group_client.rs:682-800 | over every run a client that is not frozen works on what is on disk, and a receive goes on exactly while its client is not frozen |
| Delivery.AnswersExactly | crates/tacenta-client/src/group_client.rs:743-759 | a receive under way gives no answer exactly when its first item already failed; nothing is then handed over |
| Delivery.FailureFreezesUntilRecovery | crates/tacenta-client/src/group_client.rs:728-800 | an item that fails stops the receive and freezes the client with the disk untouched; a recovery resumes from what is on disk |
| Delivery.OffersMeans | crates/tacenta-client/src/group_operations.rs:2666-2687 | an id can be offered if and only if some record is that event with its context and the cursor is not past it |
| Delivery.BeginsWithTheKept | crates/tacenta-client/src/group_client.rs:700-727 | an attached receive begins offering exactly the kept events at or above the cursor, and counts as lost exactly the issued ones there that no record keeps |
| Delivery.KeptIsHandedOver | crates/tacenta-client/src/group_client.rs:700-758 | an event still kept when an attached receive begins is handed over by it once it completes, whatever it commits and however it stops |
| Delivery.AcknowledgedIsPassed | crates/tacenta-client/src/group_client.rs:682-758 | after an undisturbed receive and its acknowledgement the cursor is at what was issued and no context is kept |
| Delivery.UnattachedExactly | crates/tacenta-client/src/group_client.rs:707-727 | an unattached receive lets the cursor reach only what was offered or reported lost if and only if every event between the cursor and the last one it can offer is still there to be offered or was handed over before |
| Delivery.UnattachedFirst | crates/tacenta-client/src/group_client.rs:707-727 | where nothing past the cursor was handed over before, that is that no event there is gone |
| Delivery.UnattachedReceivePassesALoss | crates/tacenta-client/src/group_client.rs:707-758 | a run of receives of at most thirty-two items, dropped before they return, after which an unattached receive lets the cursor pass an event nobody was told of |
| Inventory.FindOldest | crates/tacenta-accounts/src/inventory.rs:340-354 | the loop finds the first revocation with the lowest terminal generation |
| Inventory.CompactRevocations | crates/tacenta-accounts/src/inventory.rs:340-354 | the loop drops oldest first down to eight, raising the floor to what it drops |
| Inventory.StepRemembers | crates/tacenta-accounts/src/inventory.rs:193-354 | every request, applied or refused, keeps an inventory in step with the full log of revocations |
| Inventory.ReplaceRemembers | crates/tacenta-accounts/src/inventory.rs:261-285 | a replacement that goes through keeps the inventory in step with the log, which grows by the retired binding; that binding is still remembered, and the replacement is active and shares neither id nor key with it |
| Inventory.ReachableInventories | crates/tacenta-accounts/src/inventory.rs:193-354 | in every inventory reachable from empty: generation counts the applied mutations, ids and keys are used once across active and remembered bindings, the revocations are exactly the eight newest of the log, and the floor is the terminal generation of the newest forgotten one |
| Inventory.ReplacementIsApartFromRetired | crates/tacenta-accounts/src/inventory.rs:261-338 | compaction never drops the binding just retired, so a replacement reuses neither its id nor its key |
| InventoryRules.LinkExactly | crates/tacenta-accounts/src/inventory.rs:193-224 | a link goes through exactly when its key is good, it names no predecessor binding, the generation it names is the current one and not the last, its id and key are in no active or remembered binding, and the core takes the result: one generation on, the binding added, nothing else changed |
| InventoryRules.RevokeExactly | crates/tacenta-accounts/src/inventory.rs:229-257 | the same for a revocation: the binding leaves the active ones and is remembered under the new generation; past eight the oldest are forgotten and the floor rises to them |
| InventoryRules.ReplaceExactly | crates/tacenta-accounts/src/inventory.rs:261-285 | the same for a replacement: a revocation, then an addition checked against what that left, whose predecessor is the commitment of the retired binding |
| InventoryRules.AppliesAtItsPredecessor | crates/tacenta-accounts/src/inventory.rs:193-285 | every rule that succeeds found the generation it names and leaves the next |
| InventoryRules.LinkRefusal | crates/tacenta-accounts/src/inventory.rs:193-224 | which refusal a link gives: the first of its rules that is broken, in their order |
| InventoryRules.RevokeRefusal | crates/tacenta-accounts/src/inventory.rs:229-257 | the same for a revocation |
| InventoryRules.ReplaceRefusal | crates/tacenta-accounts/src/inventory.rs:261-285 | the same for a replacement |
| InventoryCodec.EncodeInventory | crates/tacenta-accounts/src/inventory.rs:138-153 | the buffer it fills is the layout |
| InventoryCodec.StoredStateExactly | crates/tacenta-accounts/src/inventory.rs:138-191 | a row decodes to an inventory exactly when the inventory is within its bounds and the row is its encoding |
| InventoryCodec.InventoryExtends | crates/tacenta-accounts/src/inventory.rs:155-191 | what is read does not depend on what follows |
| InventoryCodec.RequestsTell | crates/tacenta-accounts/src/inventory.rs:357-399 | no two different requests, of one operation or of two, have the same bytes |
| InventoryTx.CommittedIsUntouched | crates/tacenta-accounts/src/inventory_tx.rs:283-290 | no statement but the commit changes what is committed |
| InventoryTx.StepKeeps | crates/tacenta-accounts/src/inventory_tx.rs:119-171 | every statement of every transaction keeps the database explained by the committed mutations |
| InventoryTx.CommittedStatesAreAChain | crates/tacenta-accounts/src/inventory_tx.rs:119-171 | with the compare-and-set alone, over every interleaving, committed states form a chain in which each is its rule applied to the one before, and the database holds nothing else |
| InventoryRules.NoPredecessorIsUsedTwice | crates/tacenta-accounts/src/inventory_tx.rs:119-171 | over every interleaving the k-th committed mutation names generation k as its predecessor, so no two committed mutations name the same one |
| InventorySerial.StepSerial | crates/tacenta-accounts/src/inventory_tx.rs:119-171 | under the account lock one transaction at a time is past it, its read is still current and its key still unrecorded |
| InventorySerial.NoCompareAndSetIsRefused | crates/tacenta-accounts/src/inventory_tx.rs:355-374 | with the account lock the compare-and-set never refuses |
| InventorySerial.OneResultPerKey | crates/tacenta-accounts/src/inventory_tx.rs:135-149 | under one retry key one request succeeds, and every success reports the same result |
| InventorySerial.RetryIsAnswered | crates/tacenta-accounts/src/inventory_tx.rs:135-171 | over every run and every continuation of it, however calls wait and interleave: a call under the key of a committed mutation that had not yet looked for its key is still waiting, or ended with the committed result (same request), a conflict (another request) or a backend failure; the mutation keeps its place in the log; and no statement of the call changes a row |
| InventorySerial.RetryAloneIsAnswered | crates/tacenta-accounts/src/inventory_tx.rs:135-149 | and with nobody in its way it is answered at once, so or with the conflict |
| InventorySerial.UninterruptedIsMutate | crates/tacenta-accounts/src/inventory_tx.rs:119-171 | the statements of one transaction, uninterrupted, amount to one mutation of the rows |
| InventorySerial.EveryRunIsSerial | crates/tacenta-accounts/src/inventory_tx.rs:119-171 | whatever the interleaving and the failures, the rows are what the committed mutations leave when run one after another |
| InventorySerial.WithoutTheLockAKeyAppliesTwice | crates/tacenta-accounts/src/inventory_tx.rs:216-219 | a race without the lock in which one retry key takes effect twice |
| InventoryStore.Accounts.LinkDeviceBinding | crates/tacenta-accounts/src/lib.rs:592-640 | a recorded retry is answered from the record of whichever operation, anything else runs the rule; a key is recorded once |
| InventoryStore.Accounts.ApplyLifecycleMutation | crates/tacenta-accounts/src/lib.rs:688-750 | the same for revoke and replace |
| InventoryStore.AccountConfigIsLawful | crates/tacenta-accounts/src/inventory.rs:107-191 | stored rows round-trip exactly the inventories the core validates |
| InventoryStore.RuleIsChecked | crates/tacenta-accounts/src/inventory.rs:193-285 | no rule returns an inventory the core would refuse |
| InventoryStore.CallAgrees | crates/tacenta-accounts/src/lib.rs:592-750 | one call gets the same answer from the in-memory and the database store, and leaves them holding the same |
| InventoryStore.TheStoresAgree | crates/tacenta-accounts/src/lib.rs:592-750 | every sequence of calls, retries and conflicts included, is answered alike by both |
| InventoryStore.InterleavingsMatchMemory | crates/tacenta-accounts/src/inventory_tx.rs:119-171 | however an account's transactions interleave and fail, the in-memory store given the committed calls, with their keys and requests and in commit order, returns the same results and holds the same inventory and retry records |
| Outbox.Outbox.Reclaim | crates/tacenta-client/src/group_control_outbox.rs:69-89 | drops the finished handoffs allocated first, down to sixteen |
| Outbox.Outbox.RecordPrepared | crates/tacenta-client/src/group_control_outbox.rs:91-135 | an exact repeat is accepted unchanged, another ciphertext is a conflict, a full outbox or another payload is refused, and a new handoff takes its place in canonical order |
| Outbox.Outbox.Reserve | crates/tacenta-client/src/group_control_outbox.rs:141-173 | counts an attempt of a live handoff and returns it; the third is recorded as unknown |
| Outbox.Outbox.CancelNonRevocationForRecipient | crates/tacenta-client/src/group_control_outbox.rs:177-194 | stops every live handoff to the recipient except revocations |
| Outbox.Outbox.Accept | crates/tacenta-client/src/group_control_outbox.rs:212-233 | accepts a handoff whose bytes may have left, and no other |
| Outbox.ReclaimKeeps | crates/tacenta-client/src/group_control_outbox.rs:69-89 | reclaiming drops no live handoff, leaves at most sixteen finished, and stays in agreement with the ledger of everything recorded |
| Outbox.NextIsNew | crates/tacenta-client/src/group_control_outbox.rs:118-124 | one more than the highest retained number is the number of handoffs ever recorded, despite eviction |
| Outbox.StepKeeps | crates/tacenta-client/src/group_control_outbox.rs:61-233 | every operation keeps the outbox in step with the ledger |
| Outbox.EveryRunAgreesWithTheLedger | crates/tacenta-client/src/group_control_outbox.rs:61-233 | over every run of up to 2^64 records the outbox is exactly the live handoffs and the sixteen newest finished ones of everything recorded, no number is given twice, and each handoff is sent at most three times, always with its first ciphertext, and accepted at most once |
| OutboxRules.FindMeans | crates/tacenta-client/src/group_control_outbox.rs:69-89 | looking up a recipient and payload finds a handoff exactly when one is retained for them |
| OutboxRules.ReclaimedRetains | crates/tacenta-client/src/group_control_outbox.rs:69-89 | reclaiming keeps every live handoff as it is |
| OutboxRules.RecordMeans | crates/tacenta-client/src/group_control_outbox.rs:91-135 | recording is refused as full exactly when nothing is held for the recipient and commitment and either eight are live or the payload is no control, and as a conflict only when other bytes are held; an exact repeat changes nothing, and a new one is prepared, unsent, under the next number, with everything live kept |
| OutboxRules.ReserveMeans | crates/tacenta-client/src/group_control_outbox.rs:141-173 | a handoff can be sent exactly while prepared or handed off; it counts one more attempt, and the third leaves it unknown |
| OutboxRules.AcceptMeans | crates/tacenta-client/src/group_control_outbox.rs:212-233 | a handoff can be accepted exactly when its bytes may have left and no outcome is known |
| OutboxRules.CancelMeans | crates/tacenta-client/src/group_control_outbox.rs:177-194 | after a cancellation nothing live but revocations is left for the recipient: prepared became cancelled, handed off became cancelled after handoff, and every other handoff is as it was |
| OutboxRules.CancelledIsNeverSent | crates/tacenta-client/src/group_control_outbox.rs:177-194 | over every continuation of every run no handoff retained for the recipient at the cancellation, revocations apart, is ever sent again |
| OutboxRules.LiveIsSent | crates/tacenta-client/src/group_control_outbox.rs:141-173 | a live handoff that is reserved is sent, with the bytes recorded, and stays live only until its third send |
| OutboxCodec.EncodeState | crates/tacenta-client/src/group_control_outbox.rs:249-288 | encodes the canonical order, or refuses what is over a bound or does not fit |
| OutboxCodec.DecodeState | crates/tacenta-client/src/group_control_outbox.rs:290-383 | the loop computes the parse with its refusals |
| OutboxCodec.HandoffBytes | crates/tacenta-client/src/group_control_outbox.rs:270-286 | one entry field by field, with the byte of each disposition |
| OutboxCodec.GoodMeans | crates/tacenta-client/src/group_control_outbox.rs:290-383 | what a well-formed outbox is: at most eight live and sixteen finished, sizes within 256 and 64, controls only, attempts its disposition allows, in canonical order, no number and no recipient and commitment twice |
| OutboxCodec.AcceptedExactly | crates/tacenta-client/src/group_control_outbox.rs:249-383 | bytes are accepted as an outbox exactly when the outbox is within its bounds, canonically ordered, without clashes and with consistent attempts, and encodes to them |
| OutboxCodec.ReachableRoundTrips | crates/tacenta-client/src/group_control_outbox.rs:61-383 | every outbox a run reaches encodes, and decodes to itself |
| DeferredRosters.DeferredRosters.HoldRoster | crates/tacenta-client/src/group_deferred_rosters.rs:52-71 | holds a new revision in order while there is room; a duplicate, a fork and a full queue change nothing |
| DeferredRosters.DeferredRosters.HoldKeepingLowest | crates/tacenta-client/src/group_deferred_rosters.rs:78-92 | gives up the highest held control only for a lower one it then holds |
| DeferredRosters.HoldExactly | crates/tacenta-client/src/group_deferred_rosters.rs:52-71 | a control is a duplicate exactly when it is held, refused exactly when another of its revision is held or four are, and every other joins the ones held |
| DeferredRosters.HoldLowestExactly | crates/tacenta-client/src/group_deferred_rosters.rs:78-92 | the same, but of four held the highest gives way to a lower one, and only one higher than all is refused for want of room |
| DeferredRosters.DeferredRosters.PruneThrough | crates/tacenta-client/src/group_deferred_rosters.rs:96-98 | a control stays if and only if it was held and is above the revision, and an ascending queue stays ascending |
| DeferredRosters.DeferredRosters.Remove | crates/tacenta-client/src/group_deferred_rosters.rs:101-103 | a control stays if and only if it was held and is of another revision, and an ascending queue stays ascending |
| DeferredRosters.DeferredRosters.NextFor | crates/tacenta-client/src/group_deferred_rosters.rs:106-111 | finds a held control of the next revision whose predecessor is the digest of the view, if and only if there is one |
| DeferredRosters.KeepsTheFourLowest | crates/tacenta-client/src/group_deferred_rosters.rs:78-92 | for every arrival order from an empty queue, the queue is the four lowest revisions ever offered, each with the control first offered for it |
| DeferredRosters.LedgerIsFirstOffers | crates/tacenta-client/src/group_deferred_rosters.rs:50-92 | the ledger it is compared with holds exactly the first control offered for each revision |
| DeferredRosters.EncodeRecord | crates/tacenta-client/src/group_deferred_rosters.rs:115-127 | the record is the layout, or the error of the first control that does not encode |
| DeferredRosters.DecodeRecord | crates/tacenta-client/src/group_deferred_rosters.rs:133-177 | the loop computes the parse with its refusals |
| DeferredRosters.AcceptedExactly | crates/tacenta-client/src/group_deferred_rosters.rs:115-177 | a record is accepted exactly when it is the layout of at most four strictly ascending controls of the group and authority, each decoding to itself |
| DeferredRosters.ReachableRoundTrips | crates/tacenta-client/src/group_deferred_rosters.rs:52-177 | every queue the operations reach from recordable controls survives its record |
| RateLimit.RateLimiter.IsBlocked | crates/tacenta-accounts/src/ratelimit.rs:72-90 | five failures within the window block |
| RateLimit.RateLimiter.RecordFailure | crates/tacenta-accounts/src/ratelimit.rs:94-101 | drops what aged out, adds the failure and sheds |
| RateLimit.RateLimiter.ShedOld | crates/tacenta-accounts/src/ratelimit.rs:121-142 | expired keys go first, then the keys with the oldest newest failure until the cap holds; no key all of whose failures aged out is left, and one that has not aged out goes only at the cap of 65536 |
| RateLimit.SuccessKeeps | crates/tacenta-accounts/src/ratelimit.rs:165-167 | a success clears its key in the limiter and in the log alike: what either counts for the key is zero, for every other key unchanged, and both directions of the refinement are kept |
| RateLimit.CapUnique | crates/tacenta-accounts/src/ratelimit.rs:130-141 | the eviction order leaves one possible outcome, whatever the map's iteration order |
| RateLimit.RefinesTheLog | crates/tacenta-accounts/src/ratelimit.rs:69-168 | under any clock it never blocks a key the unbounded log would not; under a clock that does not go back it blocks exactly those, but for evicted keys; it never exceeds its cap |
| RateLimit.EvictsTheOldest | crates/tacenta-accounts/src/ratelimit.rs:121-142 | an evicted key's newest failure is no newer than any survivor's, and eviction happens only at the cap |
| SignIn.PrefixIsolates | crates/tacenta-accounts/src/lib.rs:763-772 | a tenant's prefix matches its own keys and no other tenant's |
| SignIn.KeysTell | crates/tacenta-accounts/src/lib.rs:763-765 | different tenants or identifiers have different keys |
| SignIn.TenantIsFlooded | crates/tacenta-accounts/src/ratelimit.rs:153-161 | the sum over a tenant's keys, in whatever order, against the ceiling |
| SignIn.FloodRefinesTheLog | crates/tacenta-accounts/src/ratelimit.rs:153-161 | a tenant is flooded only if the unbounded log holds two hundred failures under its prefix in the last minute, and under a clock that does not go back exactly then, unless a key of it was evicted |
| SignIn.Accounts.SignInAt | crates/tacenta-accounts/src/lib.rs:461-505 | signed in only if the credential check succeeded, wrong only if it failed, rate limited exactly when the identifier is blocked or the tenant flooded; the limiter after it and the check it ran are those of the machine step on every desk with the same failures |
| SignIn.NoKeyHoldsMoreThanFive | crates/tacenta-accounts/src/lib.rs:461-505 | over every run with any clock no key holds more than five times |
| SignIn.FiveFailingChecksPerIdentifier | crates/tacenta-accounts/src/lib.rs:461-505 | with a clock that does not go back, any closed minute holds at most five failing checks for an identifier that within that minute no success cleared and no eviction dropped, whatever happened before or after |
| SignIn.TwoHundredFailingChecksPerTenant | crates/tacenta-accounts/src/lib.rs:461-505 | and at most two hundred for a tenant none of whose keys was cleared or evicted within that minute |
| SignIn.NoZeroOwnKeys | crates/tacenta-accounts/src/lib.rs:763-772 | where no tenant id contains a NUL, only a tenant's own attempts fall under its prefix |
| Wire.OrderIsAscending | tooling/group_wire_reference.py:305-312 | the order rule and the identity rule together are strictly ascending identities |
| Wire.RosterLength | tooling/group_wire_reference.py:280-285 | the declared roster length is the length of the layout |
| Wire.RosterDecodesLayout | tooling/group_wire_reference.py:288-398 | the decoder accepts a roster's layout exactly when the encoder accepts the roster, and gives it back |
| Wire.RosterAccepted | tooling/group_wire_reference.py:323-398 | accepted bytes are the encoding of what they decode to, with strictly ascending identities |
| Wire.RosterPrefix | tooling/group_wire_reference.py:323-370 | every proper prefix of an accepted roster is malformed |
| WireRules.BigEndian | tooling/group_wire_reference.py:126-135 | the integers of two, four and eight bytes, most significant first |
| WireRules.LexMeans | tooling/group_wire_reference.py:154-161 | the byte order: a proper prefix, or the smaller byte at the first difference |
| WireRules.RosterExactly | tooling/group_wire_reference.py:288-398 | bytes decode to a roster if and only if they are its layout and its rules hold: revision not reserved, policy 1, at revision 0 a zero digest, open and the authority alone, at most eight members of legal sizes in strictly ascending order, at most 4096 bytes |
| WireRules.MembersReason | tooling/group_wire_reference.py:305-312 | which member rule is reported: the first member at fault, sizes before order |
| WireRules.RosterReason | tooling/group_wire_reference.py:288-316 | which reason a roster is refused for: the first broken rule in their order |
| WireRules.DecodedGenesis | tooling/group_wire_reference.py:299-305 | the layout of an otherwise sound roster at revision 0 that is no genesis is refused as exactly that |
| WireRules.RosterBytes | tooling/group_wire_reference.py:379-391 | the roster layout field by field |
| WireFormats.ContextLength | tooling/group_wire_reference.py:432-436 | the declared context length is the length of the layout |
| WireFormats.ContextIsNeverTooLarge | tooling/group_wire_reference.py:439-448 | the context size refusal never fires |
| WireFormats.ContextDecodesLayout | tooling/group_wire_reference.py:439-508 | accepted from its layout exactly when it encodes, and given back |
| WireFormats.ContextAccepted | tooling/group_wire_reference.py:451-508 | accepted bytes are the encoding of what they decode to |
| WireFormats.ContextPrefix | tooling/group_wire_reference.py:451-491 | every proper prefix is malformed |
| WireRules.ContextExactly | tooling/group_wire_reference.py:439-508 | bytes decode to a context if and only if they are its layout and its rules hold |
| WireRules.ContextReason | tooling/group_wire_reference.py:439-448 | which reason a context is refused for, in order |
| WireRules.ContextBytes | tooling/group_wire_reference.py:494-508 | the context layout field by field |
| WireFormats.BootstrapDecodesLayout | tooling/group_wire_reference.py:539-632 | accepted from its layout, nested roster included, exactly when it encodes |
| WireFormats.BootstrapAccepted | tooling/group_wire_reference.py:539-632 | accepted bytes are the encoding of what they decode to, and the nested members ascend |
| WireFormats.BootstrapPrefix | tooling/group_wire_reference.py:539-589 | every proper prefix is malformed, also through the nested roster |
| WireRules.InvitationExactly | tooling/group_wire_reference.py:539-632 | bytes decode to an invitation if and only if they are its layout and its rules hold, those of the nested roster included |
| WireRules.InvitationReason | tooling/group_wire_reference.py:592-632 | which reason an invitation around a good roster is refused for, in order |
| WireRules.InvitationBytes | tooling/group_wire_reference.py:592-632 | the invitation layout field by field |
| WireFormats.AckDecodesLayout | tooling/group_wire_reference.py:665-704 | for both acknowledgements the decoder refuses a layout exactly as the encoder refuses the value, for the same reason |
| WireFormats.AckAccepted | tooling/group_wire_reference.py:665-704 | accepted bytes are the encoding of what they decode to |
| WireFormats.AckPrefix | tooling/group_wire_reference.py:665-688 | every proper prefix is malformed |
| WireRules.AckExactly | tooling/group_wire_reference.py:665-704 | bytes decode to an acknowledgement if and only if they are its layout and its rules hold |
| WireRules.AckBytes | tooling/group_wire_reference.py:691-704 | the acknowledgement layout field by field |
| WireFormats.IntentDecodesLayout | tooling/group_wire_reference.py:729-824 | the decoder refuses an intent's layout exactly as the encoder refuses the value, for the same reason even with several faults |
| WireFormats.IntentAccepted | tooling/group_wire_reference.py:729-824 | accepted bytes are the encoding of what they decode to, with strictly ascending recipients |
| WireFormats.IntentPrefix | tooling/group_wire_reference.py:729-781 | every proper prefix is malformed |
| WireRules.IntentExactly | tooling/group_wire_reference.py:729-824 | bytes decode to an intent if and only if they are its layout and its rules hold |
| WireRules.IntentReason | tooling/group_wire_reference.py:784-824 | which reason an intent is refused for, in order |
| WireRules.IntentBytes | tooling/group_wire_reference.py:784-824 | the intent layout field by field |
| WireFormats.PayloadDecodesLayout | tooling/group_wire_reference.py:906-937 | accepted from its layout exactly when its variant encodes; the payload bound never refuses a valid variant |
| WireFormats.PayloadAccepted | tooling/group_wire_reference.py:906-937 | accepted bytes are the encoding of what they decode to |
| WireFormats.PayloadPrefix | tooling/group_wire_reference.py:906-923 | every proper prefix is malformed |
| WireRules.PayloadExactly | tooling/group_wire_reference.py:906-937 | bytes decode to a payload if and only if they are its layout and the rules of its variant hold |
| WireRules.PayloadReason | tooling/group_wire_reference.py:906-923 | past 8192 bytes a payload is malformed whatever it holds; within them it is decoded, and refused, as its variant is |
| WireRules.PayloadBytes | tooling/group_wire_reference.py:926-937 | the tag, then the variant |
| WireReader.Reader.Read | tooling/group_wire_reference.py:182-188 | reads the next bytes and moves past them, or is malformed when too few are left |
| WireReader.Reader.ReadLp32 | tooling/group_wire_reference.py:199-201 | a field behind its four-byte length |
| WireReader.Reader.ReadMember | tooling/group_wire_reference.py:207-214 | two fields and then their size check, identity first |
| WireReader.CheckMembers | tooling/group_wire_reference.py:305-312 | the loop computes the first refusal of the members in order |
| WireReader.Validate | tooling/group_wire_reference.py:288-316 | the roster checks in their order |
| WireReader.Roster | tooling/group_wire_reference.py:323-370 | driving the reader computes the roster decode |
| WireReader.Context | tooling/group_wire_reference.py:451-491 | driving the reader computes the context decode |
| WireReader.Invitation | tooling/group_wire_reference.py:539-589 | driving the reader computes the bootstrap decode |
| WireReader.Acknowledgement | tooling/group_wire_reference.py:665-688 | driving the reader computes both acknowledgement decodes |
| WireReader.LogicalSend | tooling/group_wire_reference.py:729-781 | driving the reader computes the intent decode |
| WireReader.GroupPayload | tooling/group_wire_reference.py:906-923 | driving the reader computes the payload decode |
| WireReader.V1HasItsLengths | tooling/group_wire_reference.py:75-81 | the version 1 domain strings have the lengths the formulas count |
| Persist.SectionCuts | crates/tacenta-accounts/src/persist.rs:338-566 | a section cut inside is malformed, and one cut after it reads the same |
| Persist.EveryCutIsRefused | crates/tacenta-accounts/src/persist.rs:312-575 | every proper prefix of an accepted snapshot, of either shape, is refused: truncated, naming the section, exactly at section ends, and malformed elsewhere |
| Persist.AcceptedHoldsTogether | crates/tacenta-accounts/src/persist.rs:312-575 | anything accepted has every tenant and user its records name, device state the core would encode, retry results above their predecessors, and no retry key in both record maps |
| PersistRoundTrip.Snapshot | crates/tacenta-accounts/src/persist.rs:232-293 | the bytes are the layout of the store's entries in some order |
| PersistRoundTrip.Restore | crates/tacenta-accounts/src/persist.rs:312-575 | reading section by section computes the restore with its refusals |
| PersistRoundTrip.SnapshotRestores | crates/tacenta-accounts/src/persist.rs:232-575 | for every iteration order of every map, the snapshot of a store restores if and only if the store holds together, and then to the store with empty key labels gone |
| PersistRoundTrip.SameStoreExactly | crates/tacenta-accounts/src/persist.rs:245-366 | the very same store comes back exactly when it holds together and no key has an empty label |
| PersistRoundTrip.EmptyLabelIsLost | crates/tacenta-accounts/src/persist.rs:245-383 | a store of one tenant and one key with an empty label: it restores, and the key comes back with none |
| PersistRules.CutNamesTheSection | crates/tacenta-accounts/src/persist.rs:312-575 | the snapshot of a store that holds together, cut anywhere: truncated, named after the section before the first one missing, where the cut is between two sections, and malformed elsewhere |
| PersistRules.RefusalNamesTheSection | crates/tacenta-accounts/src/persist.rs:338-566 | the snapshot of a store that does not hold together, in any iteration order, is refused in the first section that asks something it does not meet: as an orphan of that section for a missing tenant or user, as inconsistent for device state where every account is there |
| PersistRules.TenantBytes | crates/tacenta-accounts/src/persist.rs:235-241 | a tenant record field by field |
| PersistRules.KeyBytes | crates/tacenta-accounts/src/persist.rs:243-251 | a key record field by field, no label being the empty one |
| PersistRules.UserBytes | crates/tacenta-accounts/src/persist.rs:253-258 | a user record field by field |
| PersistRules.SessionBytes | crates/tacenta-accounts/src/persist.rs:260-266 | a session record field by field |
| PersistRules.LegacyRestores | crates/tacenta-accounts/src/persist.rs:312-336 | the four sections without a header that older servers wrote restore if and only if the store holds together, and then to that store |
| AccountLife.TransitionAdvances | crates/tacenta-accounts/src/inventory.rs:193-285 | whatever a device rule returns is valid and of a later generation than the request was to follow |
| AccountLife.CallRecords | crates/tacenta-accounts/src/lib.rs:592-750 | a device call leaves the records as they were, or adds one valid, later result under a retry key that neither record had |
| AccountLife.StepHolds | crates/tacenta-accounts/src/lib.rs:238-750 | every account operation keeps every name resolved, device state valid for its handle, results above their predecessors and retry keys in one record |
| AccountLife.StepIsStorable | crates/tacenta-accounts/src/lib.rs:238-750 | and keeps the store fit to be written, given text of a length that can be |
| AccountLife.ReachableStoresRestore | crates/tacenta-accounts/src/persist.rs:232-575 | every store the account operations reach from nothing restores from its snapshot, in whatever order its maps are walked, to itself but for empty key labels |
| AccountRules.TenantNamesAreUnique | crates/tacenta-accounts/src/lib.rs:238-285 | over every run no two tenants share a username or an e-mail |
| AccountRules.TenantSignsUpExactly | crates/tacenta-accounts/src/lib.rs:238-285 | a tenant is taken in, with its first key, exactly when its username and e-mail are new; otherwise nothing changes |
| AccountRules.UserSignsUpExactly | crates/tacenta-accounts/src/lib.rs:387-415 | a user is taken in exactly when the tenant exists and the name is new there; no password ever changes |
| AccountRules.AccountsAreForGood | crates/tacenta-accounts/src/lib.rs:238-750 | over every run the tenants, users and recorded device results it held at any point it holds to the end |
| AccountRules.SessionsExactly | crates/tacenta-accounts/src/lib.rs:447-566 | over every run a token is a session if and only if a sign-in of an existing user issued it and since then it was neither issued again nor ended; it is then the session it was issued as |
| AccountRules.RetryChangesNothing | crates/tacenta-accounts/src/lib.rs:592-750 | under a retry key already recorded, of either kind, a device call changes nothing of the store |
| AccountRules.CallIsRecorded | crates/tacenta-accounts/src/lib.rs:592-750 | under a new key a call its rule admits leaves the account with the result and records it with what was asked; one its rule refuses changes nothing |
| AccountRules.RevocationExactly | crates/tacenta-accounts/src/lib.rs:368-373 | revoking takes exactly the keys of that tenant with that prefix |
| AccountRules.CreationExactly | crates/tacenta-accounts/src/lib.rs:322-343 | a key is created exactly when its tenant exists, and no other key changes |

## Left out

- `crates/tacenta-client/src/durable.rs`: a hard-coded rehearsal beside the live path; its claims follow from its own control flow.
- A single coordinator whose store is rolled back and then forward again onto a divergent snapshot: only that it never works from an older snapshot is stated; position uniqueness is stated for a store that does not go back.
- Group rosters, receivers and invitations themselves (`tacenta-group`, most of `group_operations.rs`): rosters in `DeferredRosters` and payloads in `Outbox` come with the functions asked of them.
- SQL, files, advisory locks, the atomic writer, permissions, async scheduling and reconnects: a compare-and-write and a statement are each one atomic step.
- Hashing, commitments, key checks and argon2: function values.
- Tenant lookup indexes rebuilt on restore, session tokens issued at sign-in, and the trimming and lowercasing of names: identifiers and usernames are taken as normalised.
- Account request and response codecs, ULIDs, command line, bindings, gateway: easy members.
- JSON and hexadecimal shapes of the wire reference, and its errors for input that is not a value of the page's types: values are typed.
- Coordinator.NoPositionIsSentTwice: every attaching is sound; `AttachLaw` gives the exact condition, and `AskingFirstIsSafe` what a caller can check.
- Attaching.AttachLaw: the store has generations left for the continuation, which near the end of the 64-bit counter it has not.
- SignIn.FiveFailingChecksPerIdentifier: in the minute itself no check of the identifier succeeded and its key was not evicted, either of which resets the count. The same for SignIn.TwoHundredFailingChecksPerTenant.
- SignIn.TwoHundredFailingChecksPerTenant: no other tenant's attempts fall under the prefix. Ids the server creates contain no NUL (`NoZeroOwnKeys`), but `try_restore` takes any text for a tenant id (crates/tacenta-accounts/src/persist.rs:341-346), so a restored id with a NUL in it is outside this.
- Delivery.CursorPassesOnlyHandedOver: event ids are counted without the 64-bit bound, and every receive begins with a receiver attached or with nothing untold before its last offered event; `UnattachedExactly` gives the exact condition.
- Outbox.EveryRunAgreesWithTheLedger: at most 2^64 handoffs are recorded; past that the saturating counter repeats its last number.
- OutboxCodec.ReachableRoundTrips: recipients are within their size limits and payloads and ciphertexts below four gigabytes when recorded, as the encoder needs.
- Inventory.ReachableInventories: the core's validation is any predicate that accepts the empty inventory and enforces the two bounds of eight.
- AccountLife.ReachableStoresRestore: a tenant id drawn at sign-up is new, as random identifiers are; credentials, hashes and the clock are given.
- PersistRoundTrip.SnapshotRestores: names and counts fit their four-byte lengths and text is valid UTF-8, as Rust strings are.
- PersistRules.LegacyRestores: fewer than 2^32 - 1 tenants; a count of 2^32 - 1 begins like the header.
- OutboxRules.CancelledIsNeverSent: at most 2^64 handoffs are recorded, as for EveryRunAgreesWithTheLedger.
- WireRules.InvitationReason: the nested roster is good; when it is not, `RosterReason` says what is wrong with it.
