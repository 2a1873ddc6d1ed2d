# Verified model of QtDataSync

QtDataSync keeps JSON objects on the devices of an account in agreement through a server that
only sees encrypted changes. This project models its protocols and state machines in Dafny and
proves what they promise. `dafny verify dfyconfig.toml` checks everything.

| files | what they model |
|---|---|
| `rows.dfy`, `merge.dfy` | the merge of two versions of an object, and its laws |
| `localstore.dfy`, `synccontroller.dfy` | the data index with its event log triggers, and the branch table of the merge, as classes proved to compute the functions of `rows.dfy` |
| `replication.dfy`, `conflicts.dfy`, `settling.dfy`, `divergence.dfy`, `standoff.dfy`, `duel.dfy`, `accounts.dfy` | the replication protocol as a step system: invariant, agreement at rest, bounded conflict rounds, reachability of agreement, and exactly when each of them fails |
| `keys.dfy`, `connector.dfy` | the key ring, the key tables of the server and the connector's handlers, as classes |
| `keyrotation.dfy`, `keyagreement.dfy`, `keyresults.dfy`, `keyprogress.dfy` | the exchange-key rotation as a step system over these operations: agreement and the race that ends it, and when an account can go on rotating |
| `serverdb.dfy`, `serverruns.dfy`, `downloads.dfy` | the server's store of changes with its quota, and the download window of a connection |
| `uploads.dfy` | the upload scheduler and the state of the engine |
| `eventcursor.dfy`, `search.dfy`, `taskqueue.dfy` | the event log cursor, the search patterns, the single-task queue |
| `collections.dfy` | facts about sequences, sets and tables that several modules use |
| `bytearrays.dfy`, `codec.dfy`, `messages.dfy`, `exchangebuffer.dfy` | the binary format, signed messages, the byte buffer between threads |

Where the program changes state step by step the model does so too: a class with its fields,
each method proved against a function of the old state; the whole-run results are then proved
about these functions. In the step systems messages may be lost, repeated, delayed and reordered
as far as the comment at the head of the module says.

## What holds only under a condition

Each of these is stated with the exact condition, unless it says otherwise.

- Agreement at rest needs persisted deletions (or a single device), but no shared conflict policy
  and no order-independent resolver, and so does reaching it again after any run
  (`Divergence.AlwaysConvergesIff`, `Divergence.AlwaysCanAgreeIff`).
- The bound on the conflict rounds needs more: without resolvers, that all devices prefer the same
  of any two contents, which with one checksum is one conflict policy; for two devices with
  resolvers, that both settle every conflict on one content. Two devices that each keep their own
  side can push the version up without end although nobody writes. For more than two devices with
  resolvers no exact condition is given (`Standoffs.RoundsEndIff`,
  `Standoffs.RoundsEndIffOnePolicy`, `Duels.TwoDevicesIff`, `Standoffs.StandoffClimbs`).
- The server and the upload window tell objects apart by the hash of the type name followed by
  the id, with nothing in between, so that `Item` / `s1` and `Items` / `1` are one to them. With
  more than one device an object is always in agreement at rest only if no other object in use
  has its data id; otherwise the upload of one removes the other from the server for good. Two
  uploads with one data id can also keep a third from being started
  (`Accounts.ObjectAgreesIff`, `Accounts.CollisionDiverges`, `Uploads.NeverStarvesIff`).
- A device may use a key that no other device has. It happens exactly if a proposal is answered
  as a duplicate while somebody else's key change of the same index waits for that device. The
  server disconnects such devices after the rotation, so the window is short, but a proposal
  that is already on its way is enough (`KeyResults.StepBreaksAgreementIff`,
  `KeyResults.RaceIsReachable`).
- If the proof of a freshly imported key is lost, the device verifies the same key change under
  the new key at every later login, fails, and never sends the proof again: the account cannot
  rotate its key any more. The same happens to a device whose confirmation is lost when another
  device rotates before it has asked again. The account can go on exactly if neither holds for a
  device with a waiting key change (`KeyProgress.LostMacUpdateBlocksForever`,
  `KeyProgress.OvertakenRecoversIff`, `KeyProgress.AccountRotatesIff`).
- Devices wait for changes of the other devices of their user only, exactly as long as the target
  of every accepted device upload is such a device; the server does not look at that
  (`ServerRuns.OwnedIff`).
- `LastChanged` is honest exactly if the download limit is at least 1 and at least the threshold
  (`Downloads.LastChangedIsHonestIff`).
- With an upload limit of 0 the engine never reaches `Synchronized`; a device upload whose file
  cannot be read stays active, and ends the plain upload of its object instead; a reset during an
  upload shows `Synchronized` with changes left (`Uploads`).
- Skipping obsolete events hides a deletion exactly if its row is gone, and shows a row twice
  exactly if its version has been used before; neither happens while deletions are persisted
  (`EventCursors.ScanIsCompleteIff`, `EventCursors.ScanVisitsEachRowOnceIff`).
- A wildcard search misreads a backslash before `%` or `_`
  (`Search.WildcardSearchIsExactIff`).
- A byte buffer that is closed with unread bytes keeps its size and index
  (`ExchangeBuffers.ExchangeBuffer.Close`).

## Model

| member | source | states |
|---|---|---|
| `Merge.SyncedIsJoin` | src/datasync/synccontroller.cpp:47-154 | the branch table refines one join on version and content; only two deletions that are not persisted leave no row |
| `Merge.SyncedIff` | src/datasync/synccontroller.cpp:47-154 | the merged row in terms of versions, contents, checksums, resolver, policy and persisted deletions alone: of two objects of one version the answer of the resolver or else the larger checksum wins at the next version, against a deletion the policy decides; it is the merge of the other laws |
| `Merge.SyncedIsUpperBound` | src/datasync/synccontroller.cpp:47-154 | with deletions persisted the merged row supersedes or equals both the local row and the received change |
| `Merge.SyncedIsConservative` | src/datasync/synccontroller.cpp:47-154 | the merged content is one of the two or the resolver's, a new version arises for a conflict only, and exactly when the row is marked as changed |
| `Merge.BeatsIsTotal` | src/datasync/synccontroller.cpp:55-95 | conflict policy and checksum together prefer one of two different contents, as a strict total order |
| `Merge.SyncedCommutesIff` | src/datasync/synccontroller.cpp:47-154 | swapping the local and the remote side gives the same version and content, exactly unless two deletions of different versions meet and deletions are not persisted |
| `Merge.RedeliveryIsHarmlessIff` | src/datasync/synccontroller.cpp:47-154 | merging the same change twice is the same as merging it once, exactly unless it deleted a live object and deletions are not persisted |
| `Merge.JoinIsNotAssociative` | src/datasync/synccontroller.cpp:85-95 | three devices in conflict end with different versions depending on the order, so that convergence needs more than a semilattice |
| `LocalStores.WritingKeepsLog` | src/datasync/eventcursor.cpp:334-377 | a write that does not lower a version keeps the event log in agreement with the table, whether or not the trigger adds an event |
| `LocalStores.WritingKeepsCurrent` | src/datasync/eventcursor.cpp:334-377 | whether or not deletions are persisted, a write keeps the last event of every row in agreement with it, although versions may start over |
| `LocalStores.LocalStore.Write` | src/datasync/eventcursor.cpp:334-377 | a row write with both triggers: the log grows by one event with the version and deletion flag, exactly on an insert or a new version |
| `LocalStores.LocalStore.StoreChangedImpl` | src/datasync/localstore.cpp:782-854 | the row holds the given version, content and flag, no other row changes |
| `LocalStores.LocalStore.Save` | src/datasync/localstore.cpp:216-253 | the row holds the saved data at version 1 or one above the old version, deleted or not, and is marked as changed; one event is logged; no other row changes |
| `LocalStores.LocalStore.Remove` | src/datasync/localstore.cpp:255-303 | only a live object is deleted, as a tombstone of the next version that is marked as changed and logged; the result tells which case it was |
| `LocalStores.LocalStore.Clear` | src/datasync/localstore.cpp:376-416 | every live object of the type, and no other, is deleted as by `Remove` |
| `LocalStores.LocalStore.MarkUnchanged` | src/datasync/localstore.cpp:856-867 | an acknowledgement acts only on the version it is for; a deletion that is not persisted drops the row |
| `LocalStores.LocalStore.LoadChangeInfo` | src/datasync/localstore.cpp:574-594 | the state of the row as the merge sees it |
| `LocalStores.LocalStore.UpdateVersion` | src/datasync/localstore.cpp:596-616 | the version moves only from the expected one, content kept |
| `LocalStores.LocalStore.StoreChanged` | src/datasync/localstore.cpp:618-623 | received content replaces the row in any of the three states |
| `LocalStores.LocalStore.StoreDeleted` | src/datasync/localstore.cpp:625-695 | a tombstone replaces the row in any of the three states |
| `SyncControllers.SyncController.SyncExisting` | src/datasync/synccontroller.cpp:48-103 | the branches for a local object, against a deletion and against an object |
| `SyncControllers.SyncController.SyncDeleted` | src/datasync/synccontroller.cpp:104-136 | the branches for a stored local deletion |
| `SyncControllers.SyncController.SyncMissing` | src/datasync/synccontroller.cpp:137-150 | the branches without a local row |
| `SyncControllers.SyncController.SyncChange` | src/datasync/synccontroller.cpp:25-165 | the branch table on the store computes the merge, which is also stated by versions, checksums, resolver and policy alone (`MergedAs`); it touches one key, keeps table and event log in agreement, and does nothing while disabled |
| `Replication.StepKeepsInv` | tools/appserver/databasecontroller.cpp:318-364 | every step keeps: each distributed change is covered by the row of each device or still pending for it; uploads go out in version order; an unchanged row is on the server |
| `Replication.StepEffect` | src/datasync/changecontroller.cpp:54-207 | what each step does from any state, without the functions of the merge: a save holds the new data at the next version, a removal a tombstone, an acknowledgement clears the flag of its own version only, an upload carries the row, an accepted one is logged, waits for every other device and takes the sender's older changes away; devices and lines that do not take part stay |
| `Replication.AcceptDistributes` | tools/appserver/databasecontroller.cpp:318-364 | replacing the sender's older change loses nothing that a device still needs |
| `Replication.MergeKeepsInv` | src/datasync/synccontroller.cpp:47-154 | a merge, even of a stale or repeated download, keeps the invariant |
| `Replication.AckKeepsInv` | src/datasync/localstore.cpp:856-867 | an upload acknowledgement clears the flag only for content the server accepted |
| `Replication.Convergence` | src/datasync/synccontroller.cpp:47-161 | in every run, when no row is changed and nothing is pending, all devices hold the same version and content |
| `Replication.NoLostUpdate` | src/datasync/changecontroller.cpp:54-77 | in every run an unchanged row is, in version and content, one the server accepted from this device or sent to it |
| `Conflicts.WinnerRises` | src/datasync/synccontroller.cpp:55-103 | a conflict winner has a strictly longer chain of beaten contents below it |
| `Conflicts.ConflictRoundsEnd` | src/datasync/synccontroller.cpp:55-135 | with n devices that persist deletions and prefer the same of any two contents, and highest version V, no run without local writes takes a version above V + n - 1 |
| `Standoffs.RoundsEndIff` | src/datasync/synccontroller.cpp:47-154 | without resolvers this bound holds in all runs exactly if there is one device, or all devices persist deletions and prefer the same of any two contents |
| `Standoffs.RoundsEndIffOnePolicy` | src/datasync/synccontroller.cpp:56-69 | with deletions persisted, one checksum and no resolver: exactly if all devices have the same conflict policy |
| `Standoffs.StandoffClimbs` | src/datasync/synccontroller.cpp:55-135 | two devices that each keep their own content against that of the other push the version from 2 beyond any number without a local write, as uploads cross again and again |
| `Standoffs.ResolversStandOff` | src/datasync/synccontroller.cpp:78-95 | resolvers that answer the local side are such a standoff |
| `Standoffs.PoliciesStandOff` | src/datasync/synccontroller.cpp:56-69 | so are two policies, with an object on one side and a deletion on the other |
| `Standoffs.ForgottenBreaksBound` | src/datasync/synccontroller.cpp:55-60 | a deletion that is not persisted comes back from above the bound |
| `Duels.TwoDevicesIff` | src/datasync/synccontroller.cpp:55-135 | with two devices, whatever their policies and resolvers, the bound holds in all runs exactly if both persist deletions and settle every conflict on one content, whichever side is local |
| `Settling.AgreementStaysReachable` | src/datasync/synccontroller.cpp:47-161 | with deletions persisted, whatever the policies and resolvers, every reachable state has a continuation without local writes that ends at rest and in agreement |
| `Standoffs.AgreementWithinBound` | src/datasync/synccontroller.cpp:47-161 | and with one preference it stays within V + n - 1 |
| `Divergence.ForgottenDeletionDiverges` | src/datasync/synccontroller.cpp:104-149 | a concrete run at rest with different content on two devices when a device does not persist deletions, from which no run without local writes leads to agreement |
| `Divergence.AlwaysConvergesIff` | src/datasync/synccontroller.cpp:47-161 | every run at rest is in agreement exactly if all devices persist deletions or there is only one device |
| `Divergence.AlwaysCanAgreeIff` | src/datasync/synccontroller.cpp:47-161 | agreement stays reachable from every reachable state without local writes exactly if all devices persist deletions or there is only one device |
| `Accounts.EveryObjectConverges` | src/datasync/localstore.cpp:376-416 | every object whose data id no other object in use has converges as if it were alone, in runs that mix objects, lost connections and cleared types |
| `Accounts.CollidingPair` | src/datasync/objectkey.cpp:15-21 | the data id runs type name and id together, so that two different objects can share it even under a perfect hash |
| `Accounts.UploadStartsIff` | src/datasync/changecontroller.cpp:133-160 | an upload starts exactly if the device uploads no other object with the same data id |
| `Accounts.AcceptDisplaces` | tools/appserver/databasecontroller.cpp:318-333 | an accepted upload takes exactly the changes of its device under its data id from those who wait for them, of whatever object |
| `Accounts.CollisionDiverges` | tools/appserver/databasecontroller.cpp:318-333 | a concrete run for any two objects that share a data id: the second upload removes the first from the server, everything is at rest, and only the uploader ever has the first object |
| `Accounts.ObjectAgreesIff` | tools/appserver/databasecontroller.cpp:318-364 | an object is in agreement in every run at rest exactly if there is one device, or deletions are persisted and no other object in use has its data id |
| `Accounts.AccountAgreesIff` | tools/appserver/databasecontroller.cpp:318-364 | and so are all objects of an account exactly if there are none, or one device, or deletions are persisted and all data ids differ |
| `Keys.KeyRing.CleanCiphers` | src/datasync/cryptocontroller.cpp:883-904 | the loop drops exactly the keys whose index is more than five below the active one |
| `Keys.KeyRing.GenerateNextKey` | src/datasync/cryptocontroller.cpp:531-553 | the proposal is for the index after the active one; a stored one is reused, otherwise the new key is stored |
| `Keys.KeyRing.ActivateNextKey` | src/datasync/cryptocontroller.cpp:555-581 | exactly the stored proposal for the next index is activated and dropped, and the keys more than five older go; anything else changes nothing |
| `Keys.KeyRing.DecryptSecretKey` | src/datasync/cryptocontroller.cpp:466-496 | a key sealed for this device is stored, and becomes active exactly if it is newer, which drops the keys more than five older |
| `Keys.InsertedIff` | tools/appserver/databasecontroller.cpp:608-632 | inserting row by row succeeds exactly for known devices without a row, each listed once, and then adds exactly these rows |
| `Keys.RotatedIs` | tools/appserver/databasecontroller.cpp:585-648 | a rotation is accepted exactly from a device of the account, for the next index and a list of known devices without a row, each once; it then raises the count, adds exactly the listed rows and stores the proof of the proposer |
| `Keys.KeyServer.TryKeyChange` | tools/appserver/databasecontroller.cpp:515-583 | the next index is answered with the proofs of the other devices, or as pending while any device has a waiting key change; the current index as a duplicate, the one before as pending, every other as a wrong index; no table changes |
| `Keys.KeyServer.UpdateExchangeKey` | tools/appserver/databasecontroller.cpp:585-648 | the compare-and-swap on the count with the row loop, refused for a proposer that is no device of the account; refused or failed, everything is as before |
| `Keys.KeyServer.UpdateCmac` | tools/appserver/databasecontroller.cpp:204-243 | a proof for the current index is stored and ends the waiting key change of that index, any other is ignored |
| `Connectors.Connector.OnEntryIdle` | src/datasync/remoteconnector.cpp:676-688 | becoming idle, a device with an unconfirmed proposal proposes again, for the key after the active one |
| `Connectors.Connector.OnWelcome` | src/datasync/remoteconnector.cpp:1012-1040 | a key change is imported exactly if it is sealed for this device and the active key vouches for it; then or while a proof is due, the proof for the active key is sent; a failed login imports nothing and sends no proof |
| `Connectors.Connector.OnDeviceKeys` | src/datasync/remoteconnector.cpp:1203-1246 | the loop seals the next key for exactly the listed devices whose proof is under the current key, vouched for under the current key; a duplicate answer only activates |
| `Connectors.Connector.OnNewKeyAck` | src/datasync/remoteconnector.cpp:1248-1254 | the confirmed proposal is activated |
| `Connectors.Connector.SendKeyUpdate` | src/datasync/remoteconnector.cpp:881-887 | the proof for the active key, repeated until it is confirmed |
| `Connectors.Connector.OnMacUpdateAck` | src/datasync/remoteconnector.cpp:1195-1201 | the proof is not repeated any more |
| `KeyRotation.RotationIsCompareAndSwap` | tools/appserver/databasecontroller.cpp:585-648 | in every run a new key is accepted exactly if it is for the next index; then no key change was waiting, the count grows by one and nothing clashes; otherwise nothing changes |
| `KeyRotation.StepKeepsSwap` | tools/appserver/databasecontroller.cpp:515-648 | waiting key changes carry the current count, and whoever may still rotate was answered while nothing was waiting |
| `KeyAgreement.StepKeepsOk` | src/datasync/remoteconnector.cpp:1203-1254 | every step but the one race keeps: rings, rows and messages hold the key of the server's history for their index |
| `KeyAgreement.ActivatesOwn` | src/datasync/remoteconnector.cpp:1203-1254 | outside the race an activated proposal is the key that the server accepted from this device |
| `KeyAgreement.WelcomeIsNext` | src/datasync/remoteconnector.cpp:1012-1040 | a login key that verifies is the successor of the active one and the server's newest |
| `KeyResults.DevicesAgree` | src/datasync/remoteconnector.cpp:1012-1040 | two devices hold the same key for every index both have reached, the one of the single successful rotation |
| `KeyResults.StepBreaksAgreementIff` | src/datasync/remoteconnector.cpp:1203-1210 | a step ends the agreement exactly if it activates a proposal on a duplicate answer while another key change of that index waits for the device |
| `KeyResults.AgreementIff` | tools/appserver/client.cpp:581-623 | a run keeps all devices in agreement throughout exactly if it has no such step |
| `KeyResults.RaceIsReachable` | tools/appserver/client.cpp:597-623 | for any two devices there is a run that reaches the race and ends the agreement |
| `KeyResults.LostConfirmationRecovers` | src/datasync/remoteconnector.cpp:676-688 | a device whose accepted rotation was not confirmed, while it is the newest, activates that same key by proposing again |
| `KeyResults.StepKeepsIndexed` | src/datasync/cryptocontroller.cpp:466-581 | in every run a key stays the key of one index |
| `KeyResults.RingWindow` | src/datasync/cryptocontroller.cpp:883-904 | in every run the active index moves by at most one per step, and the ring holds exactly the keys at most five below the active index that were ever there, plus a proposal |
| `KeyProgress.LostMacUpdateBlocksForever` | src/datasync/remoteconnector.cpp:1012-1040 | in every run: for a device that has the newest key, the waiting key change goes away in some continuation exactly if its proof is under way; otherwise no rotation is accepted any more |
| `KeyProgress.LostMacUpdateIsReachable` | src/datasync/remoteconnector.cpp:1012-1040 | for any two devices there is such a run: one rotates, the other logs in and its proof is lost |
| `KeyProgress.OvertakenRecoversIff` | tools/appserver/client.cpp:581-623 | a device whose accepted rotation was not confirmed before the next one was accepted fails every login, and moves on in some continuation exactly if the confirmation is still under way |
| `KeyProgress.OvertakingIsReachable` | tools/appserver/client.cpp:581-623 | for any two devices there is a run in which one overtakes the other and no confirmation is under way |
| `KeyProgress.HeldForever` | tools/appserver/databasecontroller.cpp:515-583 | a key change whose device can neither prove the newest key nor move on to it stays in every continuation, and so do the count and the active key of the device |
| `KeyProgress.AccountRotatesIff` | tools/appserver/databasecontroller.cpp:515-648 | after a run without the race the account can rotate its key again exactly if each device with a waiting key change has its proof under way, or is one key behind, or is two keys behind with the confirmation of the first under way |
| `KeyProgress.WelcomeBringsNewestKey` | tools/appserver/databasecontroller.cpp:650-670 | after a run without the race a waiting key change is the newest key, sealed for the device and vouched for by the one before, and accepted exactly if that is the active one |
| `ServerDb.Database.FindRow` | tools/appserver/databasecontroller.cpp:318-324 | the row of a device for a data id, if there is one |
| `ServerDb.Database.DeleteRow` | tools/appserver/databasecontroller.cpp:866-885 | a deletion with its cascade and trigger; the clamp at 0 never takes effect |
| `ServerDb.Database.InsertRow` | tools/appserver/databasecontroller.cpp:845-865 | an insertion with its trigger and the check on the quota |
| `ServerDb.Database.AddChange` | tools/appserver/databasecontroller.cpp:312-378 | refused exactly over the limit, failed exactly for an unknown device, both without effect; otherwise the queue of every device loses the replaced change, and exactly those of the other devices of the same user end with the new one |
| `ServerDb.Database.AddDeviceChange` | tools/appserver/databasecontroller.cpp:380-442 | stored data is not replaced, and exactly one device more waits, for the stored change if there is one; the error cases leave everything as it was |
| `ServerDb.Database.CompleteChange` | tools/appserver/databasecontroller.cpp:484-513 | exactly one waiting row goes, and the change exactly if no other device waits for it |
| `ServerDb.Database.ChangeCount` | tools/appserver/databasecontroller.cpp:444-455 | the number of waiting rows is the length of the queue |
| `ServerDb.Database.LoadNextChanges` | tools/appserver/databasecontroller.cpp:457-482 | the loop returns ascending ids of changes that wait for the device, as many as there are beyond the offset up to the limit, and leaves out no smaller one but those the offset skips |
| `ServerDb.PageOfQueue` | tools/appserver/databasecontroller.cpp:457-482 | what LIMIT and OFFSET make of a queue |
| `ServerDb.AddedQueue` | tools/appserver/databasecontroller.cpp:312-378 | an upload goes to the end of the queue of exactly the devices of the same user other than the sender, and takes its predecessor out of all queues |
| `ServerDb.AddedIsShared` | tools/appserver/databasecontroller.cpp:312-378 | the same by membership: what each queue and the table hold after an upload, in terms of users, devices and data ids alone |
| `ServerDb.CompletedQueue` | tools/appserver/databasecontroller.cpp:484-513 | an acknowledgement shortens the queue of its sender by that change and no other queue |
| `ServerDb.DropKeepsCount` | tools/appserver/databasecontroller.cpp:845-885 | the counter equals the summed length of the stored changes of each user after a deletion, and is never lowered below 0 |
| `ServerDb.AddKeepsCount` | tools/appserver/databasecontroller.cpp:845-865 | the same after an insertion |
| `ServerDb.AckKeepsAwaited` | tools/appserver/databasecontroller.cpp:484-513 | every change that is stored has a device waiting for it |
| `ServerDb.PendingAscends` | tools/appserver/databasecontroller.cpp:457-482 | queues are in the order of the ids |
| `ServerRuns.StoreIsBounded` | tools/appserver/databasecontroller.cpp:312-513 | after any run of uploads, device uploads and acknowledgements nobody stores the limit or more, every stored change has a waiting device, and every wait its change |
| `ServerRuns.RunKeepsOk` | tools/appserver/databasecontroller.cpp:312-513 | every transaction, refused ones included, keeps this |
| `ServerRuns.OwnedIff` | tools/appserver/databasecontroller.cpp:312-442 | in every run all waits are for changes of another device of the same user throughout, exactly if no device upload is accepted whose target is not such a device |
| `ServerRuns.UploadsStayOwned` | tools/appserver/databasecontroller.cpp:312-513 | in particular in every run of uploads and acknowledgements |
| `ServerRuns.Perform` | tools/appserver/client.cpp:478-517 | the transactions of the database are the steps of these runs |
| `Downloads.Client.TriggerDownload` | tools/appserver/client.cpp:625-657 | the next changes of the queue up to the limit, if there is room for the threshold; a message carries a count exactly if it is the first of a forced page or what was announced before is used up, and the count is what is left of the queue; the first page after `LastChanged` starts with the count of the whole queue |
| `Downloads.Client.SendChange` | tools/appserver/client.cpp:633-649 | one message with its window and counter: a new count exactly after an empty announcement or when forced, in unsigned arithmetic |
| `Downloads.Client.OnLogin` | tools/appserver/client.cpp:433-442 | with changes waiting the first message after a login is the count of the whole queue, without any nothing is sent |
| `Downloads.Client.OnChangedAck` | tools/appserver/client.cpp:509-517 | the acknowledged change leaves queue and window, then the next page; a step of the runs below |
| `Downloads.Client.NotifyChanged` | tools/appserver/client.cpp:122-134 | a notification sends the next page; a step of the runs below |
| `Downloads.SendAllCounts` | tools/appserver/client.cpp:633-649 | the count of announced changes after n messages, in plain integers: one less for each, starting over with what is left at 0, and strictly below the larger of the old count and what was left, so that no unsigned subtraction wraps |
| `Downloads.TriggeredStaysInStep` | tools/appserver/client.cpp:625-657 | paging by offset neither skips nor repeats, the counter equals its plain integer value, every announced count is exact, and the messages are followed by `LastChanged` exactly if the window is empty and that is not suppressed |
| `Downloads.TriggeredIsPage` | tools/appserver/client.cpp:625-657 | window, counter and messages of a page without the functions of the loop: how many changes are sent, which of them carry which count, and when only `LastChanged` is sent |
| `Downloads.TellsIff` | tools/appserver/client.cpp:652-656 | exactly when the client is told that nothing is left |
| `Downloads.LastChangedIsHonestIff` | tools/appserver/client.cpp:625-657 | `LastChanged` is sent only when nothing is pending, exactly if the limit is positive and not below the threshold |
| `Downloads.AckKeepsPrefix` | tools/appserver/client.cpp:509-517 | an acknowledgement of any id keeps the active downloads a prefix of the queue |
| `Downloads.WindowIsPrefix` | tools/appserver/client.cpp:625-657 | in every run in which changes arrive under new ids the active downloads are the first of the queue, and whatever comes next, a notification or any acknowledgement, the counter equals its plain integer value |
| `Downloads.ConnectionIsBounded` | tools/appserver/client.cpp:625-657 | in every run the limit holds and `LastChanged` means an empty queue |
| `Downloads.QueueDrains` | tools/appserver/client.cpp:509-517 | acknowledging the downloads one by one delivers the whole queue in order, once, and ends with `LastChanged` |
| `Uploads.WindowsFull` | src/datasync/localstore.cpp:501-552 | the pigeonhole argument behind the two LIMIT windows: with different data ids, two windows that are active as a whole leave out nothing |
| `Uploads.NeverStarvesIff` | src/datasync/localstore.cpp:501-552 | scans with LIMIT leave out an upload only if the window is full, for every order of the rows, exactly if no two uploads that can come before a third share a data id |
| `Uploads.FilledSizeIs` | src/datasync/changecontroller.cpp:110-207 | the number of active uploads after a scan |
| `Uploads.EligibleIff` | src/datasync/localstore.cpp:480-552 | what is eligible, by the rows alone: a changed row, deleted or not, and a device upload of a row that is no changed deletion |
| `Uploads.ChangeController.Visit` | src/datasync/changecontroller.cpp:135-196 | the visitor starts an upload exactly if its data id is not active for that device, with the version and deletion state of the row, and stops the scan when the window is full |
| `Uploads.ChangeController.Scan` | src/datasync/localstore.cpp:501-525 | one query with its visitor: stopped early only by a full window |
| `Uploads.ChangeController.ScanBoth` | src/datasync/localstore.cpp:501-552 | both queries: afterwards the window is full or everything returned is active |
| `Uploads.ChangeController.UploadNext` | src/datasync/changecontroller.cpp:110-207 | for any row order the window is filled as far as there is something eligible unless data ids collide, nothing is started at the limit, and uploading is reported as finished exactly when nothing was active, no row is changed and no device upload has a row, and the limit is positive |
| `Uploads.ChangeController.ChangeCount` | src/datasync/localstore.cpp:480-499 | the number of changed rows plus the number of device uploads whose row exists and is no changed deletion |
| `Uploads.ChangeController.SetUploadingEnabled` | src/datasync/changecontroller.cpp:27-37 | enabling reports the end exactly if nothing is active, no row is changed and no device upload has a row, and the limit is positive; otherwise the start, or nothing at limit 0 |
| `Uploads.ChangeController.ClearUploads` | src/datasync/changecontroller.cpp:39-46 | no upload stays active |
| `Uploads.ChangeController.UploadDone` | src/datasync/changecontroller.cpp:54-77 | the acknowledged upload ends and its row is marked for the uploaded version only; the scheduler is queued exactly if the upload was known, uploading is enabled and there is room |
| `Uploads.ChangeController.DeviceUploadDone` | src/datasync/changecontroller.cpp:79-102 | the acknowledged device upload ends and is removed from the table; the scheduler is queued exactly as above |
| `Uploads.ChangeController.AssumeUnchanged` | src/datasync/changecontroller.cpp:188-192 | after an unreadable file a plain upload ends; a device upload stays active, and a plain upload with the same data id ends in its place and has its row marked although the server has not accepted it |
| `Uploads.ChangeController.ChangeTriggered` | src/datasync/changecontroller.cpp:104-108 | a local change fills the window if uploading is enabled, unless data ids collide; with nothing active before it reports the start, or the end if there is nothing to upload |
| `Uploads.HandledStays` | src/datasync/exchangeengine.cpp:253-265 | only the end of the uploads leads to `Synchronized` |
| `Uploads.ExchangeEngine.OnRemoteEvent` | src/datasync/exchangeengine.cpp:214-251 | the state after each event in each state; ready without changes leads to `Synchronized` exactly if nothing is active, no row is changed and no device upload has a row, and the limit is positive |
| `Uploads.ExchangeEngine.OnControllerError` | src/datasync/exchangeengine.cpp:196-205 | an error stops the uploads and leads to no other state |
| `Uploads.ExchangeEngine.OnChangeTriggered` | src/datasync/exchangeengine.cpp:253-265 | the state after a local change in each case: a started upload leads to `Uploading`, from `Synchronized` too; `Synchronized` is entered only with no row changed and no device upload left |
| `Uploads.ExchangeEngine.OnUploadNext` | src/datasync/changecontroller.cpp:54-77 | a queued call of the scheduler leads from `Uploading` to `Synchronized` exactly if nothing is active, no row is changed and no device upload has a row, and the limit is positive |
| `Uploads.ExchangeEngine.ResetUploads` | src/datasync/exchangeengine.cpp:187-194 | the one exception: a reset while uploading enters `Synchronized` whatever is left |
| `EventCursors.EventCursor.Next` | src/datasync/eventcursor.cpp:162-172 | the cursor moves to the first later event that is not skipped, or stays where it is; an event is skipped exactly if its row is gone or has another version, and that is asked for |
| `EventCursors.EventCursor.ScanLog` | src/datasync/eventcursor.cpp:184-205 | the loop visits the shown events after the cursor, each once, in order |
| `EventCursors.ScanVisitsEachRowOnceIff` | src/datasync/eventcursor.cpp:438-455 | skipping obsolete events leaves exactly one event of each row, the latest, with the removed flag of the row, in log order, exactly if no earlier event of an existing row has the version of the row |
| `EventCursors.VisitedTwice` | src/datasync/eventcursor.cpp:334-377 | saving, deleting, acknowledging and saving again without persisted deletions: the scan visits the row twice |
| `EventCursors.ReplayOfScan` | src/datasync/eventcursor.cpp:438-455 | in every store replaying the visited events yields exactly the rows, even if some are visited twice, and replaying the whole log at least them |
| `EventCursors.ScanIsCompleteIff` | src/datasync/eventcursor.cpp:438-455 | in every store both replays are the same exactly if no logged row has vanished from the table |
| `EventCursors.HiddenDeletion` | src/datasync/eventcursor.cpp:334-377 | an acknowledged deletion that is not persisted is in the log and no scan that skips obsolete events shows it |
| `EventCursors.StoreLogIsComplete` | src/datasync/eventcursor.cpp:334-377 | a store that persists deletions has a complete scan that visits each row once |
| `Search.RegexReplace` | src/datasync/localstore.cpp:317-324 | the regular expression replaces a wildcard exactly after an even number of backslashes |
| `Search.SearchPattern` | src/datasync/localstore.cpp:305-339 | the rewriting of the query, mode by mode |
| `Search.FoundIff` | src/datasync/localstore.cpp:320-321 | the expression with its look-behind finds a character exactly after an even run of backslashes |
| `Search.ThreeReplacedIs` | src/datasync/localstore.cpp:309-312 | three replacements in a row escape every character on its own |
| `Search.PlainSearchIsExact` | src/datasync/localstore.cpp:305-346 | for every query the pattern matches exactly the ids that contain it, start with it or end with it |
| `Search.TranslatedIsWalk` | src/datasync/localstore.cpp:311-324 | the wildcard translation in one pass |
| `Search.WildcardSearchIsExactIff` | src/datasync/localstore.cpp:311-346 | the pattern matches what the wildcards mean, for every id, exactly if no backslash takes the meaning of `%` or `_`, or the query ends in a backslash that escapes nothing |
| `Search.NoBackslashes` | src/datasync/localstore.cpp:311-346 | which is the case for every query without backslashes |
| `Search.MatchesIff` | src/datasync/localstore.cpp:341-346 | matching a pattern is cutting the text into parts that fit its tokens |
| `Search.WildcardsMean` | src/datasync/localstore.cpp:311-346 | a wildcard query without backslashes finds exactly the ids that can be cut into parts, any text for `*`, one character for `?` and an equal one for every other character |
| `TaskQueues.TasksRunInOrder` | tools/appserver/singletaskqueue.cpp:25-97 | under every interleaving one task at a time, the head, runs; tasks complete in order, each once unless cleared before; the head never mismatches |
| `TaskQueues.StepKeepsInv` | tools/appserver/singletaskqueue.cpp:25-76 | each step keeps this |
| `TaskQueues.ClearKeepsOrder` | tools/appserver/singletaskqueue.cpp:32-53 | clearing removes all but the head and nothing that was handed to the pool |
| `TaskQueues.SingleTaskQueue.EnqueueTask` | tools/appserver/singletaskqueue.cpp:25-31 | it is queued, and chosen at once if nothing else waits |
| `TaskQueues.SingleTaskQueue.NextTask` | tools/appserver/singletaskqueue.cpp:61-69 | the head is chosen |
| `TaskQueues.SingleTaskQueue.CompleteTask` | tools/appserver/singletaskqueue.cpp:71-76 | what completed was the head, the next one is chosen, and no warning is given |
| `TaskQueues.SingleTaskQueue.ClearTasks` | tools/appserver/singletaskqueue.cpp:32-53 | the drain loop keeps the head and removes exactly the rest |
| `Codec.RoundTrip` | src/messages/message.cpp:139-165 | any record of numbers, byte arrays, texts and lists of such records is read back, up to its end and not further |
| `Codec.RecordsRoundTrip` | src/messages/message.cpp:139-165 | a list is read back: its count and its records, one after the other |
| `Codec.ReadIff` | src/messages/message.cpp:139-165 | a record is read exactly if the data starts with its encoding |
| `Codec.Exact` | src/messages/message.cpp:152-165 | what is accepted is the encoding of what was read |
| `Codec.PrefixRejected` | src/messages/message.cpp:93-103 | a strict prefix of an encoding is rejected |
| `Codec.BytesRoundTrip` | src/messages/message.cpp:248-265 | null and empty byte arrays are told apart |
| `Codec.EightBytes` | src/messages/message.cpp:139-165 | numbers are written with the most significant byte first |
| `Codec.BytesFormat` | src/messages/message.cpp:248-265 | null is four bytes of ones, every other byte array its length in four bytes and itself |
| `Codec.FieldsFormat` | src/messages/message.cpp:139-165 | fields and records follow each other in order, the records after their number in four bytes |
| `Codec.ExtractInvertsCombine` | src/datasync/synchelper.cpp:27-89 | `extract` inverts both forms of `combine`, with any bytes after it |
| `Codec.ExtractedIff` | src/datasync/synchelper.cpp:57-89 | exactly what `extract` accepts; a deletion exactly for the null payload |
| `Codec.TruncationRejected` | src/datasync/synchelper.cpp:57-89 | every strict prefix of an encoded change is rejected |
| `Codec.ChangeFormat` | src/datasync/synchelper.cpp:27-56 | a change is its type name, its id, the version in eight bytes, and the object or null |
| `Messages.DataStream.Load` | src/messages/message.cpp:152-165 | one value is read, or the stream fails |
| `Messages.DataStream.LoadProperties` | src/messages/message.cpp:152-165 | the properties are read in order |
| `Messages.DataStream.DeserializeMessage` | src/messages/message.cpp:93-103 | a message is read exactly if its properties can be read and it validates them, perhaps corrected; data that cannot be read moves the stream back |
| `Messages.DataStream.VerifySignature` | src/messages/message.cpp:105-121 | the signature is checked against all bytes before it, and the position ends after it |
| `Messages.Receive` | src/messages/message.cpp:93-121 | reading and verifying in a row |
| `Messages.AcceptedIff` | src/messages/message.cpp:76-121 | with an ideal signature a message is accepted exactly if the data starts with the signed encoding of a valid one: the verified bytes are the signed bytes |
| `ExchangeBuffers.ExchangeBuffer.ReceiveData` | src/datasync/rothreadedbackend/exchangebuffer.cpp:109-117 | the chunk is appended if the buffer is open |
| `ExchangeBuffers.ExchangeBuffer.BytesAvailable` | src/datasync/rothreadedbackend/exchangebuffer.cpp:54-57 | the size is what is left to read |
| `ExchangeBuffers.ExchangeBuffer.ReadChunk` | src/datasync/rothreadedbackend/exchangebuffer.cpp:63-73 | one round of the loop takes the next bytes, and drops a chunk that is used up |
| `ExchangeBuffers.ExchangeBuffer.ReadData` | src/datasync/rothreadedbackend/exchangebuffer.cpp:59-77 | exactly min(maxlen, size) bytes are copied, the first ones, and the rest stays |
| `ExchangeBuffers.ExchangeBuffer.Close` | src/datasync/rothreadedbackend/exchangebuffer.cpp:42-52 | a later session starts from a valid buffer exactly if everything had been read |
| `ExchangeBuffers.BufferIsFifo` | src/datasync/rothreadedbackend/exchangebuffer.cpp:59-117 | all reads of a session together are a prefix of all data received, and the buffer holds the rest |

## Left out

- Replication.Convergence: versions are unbounded numbers, not 64-bit ones; an object would need 2^64 writes to wrap around.
- Replication.Convergence: membership is fixed; a device that joins later gets its data through device uploads, which the step system does not take.
- Replication.Convergence: one object whose data id no other object in use has; `accounts.dfy` has the general case.
- Standoffs.RoundsEndIff: for more than two devices with resolvers there is no exact condition, only what breaks the bound (`Standoffs.StandoffClimbs`).
- Accounts.ObjectAgreesIff: the hash over type name and id is injective; a step `On(k, Reconnect(d))` breaks the uploads of a single object, which only adds runs.
- KeyProgress.AccountRotatesIff: removing a device from the account, which also removes its waiting key change, is not a step.
- Replication.NoLostUpdate: payload files are always readable; the program treats an unreadable file as uploaded.
- KeyAgreement.StepKeepsOk: cryptography is ideal: a key is its maker and a nonce, a MAC tells its key and claim, and a sealed key opens for its recipient only.
- KeyAgreement.StepKeepsOk: the devices and their public keys are fixed; granting access to a new device and its key import are not steps.
- Connectors.Connector.OnWelcome: becoming idle is an event of the connector's state machine, handled before or after the rest of the welcome; it is the separate `OnEntryIdle`, a step `SendProposal` of the step system.
- KeyRotation.StepKeepsSwap: a device acts on an answer only while it has the key it proposed to replace, which is what one outstanding request means; a device asks for its own rotation only.
- Merge.SyncedIsUpperBound: the checksum is injective with values in a total order, in place of SHA3 over the serialized object; the type id given to a resolver is not passed.
- LocalStores.LocalStore.Save: a file and its row are written together; directories, file names, the cache, change signals and SQL errors are not modelled.
- LocalStores.LocalStore.Clear: the rows are deleted one by one in any order, in place of one statement over the type.
- SyncControllers.SyncController.SyncChange: changes that cannot be decoded and resolvers that throw end in an error of the controller, which is not modelled.
- ServerDb.Database.AddChange: a transaction is one step; removing devices and users, the notification of connected devices and the change of quota limits are not modelled.
- Downloads.WindowIsPrefix: not for runs in which a change that was already sent is replaced or a device upload reuses an old id; these keep the limit and the meaning of `LastChanged` only.
- Downloads.Client.OnLogin: authentication and the key part of the welcome message are left to `connector.dfy`.
- Uploads.ChangeController.UploadNext: the estimate of remaining changes and the progress signals are left out; operation timeouts too.
- Uploads.ExchangeEngine.OnRemoteEvent: signals of the controllers are delivered after the call that emits them, which is the same because the engine does not call back.
- Uploads.ExchangeEngine.ResetUploads: only the part before the store and the remote identity are reset.
- EventCursors.EventCursor.Next: clearing the log, time stamps and saved cursors are not modelled.
- Search.SearchPattern: regular expression searches go to the database as they are; the character equality of LIKE is a parameter.
- TaskQueues.TasksRunInOrder: memory of deleted tasks, and the blocking destructor.
- Codec.ExtractInvertsCombine: JSON text and UTF-8 are parameters that invert each other; texts with lone surrogates do not survive and are not in the claim; byte arrays of two gigabytes and more are rejected.
- Codec.RoundTrip: identifiers and tuples are the fields they consist of, one after the other.
- ExchangeBuffers.BufferIsFifo: one session; the two devices and their threads are not modelled.
- Sockets, keepalive, retries, the connector's state machine, key stores, password derivation, bindings, services and setup are not part of this model.
