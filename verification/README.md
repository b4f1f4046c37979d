# Agent cores

A Dafny model of the stateful cores of an edge-device agent, and proofs about them. Each core
does something simple by pruning, logging, indexing, queueing or interleaving; each module states
the simple thing and proves, for all runs, that the implementation comes to it.

`dafny verify dfyconfig.toml` checks the whole project.

## The modules

- `SecurityTypes`, `Wrappers`: shared vocabulary.
- `Replay`: the RBAC gate and the replay guard. The pruned nonce map is proved to answer as a
  guard that never forgets, provided the clock does not step back; what it answers under any
  other clock, and exactly when that differs, is stated too.
- `AuditChain`: the hash chain. The preimage (newline-joined fields, decimal timestamp,
  hexadecimal hash) is concrete. The digest is any function with a 32-byte result: the binding
  theorem says that equal last hashes mean equal chains or else exhibits two different hashed
  texts with one digest. Newlines in free text are exactly what makes a preimage ambiguous.
- `AuditStore`: the `audit_events` table. Appends, loads and queries are written as the SQL says
  them and proved to be a fold, and a filtered subsequence, of the chain.
- `AuditProtocol`: concurrent `secured_rpc` calls, dropped stream guards and the exit-queue drain
  over one sink, as a step system with database faults; the exact trail each way out leaves.
- `AuditRecord`: what that trail says: each event reports one step in all its fields, and each step that
  ran has its event.
- `JsonString`: serde_json's string encoding and its parser (section 7 of RFC 8259).
- `ConfigManager`: memory against an append-only log with tombstones; sequential equivalence with
  the store-less form, agreement at rest under every interleaving of bump, persist and broadcast,
  and what becomes of it on a reopened store.
- `FileTree`, `UpgradeEngine`: recursive copy over a file tree, and the OTA engine with backup,
  swap and rollback for every fault.
- `Sessions`: application sessions: what any interleaved table accesses make of any table, and runs
  of whole calls.
- `ScriptEngine`: the placeholder scanner, substitution and rendering.
- `AlertEngine`: conditions over measured points, and the rule engine as the digest of a full ledger
  of evaluations and firings.
- `Telemetry`: the deadline grid of the scheduler and the shared collection.
- `Tags`: the two-way index of device tags against its table.
- `Downlink`: fan-out to subscribers and the removal of dead senders by `swap_remove`.

Classes mirror the source's objects: their methods are proved against functions on values, and
the theorems are about those functions and about runs of them. What both share, such as a conversion
to seconds, a label or a comparison, is stated once more without its name: `RefusedAtTheGateIff`,
`HashIsOfTheseLines`, `EventsSayWhatHappened`, `FiresIff`, `FirstPlaceholderIsReplaced` and others.

## Results that go against a natural reading

- The guard accepts a replay after the clock has stepped back (`ClockStepBackReadmitsARequest`);
  `ForgettingShowsIff` says exactly when forgetting shows.
- The chain does not protect `principal`, nor timestamps below one millisecond
  (`UnhashedFieldsAreNotProtected`), and a newline in a free-text field makes its preimage ambiguous
  (`NewlineMakesAmbiguous`).
- `write_entry` returns a hash computed over an empty previous hash. Short of a digest collision it
  is the stored hash only for the first event of a table (`ReturnedHashIsStoredIff`).
- A configuration manager opened on a store with records counts from 0 again, so a set can be
  shadowed by older records, and so can a delete (`SetIsServedIffItsVersionIsNewest`,
  `DeleteIsServedIffItsVersionIsNewest`); after a delete `get_version`
  still reports a version from the store (`GetVersionsAgreeIff`).
- The engine ignores the result of its rollback: it reports RolledBack whether or not the old tree
  is back, and `UndoneRunKeepsOldTreeIff` says exactly when it is. A plain file in the slot loses
  the install without any fault (`FileInTheSlotLosesTheInstall`), and a backup is merged into an
  existing slot (`CommittedRunMergesBackup`).
- With nothing installed before, `UndoneFirstInstallIsGoneIff` says exactly when an undone run leaves
  nothing installed. Over an unused slot a tree that was activated stays; over a used one the content
  of the slot gets installed (`FailedFirstInstallInstallsTheSlot`), and without a from-version all old
  backups do (`FailedFirstInstallInstallsAllBackups`).
- The first state of an upgrade lands on the record of the application upgraded before
  (`PreviousRecordFallsBack`), and a manifest without hash and signature lets every package through
  (`RunReachesActivationIff`).
- Across calls neither expiry nor revocation is final: a touch stored late and a registration of
  the same id revive a session, and nothing else does (`ValidAfterAccessesIff`).
- A condition that aggregates by sum, count, deviation or rate is never met (`MetMeans`).
- The second loop of `resolve_parameters`, meant to find missing required parameters, can never
  find one (`ResolveParameters`).
- Assigning a tag twice, or deleting a tag in use, parts the cache from the table
  (`AssignKeepsAgreementIff`, `DeleteKeepsAgreementIff`, `ReassignedPairOutlivesItsRemoval`) until all
  tags of the devices concerned are removed (`RunAgreesIff`).
- Two overlapping deliveries to one app with a dead subscriber remove live ones or index out of
  range (`SweepIsRightIff`, `SecondSweepHarms`).

## Model

| member | source | states |
|---|---|---|
| Replay.PrunedGuardRefinesReference | crates/agent-core/src/security.rs:438-482 | over every run of calls whose clock never steps back, the guard with the pruned map gives call by call the verdicts of a guard that never forgets an accepted request |
| Replay.NoReplayIsEverAccepted | crates/agent-core/src/security.rs:438-472 | in a run whose clock never steps back, of two accepted calls with the same key the later one carries the strictly later timestamp, so no key and timestamp is accepted twice |
| Replay.RefusedRequestsLeaveNoTrace | crates/agent-core/src/security.rs:357-378 | in a run whose clock never steps back, deleting any set of requests that were not allowed (denied, out of window, replayed) leaves every other verdict unchanged, although replayed ones prune the map |
| Replay.RefusedAtTheGateIff | crates/agent-core/src/security.rs:357-378 | in every run, from any map and under any clock, a request is denied if and only if the policy does not grant its role the action on the resource, and out of window if and only if it is granted and its timestamp is further than the skew from the clock on either side |
| Replay.KeysAreEqualIff | crates/agent-core/src/security.rs:438-472 | two requests share a key exactly when tenant, device, subject, action and nonce are equal |
| Replay.GuardUnderAnyClock | crates/agent-core/src/security.rs:438-482 | whatever the clock does, over every run a key is refused exactly while it has an accepted timestamp that is within the skew now and was so at every check since its acceptance |
| Replay.GuardRefinesReferenceIff | crates/agent-core/src/security.rs:438-482 | over every run under any clock, the guard answers like the one that forgets nothing if and only if at no call forgetting shows on the log of checks reached before it |
| Replay.ForgettingShowsIff | crates/agent-core/src/security.rs:438-482 | the next verdict differs from that of the guard that forgets nothing if and only if the request passes RBAC and the window test, an accepted timestamp of its key is within the skew, and each such timestamp was overtaken by more than the skew at some check since |
| Replay.OneCheckAgrees | crates/agent-core/src/security.rs:357-378 | one call, under any clock, answers as the log of checks demands and leaves in the map exactly the entries kept through all of them |
| Replay.ClockStepBackReadmitsARequest | crates/agent-core/src/security.rs:474-482 | the clock assumption is needed: for every skew, one later accepted request prunes the first, and a clock set back then lets the very same request through again |
| Replay.OneStepAgrees | crates/agent-core/src/security.rs:438-472 | one call keeps the correspondence between the pruned map and the full history, and answers as the history demands |
| Replay.ReferenceTimestampsIncrease | crates/agent-core/src/security.rs:438-472 | in the reference guard every accepted timestamp exceeds all earlier accepted timestamps of its key |
| Replay.ReferenceIgnoresRefused | crates/agent-core/src/security.rs:357-378 | the reference guard answers a run without some refused requests with the verdicts of the full run, those entries dropped |
| Replay.ReplayGuard.Check | crates/agent-core/src/security.rs:438-472 | window test, then prune, then lookup, then insert: the verdict and the whole new map, for every input |
| Replay.ReplayGuard.Prune | crates/agent-core/src/security.rs:474-482 | keeps exactly the entries no older than the skew; entries from the future stay |
| Replay.BasicSecurityCenter.AuthorizeRequest | crates/agent-core/src/security.rs:357-378 | a denied request is answered without touching the guard; any other one has the guard's verdict and effect; denied and out of window are stated by the policy and the clock themselves |
| AuditChain.LastHashBindsTheChain | crates/agent-core/src/security.rs:540-593 | for two verifying chains, one with newline-free text fields: either the digest collides on two texts hashed in them, or the last hashes are equal exactly when the chains have equal length and agree event by event on links, hashes and every hashed field |
| AuditChain.PreimageUnambiguousIff | crates/agent-core/src/security.rs:540-562 | with a newline-free id and previous hash, the joined text determines all hashed content of an event exactly when its six free-text fields hold no newline |
| AuditChain.PreimageIsInjective | crates/agent-core/src/security.rs:540-562 | equal preimages, one of them with newline-free fields, mean equal previous hash, id, timestamp in milliseconds, tenant, device, action, resource, target, digest, result and trace |
| AuditChain.NewlineMakesAmbiguous | crates/agent-core/src/security.rs:546-560 | any newline in a free-text field gives another event, different in hashed content, with the same preimage |
| AuditChain.HashIsOfTheseLines | crates/agent-core/src/security.rs:540-562 | the hashed text written out: previous hash, id, whole milliseconds since the epoch in decimal, tenant, device, action, resource, target, digest, result and trace, each on its line |
| AuditChain.JoinIsInjectiveAtOneLineLists | crates/agent-core/src/security.rs:546-560 | two field lists of equal length with the same joined text are equal as soon as one of them is newline-free |
| AuditChain.DecimalIsInjective | crates/agent-core/src/security.rs:541-545 | two numbers with the same decimal numeral are equal |
| AuditChain.DecimalReadsBack | crates/agent-core/src/security.rs:541-545 | a numeral stands for its number and has no leading zero |
| AuditChain.HexIsInjective | crates/agent-core/src/security.rs:643-651 | two byte strings with the same hexadecimal text are equal |
| AuditChain.HexDigitsOf | crates/agent-core/src/security.rs:643-651 | the two digits of byte i stand at 2i and 2i + 1, the high half first |
| AuditChain.HexEncode | crates/agent-core/src/security.rs:643-651 | two lower-case hexadecimal digits per byte, high nibble first, for the bytes in order |
| AuditChain.AppendKeepsVerifying | crates/agent-core/src/security.rs:570-579 | appending any event, whatever hashes it arrives with, to a verifying chain gives a verifying chain |
| AuditChain.VerifiesSnoc | crates/agent-core/src/security.rs:581-593 | a chain verifies exactly when all but its last event verify and the last one links to and hashes over what precedes it |
| AuditChain.Chain.Append | crates/agent-core/src/security.rs:570-579 | the new chain is the old one plus the event sealed over the last hash; a verifying chain stays one |
| AuditChain.Chain.Verify | crates/agent-core/src/security.rs:581-593 | true exactly for chains whose every event repeats the hash before it and its own recomputed hash |
| AuditChain.Chain.PushStored | crates/agent-core/src/security.rs:603-605 | adds the event as it is |
| AuditChain.UnhashedFieldsAreNotProtected | crates/agent-core/src/security.rs:540-562 | writing any other principals, and any timestamps within the same milliseconds, over those of a chain never changes whether it verifies |
| AuditStore.LoadedChainIsTheFold | crates/agent-store/src/lib.rs:147-216 | after any sequence of appends (duplicates, timestamps before the epoch and stale hash fields included) sequences are 1..n and the loaded chain is the accepted events folded through the chain's append, so it verifies |
| AuditStore.AppendExtendsTheChain | crates/agent-store/src/lib.rs:147-201 | on a well-formed table an append succeeds exactly when the id is unused and the timestamp not before the epoch, then extends the chain by the sealed event, else changes nothing; the table stays well-formed |
| AuditStore.QueryIsAFilteredChain | crates/agent-store/src/lib.rs:218-251 | a query over any such table returns exactly the matching events of the loaded chain, in chain order |
| AuditStore.PhysicalOrderDoesNotMatter | crates/agent-store/src/lib.rs:203-251 | loads and queries are the same in whatever order the database holds the rows |
| AuditStore.OverwrittenColumnsAreFoundOut | crates/agent-store/src/lib.rs:203-216 | overwriting the result or a hash column of any stored row, its JSON left alone, makes the loaded chain fail verification, unless the digest collides on the two texts or the row is the last and got a new hash |
| AuditStore.OrderedIsAPermutation | crates/agent-store/src/lib.rs:203-216 | ordering gives the rows themselves by ascending sequence |
| AuditStore.UnixMsMeans | crates/agent-store/src/lib.rs:941-945 | the timestamp column is the millisecond the instant lies in, 0 before the epoch, capped at the signed 64-bit maximum |
| AuditStore.RowSelectedMeansEventMatches | crates/agent-store/src/lib.rs:218-251 | selecting on columns and enum names is selecting on the event itself |
| AuditStore.AcceptedIffFreshAndRepresentable | crates/agent-store/src/lib.rs:147-201 | an event is accepted exactly when its id is not in the table and its timestamp is representable, and then only its id is added |
| AuditStore.StateStore.AppendAuditEvent | crates/agent-store/src/lib.rs:147-201 | result and whole new table: highest sequence plus one, sealed over the hash of the highest row, refused on a repeated id |
| AuditStore.StateStore.LoadAuditChain | crates/agent-store/src/lib.rs:203-216 | a chain of the stored events by ascending sequence, stored columns winning over the stored JSON |
| AuditStore.StateStore.QueryAuditEvents | crates/agent-store/src/lib.rs:218-251 | the events of the rows that pass the six optional column tests, by ascending sequence |
| AuditProtocol.ChainVerifiesAndEntriesComeFirst | src/app_platform.rs:309-431 | in every state reachable by any interleaving of calls, stream guards and drains, with any database faults: the stored chain verifies, a running handler has exactly its entry event stored, and a finished one has its entry first |
| AuditProtocol.FaultFreeRunsPairEveryCall | src/app_platform.rs:309-431 | without database faults no exit event is ever lost, and whenever the queue is empty each finished handler has left exactly its entry followed by exactly its exit |
| AuditProtocol.EveryTrailAtRest | src/app_platform.rs:309-453 | in every reachable state with an empty queue, each trace id has left exactly the events of its way out: a rejected session and a dropped stream their exit, a denial its deny event if it could be stored, an authorization error and a refused entry nothing, a running handler its entry, a finished one entry then exit; an exit is missing only if the drain dropped it |
| AuditProtocol.FaultFreeTrailsAreComplete | src/app_platform.rs:309-453 | without database faults no exit is lost, no entry is refused, and at an empty queue the trail of every way out is complete |
| AuditRecord.EventsSayWhatHappened | src/app_platform.rs:309-453 | in every state reachable by any interleaving and any faults, each stored row and queued event says in all its fields what one step did: an entry is in_progress, a denial denied, an exit bears the result its call or rejection ended with or stream_closed, each with its own id, time and trace and with the principal, action, resource, target and digest of its own call; columns repeat the event |
| AuditRecord.FaultFreeRunsRecordEveryStep | src/app_platform.rs:309-453 | without database faults, at an empty queue the loaded chain holds for every step that ran an event that says what it did |
| AuditProtocol.FinishedCallsArePaired | crates/agent-core/src/chain.rs:248-287 | with faults, an empty queue means each finished handler has left its entry and its exit, or its entry alone and its exit among those the drain dropped |
| AuditProtocol.NextKeepsInvariant | src/app_platform.rs:309-453 | every step of every party keeps the table well-formed and, for every trace id, exactly the stored and queued events its phase allows |
| AuditProtocol.IdsTellTraces | src/app_platform.rs:377-416 | the suffixes keep entry, exit and deny ids of all traces apart |
| AuditProtocol.StaleHashesDoNotMatter | crates/agent-core/src/chain.rs:271-276 | the store's answer to an event does not depend on the hash fields it arrives with |
| AuditProtocol.ReturnedHashIsStoredIff | crates/agent-core/src/chain.rs:271-276 | for an accepted event and a 32-byte digest, the hash write_entry returns equals the stored one if and only if the table was empty or the digest takes two different preimages of the event to one value |
| AuditProtocol.AuditWriter.WriteEntry | crates/agent-core/src/chain.rs:271-276 | the table is as after appending the event; the event returned is sealed over an empty previous hash |
| AuditProtocol.AuditWriter.WriteExit | crates/agent-core/src/chain.rs:280-287 | queues the event last and touches nothing else |
| AuditProtocol.AuditWriter.DrainAll | crates/agent-core/src/chain.rs:251-266 | the drain appends the queued events in order, skipping those the store refuses, until none is left |
| AuditProtocol.AppPlatform.SecuredRpc | src/app_platform.rs:309-431 | a call run by itself, on each of its five ways out, performs exactly the steps of the protocol and reports whether its handler ran; the new row and the new queued event are stated field by field, and on a well-formed table exactly when the row is stored |
| JsonString.EncodeRoundTrips | src/config_manager.rs:128-128 | parsing the JSON encoding of any string (section 7 of RFC 8259, as serde_json writes it) gives the string back; no encoding is the bare word null |
| JsonString.EscapedTextParses | src/config_manager.rs:255-262 | the escaped text of any string, followed by a quote and anything else, parses back to the string and leaves the rest |
| JsonString.PlainTextStays | src/config_manager.rs:128-128 | text without quotes, backslashes and control characters is written as it is between quotes |
| JsonString.ControlsAreWrittenByCode | src/config_manager.rs:128-128 | other control characters are written by their code in four lower-case digits |
| JsonString.EscapesByCodeParse | src/config_manager.rs:255-262 | escapes by code unit or surrogate pair, in digits of either case, are read as their character |
| ConfigManager.StoreAndMemoryAgreeWhenNothingIsPending | src/config_manager.rs:115-178 | under every interleaving of the bump, persist and broadcast steps of concurrent sets and deletes: the record of highest version per key, stored or pending, decodes to the in-memory entry, and when none is pending every read and snapshot through the store equals the one from memory |
| ConfigManager.StoreBackedRepliesLikeStoreless | src/config_manager.rs:180-233 | from an empty store, every sequence of sets, deletes, reads, snapshots and version reads gets the same replies with the store as without |
| ConfigManager.EveryChangeIsAnnouncedOnce | src/config_manager.rs:115-178 | when no call is under way, events and stored records are equally many, each record has its event and each event its record |
| ConfigManager.GetVersionsAgreeIff | src/config_manager.rs:192-203 | the two forms of the version read agree exactly for keys that are present or were never written; a deleted key still has a version in the store |
| ConfigManager.SetIsServedIffItsVersionIsNewest | src/config_manager.rs:105-113 | on a store opened with records in it, a set is served exactly when every stored version of its key is below the version it stores (capped at the column's maximum); otherwise the read answers as before it |
| ConfigManager.DeleteIsServedIffItsVersionIsNewest | src/config_manager.rs:147-178 | on such a store a delete that reports true leaves the key unread when every stored version of the key is below the tombstone's; otherwise the read answers as before it. One that reports false writes nothing, and the key was unread before and after |
| ConfigManager.SetDoes | src/config_manager.rs:115-145 | a set uses the next version, changes its key alone in memory, stores one record of scope name, key, capped version and encoded value unless that key is taken, and announces it |
| ConfigManager.DeleteDoes | src/config_manager.rs:147-178 | a delete reports true if and only if the key was read before or memory held it, and then stores a tombstone and announces it; the version is used up and the key leaves memory in any case |
| ConfigManager.DeletedIffReadBefore | src/config_manager.rs:147-178 | without a store, or where memory and store agree, it reports true exactly when the key was read before |
| ConfigManager.ReadIs | src/config_manager.rs:180-203 | on any store, a read and a version read answer from the record of greatest version of the key if there is one, else from memory |
| ConfigManager.SnapshotIsTheReads | src/config_manager.rs:205-223 | a snapshot holds exactly what the reads of its scope answer; with a store, for keys that have a record |
| ConfigManager.ForeignTextIsServedAsItIs | src/config_manager.rs:255-262 | a stored text that is not a JSON string is served as it stands |
| ConfigManager.NextKeepsAgreement | src/config_manager.rs:115-178 | each step keeps the agreement of memory with stored plus pending records |
| ConfigManager.SetIsItsThreeSteps | src/config_manager.rs:115-145 | a set that nothing interrupts is its bump, persist and broadcast steps in turn, whatever other calls are under way |
| ConfigManager.DeleteIsItsThreeSteps | src/config_manager.rs:147-178 | so is a delete, with the existence its first read found |
| ConfigManager.SetKeepsAgreement | src/config_manager.rs:60-68 | a set and its record keep every key's highest-version record telling its in-memory entry |
| ConfigManager.DeleteKeepsAgreement | src/config_manager.rs:78-84 | so does a delete, with a tombstone written when the key was there or an earlier unlocked read said so |
| ConfigManager.ScopeNameIsInjective | src/config_manager.rs:23-31 | different scopes have different names, whatever the app id |
| ConfigManager.LatestIsTop | crates/agent-store/src/lib.rs:572-589 | the latest-record query returns a record of greatest version for its scope and key, or none when there is none |
| ConfigManager.CollectedIsLatestDecoded | crates/agent-store/src/lib.rs:591-607 | on any table that keeps its primary key, the scope query, decoded, holds exactly the keys whose latest record is no tombstone, with that record's value |
| ConfigManager.ConfigManager.SetValue | src/config_manager.rs:115-145 | new memory, table and events of one set, and the version returned |
| ConfigManager.ConfigManager.DeleteKey | src/config_manager.rs:147-178 | new memory, table and events of one delete, and whether the key existed |
| ConfigManager.ConfigManager.GetValue | src/config_manager.rs:180-190 | the decoded latest stored record when there is one, else the in-memory value |
| ConfigManager.ConfigManager.TakeSnapshot | src/config_manager.rs:205-223 | all keys of a scope with their values, from the store when there is one |
| FileTree.CopyDirRecursive | src/upgrade_engine.rs:395-408 | in whatever order the directory is read, the copy is the overlay of the source on the destination, and it fails exactly where a file and a directory meet |
| FileTree.OverlayIsSourceIff | src/upgrade_engine.rs:395-408 | copying over an existing tree reproduces the source exactly when the destination holds no name the source lacks |
| FileTree.OverlayReads | src/upgrade_engine.rs:395-408 | at each path of a copy stands the file of the source, or a directory where the source has one, or else what the destination had |
| FileTree.CopyableIff | src/upgrade_engine.rs:395-408 | a copy can be made if and only if no path holds a file on one side and a directory on the other |
| FileTree.CanCreateDirIff | src/upgrade_engine.rs:133-138 | a directory can be created if and only if no file lies on the way to it |
| FileTree.OverlayOnNothing | src/upgrade_engine.rs:395-408 | copying to nothing, or to an empty directory, reproduces the source |
| UpgradeEngine.CommittedRunMergesBackup | src/upgrade_engine.rs:133-169 | a committed run over an installed tree leaves the staged tree installed, the staging directory gone and the old tree merged into whatever the slot held; the slot then holds the old tree if and only if it was unused or held no name the old tree lacks |
| UpgradeEngine.CommittedRunSwapsAndKeeps | src/upgrade_engine.rs:133-169 | in particular over an unused slot, a committed run leaves the staged tree installed, the old tree in the slot and the staging directory gone |
| UpgradeEngine.UndoneRunKeepsOldTreeIff | src/upgrade_engine.rs:276-293 | for every run over an installed tree that ends as RolledBack, whatever becomes of the rollback: the old tree is installed afterwards if and only if a condition on what was installed, staged and in the slot and on the faults met holds |
| UpgradeEngine.UndoneRunIsRestoredIff | src/upgrade_engine.rs:171-195 | its rollback succeeds if and only if the slot could be made a directory, a directory was installed, and neither the removal nor the copy of the rollback failed |
| UpgradeEngine.FileInTheSlotLosesTheInstall | src/upgrade_engine.rs:171-195 | with a plain file where the slot should be, a run with a valid manifest and package and without any fault ends as RolledBack with an empty directory in place of the old tree |
| UpgradeEngine.RolledBackRunRestoresIff | src/upgrade_engine.rs:276-293 | when the rollback succeeds the install equals the slot, and it is the old tree exactly when the backup was complete and the slot held no foreign name before (or the interrupted copy was the old tree anyway) |
| UpgradeEngine.FailedRunRestoresOldTree | src/upgrade_engine.rs:276-293 | with the slot unused and the backup complete, a run that fails in remove, rename or post-check and rolls back successfully leaves the old tree installed and in the slot |
| UpgradeEngine.EverySlotKeepsItsTree | src/upgrade_engine.rs:234-298 | along any chain of committed upgrades of one application with distinct, non-empty from-versions whose slots are unused, every slot ends with the tree installed just before its upgrade, which is the tree staged by the upgrade before |
| UpgradeEngine.RunTouchesOnlyItsDirectories | src/upgrade_engine.rs:133-195 | whatever fails, every path apart from the install, slot and staging directories reads as before the run |
| UpgradeEngine.UndoneFirstInstallIsGoneIff | src/upgrade_engine.rs:276-293 | for every run with nothing installed before that ends as RolledBack, whatever the slot holds: what it leaves at the install path, and that nothing is left there if and only if activation failed (the rename, or the install root missing or a file) and there is no slot or no room for the install, or the post-check failed, there is a slot and the rollback stopped with nothing left of what it removes |
| UpgradeEngine.FirstInstallIsNotUndone | src/upgrade_engine.rs:276-293 | in particular over an unused slot with nothing installed before, a run that ends as RolledBack restores nothing: after a failed activation (a failed rename, or no directory to install into) nothing is installed, after a failed post-check the rejected tree stays |
| UpgradeEngine.FailedFirstInstallInstallsTheSlot | src/upgrade_engine.rs:171-195 | with nothing installed before, room for the install and a directory in the slot, a run that fails in the rename alone rolls back successfully and so installs the content of the slot where nothing was |
| UpgradeEngine.FailedFirstInstallInstallsAllBackups | src/upgrade_engine.rs:276-293 | without a from-version the slot is the directory of all earlier slots of the application: a first install that fails in the rename puts every old backup, each under its version, at the install path |
| UpgradeEngine.RunReachesActivationIff | src/upgrade_engine.rs:234-274 | a run ends as committed or rolled back if and only if the manifest names an application, a version and a build, the package is there and matches the hash and the signature the manifest gives, and staging succeeds; a manifest that gives none lets every package through |
| UpgradeEngine.FailedCheckIsReported | src/upgrade_engine.rs:326-366 | a run whose manifest or package fails a check ends as Failed with what the first of the nine checks that fails reports, and touches no file; one that passes all goes on to staging |
| UpgradeEngine.RunCommitsIff | src/upgrade_engine.rs:133-169 | a run that reached activation is committed if and only if the backup can be copied in full, neither removal nor rename fails and the post-check passes; it fails in the post-check or in activation otherwise, and exactly when is stated |
| UpgradeEngine.BackupCompletesIff | src/upgrade_engine.rs:133-152 | the backup is complete if and only if nothing is installed, or a directory is, the slot can be a directory, no fault interrupts the copy and no file and directory meet in it |
| UpgradeEngine.StatesTellHowFar | src/upgrade_engine.rs:234-298 | which states a run sets tells how far it came |
| UpgradeEngine.DirectoriesAre | src/upgrade_engine.rs:133-138 | the install and staging directories are those of the application, the slot that of application and from-version, or of the application alone without one |
| UpgradeEngine.RunWalksTheMachine | src/upgrade_engine.rs:234-298 | the states a run sets, in the order it sets them, continue the engine's walk through the OTA state machine from one state at rest to another: Committed for a completed run, RolledBack for an undone one, else Failed |
| UpgradeEngine.PreviousRecordFallsBack | src/upgrade_engine.rs:300-321 | the run's own record ends with its final state, the record of the application upgraded before falls back to Received, all others stay |
| UpgradeEngine.ActivateEffect | src/upgrade_engine.rs:133-169 | what backup, removal and rename leave at the three directories and elsewhere, for every fault |
| UpgradeEngine.RollbackEffect | src/upgrade_engine.rs:171-195 | exactly when a rollback succeeds and what every outcome leaves at the install path, whether something was installed or not and whether there is room for it; the slot and all else stay |
| UpgradeEngine.UpgradeEngine.Run | src/upgrade_engine.rs:234-298 | file tree, result, current manifest, persisted records and every state set, in order, of a run, for every manifest, tree and environment; the walk through the state machine is kept |
| UpgradeEngine.UpgradeEngine.Validate | src/upgrade_engine.rs:234-246 | the first states, in order, the reason of a rejected manifest, and the records |
| UpgradeEngine.UpgradeEngine.Prepare | src/upgrade_engine.rs:234-274 | validation, package verification and staging: every state set in order with the reason of each failure, tree, record and whether the package got staged |
| UpgradeEngine.UpgradeEngine.VerifyPackage | src/upgrade_engine.rs:339-366 | the first failing check, with its message: package absent, hash different (an empty one is not checked), signature or key alone, either not base64, signature not accepted |
| UpgradeEngine.UpgradeEngine.Deploy | src/upgrade_engine.rs:276-298 | activation, post-check and rollback: every state set in order, tree, result and record |
| UpgradeEngine.UpgradeEngine.Activate | src/upgrade_engine.rs:133-169 | tree and result of activation, copying with the recursive copy |
| UpgradeEngine.UpgradeEngine.Rollback | src/upgrade_engine.rs:171-195 | tree and result of a rollback, copying with the recursive copy |
| UpgradeEngine.UpgradeEngine.SetState | src/upgrade_engine.rs:300-321 | the state changes first and is added to the states set so far, then the record of the current manifest changes, if there is one |
| Sessions.RevokedSessionsStayInvalid | src/app_platform.rs:261-278 | in every interleaving of table accesses after a revocation, from any table, a later successful validation implies that the id was registered anew in between |
| Sessions.ValidIffFreshAndNotRevoked | src/app_platform.rs:261-278 | in runs of whole calls with never-reused ids, a session is valid exactly when it is registered under a token with the same digest, no accepted unregister came, and now is at most its last accepted renewal plus the duration |
| Sessions.ExpiryIsPermanent | src/app_platform.rs:637-680 | with never-reused ids and a clock that never steps back, once a call finds the session expired every later call on it is refused |
| Sessions.ValidAfterAccessesIff | src/app_platform.rs:261-278 | from any table, under any interleaved accesses: a session validates if and only if its last registration or revocation was a registration (or there was none and it was live), the token has the digest of the one last registered, and now is at most its last registration or touch plus the duration (or, without one, its expiry before); and exactly when it is unknown, revoked, under a wrong token or expired |
| Sessions.LiveAfterAccessesIff | crates/agent-store/src/lib.rs:429-502 | an id is present and not revoked after any accesses if and only if its last registration or revocation was a registration, or there was none and it was so before; its stored token is the hexadecimal digest of the one last registered |
| Sessions.ExpiryAfterAccesses | crates/agent-store/src/lib.rs:512-525 | a live session expires the duration after its last registration or touch, which is its last heartbeat; without one, both are as before |
| Sessions.ColumnsAfterAccesses | crates/agent-store/src/lib.rs:429-459 | name, device and first registration of a row are those of the first registration of its id, or of the table before, and never change again; version, capabilities and metadata are those of the last registration |
| Sessions.RoleAfterAccesses | src/app_platform.rs:294-307 | the role is the one the metadata of the last registration names, admin or readonly, else operator |
| Sessions.ReusedIdRevivesSession | src/app_platform.rs:130-132 | an instance: ids hold a name and a millisecond, and registering one again revives a session revoked in between |
| Sessions.LateHeartbeatRevivesExpiredSession | src/app_platform.rs:660-677 | an instance: a heartbeat validated in time whose update comes late makes an expired session valid again |
| Sessions.TableRemembersAll | crates/agent-store/src/lib.rs:429-525 | after any run of whole calls with never-reused ids the row of an id states its registration token, last accepted renewal plus duration, and whether it was unregistered |
| Sessions.AppSessions.ValidateSession | src/app_platform.rs:261-278 | unknown, revoked, wrong token, expired, in this order, else accepted |
| Sessions.AppSessions.AppRole | src/app_platform.rs:294-307 | the role named in the metadata of the row, operator unless it is admin or readonly; unknown without a row |
| Sessions.AppSessions.UpsertAppSession | crates/agent-store/src/lib.rs:429-459 | every column of the row after a registration: on a reused id the name, device and first registration stay, all else is replaced and the revocation cleared |
| Sessions.AppSessions.TouchAppSession | crates/agent-store/src/lib.rs:512-525 | renews only a row that is present and not revoked, and says whether it did |
| Sessions.AppSessions.RevokeAppSession | crates/agent-store/src/lib.rs:496-502 | revokes only a row that is present and not revoked, and says whether it did |
| Sessions.AppSessions.Serve | src/app_platform.rs:637-680 | table and verdict of each whole call: the update happens exactly when the session check passes |
| ScriptEngine.HolesAreThePlaceholders | src/script_engine.rs:78-87 | the leftmost non-overlapping scan finds a name exactly when the placeholder pattern matches it somewhere in the text |
| ScriptEngine.DetectedAreThePlaceholders | src/script_engine.rs:78-87 | detection returns the names of all placeholders of the text, each once, in strictly ascending order of characters |
| ScriptEngine.ScanIsLossless | src/script_engine.rs:212-225 | substituting no values gives the text back |
| ScriptEngine.FirstPlaceholderIsReplaced | src/script_engine.rs:212-225 | substitution leaves everything before the first placeholder, puts its value in its place (or leaves it when it has none), and goes on with the rest in the same way |
| ScriptEngine.NoPlaceholderNoChange | src/script_engine.rs:212-225 | a text without placeholders is not changed |
| ScriptEngine.SelfValuesGiveTheTextBack | src/script_engine.rs:212-225 | so do values that are the placeholders themselves, and any values for names that do not occur |
| ScriptEngine.SubstitutionDependsOnDetected | src/script_engine.rs:212-225 | two value maps that agree on the detected names give the same result |
| ScriptEngine.RenderSucceedsIff | src/script_engine.rs:301-337 | rendering succeeds exactly when every placeholder of the text has a definition and every definition's value (the one provided unless empty, else the default, else nothing) is not blank where required and passes its checks |
| ScriptEngine.RenderedReplacesEveryPlaceholder | src/script_engine.rs:301-337 | a rendered text is the template with values substituted in which every placeholder has one: that of the last definition of its name, the one provided unless empty, else the default, else nothing; all definitions are listed with their values |
| ScriptEngine.RenderFailsWith | src/script_engine.rs:301-337 | a failed rendering reports the names of exactly the placeholders without a definition, ascending, or else the first definition whose value is not acceptable, as missing when it is blank where required and as rejected otherwise |
| ScriptEngine.ChosenValueIsChecked | src/script_engine.rs:170-209 | the value of a definition is the one provided unless empty, else its default, else nothing; it is refused as missing or as rejected exactly when it is blank where required or fails its checks |
| ScriptEngine.SubstituteParameters | src/script_engine.rs:212-225 | the loop over matches gives the substituted text, whose laws are FirstPlaceholderIsReplaced and NoPlaceholderNoChange |
| ScriptEngine.DetectParameters | src/script_engine.rs:78-87 | the loop, sort and dedup give the sorted, deduplicated placeholder names |
| ScriptEngine.ResolveParameters | src/script_engine.rs:170-209 | the first definition, in order, whose value fails its checks is the error; otherwise all values in order; the second loop never finds anything |
| ScriptEngine.RenderScript | src/script_engine.rs:301-337 | missing definitions are reported first, then a rejected value, else the rendered text and its parameters |
| AlertEngine.EngineIsDigestOfLedger | src/alert_engine.rs:478-748 | over every run of adding, removing and evaluating rules, in any evaluation order and under any clock, the engine's state is the digest of the full ledger: it fires exactly when the rule matches and the documented gates hold, stated in whole seconds, counts all firings since a rule was added, keeps the last of all alerts, and has carried out every action of every firing once and in order |
| AlertEngine.FiringsKeepTheCooldown | src/alert_engine.rs:642-691 | over every run in which a rule with a cooldown in the signed 64-bit range stays unchanged, two consecutive firings of it are at least the cooldown of whole seconds apart, and its firings are those of its alerts |
| AlertEngine.FiresIff | src/alert_engine.rs:642-691 | one evaluation fires if and only if the rule matches, floor(now in seconds) minus floor(last firing in seconds) is at least the cooldown, and likewise for the duration since the streak of matches began (above the signed 64-bit maximum a setting counts as n - 2^64); the new state in full |
| AlertEngine.MatchingPointsAreThoseApplying | src/alert_engine.rs:523-541 | a point applies exactly when its name equals or matches the condition's and it bears all labels asked for |
| AlertEngine.MatchingPointsKeepOrder | src/alert_engine.rs:523-541 | applying points keep their order and multiplicity |
| AlertEngine.SumIsAdditive | src/alert_engine.rs:577-590 | the sum behind the average is the sum of the points' values |
| AlertEngine.MetMeans | src/alert_engine.rs:523-600 | a condition is met if and only if some point applies to it, it aggregates by latest, minimum, maximum or average, and that value (the latest, smallest or greatest of the applying points, or the latest with their average, which lies between them) lies as its operator asks from the threshold, equality meaning closer than 2^-52; it is triggered by that value |
| AlertEngine.ExtremeMeansSomePoint | src/alert_engine.rs:523-600 | above by the maximum, or below by the minimum, is met if and only if some applying point compares with the threshold |
| AlertEngine.ExtremeMeansAllPoints | src/alert_engine.rs:523-600 | above by the minimum, or below by the maximum, is met if and only if a point applies and all applying points compare with the threshold |
| AlertEngine.TriggersBelongToTheirConditions | src/alert_engine.rs:597-600 | the k-th triggering metric is the one that met the k-th matched condition |
| AlertEngine.ResultNamesTheAlert | src/alert_engine.rs:694-735 | a matching evaluation names the alert of the first condition met, with the metric that met it, in all its fields |
| AlertEngine.LatestIsTheLast | src/alert_engine.rs:542-550 | of equally recent points the last is taken |
| AlertEngine.GreatestIsTheLast | src/alert_engine.rs:564-576 | of equally great points the last is taken |
| AlertEngine.SmallestIsTheFirst | src/alert_engine.rs:551-563 | of equally small points the first is taken |
| AlertEngine.EvaluationAgrees | src/alert_engine.rs:642-748 | one evaluation of one rule changes engine and ledger alike |
| AlertEngine.GatesAgree | src/alert_engine.rs:642-691 | cooldown and duration read from the few state fields are the documented gates read from the full history |
| AlertEngine.LogicalOpIsRuleMatches | src/alert_engine.rs:616-639 | the index test means: all, or any, of a non-empty condition list hold; and a match names a condition |
| AlertEngine.AlertEngine.Evaluate | src/alert_engine.rs:478-500 | each enabled rule is evaluated exactly once, in some order, one after the other; the results are those of the rules as they were |
| AlertEngine.AlertEngine.EvaluateRule | src/alert_engine.rs:503-614 | the ascending indices of the conditions met, the metrics that met them, and whether they match the rule |
| AlertEngine.AlertEngine.UpdateState | src/alert_engine.rs:642-691 | whole new state of the engine after one update, both gates and their early returns included, whose meaning FiresIff states |
| AlertEngine.AlertEngine.FireAlert | src/alert_engine.rs:694-748 | the alert in full, for the first matched condition that the rule has, each action of the rule carried out with it in order, state counters and bounded history |
| AlertEngine.AlertEngine.AddRule | src/alert_engine.rs:448-454 | the rule is replaced, its state kept if there is one |
| AlertEngine.AlertEngine.RemoveRule | src/alert_engine.rs:457-460 | rule and state go, the alert history stays |
| Telemetry.AdvanceDueTime | src/telemetry.rs:469-475 | for every now below u64::MAX the saturating loop terminates with previous + k * interval for the least k >= 1 that passes now, capped at u64::MAX; an interval of 0 counts as 1 |
| Telemetry.LoopTerminatesIff | src/telemetry.rs:469-475 | some value the loop goes through passes now exactly when now is below u64::MAX |
| Telemetry.DeadlineFollowsTheGrid | src/telemetry.rs:405-475 | after any non-decreasing polls a profile's deadline is start + (floor((now - start) / interval) + 1) * interval for the last poll (the start itself before any), capped by saturation, with its own interval, or 1 for 0 |
| Telemetry.NothingIsDueAfterAPoll | src/telemetry.rs:440-459 | after each poll nothing is due at its time |
| Telemetry.DeadlineAfterAPoll | src/telemetry.rs:440-475 | after each poll every deadline lies in (now, now + interval] for the profile's own interval |
| Telemetry.ServedOncePerInterval | src/telemetry.rs:424-430 | a poll serves a profile exactly when it is the first poll in its interval since the start |
| Telemetry.SlotsAreServedAtMostOnce | src/telemetry.rs:440-459 | the deadlines a profile was served at are strictly ascending slots start + k * interval of its own interval, at most floor((now - start) / interval) + 1 of them |
| Telemetry.SharedCollectionDoesNotInterfere | src/telemetry.rs:328-385 | a bundle built from sections collected for any superset of the profile's includes equals the one built from its own collection |
| Telemetry.BundleShowsWhatIsIncluded | src/telemetry.rs:328-385 | a bundle shows each part of the device exactly when the profile includes it, and a runtime section only when it has something to show |
| Telemetry.StartedAreTheEnabled | src/telemetry.rs:406-418 | a scheduler starts with exactly the enabled profiles, each due at the start |
| Telemetry.StartedKeepsOrder | src/telemetry.rs:406-418 | in the order of the profiles |
| Telemetry.AdvancedIsPolled | src/telemetry.rs:440-459 | advancing the due profiles one after the other moves every due deadline once and no other |
| Telemetry.TelemetryScheduler.DueCollectionIndices | src/telemetry.rs:424-430 | the ascending indices of all profiles whose deadline is at or before now |
| Telemetry.TelemetryScheduler.CollectionIncludes | src/telemetry.rs:432-438 | the union of the includes of the indexed profiles |
| Telemetry.TelemetryScheduler.CollectDueBundles | src/telemetry.rs:440-459 | one bundle per index in order, and exactly the indexed deadlines advanced in turn |
| Telemetry.TelemetryScheduler.Poll | src/app.rs:129-146 | one turn of the loop: every due profile gets the bundle of its own collection although one collection serves all, and the schedule is polled |
| Tags.RunAgreesIff | src/tags_store.rs:517-606 | any run of assigns, removals, tag creations and tag deletions from agreement ends in agreement if and only if every device that had a pair assigned again, or a tag deleted under it, had all its tags removed afterwards |
| Tags.RunKeepsAgreement | src/tags_store.rs:543-606 | after any run of fresh assigns, single and per-device removals, tag creations and deletions of unused tags, each index lists, for every key, exactly the table's rows in the table's order |
| Tags.ReloadRebuildsTheView | src/tags_store.rs:391-412 | reopening the store after such a run, with the rows listed in any order, gives the same entries under every device and every tag; listed in table order, the same lists |
| Tags.AgreementMakesTransposes | src/tags_store.rs:179-194 | under agreement an assignment occurs as often in the device index as in the table, and as often in the tag index |
| Tags.AssignKeepsAgreementIff | src/tags_store.rs:543-560 | an assign keeps agreement exactly when the pair was not yet assigned |
| Tags.DeleteKeepsAgreementIff | src/tags_store.rs:517-533 | deleting a tag keeps agreement exactly when there is no such tag or nothing was assigned to it |
| Tags.ReassignedPairOutlivesItsRemoval | src/tags_store.rs:196-215 | assigning a pair again and then removing it always leaves an entry in the device index that is in neither the table nor the tag index |
| Tags.RemoveKeepsAgreement | src/tags_store.rs:578-596 | a single removal keeps agreement and returns a row of the table when there was one |
| Tags.RemoveByDeviceKeepsAgreement | src/tags_store.rs:599-606 | a per-device removal keeps agreement |
| Tags.LoadedAgrees | src/tags_store.rs:357-415 | loading any list of rows gives a cache that agrees with it |
| Tags.ReplacedHolds | src/tags_store.rs:543-560 | after an assign the table holds the new row once, no other row of the pair, and every other row as before |
| Tags.DeviceTagCache.Insert | src/tags_store.rs:179-194 | both indexes after an insert |
| Tags.DeviceTagCache.Remove | src/tags_store.rs:196-215 | both indexes and the result after a removal: the first entry of the device list, all matching entries of the tag list |
| Tags.DeviceTagCache.RemoveByDevice | src/tags_store.rs:217-231 | both indexes and the removed list |
| Tags.TagStore.constructor | src/tags_store.rs:298-307 | opening fills the cache from the rows in the order they are listed |
| Tags.TagStore.AssignTag | src/tags_store.rs:543-560 | table after INSERT OR REPLACE and cache after an insert |
| Tags.TagStore.RemoveTagFromDevice | src/tags_store.rs:578-596 | table without the pair; the cache is changed only if a row was deleted |
| Tags.TagStore.RemoveAllTagsFromDevice | src/tags_store.rs:599-606 | table and cache without the device, and the removed list |
| Tags.TagStore.DeleteTag | src/tags_store.rs:517-533 | tag and its assignments leave the tables when the tag was there; the cache of assignments stays |
| Downlink.SweepLeavesLiveAndNew | src/data_router.rs:62-81 | whatever happens to other apps and whoever subscribes between the two locks of a delivery, the removal is never out of range and leaves, as a multiset, exactly the live senders of the snapshot plus the new subscribers |
| Downlink.SweepTakesOutExactlyThese | src/data_router.rs:73-80 | on any list, removing by swap at descending indices stays in range exactly when the indices do, and takes out exactly the senders that stood there |
| Downlink.SweepIsRightIff | src/data_router.rs:73-80 | against a list changed in any way, the removal takes out the dead senders and nothing else exactly when they still stand at the dead indices |
| Downlink.SecondSweepHarms | src/data_router.rs:62-81 | when two deliveries copied the same senders and found the same ones dead, the second removal is out of range or takes out live senders |
| Downlink.DeadAndLivePartition | src/data_router.rs:67-72 | the senders found dead and the live ones together are the snapshot |
| Downlink.SentCounts | src/data_router.rs:67-72 | each channel receives the message once per live sender of the snapshot that belongs to it |
| Downlink.DownlinkRegistry.Subscribe | src/data_router.rs:50-59 | a fresh sender, listed last under its app |
| Downlink.DownlinkRegistry.Broadcast | src/data_router.rs:62-72 | the snapshot, the ascending indices of failed sends, and what every channel has received |
| Downlink.DownlinkRegistry.Sweep | src/data_router.rs:73-80 | the list after the removals, and whether they stayed in range |
| Downlink.DownlinkRegistry.Deliver | src/data_router.rs:62-81 | uninterrupted: exactly the live senders stay, each of them received the message once, nobody else received anything and other apps are untouched |
| Downlink.DownlinkRegistry.RemoveApp | src/data_router.rs:83-85 | the app's list goes, the others stay |

## Left out

- AuditStore.StateStore.AppendAuditEvent: the columns that no load or query reads (tenant, device, target, digest, trace) are kept in the event's JSON only.
- AuditProtocol.FaultFreeRunsPairEveryCall: stated for the `secured_rpc` path only; the northbound interceptor uses one id for its entry and its exit, so its exits are refused as duplicates.
- AuditProtocol.AuditWriter.DrainAll: an exit event counts as queued until its insert, so the moment between the background receive and the insert is not a state of its own; a handler dropped before it returns stays in its running phase.
- ConfigManager.StoreBackedRepliesLikeStoreless: bounded by 2^63 - 1 operations, because the version column saturates there and later records would share a key.
- ConfigManager.EveryChangeIsAnnouncedOnce: events are what is sent; capacity and lag of the broadcast channel are not modelled.
- Sessions.ValidIffFreshAndNotRevoked: instants are unbounded integers, so an expiry beyond the 64-bit range does not wrap.
- Sessions.AppSessions.UpsertAppSession: capabilities and metadata are kept as values, their JSON text is assumed to read back; the app manifest and the lifecycle registration that follow are not modelled.
- UpgradeEngine.UpgradeEngine.VerifyPackage: the SHA-256 of a content, which texts are base64 and which signatures a key accepts are functions handed to the model; an error while reading the package is not modelled.
- UpgradeEngine.UndoneRunKeepsOldTreeIff: a failed post-check is a fault of the environment. The one strategy of the repository inherits the default post-check, which always passes (src/upgrade_engine.rs:93-95, 111-195), so that fault needs another strategy.
- UpgradeEngine.UpgradeEngine.Run: directories are created whole or not at all; what an interrupted copy or removal leaves is any content; application ids and versions are single path components.
- AlertEngine.EngineIsDigestOfLedger: `fire_count` is unbounded.
- AlertEngine.AlertEngine.EvaluateRule: numbers are reals, so rounding, infinities and NaN are not modelled; which names a pattern with a star matches is a function handed to the evaluation.
- AlertEngine.AlertEngine.FireAlert: the fresh id of the alert and its later resolution are not modelled; carrying out an action, a log line in the original, is one entry in a list.
- ScriptEngine.RenderSucceedsIff: word characters, white space and the type, option and pattern checks of a parameter are functions handed to the model; it is assumed that braces are not word characters.
- Downlink.DownlinkRegistry.Sweep: an index out of range is a panic in the original and a false result here; the lock it poisons is not modelled.
- Tags.ReloadRebuildsTheView: timestamps and ids are assumed to survive their text form; the two locks of the cache are taken together.
- Telemetry.TelemetryScheduler.Poll: the sections read from the device are given at one moment; the fields of the runtime section are grouped into those shown for its basic and its system include.
- AuditChain.LastHashBindsTheChain: SHA-256 itself is not modelled; a collision is named instead of excluded.
- SystemTime and Duration overflow, and the equality of two instants beyond nanoseconds, are not modelled.
- SQL text, SQLite and serde encodings of whole records: tables are sequences and maps with their key constraints, and stored JSON is assumed to read back what was written, except for configuration values, whose string encoding is modelled.
- I/O errors other than the database faults of the audit protocol and the faults of an upgrade run: operations that fail with one change nothing here.
- gRPC, MQTT, TLS, X.509 identities, HKDF, base64, UUID generation, Unix sockets and the platform abstraction: plumbing and foreign libraries.
- Health evaluation, batches, groups, the script store, plain validation of profiles and topics, statistics and the application lifecycle dispatcher: they would only add easy members.
- Tag definitions (names, colours, filters) beyond their ids, and paging and sorting of tag queries.
- Environment-variable substitution and the building of shell commands from rendered scripts.
