# Account log: a model of the write path

The app keeps signing keys for accounts, and each account publishes one append-only log to a
store. Edits are staged on a device, settled against what the store serves, planned into one
update, and written as a longer log signed whole. Several devices can hold one account's key,
several processes can use one vault directory, and the view drives it all through a queue of
calls. This project models those parts and proves what they keep.

How the files build on one another:

- `Basics`, `Addresses`: shared types, and addresses with their order.
- `AccountLog`, `Codec`, `Profile`: what a log means, the bytes it signs, and the name in force.
- `Staging`, `Publishing`, `LogRows`: staged edits, settling, planning, and the rows shown.
- `AccountDevice`, `DeviceTheorems`: one account on one device as values, and every call on it.
- `Protocol`, `Bookkeeping`, `Retries`, `MemoryStore`: any number of devices against one store, where
  each edit goes, what a lost answer leads to, and the store's own list.
- `VaultNames`, `Vault`, `VaultProcesses`, `Observed`, `Roster`: the files on disk and the two groups.
- `Sessions`, `AccountCore`, `Stranding`: the handle as a class over its maps, each method proved
  against `AccountDevice`, and the one run that ends with an account's list on no log.
- `CallQueue`, `Backend`: the backend's queue of calls, what a reply sets off, and why it ends.

Five things the code does that a reader may not expect, each with an exact condition:

- A name staged before a read can be missing after the publish that follows it. A read drops a
  staged name already in force, and a revocation still staged can then take that name away
  (`Publishing.NameCanBeLost`). `Publishing.SettlingKeepsIntent` says exactly when it holds.
- Importing the key of an observed account whose list cannot then be written leaves the account
  in both groups. `AccountCore.AccountCore.ImportAccount` gives the condition, and
  `Stranding.ReadThenImport` is a run that meets it.
- Stopping to observe such an account drops what was read and keeps what is staged. The account
  is then stranded exactly where a revocation is staged (`DeviceTheorems.UnreadStrands`): no edit
  is taken after it, by the log's refusal and not by the budget's, until the account is read,
  discarded or forgotten (`DeviceTheorems.StrandedRefuses`, `DeviceTheorems.ReadKeeps`).
  `Stranding.Strand` gets there on a handle's own calls, and `Protocol.OnlyAStopStrands` says that
  nothing else does in any run.
- Two processes creating one account share a stage directory, so one can promote what the other
  wrote: a key file that then opens neither with its password nor without one
  (`VaultProcesses.SharedStage`). `VaultProcesses.WhatIsPromoted` says exactly what a create
  promotes, and that it opens if and only if the document last staged is sealed the same way.
- On a log this build cannot read, `state` numbers pending rows from the rows it lists by context
  and not from the log's length. `LogRows.PendingAfterRowsByContext` says exactly when the two
  agree, which an unreadable entry rules out wherever anything is pending. Nothing can be
  published there.

The `account` and `account_log` crates are not part of this model. What their draft, resolver and
encoding do is defined here from what the manager relies on: the sizes its tests fix (17 bytes of
domain, 7 for a removal, 48 for a key, 24 and its text for a name), a frame of an opcode and a
two-byte length, an entry refused where it removes what is not live or adds a key already live, an
unknown opcode that leaves a log readable by context only, and a resolver that adopts a log only
where it extends the one held. A store that answers that it has no log while one is held counts as
a fork. The order of the fields inside a frame and the text of the domain are this model's own.

## Model

| member | source | states |
|---|---|---|
| AccountLog.PushAllIsValidity | rust-core/src/manager.rs:780-784 | pushing a whole list succeeds exactly where the longer log is valid, and then gives that log |
| AccountLog.WhyAPushIsRefused | rust-core/src/manager.rs:679-681 | a push is refused for a target that is not live, or for a key that is |
| AccountLog.ReplayIsLive | rust-core/src/manager.rs:1052-1063 | on a readable log, replaying the entries in order and looking for a later removal agree on what is live |
| AccountLog.KeysLiveOnce | rust-core/src/manager.rs:1017-1030 | on a readable log no key is live at two indices, whatever their contexts |
| AccountLog.RemovesPointBack | rust-core/src/manager.rs:808-810 | every removal in a readable log targets an earlier entry |
| Codec.PayloadLength | rust-core/src/manager.rs:1134-1145 | the size told without encoding is the length of the payload |
| Codec.DecodeInvertsEncode | rust-core/src/manager.rs:1759-1764 | a payload decodes to a log exactly where the log encodes to that payload, so both directions round-trip |
| Codec.PayloadPrefix | rust-core/src/store.rs:213-216 | one log's bytes start with another's exactly where its entries do, and equal bytes mean equal logs |
| Codec.IndicesFit | rust-core/src/manager.rs:650-652 | a log within the cap has far fewer entries than a 32-bit index counts, so no cast cuts one short |
| Profile.NamesUpToAreTheLiveOnes | rust-core/src/manager.rs:1001-1015 | the names listed are all the live ones, each once, oldest first |
| Profile.LastNameInForce | rust-core/src/manager.rs:993-997 | the name shown is the highest-indexed live one, and there is none exactly where no name is live |
| Profile.NameIsInForce | rust-core/src/manager.rs:993-997 | a name is shown exactly where some entry in force reads it |
| Staging.SettledWell | rust-core/src/manager.rs:682-708 | whatever the log has become, what settling leaves is distinct, at most one name, and publishable on it |
| Staging.RevocationsComeFirst | rust-core/src/manager.rs:808-837 | a plan has one entry an edit and writes no addition before a revocation |
| Staging.PlanKeepsTheOrder | rust-core/src/manager.rs:808-837 | among revocations, and among additions, a plan keeps the order they were staged in |
| Staging.UpdateEffect | rust-core/src/manager.rs:808-837 | publishing staged edits in the order they stand revokes exactly the entries staged for it and makes every addition live |
| Staging.KeysAfter | rust-core/src/manager.rs:808-837 | after an update a key is live exactly where it was staged or was live on an entry not staged for revoking |
| Publishing.PlanPushes | rust-core/src/manager.rs:780-784 | the plan of any staged list is pushed whole, with no entry refused |
| Publishing.PlanEffect | rust-core/src/manager.rs:808-837 | the plan is as long as the list, revokes exactly what it names, and leaves every addition live |
| Publishing.PlanningPreservesMeaning | rust-core/src/manager.rs:808-837 | revocations first leaves the same old entries, keys, name in force and encoded size as any order of the staged edits |
| Publishing.UpdateCost | rust-core/src/manager.rs:604-615 | an update lengthens the payload by 48 a key, 24 and its bytes a name, 7 a revocation |
| Publishing.SettledOnceWritten | rust-core/src/manager.rs:679-681 | once the plan is in the log, settling leaves none of the list, and every edit of it holds |
| Publishing.SettledAfterOthers | rust-core/src/manager.rs:679-708 | once the plan is in the log, whatever others append, settling leaves no revocation of it, a key only where its entry was revoked since, and a name only there or where another is in force |
| Publishing.SettlingKeepsIntent | rust-core/src/manager.rs:682-708 | publishing what a read leaves carries out every revocation and key staged before it, and a name if and only if it was kept or the name the rest leaves reads the same |
| Publishing.NameKeptUnlessRevoked | rust-core/src/manager.rs:699-704 | a dropped name holds where no staged revocation targets the entry that puts it in force |
| Publishing.NameCanBeLost | rust-core/src/manager.rs:565-602 | names N and M, a revocation of the first with N staged again, and another device revoking M: the publish leaves no name |
| LogRows.WhatTheFormatCharges | rust-core/src/manager.rs:1240-1252 | the size measured for each kind of edit is 48, 24 and its bytes, or 7 |
| LogRows.SizeIsFrame | rust-core/src/manager.rs:1117-1145 | the size measured for an entry alone is what it takes in any log |
| LogRows.PreviousNamesAreTheOthers | rust-core/src/manager.rs:497-499 | previous names are exactly the live names not in force, in strictly falling index order |
| LogRows.SupersededRows | rust-core/src/manager.rs:500-506 | a row is marked superseded, by the index in force, exactly where it is another live name, and nothing else of it changes |
| LogRows.EntryRowsTell | rust-core/src/manager.rs:1052-1080 | every row of a log is numbered as its entry stands, live as it is, and shows its kind, context, value and target |
| LogRows.PendingRowsTell | rust-core/src/manager.rs:899-910 | every pending row shows its planned entry, numbered on, live exactly where it adds, superseded by nothing |
| LogRows.RowsByContextAreTheSelected | rust-core/src/manager.rs:1082-1093 | the rows of an unreadable log are exactly its live entries of the two contexts edited here, in log order |
| LogRows.RowsByContextTell | rust-core/src/manager.rs:1082-1093 | every row shown by context is of a live entry and shows what it holds |
| LogRows.PendingAfterRowsByContext | rust-core/src/manager.rs:531 | numbered after those rows, pending rows carry the right indices exactly where none is pending or every entry has a row, and never beside an unreadable entry |
| LogRows.RowsAccountForTheLog | rust-core/src/manager.rs:1254-1277 | of a readable log, the domain and the row sizes add up to the payload |
| LogRows.PendingRowsAccountForTheUpdate | rust-core/src/manager.rs:901-910 | the pending rows are priced at exactly what publishing them adds |
| LogRows.PreviewIsTheOutcome | rust-core/src/manager.rs:899-910 | the rows the log gains are the pending ones, alike in every field |
| DeviceTheorems.CheckedVerifies | rust-core/src/manager.rs:103-127 | an answer is taken as a log exactly where the address signed it and the log encodes to its payload |
| DeviceTheorems.OnlySignedLogsAreServed | rust-core/src/manager.rs:106-109 | what is taken is the decoded payload of a log the address itself signed |
| DeviceTheorems.ServedIsChecked | rust-core/src/store.rs:195-201 | the signed payload of a log checks out as that log |
| DeviceTheorems.WhyAReadFails | rust-core/src/manager.rs:103-127 | a failed read is told as unanswered, unverified or forked exactly where the answer is none, no log the address signed, or another history than the one held |
| DeviceTheorems.OnlyTheBudgetRefuses | rust-core/src/manager.rs:778-790 | a well-staged list on a readable log is refused exactly where it passes the cap |
| DeviceTheorems.StageAddInstallationDecides | rust-core/src/manager.rs:541-560 | the checks in their order; what is left is taken within the budget, or refused with nothing changed |
| DeviceTheorems.StageSetDisplayNameDecides | rust-core/src/manager.rs:562-582 | one name waits at most: another replaces it, the one in force takes it away or is refused |
| DeviceTheorems.StageRevokeDecides | rust-core/src/manager.rs:584-602 | only a live entry can be staged for revoking, and once |
| DeviceTheorems.StrandedRefuses | rust-core/src/manager.rs:541-615 | an account whose list stands on a log no longer shown takes no edit, and each one is refused without a change |
| DeviceTheorems.UnreadStrands | rust-core/src/manager.rs:357-366 | dropping what was read strands an account exactly where a revocation is staged, and calls admit it either way |
| DeviceTheorems.SettleSound | rust-core/src/manager.rs:682-708 | settling drops edits and counts each one, and leaves a publishable list |
| DeviceTheorems.ReadKeeps | rust-core/src/manager.rs:453-468 | a failed read changes only the recorded problem; one that lands extends the log shown, loses no count, and leaves even a stranded account sound |
| DeviceTheorems.DroppedHolds | rust-core/src/manager.rs:679-708 | every edit a read drops holds in the log it read |
| DeviceTheorems.BeginPublishKeeps | rust-core/src/manager.rs:633-652 | the read of a publish writes only what fits, and one with nothing left to write counts at least one edit |
| DeviceTheorems.WhatStopsAPublish | rust-core/src/manager.rs:633-652 | past its read a publish is stopped by an unreadable log or the budget, and by nothing else |
| DeviceTheorems.WhatARefreshAnswers | rust-core/src/manager.rs:443-472 | a refresh fails exactly as its read does, and otherwise counts every drop not counted before |
| DeviceTheorems.WhatAPublishAnswers | rust-core/src/manager.rs:633-676 | every way a publish can end, told from what was staged, what was read and what the write heard |
| DeviceTheorems.WhatIsSent | rust-core/src/manager.rs:655-672 | a publish answers an index exactly where it wrote and was acknowledged, and the log shown is then the one sent |
| DeviceTheorems.WhatIsThrownAway | rust-core/src/manager.rs:357-366 | what a discard, a forget and a stop leave of an account, field by field |
| DeviceTheorems.AcknowledgedPublish | rust-core/src/manager.rs:668-676 | the log shown is the base and the plan, the new rows are the pending ones, the payload grew by their bytes within the cap, and every edit holds |
| DeviceTheorems.PendingIsWritten | rust-core/src/manager.rs:899-910 | publishing on the log shown writes exactly the rows that were pending |
| DeviceTheorems.PublishKeepsIntent | rust-core/src/manager.rs:633-676 | every edit staged before an acknowledged publish, stranded or not, holds after it, a name exactly where told |
| DeviceTheorems.PublishLosesNoEdit | rust-core/src/manager.rs:633-708 | each edit waiting or uncounted is still so, counted in the answer, or written, and the log shown only grows |
| DeviceTheorems.LostAnswer | rust-core/src/manager.rs:679-708 | after a landed write whose answer was lost, a read drops every edit of it, and a retried publish writes nothing and counts each once |
| DeviceTheorems.LostAnswerThenOthers | rust-core/src/manager.rs:679-708 | where others wrote after it, a read leaves only what they undid, and each edit it drops holds |
| DeviceTheorems.RetryAfterOthers | rust-core/src/manager.rs:633-708 | where others wrote after it, a retried publish writes exactly the edits they undid, or is stopped by the budget, or counts them all |
| Protocol.StepKeeps | rust-core/src/manager.rs:840-862 | every step of every device and of other clients keeps the invariant and only appends to the store |
| Protocol.RunKeeps | rust-core/src/store.rs:206-222 | over any run the invariant holds and the store's log is only appended to |
| Protocol.StoredLogStaysValid | rust-core/src/manager.rs:679-681 | while every writer reads the log, each revocation in it targets an entry live there and no key is live twice |
| Protocol.EveryDevice | rust-core/src/manager.rs:778-790 | each device holds a beginning of the store's log, its list is publishable but for the budget, or refused at its first revocation where a stop stranded it, and each edit it took is in exactly one place |
| Protocol.StepsAreCarriedOut | rust-core/src/manager.rs:541-623 | in any run a key or a revocation that fits is staged, and a discard and a forget leave nothing staged |
| Protocol.NamesAreStaged | rust-core/src/manager.rs:565-582 | in any run a name that is not the one in force and fits is staged |
| Protocol.OnlyAStopStrands | rust-core/src/manager.rs:357-366 | in any run a device is stranded by a stop with a revocation staged, and by no other step |
| Bookkeeping.EveryStepBooks | rust-core/src/manager.rs:565-708 | in any run a step takes only the edit asked for, throws away only by discard, forget or a name for a name, drops only what holds in the log read, and writes only what holds in the store |
| Protocol.CompareAndAppend | rust-core/src/manager.rs:840-862 | a write is taken exactly where what others appended since starts the same plan, and then the store holds base and plan and the base's length is answered |
| Protocol.AcknowledgedWriteHolds | rust-core/src/manager.rs:656-676 | an acknowledged write is the store's log, counted written, and every edit of it holds |
| Retries.ExactlyOnce | rust-core/src/manager.rs:633-708 | in any run, after a write nobody heard an answer to and whatever all others did since, if the store ends with it, the next read or retry writes nothing and counts each edit once |
| Retries.RetryAfterOthersWrote | rust-core/src/manager.rs:633-708 | in any run where others then wrote after it, the next refresh leaves only what they undid and counts the rest, and a retried publish goes on to write exactly that |
| Retries.LandsLate | rust-core/src/manager.rs:840-862 | a write given up on can still land, on exactly the stores it extends, among the steps the device waits through |
| MemoryStore.MemoryStore.Fetch | rust-core/src/store.rs:187-201 | answers the log held under the address, or none |
| MemoryStore.MemoryStore.Publish | rust-core/src/store.rs:206-222 | takes a log exactly where its payload starts with the one held, and changes nothing else |
| MemoryStore.PayloadsOnlyGrow | rust-core/src/store.rs:206-222 | whatever is published, a payload once held is only ever extended |
| MemoryStore.PublishIsStored | rust-core/src/store.rs:209-222 | the byte test on payloads is the extension test on logs, so the store refines the protocol's |
| MemoryStore.FetchIsServed | rust-core/src/store.rs:195-201 | what a fetch comes to once checked is the log the protocol's store serves |
| VaultNames.ReaderInvertsWriter | rust-core/src/vault.rs:92-107 | a file name reads as an account exactly where it is the name that account is written under |
| VaultNames.OtherFilesAreNotAccounts | rust-core/src/vault.rs:129-138 | the lock, the stage directories and the observed list are never accounts |
| VaultNames.CopiesAreNotAccounts | rust-core/src/vault.rs:725-742 | a copy named after a key file is no account, but for the one infix that spells the other name |
| Vault.WhatOpens | rust-core/src/vault.rs:149-187 | a sealed file opens with its own password, an open one with none, only a key deriving the address, and each refusal has its one reason |
| Vault.WhatIsTakenIn | rust-core/src/vault.rs:118-144 | a key is taken in under any password but the empty one, where the address is free |
| Vault.WhatIsDropped | rust-core/src/vault.rs:191-200 | a key is dropped exactly where it is held and the disk obeys |
| Vault.Vault.Accounts | rust-core/src/vault.rs:85-114 | lists each account once in address order, and fails exactly where one address has both names |
| Vault.Vault.Open | rust-core/src/vault.rs:149-187 | opens only with the password the account has or lacks, and only a key that derives the address |
| Vault.Vault.Create | rust-core/src/vault.rs:116-144 | takes a key exactly where its account is absent, adds one file, and leaves the others as they are |
| Vault.Vault.Forget | rust-core/src/vault.rs:189-200 | removes the one account and nothing else |
| VaultProcesses.PromoteKeeps | rust-core/src/vault.rs:136-142 | an address found absent under the lock is still absent at the rename |
| VaultProcesses.EveryVault | rust-core/src/vault.rs:211-237 | in every run of any processes each address has one name at most, one process is inside the lock, and no held key is replaced |
| VaultProcesses.WhatChangesFiles | rust-core/src/vault.rs:136-142 | only a rename adds a file and only a removal takes one away, each the one its process set out to |
| VaultProcesses.ForgetRemoves | rust-core/src/vault.rs:191-200 | a forget nobody interrupts removes the account under whichever name it has, and nothing else |
| VaultProcesses.WhoIsAway | rust-core/src/vault.rs:211-213 | whoever stops, ends or finds the key held is out of the lock, and nobody else has moved |
| VaultProcesses.WhatChangesStages | rust-core/src/vault.rs:308-351 | a stage directory is made by a write and goes with the create that ends, while one that stops leaves it |
| VaultProcesses.CreateLands | rust-core/src/vault.rs:117-144 | a create nobody interrupts puts its document under the account's name where the account is free, and otherwise changes no file |
| VaultProcesses.WhatIsPromoted | rust-core/src/vault.rs:126-144 | in every run a create promotes the document last staged for its account, or nothing where the stage is gone, and the account opens as asked if and only if that document is sealed the same way |
| VaultProcesses.PromotesItsOwn | rust-core/src/vault.rs:126-144 | so a create no other process of that account overlaps promotes the key it wrote, and it opens |
| VaultProcesses.SharedStage | rust-core/src/vault.rs:308-351 | two overlapping creates of one account can leave a file that opens neither with the password nor without |
| Addresses.WhatParses | rust-core/src/manager.rs:49 | an address is read exactly where it is 64 lowercase hex characters, and stands for its own spelling |
| Addresses.AscendingIsUnique | rust-core/src/observed.rs:59-80 | a strictly ordered listing is decided by the set it lists |
| Addresses.AtMostIsLexicographic | rust-core/src/observed.rs:76-80 | the order of addresses is that of their spelling |
| Observed.ObservedAccounts.List | rust-core/src/observed.rs:57-82 | lists the set the document stands for, strictly ordered, and fails exactly on a document that is none of this app's |
| Observed.ObservedAccounts.Add | rust-core/src/observed.rs:84-93 | adds one address and answers truthfully whether it was new |
| Observed.ObservedAccounts.Remove | rust-core/src/observed.rs:95-104 | removes one address and answers truthfully whether it was there |
| Observed.ObservedAccounts.Write | rust-core/src/observed.rs:106-128 | the document written is readable, sorted, and stands for the list given |
| AccountCore.PushEach | rust-core/src/manager.rs:780-784 | the pushing loop is the push of the whole list |
| AccountCore.MeasuredSize | rust-core/src/manager.rs:1134-1145 | the measuring loop gives the encoded size, or the bare domain |
| AccountCore.AccountCore.Accounts | rust-core/src/manager.rs:311-346 | each account of either group on one row, the managed ones first, each group in address order, each row locked, resolved, named and counted as it is |
| AccountCore.AccountCore.Observe | rust-core/src/manager.rs:348-355 | an account whose key is held is not observed; otherwise the list gains it, answered truthfully |
| AccountCore.AccountCore.StopObserving | rust-core/src/manager.rs:357-366 | the address leaves the list and nothing is shown of it; its account is stranded exactly where a revocation is staged, never while the groups are apart |
| AccountCore.AccountCore.CreateAccount | rust-core/src/manager.rs:368-377 | one more account beside those held, a sealed one unlocked; the groups stay apart exactly where it was not observed |
| AccountCore.AccountCore.ImportAccount | rust-core/src/manager.rs:379-407 | the account is held beside the others, unlocked if sealed, and no longer observed; the groups stay apart but exactly where a key is taken in for an observed account whose list is not written |
| AccountCore.AccountCore.ExportAccount | rust-core/src/manager.rs:409-421 | the key in the file of a managed account that its password opens |
| AccountCore.AccountCore.Unlock | rust-core/src/manager.rs:423-430 | holds the key in the sealed file, or changes nothing |
| AccountCore.AccountCore.ForgetAccount | rust-core/src/manager.rs:432-441 | the key, what is staged, read, dropped and unlocked all go, no other account changes, and nothing is shown until it is read again |
| AccountCore.AccountCore.Refresh | rust-core/src/manager.rs:443-450 | a read of a known account, failing exactly where the read does and answering every drop since the last answer |
| AccountCore.AccountCore.ReadStore | rust-core/src/manager.rs:453-468 | resolving, noting the outcome and settling are the one read of `AccountDevice`, for this account only |
| AccountCore.AccountCore.Provide | rust-core/src/manager.rs:868-897 | the slot's log goes once, and to its own address only |
| AccountCore.AccountCore.ReadBack | rust-core/src/manager.rs:668-672 | the read after a taken write adopts the log written, answers no problem whatever the store would, and empties the slot |
| AccountCore.AccountCore.Acknowledge | rust-core/src/manager.rs:668-676 | a write that was taken is answered as published, its failing branch never taken |
| AccountCore.AccountCore.Settle | rust-core/src/manager.rs:682-708 | the retain loop and the count are the settling of `AccountDevice`, and no empty list is kept |
| AccountCore.AccountCore.Fits | rust-core/src/manager.rs:778-790 | refuses exactly what pushing and encoding the update refuse |
| AccountCore.AccountCore.StageAddInstallation | rust-core/src/manager.rs:539-560 | stages a key for a managed account, with every refusal in the code's order |
| AccountCore.AccountCore.StageSetDisplayName | rust-core/src/manager.rs:562-582 | stages a name in place of any other for a managed account |
| AccountCore.AccountCore.StageRevoke | rust-core/src/manager.rs:584-602 | stages a revocation for a managed account |
| AccountCore.AccountCore.DiscardPending | rust-core/src/manager.rs:617-623 | only this account's staged edits go |
| AccountCore.AccountCore.Publish | rust-core/src/manager.rs:625-676 | refusals before any request, `Locked` among them exactly for a sealed account not unlocked; then one update signed by the account, sent whole; the log shown after is the log sent, whatever the store answers later |
| AccountCore.AccountCore.SigningKeyOf | rust-core/src/manager.rs:734-744 | which key signs: the one unlocked, or the one its open file holds; `Locked` exactly where the account is sealed and not unlocked |
| AccountCore.AccountCore.RequireManaged | rust-core/src/manager.rs:746-761 | the vault settles it, and an unreadable list takes nothing from an account held |
| AccountCore.WhoMayCall | rust-core/src/manager.rs:746-770 | a write is for an account held and a read for one in either group, and each refusal says which is missing |
| AccountCore.WhoMaySign | rust-core/src/manager.rs:734-744 | a key opened this session signs, else one kept without a password, and a sealed one is asked to be unlocked |
| AccountCore.AccountCore.Show | rust-core/src/manager.rs:474-537 | the screen is true to the account: every row shows its entry, sizes add up, the name is the one in force, pending rows are as they will land, or off exactly where told |
| Sessions.ReadBackAdopts | rust-core/src/manager.rs:878-897 | the log just written, signed by the account, resolves whatever is held before it |
| Stranding.ReadThenImport | rust-core/src/manager.rs:379-407 | an import of an observed account whose list cannot be written leaves it in both groups |
| Stranding.Strand | rust-core/src/manager.rs:357-366 | the run on a handle's own calls that strands an account, is refused by the log, and is put right by a read |
| CallQueue.FollowUpsAreLess | src/AccountLogBackend.cpp:179-289 | the calls a reply sets off change no account and weigh less than it, unless it unsettles or seats the selection |
| CallQueue.LandIsBelow | src/AccountLogBackend.cpp:127-177 | landing a reply, with all it sets off, brings the queue nearer empty |
| CallQueue.RunIsBelow | src/AccountLogBackend.cpp:140-176 | so does running a call, whatever it does to the accounts |
| Backend.Backend.Refresh | src/AccountLogBackend.cpp:243-259 | queues the read of the account on screen, stamped with the selection, or the listing where there is none |
| Backend.Backend.SetSelection | src/AccountLogBackend.cpp:300-309 | moves the stamp on, clears the notice, and puts up the count that waited for this account |
| Backend.Backend.LandCount | src/AccountLogBackend.cpp:260-268 | a count goes on screen only while its account is, and waits otherwise |
| Backend.Backend.LandListing | src/AccountLogBackend.cpp:179-207 | holds a selection still listed, falls to the first account otherwise, and queues what follows |
| Backend.Backend.LandNew | src/AccountLogBackend.cpp:318-343 | a new account comes on screen with its listing, state and read queued, and its waiting count put up, under the notice that it was already here where there is one |
| Backend.Backend.LandGone | src/AccountLogBackend.cpp:379-384 | a forgotten account takes its waiting count and its place on screen |
| Backend.Backend.LandPublish | src/AccountLogBackend.cpp:484-520 | the count of a publish is put up or waits, and a refusal is followed by one read |
| Backend.Backend.LandOldest | src/AccountLogBackend.cpp:156-175 | a reply leaves the selection, the queue and the counts as told, and busy exactly while a call is queued or not landed |
| Backend.Backend.RunCall | src/AccountLogBackend.cpp:137-177 | calls are run in order; a read is skipped exactly where the selection has moved past its stamp, and every other reply is posted as it came |
| Backend.Backend.Drain | src/AccountLogBackend.cpp:127-289 | with nothing more asked, every chain of calls ends, however the threads take turns, and then nothing is busy |
| Backend.Backend.SelectAccount | src/AccountLogBackend.cpp:291-298 | selecting an account queues its state and its read and puts up what waited for it |

## Left out

- The network: a store's answer to a read or a write is a parameter of the call, and `Protocol` lets any answer be lost; status codes, timeouts, redirects and body limits are not modelled.
- Cryptography: a signature is the address that made it, a sealed file a key and its password; Ed25519, scrypt and the keystore format are not modelled.
- Disk failures are one flag a call; permissions, syncing, the lock's one-second wait and the order of failures inside one create are not modelled.
- AccountCore.AccountCore.ImportAccount: hex parsing is the parameter `key`, none where the text is no secret.
- DeviceTheorems.StageSetDisplayNameDecides: names are bytes; trimming and the tables of characters that show nothing or move text are not modelled.
- AccountCore.AccountCore.Show: the time of the last read, the installations and the entries under other namespaces are not part of it.
- Codec.DecodeInvertsEncode: a value is a key or a text; a payload with any other kind of value does not decode here.
- Protocol.StoredLogStaysValid: a client of a newer build may write entries this build cannot read, and nothing is claimed of a log that holds one.
- Protocol.StepKeeps: a device may stage, forget and stop observing at any time, which is more than a handle that asks its vault and its list first allows.
- VaultProcesses.EveryVault: making the stage directory and writing into it are one step, so of two creates of one account the later one's document is the one staged.
- Vault.Vault.Open: the ceilings on a keystore's parameters and the failures of reading a file are not modelled.
- Backend.Backend.Drain: it is assumed that no other process changes the vault while the chain lasts.
- Backend.Backend.LandNew: the notice that a key or an address was already here replaces a count the selection just put up, as in the code.
- A core that does not open takes no calls, so `Backend` starts with one that did; the C interface, JSON, signals, status texts and the state last drawn are not modelled.
- Clearing secrets in memory, the JSON buffer sizing, QML, packaging and scripts.
