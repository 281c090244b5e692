# UwURDP: a verified model

This project models the parts of UwURDP where something can go quietly wrong, and
proves what they promise.

**Sync.** Every device keeps versioned records. A version is a hybrid logical clock
and a tombstone flag; a delete beats an edit, otherwise the later clock wins. A
device pushes what changed with the sequence number its version is based on, pulls
pages by cursor, and merges both. Devices publish manifests of what the server
confirmed and check everybody's manifests against their own rows, so a server that
keeps records back is noticed.

- `Basics`, `Clock`, `Versions`, `Records`: what every module counts with, clocks, the order of versions, records and seals.
- `Device`: one device's tables, and each store call as a function of them.
- `Server`: the honest server, as an append-only log. Record `i` of the log has
  sequence number `i + 1`; the version held of a record is the last one in the log.
- `Protocol`, `Net`: any number of devices and one honest server. Each store call
  and each request is one step of one device, so local edits, other devices' passes,
  lost answers and crashes come between any two of them. The invariants are kept by
  every step. A ghost ledger holds every version anyone ever wrote.
- `Guarantees`: what follows for every run.
- `Batches`, `Outcomes`, `KnownHosts`, `Alarms`: the order of a batch, what its report
  says, host-key slots, and the alarm the check cannot avoid.
- `Handover`, `Drift`, `Revival`: one record on its way from a device through the
  server to another one, clocks that run ahead, and keys trusted again.
- `Store`: the local database as a class whose methods do what the functions in
  `Device` say.
- `Rounds`, `Standing`, `Engine`: a sync pass as a class, against any server at all,
  and against the honest one as steps of `Net`.
- `Runs`, `Stuck`: how runs of the network are put together, and the run that leads to
  a pass that needs more rounds than it has.
- `Sweeps`: every device runs a pass, and then another one.

**Frames.** `Dirty` is the dirty region, `Frame` cuts it into bounded messages,
`Page` is their bytes and the reader that draws them, and `Screen` is the session
that decodes, marks, flushes, is acknowledged and resizes.

**Smaller pieces.** `Mask` (file masks of redirected drives), `OpenFiles` (ids of open
files), `Base64`, `ManifestCodec`, `Logins` (copy-on-write logins and their
passwords) and `Moves` (drag and drop).

What was found on the way, each stated as an "if and only if" or with the input that
shows it:

- An edit is newer than the record it edits as long as no clock runs more than a day
  ahead (`Drift.TimelyRunsLoseNothing`). Past that it need not be: exactly when is
  `Clock.NextEditIsNewerExactlyWhen`. Where it is not, the server takes the edit, every
  other device keeps what it had, and further pulls change neither
  (`Drift.EditReachesOthersExactlyWhenNewer`, `Drift.NeitherChangesAgain`).
- What passes the check need not pass it for good: a delete that was skipped is
  uncovered by a later record that points at it (`Batches.PassedDeleteIsUncovered`;
  exactly when is `Batches.CheckStaysPassed`).
- A pass can end in the error for endless conflicts although nobody else writes and
  the server is honest: 1001 edits of records whose deletes were skipped
  (`Stuck.PassFromStuck`, from a state that a run leads to). With at most two requests
  of rows behind it never does, and when two rounds are enough is in
  `Engine.Pass.SyncOnce`.
- A device that joins after a record was deleted, while a manifest still lists the
  record, raises the alarm although the server kept nothing back, and pulling again
  does not help (`Alarms`; exactly when is `Guarantees.AlarmExactlyWhen`).
- A host key trusted again after it was forgotten stays forgotten on every other
  device that knew of the delete, however often those pull
  (`Revival.RevivedKeyStaysForgotten`; exactly when a key arrives is
  `Revival.KeyArrivesExactlyWhen`).
- A host whose own login and gateway login are one, with no other owner, leaves that
  login and its password behind when it is saved with both; in every other case
  nothing is left behind (`Logins.Tables.SaveHost`).
- `Rect::union` saturates for rectangles that together span more than 16 bits, and
  covers both exactly when they do not (`Dirty.UnionCoversUnlessSaturated`).

`dafny verify dfyconfig.toml` checks the project. Predicates such as `WorldInv` are
hidden (`hide`) in proofs that only pass them on.

## Model

| member | source | states |
|---|---|---|
| Clock.LessIsTicks | crates/uwurdp-proto/src/clock.rs:107-114 | the order of clocks is the order of one integer, with the device as tie-break, and no two different clocks tie |
| Clock.TickIsMax | crates/uwurdp-proto/src/clock.rs:46-61 | a tick is one past the old value or the current time, whichever is later; it is strictly later than its clock if and only if that is not the very last value there is |
| Clock.MergeIsMax | crates/uwurdp-proto/src/clock.rs:71-97 | away from the top, a merge is the maximum of one past the clock, one past the remote clock with its wall clamped to a day ahead, and the time |
| Clock.MergePassesExactlyWithinDrift | crates/uwurdp-proto/src/clock.rs:63-97 | after hearing a record the clock is past it if and only if the record was at most a day ahead or the clock had reached it already |
| Clock.NextEditIsNewerExactlyWhen | crates/uwurdp-proto/src/clock.rs:46-97 | for every later time, the exact condition under which the next tick is newer than a record that was heard |
| Clock.DriftExample | crates/uwurdp-proto/src/clock.rs:71-97 | a concrete record two days ahead whose next local edit is stamped before it |
| Clock.RunIsBounded | crates/uwurdp-proto/src/clock.rs:46-104 | over any run of ticks and merges the clock gains at least one per step and never passes a day after the latest time seen by more than the number of steps |
| Versions.ResolveIsOrder | crates/uwurdp-proto/src/merge.rs:49-66 | the merge decides by one strict total order: deletes above live versions, then the clock |
| Versions.WinnerIsSemilattice | crates/uwurdp-proto/src/merge.rs:49-66 | the winner of two versions is their least upper bound: idempotent, commutative, associative |
| Server.PageIsComplete | crates/uwurdp-sync/src/engine.rs:31-32 | a page is exactly the versions held between the two cursors; when it is the last, nothing held is past it; it is empty only if the cursor stays |
| Server.ServeSpec | crates/uwurdp-proto/src/sync.rs:68-79 | an honest answer: what it accepts is what was offered and is held now, what it refuses comes with the version held, no other record changes, and nothing is refused if and only if everything was based on what was held |
| Server.EverybodyIsAnswered | crates/uwurdp-proto/src/sync.rs:68-79 | each record offered is accepted or answered with the version held |
| Device.AscendingSorts | crates/uwurdp-store/src/manifest.rs:181-266 | the order entries of a kind are listed in is strictly ascending and leaves none out |
| Device.ListingIsManifest | crates/uwurdp-store/src/manifest.rs:187-215 | what a manifest says: entries for exactly the records the server confirmed and nothing has changed since, of every synced kind, each once, host keys first, then what logs in, then the rest, and by id; if there are more than 7000, which is when it is partial, the first 7000 of them |
| Device.HostKeysAreListedFirst | crates/uwurdp-store/src/manifest.rs:36-47 | a manifest that leaves out a host key is full and lists nothing but host keys |
| Protocol.ApplyOneTakes | crates/uwurdp-store/src/sync.rs:889-973 | one readable record: its own row ends at the greater of the two versions, based on it and clear if it won or tied, everything else stays but for new placeholders |
| Protocol.TakeKeepsRowsInv | crates/uwurdp-store/src/sync.rs:889-973 | taking in a version the server held keeps the ten invariants of a device's rows, and accounts for it |
| Protocol.MarkKeepsRowsInv | crates/uwurdp-store/src/sync.rs:470-500 | clearing flags for true acknowledgements keeps the invariants: a clear row is exactly a version the server took |
| Protocol.BatchKeepsRowsInv | crates/uwurdp-store/src/sync.rs:506-553 | a whole batch, in whatever order, keeps the invariants and accounts for every record in it |
| Protocol.ServeKeepsLogInv | crates/uwurdp-proto/src/sync.rs:28-33 | nothing the server takes is ever older than what it replaces |
| Protocol.EditKeepsRowsInv | crates/uwurdp-store/src/hosts.rs:315-467 | a local transaction, stamped with one new tick, keeps the invariants |
| Protocol.PublishKeepsLedgerInv | crates/uwurdp-store/src/manifest.rs:181-266 | everything a new manifest lists was on the server before the manifest |
| Protocol.PublishKeepsRowsInv | crates/uwurdp-store/src/manifest.rs:181-266 | publishing keeps the invariants of the rows |
| Net.StepKeeps | crates/uwurdp-sync/src/engine.rs:122-336 | each of the twelve steps a device can take, in any order, keeps every invariant of it, the log and the ledger |
| Net.NextKeepsInv | crates/uwurdp-sync/src/engine.rs:122-336 | and so does it for all other devices |
| Net.RunKeepsInv | crates/uwurdp-sync/src/engine.rs:122-336 | every run keeps all of it |
| Guarantees.NothingWrittenIsLost | crates/uwurdp-store/src/sync.rs:475-500 | in every reachable state, every version ever written waits on its device, in that row or a newer one, or the server took it or a greater one |
| Guarantees.WaitingRowKeepsWaiting | crates/uwurdp-store/src/sync.rs:470-500 | a waiting row still waits after any step, unless the server took exactly that version or the row is now a greater one |
| Guarantees.StepGrows | crates/uwurdp-store/src/sync.rs:889-973 | no step loses a row or makes one older |
| Guarantees.Convergence | crates/uwurdp-sync/src/engine.rs:122-137 | once a record rests on every device, all hold the greatest version any device ever wrote of it, with the same fields, or a delete where one never had it |
| Guarantees.OneContentPerVersion | crates/uwurdp-store/src/sync.rs:889-973 | in every reachable state, one version of a record has one content on all devices |
| Guarantees.AlarmMeansUnseenDelete | crates/uwurdp-store/src/manifest.rs:383-454 | after a complete pull, a flagged entry is about a record this device never took in and the server held a delete of |
| Guarantees.AlarmExactlyWhen | crates/uwurdp-store/src/manifest.rs:504-546 | the exact condition, both ways, under which the check of an honest server flags an entry |
| Guarantees.NoFalseAlarm | crates/uwurdp-store/src/manifest.rs:383-454 | in every reachable state after a complete pull, no alarm about a record the device has taken in or the server held live |
| Sweeps.TwoSweepsConverge | crates/uwurdp-sync/src/engine.rs:122-137 | whatever happened before: after every device ran a complete pass and then every device another one, in any order, all agree on every record |
| Drift.ApplyKeepsAhead | crates/uwurdp-store/src/sync.rs:519-551 | if nothing accepted is more than a day ahead, the clock stays at or past every row after any batch from any server |
| Drift.AheadEditsWin | crates/uwurdp-proto/src/clock.rs:46-61 | and then the next edit of any row, at any time, is newer than the row |
| Drift.PermittedIsEditable | crates/uwurdp-store/src/hosts.rs:315-467 | on such a device every permitted edit is newer than what it writes over |
| Drift.TimelyRunsLoseNothing | crates/uwurdp-store/src/sync.rs:506-553 | over every run from nothing in which no record comes from more than a day ahead: edits need only be permitted, no clock falls behind a row of its device, and no write is lost |
| Drift.EditOfHeardIsNewerExactlyWhen | crates/uwurdp-store/src/sync.rs:506-553 | for a record just taken in and an edit at any later time: the edit is newer if and only if the record was at most a day ahead, or the clock was at most one tick behind it, or the time is past it, or the later of clock and time ties with it and the device decides |
| Drift.EditReachesOthersExactlyWhenNewer | crates/uwurdp-store/src/sync.rs:889-973 | an edit based on the version held is taken by the server; another device with the old version takes it in if and only if it is newer, and otherwise keeps version and fields, clear, under the edit's own sequence number |
| Drift.NeitherChangesAgain | crates/uwurdp-store/src/sync.rs:889-973 | after that no further pull of the edit changes either device |
| Alarms.JoiningAfterDeleteAlarms | crates/uwurdp-store/src/sync.rs:933-937 | a device that joins after a delete and before the manifest that lists the record is replaced finds it missing |
| Alarms.PullingAgainDoesNotHelp | crates/uwurdp-sync/src/engine.rs:197-206 | and still does after pulling everything again any number of times |
| Alarms.EditKeepsPassed | crates/uwurdp-store/src/manifest.rs:504-546 | an entry accounted for stays so under a local transaction if and only if that does not write the record live under a clock older than the entry's, with no note of a newer version given up |
| Alarms.NewerEditKeepsPassed | crates/uwurdp-store/src/manifest.rs:504-546 | so it does under an edit newer than the live row it edits |
| Revival.KeyArrivesExactlyWhen | crates/uwurdp-store/src/sync.rs:1224-1314 | whatever rows there are, deleted ones too: a host key that comes in holds its slot if and only if its own row is absent, or live and no newer, and no other row of the slot is newer |
| Revival.TrustReachesExactlyWhen | crates/uwurdp-store/src/known_hosts.rs:75-126 | a key trusted on one device is taken by the server and reaches another device if and only if that condition holds there |
| Revival.RevivedKeyStaysForgotten | crates/uwurdp-store/src/known_hosts.rs:91-104 | a key trusted again where it was forgotten stays deleted on every device that has the delete, whatever the clocks, and pulling again changes neither device |
| Revival.ForgottenExample | crates/uwurdp-store/src/known_hosts.rs:75-172 | a key is trusted, pushed, pulled, forgotten, pushed and pulled, so that two devices agree; one trusts it again, and after the push and the pull they differ, under a newer clock |
| Batches.OrderDoesNotMatter | crates/uwurdp-store/src/sync.rs:514-537 | any two orders of a batch leave the same shown records with the same fields, and the same row wherever there was one before |
| Batches.BatchIsAsIfAlone | crates/uwurdp-store/src/sync.rs:514-537 | each record of a batch ends as if it had come alone |
| Batches.BatchKeepsRefs | crates/uwurdp-store/src/sync.rs:1009-1114 | after every record, in any order and from any server, what a record points at exists, and placeholders neither wait nor are listed |
| Batches.EveryRecordIsCounted | crates/uwurdp-store/src/sync.rs:89-133 | the report counts every envelope exactly once |
| Batches.AnyServerKeepsRows | crates/uwurdp-store/src/sync.rs:889-973 | whatever a server sends, no row is lost or made older, none starts to wait, and one stops waiting only for a sealed version at least as great |
| Batches.NothingIsForged | crates/uwurdp-store/src/sync.rs:889-973 | a row that takes a new version holds what was sealed for exactly that id, header and vault |
| Batches.CheckAgreesWithMerge | crates/uwurdp-store/src/manifest.rs:504-546 | the check flags a live version if and only if the merge would write it; a flagged delete would be written, and which deletes are written unflagged |
| Batches.CheckStaysPassed | crates/uwurdp-store/src/manifest.rs:504-546 | what passes the check still does after a later record, if and only if there is a row for it, or the record does not land, or the record is neither an older version of it nor one that points at it |
| Batches.PassedDeleteIsUncovered | crates/uwurdp-store/src/manifest.rs:504-546 | a delete that passed, and a record pointing at it after which it does not |
| Outcomes.BatchMeans | crates/uwurdp-store/src/sync.rs:506-553 | a batch comes to its records one after the other, in a stable sort by what must be there first and then by sequence number, and the clock merged with the latest of those that were not rejected |
| Outcomes.InOrderSorts | crates/uwurdp-store/src/sync.rs:514-517 | the order is sorted, has each record as often as the batch, and leaves equals in the order they came in |
| Outcomes.BeforeMeans | crates/uwurdp-proto/src/entities.rs:80-102 | every kind comes before the kinds that point at it, and within a kind the smaller sequence number comes first |
| Outcomes.OutcomeMeans | crates/uwurdp-store/src/sync.rs:889-973 | of a record that makes sense, exactly when it is applied, kept, the same, skipped, by what was there: new or newer, winning its slot, and no delete of something that is not here |
| Outcomes.OutcomeDoes | crates/uwurdp-store/src/sync.rs:889-973 | and the whole row or device after each: an applied row is as it was sealed, confirmed and clear, and a delete keeps the fields it found except a secret's |
| Outcomes.SlotChanges | crates/uwurdp-store/src/sync.rs:1224-1314 | a new or newer host key takes an empty slot, takes one from a holder that is not newer, and gives up to a newer one; who gives up is remembered by the later of its versions, and nothing else changes |
| Outcomes.NonsenseChangesNothing | crates/uwurdp-store/src/sync.rs:889-973 | what makes no sense changes nothing, and is skipped or rejected |
| Outcomes.ForeignManifestIsRejected | crates/uwurdp-store/src/sync.rs:889-973 | a manifest under another id than its device's is rejected |
| Outcomes.ConflictExactlyWhen | crates/uwurdp-store/src/sync.rs:1224-1314 | a conflict is reported if and only if another device put a live key, new or newer than its row, where a different one was |
| Outcomes.ReportCounts | crates/uwurdp-store/src/sync.rs:95-133 | each number of the report is how many records of the batch that became of, manifests aside unless rejected |
| Outcomes.NewestIsLatest | crates/uwurdp-store/src/sync.rs:530-535 | the clock a batch is heard at is the latest of the records that were not rejected; rejected ones move no clock |
| KnownHosts.DeliveriesKeepSlots | crates/uwurdp-store/src/sync.rs:1224-1314 | any delivery order with any duplicates keeps one row per slot, and every record delivered is beaten there by one at least as new and remembered |
| KnownHosts.NewestKeyWins | crates/uwurdp-store/src/sync.rs:1224-1314 | the row of a slot is a delivered record's if and only if no newer one was delivered for the slot; every loser passes the check |
| KnownHosts.SupersedeRemembers | crates/uwurdp-store/src/sync.rs:1384-1402 | what is remembered of a record never gets older |
| Store.ApplyOneKeepsSlots | crates/uwurdp-store/src/sync.rs:1224-1314 | whatever arrives, no two host keys hold one slot |
| Store.MarkAllKeepsClocks | crates/uwurdp-store/src/sync.rs:475-500 | acknowledgements change no version and no field |
| Store.MarkAllMeans | crates/uwurdp-store/src/sync.rs:475-500 | a row acknowledged as it is waits no more and is based on the last number it was given for that version; any other row is as it was |
| Store.Store.FindRival | crates/uwurdp-store/src/sync.rs:1224-1252 | the other record that holds the slot, if there is one |
| Store.Store.ApplyRecord | crates/uwurdp-store/src/sync.rs:889-973 | the tables after one record, its outcome and whether keys conflicted are those of the specification, and slots stay unique |
| Store.Store.ApplyEnvelopes | crates/uwurdp-store/src/sync.rs:506-553 | the sorted batch, its report and the merged clock are those of the specification |
| Store.Store.PendingRows | crates/uwurdp-store/src/sync.rs:693-768 | waiting rows of a kind, oldest first, none left out unless the limit is reached |
| Store.Store.PendingEnvelopes | crates/uwurdp-store/src/sync.rs:379-431 | waiting rows as they are, each once, in the order they must be applied and of each kind the oldest first, none that is left out older than what is sent, within the limits of a request and filling it: the request is full in number, rows left out counted, or in bytes, or all that can be sent is in it and all that cannot is counted |
| Store.Store.FitsMeans | crates/uwurdp-store/src/sync.rs:399-405 | a row can be sent if and only if its sealed payload, none for a delete, is at most 256 KiB |
| Store.Store.AllFitIsFilled | crates/uwurdp-store/src/sync.rs:379-431 | if everything that waits can be sent, a request has all of it, or as many rows as it may, or no room for some row that waits |
| Store.Store.BytesAreWeight | crates/uwurdp-store/src/sync.rs:379-431 | the bytes of a request are those of the rows in it, each counted once |
| Store.Store.PendingManifest | crates/uwurdp-store/src/sync.rs:438-468 | the manifest as it is, within the size limit; none only if none waits or one is too large |
| Store.Store.MarkPushed | crates/uwurdp-store/src/sync.rs:475-500 | flags are cleared for exactly the rows that are still as they were sent, and how many |
| Store.Store.Write | crates/uwurdp-store/src/hosts.rs:315-467 | a local transaction gives one new tick to every row it writes; a written row waits on the base it had, a deleted one keeps its fields except a secret's, and no other row changes |
| Store.Store.KnownHost | crates/uwurdp-store/src/known_hosts.rs:42-68 | the key trusted for a slot: none that is deleted, and while a stored problem is with a host key or a manifest only one this device wrote |
| Store.Store.TrustHostKey | crates/uwurdp-store/src/known_hosts.rs:75-126 | the specification's trust: the slot's one row is live with the new key and a new clock, keeps its id and base, and no other row changes |
| Store.Store.ForgetHostKey | crates/uwurdp-store/src/known_hosts.rs:151-172 | true if and only if a live key held the slot, whose row is then a delete that waits, with its slot and base; nothing else changes |
| Store.Store.RefreshManifest | crates/uwurdp-store/src/manifest.rs:181-266 | afterwards this device's manifest is live and right, whatever was here before and whatever was returned; it is written under one new tick, on the base it had, if and only if what it would say changed, and nothing else is |
| Store.Store.CheckManifests | crates/uwurdp-store/src/manifest.rs:383-454 | the problems written down are exactly those of live manifests' entries and of the expected manifest; every problem counts as a record, so none is reported if and only if every entry of every live manifest was here, or something newer, and the expected manifest is here; host keys are in doubt if and only if one of the entries that were not here is one, or the expected manifest is missing or older |
| Store.Store.NoteIncompletePull | crates/uwurdp-store/src/manifest.rs:336-352 | an incomplete pull counts as a record kept back, with host keys in doubt; of the problems stored, each counts as a record unless it is a manifest that was not checked yet |
| Store.OneProblemMore | crates/uwurdp-store/src/manifest.rs:456-472 | one problem more is one record more, unless it is a manifest not checked yet, and puts host keys in doubt if it is with a host key or a manifest |
| Rounds.MarkShrinks | crates/uwurdp-store/src/sync.rs:475-500 | when something was cleared, strictly less waits |
| Rounds.ApplyOneDrains | crates/uwurdp-store/src/sync.rs:889-973 | no record from any server makes a row wait |
| Standing.OnlyPassedOverIsUnforeseen | crates/uwurdp-store/src/sync.rs:933-937 | of what was pulled already, a waiting record is behind if and only if its delete was passed over |
| Standing.PulledIsReady | crates/uwurdp-sync/src/engine.rs:146-193 | if nothing else is behind, then after a full pull every waiting row is based on what the server holds |
| Standing.SettlesOne | crates/uwurdp-store/src/sync.rs:889-973 | the version held leaves its row clear or based on it; a host key that keeps its slot is never kept out by another |
| Standing.ExchangeSettles | crates/uwurdp-sync/src/engine.rs:288-336 | after a push and its answer, what is behind was behind before and was not offered, and no surprise is new |
| Standing.PushOfReady | crates/uwurdp-sync/src/engine.rs:288-336 | a push of rows based on what is held comes back without conflicts |
| Standing.NothingClearedMeansBehind | crates/uwurdp-sync/src/engine.rs:288-336 | if a push cleared nothing, all it offered was behind |
| Standing.PageSettles | crates/uwurdp-sync/src/engine.rs:146-193 | a page leaves nothing behind a version on it |
| Standing.SurprisedExchange | crates/uwurdp-sync/src/engine.rs:288-336 | edits of records whose deletes were passed over are all refused, and all cleared by the answer; nothing else changes |
| Rounds.PushMovesRows | crates/uwurdp-sync/src/engine.rs:288-336 | the server's log grows by no more than stops waiting |
| Rounds.AnswerIsCounted | crates/uwurdp-sync/src/engine.rs:288-336 | of what is offered to the honest server, what is counted as taken is what its log gained, and the rest was refused |
| Rounds.PushRound | crates/uwurdp-sync/src/engine.rs:288-336 | one push with its answer is four steps of the network and keeps its invariants |
| Rounds.PullRound | crates/uwurdp-sync/src/engine.rs:146-193 | one page is three steps of the network and keeps its invariants |
| Engine.Pass.PushAll | crates/uwurdp-sync/src/engine.rs:288-336 | ends for every server: one request for each row that stops waiting and one more; what the honest server takes is counted; without conflicts from it nothing is left waiting, and in any case a full request of what was behind is settled, or all of it |
| Engine.Pass.RequestIsTaken | crates/uwurdp-sync/src/engine.rs:288-336 | a request that was all behind and is settled takes a full request off what is behind, or all of it |
| Engine.Pass.CountShrinks | crates/uwurdp-sync/src/engine.rs:122-137 | of rows so small that only their number counts, that is 500 fewer, or none left |
| Engine.Pass.LoadShrinks | crates/uwurdp-sync/src/engine.rs:122-137 | whatever the sizes, that is a full request less of number and bytes together, or none left |
| Engine.Pass.PullOnce | crates/uwurdp-sync/src/engine.rs:151-191 | one request for a page, whoever answers: no answer changes nothing; a reset sets the cursor to the start, changes nothing else, and ends the pull only if it was there; a page is taken in whole, its cursor only if it is further on and something on the page could be read, and only if it moved is there more to ask for; the honest server's last page leaves nothing unseen |
| Engine.Pass.PullAll | crates/uwurdp-sync/src/engine.rs:146-193 | at most a thousand requests for every server, each from further on than the one before, or from the start after a reset; without a reset the cursor does not go back; how it ends, by the last answer; the honest server is heard to the end if that many pages hold its records |
| Engine.Pass.PublishManifest | crates/uwurdp-sync/src/engine.rs:246-283 | what is offered is this device's manifest alone, and it lists exactly what was confirmed here; it is offered unless the server has it already or it is too large, as long as no other device's manifest waits here; the pull is repeated to the end |
| Engine.Pass.OfferManifest | crates/uwurdp-sync/src/engine.rs:252-283 | one push of a manifest, and a pull to the end if and only if it was answered; one that does not get through fails nothing |
| Engine.Pass.Check | crates/uwurdp-sync/src/engine.rs:207-237 | everything is pulled once more, from the start, if and only if the pull was complete, something listed was not here, and no earlier check had found anything; what a complete check of any server reports is what is not here, an incomplete one never reports nothing, and of the honest server it finds only what it cannot help |
| Engine.Pass.Finish | crates/uwurdp-sync/src/engine.rs:131-135 | after a round without conflicts: the manifest out, exactly if the pull was complete, and everyone's checked |
| Engine.Pass.SyncOnce | crates/uwurdp-sync/src/engine.rs:122-137 | ends for every server within one request per row that stops waiting and 5004 more, losing no row; what it reports of any server after a complete pass is exactly what live manifests list and was not here, an incomplete one never reports nothing, and a complete one has offered a right manifest; against the honest server nothing waits afterwards, a complete pass has seen all and raises no avoidable alarm, and what is counted as pushed is what the log gained, but for the manifest; with at most two requests behind, of whatever rows, counted by number where they are small and by number and bytes together where they are not, it does not fail and takes at most a round for each and one more; two rounds are enough if what is behind fits one request or a pull clears it up; for edits of deletes passed over, the exact number of rounds, and failure exactly past two requests of them |
| Stuck.StuckIsReachable | crates/uwurdp-store/src/sync.rs:1009-1114 | a run of three devices, from nothing, after which one of them has any number of such edits waiting: groups made, pulled elsewhere, deleted, hosts put into them, deletes skipped, hosts taken in, placeholders written to |
| Runs.PushesOne | crates/uwurdp-sync/src/engine.rs:288-336 | a waiting row based on what is held is pushed and acknowledged in four steps, and the server has it as it was |
| Runs.PullsOne | crates/uwurdp-sync/src/engine.rs:151-191 | the next version held is pulled and taken in, in three steps |
| Stuck.PassFromStuck | crates/uwurdp-sync/src/engine.rs:122-137 | from there a pass takes one round for none, two for at most 500, three for at most 1000, and fails for more |
| Engine.FlaggedIsUnavoidable | crates/uwurdp-store/src/manifest.rs:383-454 | what a check finds right after a complete pull is a host key, or a record never taken in that the server holds a delete of |
| Dirty.ContainsIsCovering | crates/uwurdp-core/src/dirty.rs:64-69 | containment is inclusion of pixels |
| Dirty.UnionIsLeast | crates/uwurdp-core/src/dirty.rs:50-62 | where edges fit 16 bits the union is the least rectangle over both |
| Dirty.UnionCoversUnlessSaturated | crates/uwurdp-core/src/dirty.rs:50-94 | the union covers both if and only if together they span no more than 16 bits |
| Dirty.ClipIsIntersection | crates/uwurdp-core/src/dirty.rs:80-87 | clipping keeps exactly the desktop's pixels |
| Dirty.SwapRemoveKeepsRest | crates/uwurdp-core/src/dirty.rs:135-138 | taking one rectangle out loses only its pixels, and keeps all the others |
| Dirty.MergingMeans | crates/uwurdp-core/src/dirty.rs:157-169 | two rectangles are worth merging if and only if one has all pixels of the other, or some of their pixels are no more than 9 apart and the least rectangle over both has at most half the larger one's pixels more than both |
| Dirty.DirtyRegion.Add | crates/uwurdp-core/src/dirty.rs:128-149 | no pixel is lost, none outside every box around all of it is added, at most 32 rectangles, none empty, no two worth merging; a rectangle that is worth merging with none goes to the end of the list, or if that was full all become the least rectangle; otherwise it grows to the least rectangle over itself and those that went, and the others stay |
| Frame.TimesIsCovered | crates/uwurdp-core/src/frame.rs:133-181 | a pixel is covered if and only if it is counted |
| Frame.Cut | crates/uwurdp-core/src/frame.rs:149-165 | strips of one rectangle from top to bottom cover each of its pixels once, fit a message each, and but for the last could not be a row higher |
| Frame.Bundle | crates/uwurdp-core/src/frame.rs:167-180 | messages hold the pieces in their order, within both limits, and each is so full that the next piece would not fit |
| Frame.PlanBitmaps | crates/uwurdp-core/src/frame.rs:141-181 | the messages are the rectangles cut only where they must be, in order, each message as full as the next piece lets it be, non-empty and within both limits; every pixel is sent exactly as often as the rectangles cover it |
| Page.BodyLength | crates/uwurdp-core/src/frame.rs:133-139 | a message is exactly as long as planned |
| Page.EncodeBitmaps | crates/uwurdp-core/src/frame.rs:188-213 | the bytes of a message, alpha forced to 255, and their number |
| Page.HeadersLayout | crates/uwurdp-core/src/frame.rs:188-205 | the kind, the count and each rectangle's place and size are where they belong, lower byte first |
| Page.RowsLayout | crates/uwurdp-core/src/frame.rs:200-213 | then its rows, with the framebuffer's three bytes and 255 for each pixel, and black past the framebuffer |
| Page.BytesArePixels | crates/uwurdp-core/examples/probe.rs:48-58 | the bytes a rectangle's rows address are those of its pixels |
| Page.Picture.Apply | crates/uwurdp-core/examples/probe.rs:39-63 | reading a message back puts the framebuffer's bytes, opaque, where its rectangles are and nowhere else; a new size is a new picture |
| Screen.DrawnIsOnPage | crates/uwurdp-core/examples/probe.rs:48-58 | a pixel drawn, or shown before, is shown as the framebuffer has it |
| Screen.NothingElseIsDrawn | crates/uwurdp-core/examples/probe.rs:48-58 | a pixel outside the rectangles is shown as before |
| Screen.Screen.MarkDirty | crates/uwurdp-core/src/session.rs:134-143 | what the desktop has of a reported region is dirty, saturation or not, and nothing outside every box around that and what was dirty |
| Screen.Screen.Decode | crates/uwurdp-core/src/session.rs:386-388 | after an update the framebuffer is the update's, every pixel is still dirty or shown, what was dirty still is, and nothing outside every box around that and the regions |
| Screen.Screen.Flush | crates/uwurdp-core/src/session.rs:152-191 | something is sent, and counted as outstanding; of the messages that what was dirty makes, the first are sent, shown and nothing else is drawn, the others stay dirty and nothing outside every box around them does, there are such only if the window is full, and at most two are outstanding |
| Screen.Screen.Ack | crates/uwurdp-core/src/session.rs:315-318 | one message less is outstanding, never fewer than none |
| Screen.Screen.Resize | crates/uwurdp-core/src/session.rs:455-467 | the framebuffer starts over in the new size, the page knows it, everything is dirty, what is outstanding stays so |
| Screen.Handle | crates/uwurdp-core/src/session.rs:275-505 | one event: what it makes of the framebuffer, how many messages it sends, which is some if and only if it is a flush with something dirty and room in the window, and what is outstanding then |
| Screen.Drive | crates/uwurdp-core/src/session.rs:275-505 | after any events in any order the framebuffer is what the updates and sizes among them make it, every pixel of it is dirty or shown, what is outstanding is what the page drew less the acknowledgements that found something, never more than two, and a flush or an acknowledgement has had its effect |
| Mask.StarMeansAnyRun | crates/uwurdp-core/src/drive.rs:1002-1037 | the recursive meaning of a star is any run of characters |
| Mask.MeansCutting | crates/uwurdp-core/src/drive.rs:1002-1037 | a mask means the names that can be cut into consecutive pieces, one for each of its characters: any run for `*`, exactly one character for `?`, that same character otherwise |
| Mask.StarFreeMeans | crates/uwurdp-core/src/drive.rs:1012-1015 | without a star, the names of the same length that agree wherever the mask has no `?` |
| Mask.NextStar | crates/uwurdp-core/src/drive.rs:1018-1022 | at the next star, the alternatives of the last one are not needed any more |
| Mask.MatchesMask | crates/uwurdp-core/src/drive.rs:1002-1037 | true if and only if the mask is `*.*` or the name can be cut as the mask says, and the loop ends |
| OpenFiles.TurnCounts | crates/uwurdp-core/src/drive.rs:468-476 | ids do not repeat within one turn |
| OpenFiles.OpenTable.NextFreeId | crates/uwurdp-core/src/drive.rs:468-476 | the first free id from where it stands, never zero, after passing over no more ids than files are open; the next search starts after it |
| OpenFiles.OpenTable.Create | crates/uwurdp-core/src/drive.rs:367-466 | a new id for a new file, unless 256 are open; no other file changes |
| Base64.Serialize | crates/uwurdp-proto/src/sync.rs:111-133 | the loop writes the encoding |
| Base64.ThreeAreSpelled | crates/uwurdp-proto/src/sync.rs:111-133 | four letters stand for three bytes, first to last, six bits each |
| Base64.TwoAreSpelled | crates/uwurdp-proto/src/sync.rs:111-133 | of two bytes three letters are left, and a padding sign |
| Base64.OneIsSpelled | crates/uwurdp-proto/src/sync.rs:111-133 | of one byte two letters are left, and two padding signs |
| Base64.ChunkIsQuad | crates/uwurdp-proto/src/sync.rs:111-133 | each three bytes are at their place in the text |
| Base64.Deserialize | crates/uwurdp-proto/src/sync.rs:135-155 | the loop reads what the text stands for |
| Base64.OthersArePassedOver | crates/uwurdp-proto/src/sync.rs:139-147 | a character that is no letter of the alphabet and no padding changes nothing, wherever it is |
| Base64.PaddingEnds | crates/uwurdp-proto/src/sync.rs:139-147 | nothing after a padding sign is read |
| Base64.LowBits | crates/uwurdp-proto/src/sync.rs:141-149 | the lower bits of the accumulator are what was read last, whatever was shifted out at its top |
| Base64.RoundTrip | crates/uwurdp-proto/src/sync.rs:105-156 | decoding the encoding of any bytes gives them back |
| ManifestCodec.Encode | crates/uwurdp-proto/src/manifest.rs:75-92 | the bytes of a manifest, field by field |
| ManifestCodec.HeaderLayout | crates/uwurdp-proto/src/manifest.rs:75-92 | the magic, the version, the device, the clock, the flag and the count are where they belong, most significant byte first, and how long it all is |
| ManifestCodec.EntryLayout | crates/uwurdp-proto/src/manifest.rs:75-92 | so are the kind, the flag, the id and the clock of each entry |
| ManifestCodec.Decode | crates/uwurdp-proto/src/manifest.rs:96-131 | some manifest for exactly the bytes one of at most 7000 entries encodes to, none for any other |
| ManifestCodec.EncodingIsInjective | crates/uwurdp-proto/src/manifest.rs:75-92 | two manifests never share their bytes |
| ManifestCodec.RoundTrip | crates/uwurdp-proto/src/manifest.rs:29-131 | what is encoded decodes to itself, and fits a record with the seal's tag |
| Logins.TwoOwnersCount | crates/uwurdp-store/src/logins.rs:67-75 | two owners of a login are counted as two |
| Logins.Tables.ApplyLogin | crates/uwurdp-store/src/logins.rs:90-199 | the owner's login says what was asked for, in place if it is the only owner and as a copy otherwise, and no other login or password changes; a password that was replaced is gone unless another live login has it; refused, with which error, if and only if a password is set that is empty, without a username or while locked, and then nothing changes |
| Logins.Tables.PutLogin | crates/uwurdp-store/src/logins.rs:146-197 | a login is written, and where every readable password was some live login's, or the new one, every one is some live login's |
| Logins.Tables.ReleaseLogin | crates/uwurdp-store/src/logins.rs:233-263 | a login goes if and only if nobody points at it, with its password if nobody else has it: where every readable password was some live login's, it still is |
| Logins.Tables.ReleaseSecret | crates/uwurdp-store/src/logins.rs:267-279 | a password is forgotten, and keeps nothing, if and only if no live login has it |
| Logins.LeavesMeans | crates/uwurdp-store/src/hosts.rs:376-455 | saving leaves a login behind if and only if it was the host's own and its gateway's, nobody else's, and both are kept |
| Logins.Tables.SaveHost | crates/uwurdp-store/src/hosts.rs:315-467 | refused, with which error, if and only if one of the forms is or the host is unknown or deleted; otherwise the host's two logins say what was asked for, every other owner's username, domain and password are what they were, no live owner points at a dead login and no live login at a forgotten password, every readable password is still some live login's, and no login is left behind but in the one case |
| Logins.Tables.DeleteHost | crates/uwurdp-store/src/hosts.rs:482-516 | the same for a delete, and no login and no password is left behind |
| Logins.Tables.SetHostLogin | crates/uwurdp-store/src/hosts.rs:521-583 | the same for the connect dialog's login, and nothing is left behind, no password either |
| Logins.Tables.SetGroupLogin | crates/uwurdp-store/src/groups.rs:194-254 | the same for a group's login, and nothing is left behind, no password either |
| Moves.PlacesReadBack | crates/uwurdp-store/src/groups.rs:360-409 | a numbered list can be read in one way only |
| Moves.Lists.MoveHost | crates/uwurdp-store/src/groups.rs:413-489 | the list is the old one without the host, by position and name, with the host right before its anchor, or last if that is not there; places are 0 to n-1; only rows whose place changed are written |
| Moves.Lists.MoveGroup | crates/uwurdp-store/src/groups.rs:360-409 | the same for a group within its workspace |

## Left out

- Guarantees.Convergence: host keys are not part of it, since a record may give up its slot for good; they have their own theorem, KnownHosts.NewestKeyWins, for live records that have a slot each and no clock in common.
- Guarantees.NoFalseAlarm: host keys are not part of it either.
- Guarantees.NothingWrittenIsLost: local writes are those that edit rows which are not deleted, under a tick newer than the row, or that add ids nobody has used; that the tick is newer follows while no clock is a day ahead (Drift.TimelyRunsLoseNothing). Trusting a forgotten host key again revives a delete and is treated on its own, in Revival.
- Sweeps.TwoSweepsConverge: passes come one after the other; Guarantees.Convergence holds for any interleaving, but its premise is that the record rests.
- Engine.Pass.SyncOnce: nobody else writes to the honest server during the pass, and it always answers; other devices' steps, local edits and lost answers are in Net. How many rounds there are takes it that every row that waits can be sent and that the id of a host key never moves to another slot.
- Engine.Pass.SyncOnce: times are bounded by a constant, and the clock is assumed as many steps away from the end of its range, some five hundred million years on.
- Screen.Drive: every message reaches the page, in order; a sink that drops one, the flush timer, pointer messages and the graphics pipeline are not modelled, and a decode is taken to change pixels only inside its regions.
- Page.Picture.Apply: messages are ones the encoder wrote for a framebuffer of the page's size; how the reader fails on others is not modelled.
- Moves.Lists.MoveGroup: moving to another workspace, which may merge two groups, is not modelled.
- Logins.Tables.SaveHost: a host's other fields and the checks on them.
- Logins.Tables.ApplyLogin: trimming and length checks of usernames and domains, labels, revisions and clocks of the rows are not modelled.
- Store.Store.PendingRows: rows whose payload cannot be built, which take places in the limit, are not modelled; rows too large for the protocol are.
- Mask.MatchesMask: takes mask and name already in lower case.
- Sealing is an abstract value bound to vault, id, clock, flag and payload; that a seal opens for nothing else is taken from the vault, which is not part of this model.
- SQLite, its integer width for sequence numbers and walls from 2^63 on, migrations and the write-ahead log: tables are maps, a transaction is a step.
- JSON fields, their normalisation and payloads that fail to parse: a payload is opaque but for the ids it points at, a host key's slot or a manifest's lines.
- Ids of two kinds never collide, and a manifest's id is its device.
- Byte budgets of pages are a number the honest server chooses for each request.
- Vault adoption, pairing, enrolment, the HTTP transports and the in-memory server.
- The `Unchecked` problem of an expected manifest and setting that expectation: only read here.
- TLS, CredSSP, clipboard, audio and the codecs of the graphics pipeline.
- Real file-system calls of the redirected drive.
- Importing and exporting files, and the whole user interface.
