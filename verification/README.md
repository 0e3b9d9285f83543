# mcpcut verification

A Dafny model of the parts of mcpcut whose behaviour spans many steps, and proofs about it. `dafny verify dfyconfig.toml` checks the project. Nothing was executed.

| files | part of the program |
|---|---|
| `RetryBook.dfy`, `Bridge.dfy`, `BridgeSafety.dfy`, `BridgeResults.dfy`, `BridgeRetries.dfy`, `BridgeOthers.dfy`, `Pump.dfy` | the bridge that re-sends a dropped `tools/call`: its ledger, the pump as a step system with one step per callback, its invariant, its promises over every run, that a dropped call is sent again, the requests the promises leave out, and the callbacks in place |
| `Lockfile.dfy`, `LockSafety.dfy`, `LockRaces.dfy`, `LockAlone.dfy` | the cross-process lockfile: any number of acquisitions with their own program counters over one file and one clock, one step per filesystem call; what it guarantees, what goes wrong exactly where its timing is not kept, and one process alone, whose methods run through the same steps |
| `Accounts.dfy`, `Provisioning.dfy`, `Reconciling.dfy` | the hub's accounts; sign-ups whose installs are created in the background, the reconcile of pending rows, and everyone else's writes between their awaits; and what each step and a whole reconcile bring about |
| `Idle.dfy`, `IdleRemoval.dfy`, `IdleSweep.dfy`, `SweepResults.dfy` | the 60 and 90 day rule, one install over time, a whole sweep with its dry run, and what it does to each account |
| `Grants.dfy`, `PathRules.dfy` | merging group grants into an agent's own, the union of their folder rules, and the scope they give |
| `ResourceMatch.dfy`, `ResourceAgreement.dfy` | matching of resource URIs by strings, by segments, and exactly where the two agree |
| `Json.dfy`, `AdoptEntry.dfy`, `Adopt.dfy`, `AdoptUndo.dfy`, `AdoptRun.dfy` | adopting the servers of config documents and undoing it |
| `Subdomain.dfy` | from a login to a subdomain |
| `RateLimit.dfy`, `OauthFlow.dfy` | the sliding-window counter and the table of open sign-in flows |
| `Ordered.dfy`, `SortedNames.dfy`, `Decimal.dfy` | insertion-ordered sets and maps, sorted names, decimal text |

Code that changes state in place is a class whose methods are proved against functions on values; the step systems and the lemmas use those functions. Each clock reading is a parameter or a step of its own. Randomness is a fresh value: nonces, attempt ids, flow ids, states and verifiers.

## What the runs may rely on

- Bridge: an answer travels on the write that carried it, so none comes for a write that has ended (`src/bridge/pump.ts:42-44`), and there is at most one per write (section 5 of JSON-RPC 2.0); the client uses no bridge id, and no id while a write of its earlier call is open, even if that call already has its answer (`BridgeResults.ReuseOfAnOpenIdMayBeAnsweredTwice` shows why); fewer than 1,024 calls are tracked when another begins; fewer than 256 ids are answered between a call's answer and the failure of its write.
- Lockfile: mutual exclusion needs the timing discipline spelled out in its row. The results without a timing assumption need nothing.
- Provisioning: nobody signs up while a reconcile waits to hear of that very account; the results that say so show what happens otherwise. A stretch of code between two awaits is one step, also in the operator's process.
- Idle removal: the provisioner reads activity in whole seconds, rounded down (`hub/src/provisioner/tenant-exec.ts:230`), so days since a write are counted from the second it lies in; one sweeper; stopping and marking are one step; nobody blocks the account or stops the install from outside; no install write between an inspection and the action it leads to.
- Folder rules: a stored path has no NUL character and a stored inode is a number (`src/files/rule-schema.ts:6-28`); whether a rule's folder is a problem depends on its path and inode, and how deep it lies on its path.
- Resource URIs: the parser puts `:`, `/`, `?` and `#` only where the `URL` standard allows them, a URL with a host has an empty or rooted path, and percent-decoding gives the empty text for the empty text only.
- Adopt: `String` leaves strings as they are; no object of a parsed document repeats a key; the locations of one file are distinct and none lies inside another.
- Flow table: no flow id is drawn twice, and different states have different digests.

## Where the code and its description part

- `src/adopt/undo.ts:7-13` describes putting back what `--apply` changed. An entry with `"args": null` is wrapped as if it had none (`src/adopt/entry.ts:103`), and undo then drops the key. `AdoptUndo.RoundTrip` gives the exact condition and `AdoptUndo.NullArgsAreLost` the smallest case.
- `src/agents/resource-match.ts:22-23` says a trailing-`*` pattern matches on a path-segment boundary only. The code compares decoded text. That comes to the same except for a base with a query or fragment (`foo://a/b?q*` does not grant `foo://a/b`), for one with a percent-encoded `?` or `#` (`foo://a/%3F*` grants `foo://a/?/secret`), and for a bare scheme with an empty opaque path (`foo:*` covers every hierarchical URI of the scheme). `ResourceAgreement.AgreesExactlyWhenListable` proves that these are all the cases, and `ResourceAgreement.StaysWithinExactly` which of them grant more than the segments do; the lemmas beside them give a URI for each. A pattern without a `*` is compared the same way, so that one with a query or fragment behind its path, or with a percent-encoded `?` or `#`, also grants another URI that spells the same (`foo://a/b?q` and `foo://a/b%3Fq`): `ResourceAgreement.EqualAgreesExactly` gives the exact condition.
- `src/agents/effective.ts:121` says that cut-outs of two groups on one path are both kept, and `src/agents/effective.ts:112-117` that the union is the same whatever the groups' order. Cut-outs whose folders have the same inode on different devices share a key, and only the one listed last stays: `Grants.LastCutOutStays`, with the exact condition in `Grants.GroupOrderDoesNotMatter`. Which one stays makes no difference to the rights, since only the inode is ever compared (`PathRules.MergedKeepsRights`); it does to the merged record and its hash.
- `hub/src/provisioning.ts:47` says a reconcile settles the pending rows no task is working on. It looks for a task before its await only, and discards by GitHub id: a sign-up made during the await can lose its row while its create is under way. `Provisioning.WhatEndsAWait` gives the exact condition, `Provisioning.OneReconcileCanLoseASignUp` the run.
- `src/lockfile.ts:166-172` says that a holder that lost its lock leaves the lockfile of its successor alone. Between its read and its removal the lock can change hands. With the rest of the discipline kept, the property holds if and only if holders are bound to release before their record is `staleMs` old: `LockRaces.ReleasesAreSafeExactlyInTime`. Past that age every pending release can go wrong (`LockRaces.EveryLateReleaseCanLose`); `LockRaces.LateReleaseRemovesAnothersLock` is the smallest run.
- `src/lockfile.ts:327-335` says the steal is narrowed, not closed. `LockRaces.OverlappingRemovalsLose` says from which states it loses, `LockRaces.OverlappingRemovalsBreakExclusion` is a run that gets there.

## Model

| member | source | states |
|---|---|---|
| `BridgeResults.AtMostOneResponse` | `src/bridge/pump.ts:199-323` | on every run, a `tools/call` with a tool-use id that was not cancelled has at most one response in what the client saw, counting service answers and synthesized errors together; for a client that does not reuse an id while a write of its earlier call is open |
| `BridgeResults.ExactlyOneResponse` | `src/bridge/pump.ts:256-323` | it has exactly one once the bridge is done with it, unless its last write succeeded without an answer or the bridge ended |
| `BridgeResults.NoBridgeIdReachesTheClient` | `src/bridge/pump.ts:310-323` | on every run no response reaches the client under an id of the bridge |
| `BridgeResults.WritesOfACall` | `src/bridge/pump.ts:256-283` | a retryable call is written at most `delays.length + 1` times: first under its own id, then under pairwise distinct bridge ids |
| `BridgeResults.ResentOnlyAfterNetworkFailure` | `src/bridge/pump.ts:268-281` | a further write happens only at the end of its own pause, while tracked and not settled, under an id no call was ever written under; a call starts to pause only on a network failure of its own write |
| `BridgeResults.CancelNamesTheLiveAttempt` | `src/bridge/pump.ts:243-249` | the forwarded cancel of a tracked call names the attempt then out, or the original id when the first write is out or none is; the call is untracked and remembered as cancelled |
| `BridgeResults.NoAttemptAfterCancel` | `src/bridge/pump.ts:285-291` | after that cancel no continuation of the run writes another attempt of the call |
| `BridgeResults.NoErrorWhileCancelRemembered` | `src/bridge/pump.ts:294-302` | while a running call is among the remembered cancels no step synthesizes an error for it |
| `BridgeResults.EveryCallEnds` | `src/bridge/pump.ts:256-283` | every end of a write or pause of a retryable call uses up a bounded budget of it, which no step gives back |
| `BridgeResults.EveryCallEndsOverRuns` | `src/bridge/pump.ts:256-283` | the retry loop ends: over any continuation of any run the writes and pauses of one call end at most `2 * delays.length + 2` times in all |
| `BridgeRetries.DroppedCallIsSentAgain` | `src/bridge/pump.ts:256-283` | over any continuation of any run in which a call is neither cancelled nor answered, the bridge goes on and its own writes are all dropped: it is written again after each of its pauses, and once it is over it has gone out exactly `delays.length + 1` times and the client has had one response |
| `BridgeRetries.DropsRunOut` | `src/bridge/pump.ts:256-283` | that run exists from every reachable state in which the write of an uncancelled call is out: further writes up to `delays.length + 1` in all, then one error to the client and nothing before it |
| `BridgeRetries.FailedWriteLeadsTo` | `src/bridge/pump.ts:268-281` | from any reachable state of a running bridge, what the failed write of an uncancelled call without its answer leads to: a fatal failure ends the bridge; a network failure pauses the call without a word to the client while it was written at most `delays.length` times; a refusal, or a network failure after that, costs one error; and only a call given up so is no longer tracked |
| `BridgeRetries.FailureAfterTheAnswer` | `src/bridge/pump.ts:272-273` | once its answer has come, a failed write neither sends the call again nor says anything more to the client |
| `BridgeRetries.PauseLeadsToAWrite` | `src/bridge/pump.ts:279-280` | the end of the pause of an uncancelled call adds exactly one write, under the next attempt id, which no call was written under before |
| `BridgeRetries.PauseEndsWithoutAWrite` | `src/bridge/pump.ts:285-302` | a pause that ends after the bridge has, or after the call was cancelled, writes nothing: the call is over and untracked, with an error only if the bridge runs and no cancel of it is remembered |
| `BridgeRetries.AnswerReachesTheClient` | `src/bridge/pump.ts:310-323` | the first answer to an uncancelled call, under whichever attempt it comes, reaches the client under the own id of the call, which is then answered and no longer tracked |
| `BridgeRetries.SentAtOnce` | `src/bridge/pump.ts:229-261` | a message of the client of a running bridge is written at once and once, under its own id, a cancel under the attempt that is out for its call; a retryable call is tracked from then on |
| `BridgeRetries.SuccessEndsTheTask` | `src/bridge/pump.ts:264-267` | a write that succeeds ends its task without a word to the client, and the tracking of the call if it was the first |
| `BridgeRetries.NothingAfterTheEnd` | `src/bridge/pump.ts:360-379` | once the bridge has ended no step writes to the client or sends anything again |
| `BridgeOthers.OtherRequestMayBeAnsweredTwice` | `src/bridge/pump.ts:212-223` | the smallest run in which a request without a tool-use id is answered twice |
| `BridgeOthers.AnsweredExactlyBy` | `src/bridge/pump.ts:256-323` | from any state of any run, a step adds a response to a request without a tool-use id exactly if it is its own reply, let through, or an ordinary failure of its write, even after the reply; a reply is let through unless the ledger is in use and remembers that id as answered |
| `BridgeOthers.ReplyThenFailureAnswersTwice` | `src/bridge/pump.ts:212-223` | whenever such a request gets its reply and its write then fails without ending the bridge, it is answered twice |
| `BridgeOthers.AtMostTwoResponses` | `src/bridge/pump.ts:256-323` | on every run such a request gets at most two responses, and at most one while its write is open |
| `BridgeResults.ReuseOfAnOpenIdMayBeAnsweredTwice` | `src/bridge/pump.ts:268-302` | that hypothesis is needed: a run in which an answered id is sent again while its first write is open, and the second call is answered twice |
| `BridgeResults.UntrackedStaysQuiet` | `src/bridge/pump.ts:268-291` | from any reachable state, a running call that is not tracked is never written again |
| `BridgeSafety.StepKeeps` | `src/bridge/pump.ts:229-323` | one invariant kept by every step: every forwarded message follows the trace and the ledger, every live attempt leads back to its call, writes are fresh and bounded |
| `BridgeSafety.AnswerOwn` | `src/bridge/pump.ts:310-323` | an answer keeps its own call consistent, whether routed, dropped or passed through |
| `BridgeSafety.FailOwn` | `src/bridge/pump.ts:268-281` | a failed write keeps its own call consistent in each of the five ways it can go on |
| `BridgeSafety.ResumeOwn` | `src/bridge/pump.ts:279-280` | the end of a pause keeps its own call consistent |
| `BridgeSafety.SendCancelKeeps` | `src/bridge/pump.ts:243-249` | a cancel keeps the invariant for the cancelled call and for all the others |
| `BridgeSafety.OwnRoute` | `src/bridge/pump.ts:310-323` | an answer to a write of a call is never routed to another call |
| `BridgeSafety.NewWriteFresh` | `src/bridge/retry.ts:137-144` | the next attempt id was never written before |
| `Pump.BridgePump.OnClientMessage` | `src/bridge/pump.ts:229-260` | the callback on a client message carries out exactly the send step |
| `Pump.BridgePump.OnAnswer` | `src/bridge/pump.ts:310-323` | the callback on an answer carries out exactly the answer step, the empty-ledger shortcut included |
| `Pump.BridgePump.OnWriteSucceeded` | `src/bridge/pump.ts:264-267` | the success branch carries out exactly its step |
| `Pump.BridgePump.OnWriteFailed` | `src/bridge/pump.ts:268-281` | the failure branch carries out exactly its step, in the order of its tests; what the step leads to is `BridgeRetries.FailedWriteLeadsTo` |
| `Pump.BridgePump.OnPauseEnded` | `src/bridge/pump.ts:279-291` | the end of a pause carries out exactly its step |
| `Pump.BridgePump.DoGiveUp` | `src/bridge/pump.ts:294-302` | giving up forgets the call and stays silent for a cancelled or answered one |
| `Pump.BridgePump.ReportUndelivered` | `src/bridge/pump.ts:212-223` | an error is synthesized only for a request with an id, and only while the bridge runs |
| `RetryBook.RunStaysValid` | `src/bridge/retry.ts:114-180` | over any sequence of operations the bounds 1,024, 256 and 256 hold, no key is tracked and also answered or cancelled, every live attempt maps back to its call, and every attempt id was issued by the counter |
| `RetryBook.HandedBackOnce` | `src/bridge/retry.ts:151-161` | between two `begin`s of a key its original id is handed back at most once while fewer than 256 ids are handed back |
| `RetryBook.NotHandedBackAgain` | `src/bridge/retry.ts:151-161` | the same from any moment at which the key is remembered as answered |
| `RetryBook.RememberedStep` | `src/bridge/retry.ts:108-112` | one operation keeps an answered key remembered as long as fewer than 256 other keys were marked after it |
| `RetryBook.AttemptIdInjective` | `src/bridge/retry.ts:137-144` | two attempt ids are equal only if their counters are |
| `RetryBook.BeginMeans` | `src/bridge/retry.ts:130-136` | a begun call is tracked, newest, without an attempt, neither answered nor cancelled; at 1,024 tracked calls the oldest alone is given up, and nothing else changes |
| `RetryBook.NextAttemptMeans` | `src/bridge/retry.ts:137-144` | the next attempt has an id no attempt has, which leads back to its call and is its live one if the call is tracked; nothing else changes |
| `RetryBook.AttemptFailedMeans` | `src/bridge/retry.ts:145-150` | a failed attempt no longer leads back and its call stays tracked without one; nothing else changes |
| `RetryBook.AnswerForMeans` | `src/bridge/retry.ts:151-161` | an answer is dropped exactly if its call is remembered as answered, and otherwise handed back for that call exactly if it came under an attempt or the call is tracked; an attempt leads back once |
| `RetryBook.CancelMeans` | `src/bridge/retry.ts:163-172` | a cancel counts exactly for a tracked call: it names the attempt out, ends the tracking and is remembered last |
| `RetryBook.RememberMeans` | `src/bridge/retry.ts:108-112` | the bounded memory keeps the newest last and forgets the oldest only when a new key comes while it is full |
| `Ordered.WithoutAt` | `src/bridge/retry.ts:108-112` | deleting from an insertion-ordered list closes the gap and keeps the order of the rest |
| `Ordered.WithoutElements` | `src/bridge/retry.ts:108-112` | and takes that element only |
| `RetryBook.Ledger.DoBegin` | `src/bridge/retry.ts:130-136` | in place: the state becomes `Begin` of the old one |
| `RetryBook.Ledger.DoNextAttempt` | `src/bridge/retry.ts:137-144` | in place: a fresh attempt id, recorded on the entry and as a way back |
| `RetryBook.Ledger.DoAttemptFailed` | `src/bridge/retry.ts:145-150` | in place: the live attempt loses its way back |
| `RetryBook.Ledger.DoAnswerFor` | `src/bridge/retry.ts:151-161` | in place: the route of an answer and the state after it |
| `RetryBook.Ledger.DoCancel` | `src/bridge/retry.ts:163-172` | in place: the attempt to cancel and the state after it |
| `RetryBook.Ledger.DoForget` | `src/bridge/retry.ts:175-177` | in place: the call is no longer tracked |
| `LockSafety.MutualExclusion` | `src/lockfile.ts:134-193` | for any number of processes: if every holder releases strictly before its record is `staleMs` old and creation writes its record in one step, two holders are the same process and it owns the file; either with no crashed holder and no first lockfile, whatever stale reads contenders act on, or with crashes and any first lockfile, if no contender confirms a removal while another's is prepared |
| `LockSafety.OnlyTheHolderRemovesItsLock` | `src/lockfile.ts:166-176` | under the same hypotheses only the release of the holder changes its lockfile |
| `LockSafety.NobodyRemovesWithoutCrashes` | `src/lockfile.ts:327-347` | where no holder crashes and there was no lockfile to begin with, no contender ever gets to a removal |
| `LockRaces.OverlappingRemovalsLose` | `src/lockfile.ts:327-347` | the hypothesis on removals is needed in every state that breaks it: from two processes about to remove, four steps without a tick make both hold the lock, of which only the second owns the file |
| `LockRaces.OverlappingRemovalsBreakExclusion` | `src/lockfile.ts:327-347` | such a state is reached: a run in which two contenders confirm one orphan and both hold the lock, nobody being late |
| `LockSafety.OwnershipNeverReturns` | `src/lockfile.ts:153-164` | with no timing assumption: once an acquisition does not own the file it never does again |
| `LockSafety.NonceAppearsOnce` | `src/lockfile.ts:179-193` | with no timing assumption: a nonce appears on disk only by the one write of its own acquisition |
| `LockSafety.CreateWritesItsRecord` | `src/lockfile.ts:179-193` | creating and writing as separate steps: an acquisition left alone has its record on disk after three steps, and one whose file was replaced meanwhile leaves the new file alone |
| `LockSafety.RemovalFollowsEvidence` | `src/lockfile.ts:166-347` | with no timing assumption: a lockfile disappears only by the release of a process that read it as its own, or by a removal judged on evidence and reached through a confirming read of the same content; the evidence is a record at least `staleMs` old or one mtime seen twice, a poll apart, and 1x or 3x `staleMs` old |
| `LockRaces.ReleasesAreSafeExactlyInTime` | `src/lockfile.ts:153-176` | with holders bound to take less than `b` milliseconds, crashing or not: over every run whoever is about to remove its lockfile owns it, and no release removes the lockfile of another holder, if and only if `b` is at most `staleMs` |
| `LockRaces.EveryLateReleaseCanLose` | `src/lockfile.ts:166-176` | from any state in which a process has read its own record, is about to remove it and the record is stale: a new acquisition can take over without a tick, and the pending removal then deletes the lockfile it holds |
| `LockRaces.LateReleaseRemovesAnothersLock` | `src/lockfile.ts:166-176` | the smallest such run: the holder releases exactly when its record turns stale, and its removal deletes the lockfile of the process that took over and holds it |
| `LockSafety.AcquireEnds` | `src/lockfile.ts:134-151` | with a positive poll every step of an acquisition uses up a bounded budget, which no other process touches |
| `LockSafety.AcquireEndsOverRuns` | `src/lockfile.ts:134-151` | the acquire loop ends: over any run, whatever the others do, an acquisition makes at most `11 * (time to its deadline + pollMs) + 13` steps |
| `LockSafety.StepsLeftOverRuns` | `src/lockfile.ts:134-151` | and from any state a run has reached at most what is left of that |
| `LockSafety.StepKeepsRounds` | `src/lockfile.ts:143-150` | every round takes at least a poll, and all but the last begin before the deadline; kept by every step |
| `LockSafety.StepKeeps` | `src/lockfile.ts:134-347` | the invariant behind it, kept by every step of every process |
| `LockSafety.StepKeepsTimely` | `src/lockfile.ts:134-347` | the timing invariant behind mutual exclusion, kept by every step that respects the discipline |
| `LockAlone.LockDir.Acquire` | `src/lockfile.ts:134-151` | run alone: acquires at once where there is no file or its record is stale; by its second attempt if by then the mtime is as old as its content needs (`staleMs`, or 3x for a parseable record); takes over only on such evidence; gives up only past the deadline and leaves the file as it was; ends; and is a run of the step system |
| `LockAlone.LockDir.StealIfStale` | `src/lockfile.ts:255-286` | run alone: acquires an existing lockfile only if its record is stale or it is seen abandoned twice, and backs off, leaving the file as it is, only if neither holds |
| `LockAlone.LockDir.JudgeAndTake` | `src/lockfile.ts:255-286` | run alone: exactly when a lockfile that was read is taken over |
| `LockAlone.LockDir.CheckAndSleep` | `src/lockfile.ts:143-150` | the end of a round: over exactly past the deadline, else a poll later |
| `LockAlone.LockDir.RecoverAbandoned` | `src/lockfile.ts:307-325` | the mtime decision, its two thresholds and its two sightings |
| `LockAlone.LockDir.RemoveAndReclaim` | `src/lockfile.ts:336-347` | removes and re-creates only if the content is still the expected one |
| `LockAlone.LockDir.TryCreate` | `src/lockfile.ts:179-193` | creates only where there is no file, and then owns it |
| `LockAlone.LockDir.Release` | `src/lockfile.ts:173-176` | removes the file exactly when it is still the holder's |
| `LockAlone.AloneIsReachable` | `src/lockfile.ts:134-176` | every state such a run of the methods passes through is reachable in the step system with one process, so all its results hold of it |
| `Accounts.InterleavingKeeps` | `hub/src/accounts-db.ts:181-307` | under every interleaving of the writes rows never exceed `maxAccounts`, subdomains stay unique and a pending row has no stop mark |
| `Accounts.WriteKeeps` | `hub/src/accounts-db.ts:181-307` | each write keeps that; a surviving row keeps its generation and address and its status moves only pending to active or between active and blocked; a new row is the pending one of a sign-up |
| `Accounts.DecidedWritesKeepToTheirGeneration` | `hub/src/accounts-idle.ts:29-38` | an activation, block, stop, start or idle-delete write changes nothing in a table without the generation it was decided on, and never another account or a tombstone |
| `Accounts.TombstonesOnlyByDeletion` | `hub/src/accounts-db.ts:261-291` | only a requested deletion of an existing account writes a tombstone |
| `Accounts.BlockHolds` | `hub/src/accounts-db.ts:240-307` | a block holds: over any sequence of writes without an unblock or a deletion of that account its row stays, blocked, of the same generation and at the same address |
| `Accounts.DecidedWriteMeans` | `hub/src/accounts-idle.ts:29-93` | what each write decided on a generation leaves of its row, whatever the status and mark of the row, and that no other row or tombstone changes |
| `Accounts.KeyedWriteMeans` | `hub/src/accounts-db.ts:240-291` | the same of the writes keyed by the id alone: an unblock, a sign-in, a discarded sign-up, a deletion |
| `Accounts.InsertMeans` | `hub/src/accounts-db.ts:181-215` | a sign-up takes effect exactly for a new id, below the cap and at an address nobody has; its three refusals, each exactly, in that order |
| `Accounts.WriteToNobody` | `hub/src/accounts-db.ts:181-307` | a write other than a sign-up does nothing where its account has no row |
| `Accounts.AccountsDb.InsertAccount` | `hub/src/accounts-db.ts:181-215` | the sign-up transaction: its three refusals in order, or the pending row |
| `Accounts.AccountsDb.ActivatePendingAccount` | `hub/src/accounts-db.ts:297-299` | pending to active for that generation only |
| `Accounts.AccountsDb.BlockActiveAccount` | `hub/src/accounts-db.ts:305-307` | active to blocked for that generation only |
| `Accounts.AccountsDb.MarkStoppedAt` | `hub/src/accounts-idle.ts:29-35` | the stop mark of an unmarked row of that generation and status |
| `Accounts.AccountsDb.ClearStopMark` | `hub/src/accounts-idle.ts:31-33` | the stop mark removed, with or without a new sign-in time |
| `Accounts.AccountsDb.DeleteIdleAccount` | `hub/src/accounts-idle.ts:91-93` | removal of an active row of that generation, with no tombstone |
| `Accounts.AccountsDb.SetAccountStatus` | `hub/src/accounts-db.ts:240-243` | the status set in place, whatever it was, and whether there was a row |
| `Accounts.AccountsDb.TouchAccount` | `hub/src/accounts-db.ts:247-250` | the login and the time of a sign-in; the address stays |
| `Accounts.AccountsDb.DiscardPendingAccount` | `hub/src/accounts-db.ts:289-291` | removal of a pending row, by id |
| `Accounts.AccountsDb.DeleteAccount` | `hub/src/accounts-db.ts:261-272` | row removed and tombstone written together, or nothing |
| `Provisioning.CreateSettlesItsOwnRow` | `hub/src/provisioning.ts:99-120` | over every run in which nobody signs up while a reconcile waits on that very account, whatever the sweeper, the waker, sign-ins and the operator write meanwhile: the end of a create finds the pending row it was started for, or the operator deleted the account since; a success makes it active and keeps its token, a failure rolls the sign-up back and marks it, a failure at shutdown leaves it pending |
| `Provisioning.WhatEndsAWait` | `hub/src/provisioning.ts:99-150` | in any state, a waiting row stops waiting other than by its own create exactly when the operator deletes it or a reconcile that waits on that account finds no install, or finds one for this very sign-up |
| `Provisioning.SignUpDuringInspectionCanBeLost` | `hub/src/provisioning.ts:137-150` | the hypothesis is needed in every state that breaks it: the sign-up can lose its row to the answer and its create then succeeds with no row, token, mark or tombstone |
| `Provisioning.OneReconcileCanLoseASignUp` | `hub/src/provisioning.ts:122-150` | such a state is reached from a fresh start with a single reconcile: the whole run |
| `Reconciling.ReconcileSettlesEveryRow` | `hub/src/provisioning.ts:122-150` | a whole reconcile that nobody comes between settles every pending row no task works on by what the provisioner says: active where its install is there, gone without a tombstone where it is not, pending where there is no answer; it writes no other row |
| `Reconciling.AnswerSettles` | `hub/src/provisioning.ts:137-150` | in any state: what one answer of the provisioner does to the row of its account, and what the reconcile counts for it |
| `Reconciling.NextMeans` | `hub/src/provisioning.ts:125-129` | a listed row is inspected exactly if the provisioner is there and no task works on it, and otherwise left and counted as left |
| `Reconciling.SignUpStartsItsTask` | `hub/src/signin.ts:196-227` | a sign-up that gets its seat is handed to the background at once, unless the hub is stopping or an earlier task of the account is not over |
| `Reconciling.RefusedSignUpChangesNothing` | `hub/src/signin.ts:196-227` | a refused sign-up changes nothing and starts nothing |
| `Reconciling.CreateEndMeans` | `hub/src/provisioning.ts:99-120` | the end of a create in any state: the task over; on a success the row it was started for active and its token kept, if that still waits; on a failure the sign-up that waits then rolled back and its own marked, unless the hub is stopping |
| `Reconciling.BooksKept` | `hub/src/provisioning.ts:61-93` | a task forgotten, a reconcile begun, a stop and the clock change nothing else |
| `Provisioning.StepKeeps` | `hub/src/provisioning.ts:61-150` | the invariant behind it, kept by every step; the counts of a reconcile add up to the rows it is done with |
| `Provisioning.Hub.OnSignUp` | `hub/src/signin.ts:196-227` | in place: the seat reserved and the install handed to the background |
| `Provisioning.Hub.StartTask` | `hub/src/provisioning.ts:61-69` | one task per account, none once stopping |
| `Provisioning.Hub.OnCreateEnded` | `hub/src/provisioning.ts:99-120` | in place: activation, roll-back, or left pending at shutdown |
| `Provisioning.Hub.OnReconcileNext` | `hub/src/provisioning.ts:125-127` | in place: the next row inspected, or left while a task runs for it |
| `Provisioning.Hub.OnInspected` | `hub/src/provisioning.ts:127-150` | in place: activated, discarded or left, and counted |
| `Idle.RemoveMeans` | `hub/src/idle-sweeper.ts:65-85` | removal is decided exactly when 90 days passed since every known instant and 30 since the stop mark |
| `Idle.StopMeans` | `hub/src/idle-sweeper.ts:65-85` | a stop is decided exactly when all instants are dates, 60 days passed since every known one but not yet 90, and there is no stop mark |
| `Idle.IdleDaysMean` | `hub/src/idle-sweeper.ts:73-76` | the days reported are the whole days since the latest known instant, and none exactly when one is not a date |
| `Idle.DueMeans` | `hub/src/idle-sweeper.ts:279-288` | what is decided about an account and its install: by the time since its sign-in, since the second of its last write while it runs, and since its stop mark while it does not |
| `IdleRemoval.RemovalIsNeverEarly` | `hub/src/idle-sweeper.ts:158-305` | over any run of sweeps, whose time is taken before their listing, stops, wake-ups, hand starts, sign-ins and writes, an install is removed only 90 days after its true last sign-in and, to the second, its true last write |
| `IdleRemoval.StopIsNeverEarly` | `hub/src/idle-sweeper.ts:206-294` | an install is stopped by a sweep only 60 days after the sign-in it was listed with and, to the second, its true last write, and is marked |
| `IdleRemoval.SweepRunsItsCourse` | `hub/src/idle-sweeper.ts:206-305` | from every state in which it can begin, a sweep nobody comes between removes an install unused for 90 days and its account, stops and marks one unused for 60, and leaves any other, a running one without a mark |
| `IdleRemoval.SignInSavesTheInstall` | `hub/src/idle-sweeper.ts:297-305` | a sign-in less than 90 days before the time of the sweep keeps the install, whatever the sweep had listed and found before; unless a stop was decided then, nothing changes but that the mark of a running install is dropped |
| `IdleRemoval.SweepPassesBy` | `hub/src/idle-sweeper.ts:217-222` | a sweep leaves an install that is being started, and one that is not there |
| `IdleRemoval.TheWorldMoves` | `hub/src/idle-sweeper.ts:12-31` | what happens around the sweeper: time passes, a person signs in, an install is started by hand or writes |
| `IdleRemoval.WakeRunsItsCourse` | `hub/src/install-waker.ts:44-76` | a wake-up that goes through leaves the install running, its account unmarked and seen just now; one that fails changes nothing |
| `IdleRemoval.StepKeeps` | `hub/src/idle-sweeper.ts:206-305` | the invariant behind both, kept by every step of sweeper, waker and person |
| `IdleSweep.DryRunTellsTheTruth` | `hub/src/idle-sweeper.ts:158-171` | a dry run changes nothing and reports the same outcome and idle days for every account as the real sweep, except where a call of the real one fails |
| `IdleSweep.SecondSweepChangesNothing` | `hub/src/idle-sweeper.ts:158-171` | after a real sweep without a failing call a second one at the same instant changes nothing, whatever fails in it |
| `SweepResults.SweepDoesWhatIsDue` | `hub/src/idle-sweeper.ts:158-232` | a whole real sweep does to every active account it can reach, and finds not just waking, exactly what is due by its own install: flagged missing, removed, stopped and marked, or left with a running install unmarked; and its report says so, with the whole days unused |
| `SweepResults.SweepPutsBlockedDown` | `hub/src/idle-sweeper.ts:158-266` | after a whole real sweep every blocked account without a stop mark whose calls succeed is marked and has no running install, if it has one at all |
| `SweepResults.SweepSparesTheRest` | `hub/src/idle-sweeper.ts:158-171` | a pending account, and a blocked one with a stop mark, is left alone by it |
| `SweepResults.FailureMeans` | `hub/src/idle-sweeper.ts:197-237` | a waking account is skipped; a failing inspection leaves everything, a failing stop or removal leaves the install and drops the missing flag and a stale mark only; both are reported as failed |
| `SweepResults.BlockedFailureMeans` | `hub/src/idle-sweeper.ts:239-266` | of a blocked account a failing inspection, or a failing stop of a running install, leaves everything as it was and is reported as failed |
| `SweepResults.FreshReadDecides` | `hub/src/idle-sweeper.ts:297-305` | whatever became of a row since it was listed, its install and account are removed only if the row read again is of that generation, active and not seen for 90 days; what is reported as kept, missing, skipped or failed was not acted on |
| `IdleSweep.ActivesSettle` | `hub/src/idle-sweeper.ts:197-232` | a sweep of the active accounts settles or removes each of them whose calls succeed and leaves every other account alone |
| `IdleSweep.BlockedsSettle` | `hub/src/idle-sweeper.ts:197-266` | after a sweep of the blocked accounts each whose calls succeed has no install, or one that does not run and a stop mark; every other account is left alone |
| `IdleSweep.BlockedGoesDown` | `hub/src/idle-sweeper.ts:239-266` | one blocked account whose calls succeed: no install at its address runs afterwards, its row is marked if there is one and it had no mark, and the report says stopped exactly if it ran |
| `IdleSweep.StopLeavesTheRest` | `hub/src/idle-sweeper.ts:162-169` | a stop leaves every account not yet swept as it was |
| `IdleSweep.StopCutsTheReport` | `hub/src/idle-sweeper.ts:162-169` | the report has one entry for each account swept, and a stop after the last changes nothing |
| `IdleSweep.MissingMeansNoInstall` | `hub/src/idle-sweeper.ts:185-185` | after a real sweep an active account it could inspect counts as missing exactly when it has no install |
| `IdleSweep.IdleSweeper.SweepAll` | `hub/src/idle-sweeper.ts:158-171` | the sweep in place: actives as listed, then blocked ones as listed after them, cut short by a stop |
| `IdleSweep.IdleSweeper.SweepListed` | `hub/src/idle-sweeper.ts:162-165` | the guarded loop over the active accounts, with its stop flag, carries out the sweep of the list |
| `IdleSweep.IdleSweeper.SweepListedBlocked` | `hub/src/idle-sweeper.ts:166-169` | the guarded loop over the blocked accounts, with its stop flag, carries out the sweep of the list; what that does is `SweepResults.SweepPutsBlockedDown` |
| `Grants.MergingPreservesMeaning` | `src/agents/effective.ts:195-205` | the scope of the materialized agent grants a tool, prompt or resource exactly when the agent is not revoked and its personal grant for that server covers it or, having none, the grant of some member group does |
| `Grants.GrantedExactly` | `src/agents/effective.ts:195-205` | the same down to the names: a tool or prompt falls under a list that holds it or what begins it before a final star, a resource under one whose pattern it matches; an absent field and an empty list allow nothing |
| `Grants.UnionMeans` | `src/agents/effective.ts:81-88` | a union is everything exactly if one of its values is; otherwise it lists, sorted and once each, what one of them lists |
| `Grants.GroupOrderDoesNotMatter` | `src/agents/effective.ts:80-125` | the effective grants do not depend on the order or repetition of the groups if and only if, for every inherited server, the groups agree on each folder rule they share a key for |
| `Grants.LastCutOutStays` | `src/agents/effective.ts:118-125` | the case where they do not: two cut-outs of one path and inode but of different devices, of which the one listed last stays |
| `Grants.ReorderedPatterns` | `src/agents/effective.ts:80-103` | tools, resources and prompts never depend on the order or repetition of the groups |
| `Grants.InheritedRights` | `src/agents/effective.ts:112-141` | the folder rules of an inherited grant allow an operation exactly when those of all the contributing groups taken together do |
| `PathRules.MergedKeepsRights` | `src/agents/effective.ts:112-125` | the union of folder rules closes, narrows and allows exactly as the rules it was made of, by the deepest rule, an empty one winning |
| `PathRules.MergedKeepsFileOps` | `src/files/rights.ts:76-111` | and the operations computed under the union are the same list |
| `PathRules.FileOpsMean` | `src/files/rights.ts:76-111` | the operations computed on a target are exactly those allowed: none once a folder of a rule is a problem, otherwise those of the deepest rules together, unless one of them is empty |
| `PathRules.MergedInOrder` | `src/agents/effective.ts:107-125` | the union is sorted by key, each key once, the operations of each rule in their fixed order |
| `PathRules.InOrderMeans` | `src/agents/effective.ts:107-110` | that order: each operation once, as read, write, edit, delete |
| `PathRules.KeyTells` | `src/agents/effective.ts:122-122` | two rules of one key have the same path, operations and inode |
| `PathRules.MergedElements` | `src/agents/effective.ts:122-124` | the union holds the rule kept of each key and no other |
| `Grants.SourcesExplain` | `src/agents/effective.ts:165-192` | every effective grant has a source: the agent itself, or at least one group; the groups named, shadowed or contributing, are those that grant the server |
| `Grants.NothingInherited` | `src/agents/effective.ts:198-205` | without a group that grants a server the agent lacks, the record stays as it is |
| `Grants.UnionCovers` | `src/agents/effective.ts:81-88` | a union covers exactly what one of its values covers |
| `Grants.MergeCovers` | `src/agents/effective.ts:128-141` | a merged grant covers exactly what one of the merged grants covers, for tools, resources and prompts |
| `Grants.UnionBySet` | `src/agents/effective.ts:81-88` | unions of lists with the same elements are equal: sorted, duplicate-free, order-independent |
| `SortedNames.SortedUnique` | `src/agents/effective.ts:75-88` | a list sorted by character code without duplicates is determined by its elements |
| `SortedNames.LessMeans` | `src/agents/effective.ts:75-78` | the order by character code: decided at the first place where two texts differ, a text before its continuations |
| `Grants.UnionValues` | `src/agents/effective.ts:81-88` | the loops over a set of names compute the union |
| `Grants.CollectGroupGrants` | `src/agents/effective.ts:143-159` | the nested loops collect, for every server of a member group, the grants of those groups and their names in input order |
| `Grants.EffectiveGrantsOf` | `src/agents/effective.ts:165-192` | the loops compute the effective grants, personal first, otherwise merged, and the source of each |
| `Grants.InheritedGrants` | `src/agents/effective.ts:180-187` | only servers without a personal grant are merged, and named with their groups |
| `Grants.MatchToolRule` | `src/policy/match.ts:32-55` | the loop finds an exact name, else a longest covering prefix, and nothing exactly when nothing covers the name |
| `Grants.ScopeCovers` | `src/agents/scope.ts:45-94` | a scope grants exactly what the grant covers; an absent field and an empty list grant nothing |
| `ResourceMatch.PrefixPatternMatchesSegments` | `src/agents/resource-match.ts:78-108` | for a trailing-`*` pattern whose base normalizes, has no query or fragment and no `?` or `#` in a segment, and is not an empty opaque path: the string test is the segment test, both ways |
| `ResourceMatch.EmptyOpaquePatternMatches` | `src/agents/resource-match.ts:78-87` | what a pattern over an empty opaque path (`scheme:*`) covers: every hierarchical URI of its scheme, and of the opaque ones only itself, both ways |
| `ResourceAgreement.AgreesExactlyWhenListable` | `src/agents/resource-match.ts:78-108` | for every base that normalizes: the string test is the segment test on all URIs if and only if the base has no query or fragment, no decoded `?` or `#` in a segment, and is not an empty opaque path |
| `ResourceAgreement.StaysWithinExactly` | `src/agents/resource-match.ts:78-108` | a trailing-`*` pattern grants nothing beyond its path segments if and only if no segment holds a decoded `?` or `#`, and its path ends in an empty segment where a query or fragment follows, or is not an empty opaque path where none does |
| `ResourceAgreement.QueryDisagrees` | `src/agents/resource-match.ts:61-87` | a URI that tells the two apart for every base with a query or fragment |
| `ResourceAgreement.QueryExceeds` | `src/agents/resource-match.ts:61-87` | a URI granted by the string test only, for every base with a query or fragment behind a path that does not end in an empty segment: the base itself, less one final slash |
| `ResourceAgreement.DecodedQueryDisagrees` | `src/agents/resource-match.ts:61-87` | a URI granted by the string test only, for every base with a decoded `?` or `#`, with or without a query of its own: a real query or fragment stands where the base has it in a segment |
| `ResourceAgreement.EmptyOpaqueDisagrees` | `src/agents/resource-match.ts:78-87` | hierarchical URIs granted by the string test only, for every empty opaque base |
| `ResourceAgreement.PatternIsStringMatch` | `src/agents/resource-match.ts:78-108` | a trailing-`*` pattern grants a URI exactly if both normalize and that string test on the parts of both says so |
| `ResourceMatch.ExactPatternMeans` | `src/agents/resource-match.ts:78-106` | a pattern without a trailing `*` grants exactly the URIs that normalize to its own canonical text |
| `ResourceAgreement.EqualAgreesExactly` | `src/agents/resource-match.ts:78-106` | equal canonical texts mean equal protocol, host, kind of path, segments, query and fragment for every URI, if and only if no segment of the pattern holds a decoded `?` or `#`, and it has no query or fragment, or nothing but a host before it |
| `ResourceAgreement.ExactPatternMatchesParts` | `src/agents/resource-match.ts:78-106` | such a pattern without a trailing `*` grants exactly the URIs with its own parts |
| `ResourceAgreement.QuerySpeltAsPath` | `src/agents/resource-match.ts:37-75` | a different URI with the same canonical text for every other pattern with a query or fragment: a path that decodes to it |
| `ResourceAgreement.DecodedQuerySpeltAsQuery` | `src/agents/resource-match.ts:37-75` | and for every pattern with a decoded `?` or `#`: a shorter path with a real query or fragment |
| `ResourceMatch.GrantedByOne` | `src/agents/resource-match.ts:94-109` | a list of patterns grants what one of its patterns grants, and an empty list nothing |
| `ResourceAgreement.QueryInstance` | `src/agents/resource-match.ts:78-108` | `foo://a/b?q*` grants `foo://a/b?q` and not `foo://a/b`, where the segment test says the opposite |
| `ResourceAgreement.DecodedQueryInstance` | `src/agents/resource-match.ts:78-108` | `foo://a/%3F*` grants `foo://a/?/secret` against the segment test |
| `ResourceAgreement.EmptyOpaqueInstance` | `src/agents/resource-match.ts:78-108` | `foo:*` grants `foo://a/` against the segment test |
| `ResourceMatch.CompiledPrefix` | `src/agents/resource-match.ts:83-87` | what such a pattern compiles to, in terms of its segments |
| `ResourceMatch.SegmentPrefix` | `src/agents/resource-match.ts:102-106` | a joined path and a slash begin another joined path, tail and all, exactly when the segments are a proper prefix |
| `ResourceMatch.SegmentEqual` | `src/agents/resource-match.ts:102-106` | joined paths are equal exactly when their segments are and nothing follows |
| `ResourceMatch.TextMatches` | `src/agents/resource-match.ts:37-53` | canonical texts agree exactly when protocol, host, kind of path and segments do |
| `ResourceMatch.NormalizesExactly` | `src/agents/resource-match.ts:37-75` | a URI normalizes exactly if it parses and every piece of its path decodes, once, to something that is no dot segment and holds no slash or backslash |
| `ResourceMatch.CanonicalText` | `src/agents/resource-match.ts:37-53` | its canonical text: protocol, host where there is one or the path is rooted, the decoded pieces of the path, query and fragment |
| `ResourceMatch.JoinSplit` | `src/agents/resource-match.ts:61-75` | joining the pieces of a path gives it back |
| `ResourceMatch.GrantedHasNoDotSegment` | `src/agents/resource-match.ts:61-75` | the canonical path of a URI granted by a list splits into segments none of which is `.` or `..`, and holds no backslash |
| `ResourceMatch.DecodePathOnce` | `src/agents/resource-match.ts:61-75` | the loop decodes every segment once and refuses the path exactly when one is refused |
| `AdoptUndo.RoundTrip` | `src/adopt/undo.ts:43-82` | adopt and then undo give the very same document back, key order included, if and only if no wrapped entry has a null `args` |
| `AdoptUndo.NullArgsAreLost` | `src/adopt/undo.ts:48-51` | the smallest document undo does not give back |
| `AdoptUndo.AdoptedOnce` | `src/adopt/entry.ts:83-115` | adopting the result again, with any launcher, wraps nothing |
| `AdoptUndo.AdoptWrapsEveryServer` | `src/adopt/apply.ts:117-151` | every server that can be wrapped is, at every location of the file, and has its line in the record |
| `AdoptUndo.AdoptSparesTheRest` | `src/adopt/apply.ts:139-151` | everything that is not at or below a server it wraps keeps its value, keys and key order |
| `AdoptUndo.UndoRestores` | `src/adopt/undo.ts:43-56` | from any later document: an entry whose command text and list of argument texts are still those adopt wrote gets the recorded `command` and `args` back, every other key with its value, and all keys in their places |
| `AdoptUndo.UndoLeavesChanged` | `src/adopt/undo.ts:43-61` | from any later document: an entry with another command text, another list of argument texts, or no longer an object, is left exactly as it is |
| `AdoptUndo.HeldExactly` | `src/adopt/undo.ts:43-61` | in any document undo takes an entry for its own exactly if the value at the address is an object whose command text is the one adopt wrote and whose arguments read, one by one, as those it wrote |
| `AdoptUndo.UndoSparesTheRest` | `src/adopt/undo.ts:64-82` | from any later document: everything that is not at or below a restored entry keeps its value, keys and key order |
| `AdoptUndo.RecordApart` | `src/adopt/apply.ts:117-124` | the lines of a record adopt writes name addresses none of which lies at or below another |
| `AdoptUndo.AdoptAsEdits` | `src/adopt/apply.ts:139-151` | rewriting several locations of one file is one replacement for every row to wrap, in any scanned document |
| `AdoptUndo.UndoAsEdits` | `src/adopt/undo.ts:71-73` | the fold over the matching changes is one replacement for every entry that still matches |
| `AdoptRun.RunRoundTrip` | `src/adopt/undo.ts:84-103` | undoing a whole run over several files gives every file back, with the same condition |
| `AdoptRun.LinesOfRecord` | `src/adopt/undo.ts:86-90` | filtering the shared record by a file gives the changes of that file |
| `AdoptRun.ByFile` | `src/adopt/apply.ts:100-106` | the loop groups the locations with something to wrap by file, in order |
| `AdoptEntry.WrapMeans` | `src/adopt/entry.ts:78-106` | an entry is wrapped exactly when it is a stdio server that does not start mcpcut already and, on Windows, holds no `cmd` syntax |
| `AdoptEntry.VerdictMeans` | `src/adopt/entry.ts:99-106` | the other four verdicts, each exactly: remote, unreadable, adopted already, unsafe for `cmd` |
| `AdoptEntry.RemoteMeans` | `src/adopt/entry.ts:78-81` | an entry is remote exactly by a text under `url` or `serverUrl`, or by one of four types |
| `AdoptEntry.PackageArgMeans` | `src/adopt/entry.ts:55-56` | an argument names the package exactly bare or with a version without white space |
| `AdoptEntry.SpaceMeans` | `src/adopt/entry.ts:103-103` | the white space a blank command is made of and a version is free of, as sections 12.2 and 12.3 of ECMA-262 list it |
| `AdoptEntry.CmdSyntaxMeans` | `src/adopt/entry.ts:52-53` | the ten characters the Windows shell would read as its own |
| `AdoptEntry.CommandNameMeans` | `src/adopt/entry.ts:72-76` | a command is known by its file name behind the last slash of either kind, in lower case, less the extension of a Windows program |
| `AdoptEntry.WindowsShellMeans` | `src/adopt/entry.ts:87-91` | exactly which commands go through `cmd /c` |
| `AdoptEntry.WrappedLine` | `src/adopt/entry.ts:94-114` | the wrapped line is the launcher, the name, `cmd /c` for a Windows shim, and then the own command line of the server, unchanged |
| `AdoptEntry.EntryRoundTrip` | `src/adopt/undo.ts:48-51` | restoring a wrapped entry gives it back exactly when its `args` was not null |
| `AdoptEntry.WrappedIsAlready` | `src/adopt/entry.ts:99-115` | a wrapped entry is judged as already adopted, whatever launcher comes next |
| `AdoptEntry.WrappedCommandLine` | `src/adopt/plan.ts:39-42` | the recorded command line of a wrapped entry is its own |
| `AdoptEntry.RestoredElsewhere` | `src/adopt/undo.ts:48-51` | restoring leaves every key but `command` and `args` as it is |
| `AdoptEntry.RestoredMeans` | `src/adopt/undo.ts:48-51` | what each key of a restored entry holds |
| `AdoptEntry.FieldOfWrapped` | `src/adopt/entry.ts:106-114` | every key of a wrapped entry but those two is the original |
| `AdoptEntry.LauncherNamesPackage` | `src/adopt/entry.ts:58-62` | every launcher of a version names a package the next run recognises |
| `Adopt.WalkToServers` | `src/adopt/plan.ts:30-37` | the walk finds the object at the path, or nothing |
| `Adopt.WithEntriesUpdates` | `src/adopt/plan.ts:52-60` | replacing servers at an existing path changes that object only |
| `Adopt.WithEntriesAsEdits` | `src/adopt/plan.ts:52-60` | replacing several servers at once is replacing them one after the other |
| `Json.EditsUndone` | `src/adopt/apply.ts:143-143` | replacements at addresses apart are undone by putting back what was there |
| `Json.UpdateCommutes` | `src/adopt/apply.ts:143-143` | replacements at two addresses apart commute |
| `Json.EditsShape` | `src/adopt/plan.ts:51-60` | replacements keep values, keys and key order of everything that is not at or below them |
| `Json.FindMeans` | `src/adopt/plan.ts:30-37` | looking a key up: found exactly if some field has it, and in a parsed object with the value of that field |
| `Json.FindPut` | `src/adopt/plan.ts:52-60` | replacing or adding one key leaves every other key with its value |
| `Json.PutKeys` | `src/adopt/plan.ts:52-60` | and all keys in their places, a new one last |
| `Json.AtUpdate` | `src/adopt/plan.ts:52-60` | a replacement at an address is found there |
| `Json.AtUpdateApart` | `src/adopt/plan.ts:52-60` | and changes nothing at an address apart from it |
| `Subdomain.BaseIsLabel` | `hub/src/subdomain.ts:87-110` | the first candidate of every login is a DNS label of 1 to 63 characters |
| `Subdomain.LabelMeans` | `hub/src/subdomain.ts:10-10` | what a label is, by character codes: 1 to 63 small letters, digits and hyphens, no hyphen first or last |
| `Subdomain.FoldIsWords` | `hub/src/subdomain.ts:87-93` | folding gives the runs of letters and digits of the lower-cased login, with one hyphen between them |
| `Subdomain.BaseMeans` | `hub/src/subdomain.ts:100-110` | the base is the folded login, cut to 63 characters with no hyphen left at the end, and `user` for a login without letters and digits |
| `Subdomain.CandidateIsAssignable` | `hub/src/subdomain.ts:113-118` | every suffixed candidate is a DNS label and not reserved |
| `Subdomain.CandidateMeans` | `hub/src/subdomain.ts:113-118` | a suffixed candidate is the base, a hyphen and the number; a base too long for 63 characters is cut back just enough, and by the hyphens then at its end |
| `Subdomain.CandidatesDiffer` | `hub/src/subdomain.ts:113-118` | different suffixes give different candidates |
| `Subdomain.AssignSubdomain` | `hub/src/subdomain.ts:132-141` | the search gives the base if it is free, else the first free suffixed candidate, else nothing |
| `Subdomain.FindFree` | `hub/src/subdomain.ts:134-139` | the loop of that search |
| `Subdomain.AssignedIsFree` | `hub/src/subdomain.ts:148-154` | whatever is assigned has 1 to 63 letters, digits and hyphens, no hyphen at either end, and is neither reserved nor occupied |
| `Subdomain.ExhaustedMeans` | `hub/src/subdomain.ts:140-140` | the search fails exactly when the base is not free and all 199 suffixed candidates are occupied |
| `Subdomain.NeverExhausted` | `hub/src/subdomain.ts:132-141` | with fewer than 199 names taken every login gets a subdomain |
| `RateLimit.NeverOverTheLimit` | `hub/src/rate-limit.ts:40-77` | on every run with a non-decreasing clock, whatever the number of keys, every half-open window of length `windowMs` holds at most `limit` of the calls admitted for a key since its last eviction |
| `RateLimit.LimitHoldsThroughout` | `hub/src/rate-limit.ts:40-77` | on every run about at most `maxKeys` keys every half-open window of length `windowMs` holds at most `limit` of all the calls admitted for a key, from the first on; and, if no hit was recorded directly, a call is admitted exactly when fewer than `limit` were in the window up to it |
| `RateLimit.FewKeysAreNeverEvicted` | `hub/src/rate-limit.ts:57-65` | on such a run no key is ever evicted |
| `RateLimit.EvictsExactly` | `hub/src/rate-limit.ts:57-65` | in a table within its bound a key is evicted exactly when a new key is recorded while the table is full, and it is the one whose last hit was recorded longest ago |
| `RateLimit.EvictedExactly` | `hub/src/rate-limit.ts:61-64` | eviction leaves a table within its bound as it is; from one over it exactly the newest `maxKeys` keys stay, in their order and with their hits |
| `RateLimit.HitMeans` | `hub/src/rate-limit.ts:57-65` | a call that leaves a hit makes its key the newest, and of the keys there are then exactly the newest `maxKeys` stay |
| `RateLimit.AdmitsExactly` | `hub/src/rate-limit.ts:71-75` | a call is admitted only while fewer than `limit` calls were admitted in the `windowMs` up to it, and always then if no hit was recorded directly |
| `RateLimit.RefusalChangesNothing` | `hub/src/rate-limit.ts:50-75` | a refused call leaves the whole table as it was exactly when its key is not in the table or has a live hit, which with a limit of at least one is always |
| `RateLimit.RefusalNeverChangesALaterAnswer` | `hub/src/rate-limit.ts:71-75` | whatever the limit, and whatever calls follow for whatever keys: a later call for the same key and limit is answered as though the refused one had not been made |
| `RateLimit.RefusedCallsLeaveNoTrace` | `hub/src/rate-limit.ts:71-75` | striking every refused call out of a run, limits being at least one, leaves the same table and the same admissions |
| `RateLimit.NextAnswerIsTheSame` | `hub/src/rate-limit.ts:50-75` | a refused call does not change the answer to a next call for its key under any other limit either |
| `RateLimit.TableFits` | `hub/src/rate-limit.ts:57-65` | on every run the table holds at most `maxKeys` keys |
| `RateLimit.TableCounts` | `hub/src/rate-limit.ts:50-65` | inside the window the table holds every admitted call since the last eviction, and nothing else when no hit was recorded directly |
| `RateLimit.EvictedKeeps` | `hub/src/rate-limit.ts:61-64` | eviction forgets whole keys, changes no other, and makes the table fit |
| `RateLimit.WindowCounter.Live` | `hub/src/rate-limit.ts:50-55` | in place: the live hits, and a key without any forgotten |
| `RateLimit.WindowCounter.DoCount` | `hub/src/rate-limit.ts:68-68` | in place: the number of live hits |
| `RateLimit.WindowCounter.DoRecord` | `hub/src/rate-limit.ts:57-65` | in place, with the eviction loop: the state becomes that of a recorded hit, whose order is `RateLimit.HitMeans` |
| `RateLimit.WindowCounter.DoTryConsume` | `hub/src/rate-limit.ts:71-75` | in place: refused without a record at the limit, recorded below it |
| `OauthFlow.TableStaysInOrder` | `hub/src/oauth-flow.ts:99-115` | on every run with a non-decreasing clock and fresh ids the table is in expiry order and within `maxEntries`, and a sweep that stops at the first live flow takes exactly the expired ones |
| `OauthFlow.SucceedsOnce` | `hub/src/oauth-flow.ts:129-141` | over any run a flow id succeeds at most once |
| `OauthFlow.SingleUse` | `hub/src/oauth-flow.ts:134-134` | any callback that names a known flow, whatever its outcome, is the last that can succeed with it |
| `OauthFlow.SuccessMeans` | `hub/src/oauth-flow.ts:129-141` | a callback with an open flow succeeds exactly with the state drawn when the flow began and before it expires, and is handed the verifier drawn with it |
| `OauthFlow.AnswerMeans` | `hub/src/oauth-flow.ts:128-141` | on every run, what each callback is answered, each answer exactly and in the order the code looks: a parameter missing, no such flow, expired, another state than the one drawn, or the verifier |
| `OauthFlow.BeginExactly` | `hub/src/oauth-flow.ts:103-127` | on every run a begin opens its flow, newest, and leaves the flows still live in their order; only when they fill the table the one that began first gives way |
| `OauthFlow.StaysOpen` | `hub/src/oauth-flow.ts:103-126` | an open flow stays exactly as it is until a callback names it, it expires, or the table is still full after the sweep of another begin |
| `OauthFlow.SweepRemovesExpired` | `hub/src/oauth-flow.ts:103-108` | on a table in expiry order the early-stopping sweep keeps exactly the live flows |
| `OauthFlow.RunKeeps` | `hub/src/oauth-flow.ts:118-141` | the invariant behind it over every run: order, bound, and every entry written by a `begin` of the run |
| `OauthFlow.FittedKeeps` | `hub/src/oauth-flow.ts:110-115` | eviction leaves room for one more, keeps the rest as it is and in order |
| `OauthFlow.FittedExactly` | `hub/src/oauth-flow.ts:110-115` | eviction keeps exactly the newest `maxEntries - 1` flows, in their order and unchanged |
| `OauthFlow.SweptIsTail` | `hub/src/oauth-flow.ts:103-108` | the sweep takes flows from the front and leaves the rest as they stand |
| `OauthFlow.OauthFlows.Sweep` | `hub/src/oauth-flow.ts:103-108` | in place: the loop removes what the specification of the sweep removes |
| `OauthFlow.OauthFlows.EvictToFit` | `hub/src/oauth-flow.ts:110-115` | in place: the loop removes the oldest flows until one more fits |
| `OauthFlow.OauthFlows.Begin` | `hub/src/oauth-flow.ts:118-127` | in place: swept, made to fit, and the new flow added |
| `OauthFlow.OauthFlows.Complete` | `hub/src/oauth-flow.ts:128-141` | in place: the four refusals in order, or the verifier; a known flow is ended by any of them |
| `OauthFlow.CreateOauthFlows` | `hub/src/oauth-flow.ts:89-98` | refuses a time to live that is not positive or a bound below one, else starts empty |
| `RateLimit.CreateWindowCounter` | `hub/src/rate-limit.ts:40-48` | refuses a window that is not positive, else starts empty |
| `Decimal.TextInjective` | `src/bridge/retry.ts:137-144` | decimal texts of different numbers differ |
| `Decimal.TextSpells` | `src/bridge/retry.ts:137-144` | a decimal text spells its number, without leading zeros |

## Left out

- BridgeResults.AtMostOneResponse: for calls with a tool-use id only; other requests can be answered twice, as `BridgeOthers.ReplyThenFailureAnswersTwice` shows; and for a client that keeps its ids apart as said above.
- BridgeRetries.DroppedCallIsSentAgain: pauses are counted, not timed; `delays` is their number.
- BridgeResults.NoErrorWhileCancelRemembered: for as long as the cancel is among the 256 remembered ones, which is all the code keeps.
- Bytes on the bridge: framing, the cheap `includes` tests before a message is parsed, `attemptBytes`, `withId` and `cancelFor` as JSON rewrites, diagnostics, `describe` and `labelOf`, the wait for forwards in flight when the client hangs up, and `src/bridge/failure.ts` beyond fatal, network and refused.
- LockSafety.MutualExclusion: with one clock shared by all processes and creation and record as one step; without that step a contender can read the file before its record is written.
- Filesystem errors other than a missing or existing file, and the warning line of a forced removal.
- IdleRemoval.RemovalIsNeverEarly: accounts that were blocked and unblocked are excluded, because their stop mark does not mean 60 idle days; a removal's fresh read, decision and orchestrator call are one step, so a sign-in during the call itself is not covered.
- IdleSweep.DryRunTellsTheTruth: without a pending reconcile, a failing call of the dry run, or anyone else writing meanwhile.
- IdleSweep.SecondSweepChangesNothing: after a first sweep in which no call failed; an account whose call failed is tried again.
- IdleSweep.IdleSweeper.SweepAll: the reconcile it waits for first is `Provisioning.dfy`'s, not part of its state.
- Accounts.DecidedWritesKeepToTheirGeneration: `discardPendingAccount` is keyed by id alone, so no such claim is made for it.
- Provisioning.CreateSettlesItsOwnRow: says nothing further of an account the operator deleted since; and the policy's own refusals of a sign-up are left out, so that more sign-ups happen than in the code.
- The operator's commands and the waker appear beside provisioning as the database writes they make, in any order; the waker also as the steps of one start.
- Waitlist, tombstone purge, listing order and the mapping of database rows.
- Instants are milliseconds, and timestamps that are not dates are a value of their own; the text of ISO dates and `idleDeadlines` are not modelled.
- How the disk answers for a folder rule (real paths, identities, letter case), the choice of the message a problem gives, and `filterVisible`.
- Text is a sequence of characters, not of UTF-16 code units, so names with characters outside the basic plane sort by code point.
- ResourceAgreement.EqualAgreesExactly: over every URI of the shape the parser gives; that a path which spells the same may itself hold a dot segment or a backslash, and so be refused, is not looked at. The same goes for `ResourceAgreement.AgreesExactlyWhenListable`.
- The URL parser, `decodeURIComponent`, `toLowerCase` and `String` on other values are parameters.
- Keys an object inherits from its prototype, the order JavaScript gives to keys that look like array indexes, and the text layout of a written file (`renderLike`).
- Reading, copying and atomically replacing config files, a file that changed since the scan, narrowing the record after a failed write, and the stack of undo records.
- The addresses rate-limit hits are keyed by (`clientIpOf`, `rateLimitKeyOf`), and a limit that changes between calls.
- RateLimit.LimitHoldsThroughout: for runs about at most `maxKeys` keys; with more of them a key can be evicted, exactly as `RateLimit.EvictsExactly` says, and is then counted afresh.
- RateLimit.RefusedCallsLeaveNoTrace: for limits of at least one; with a limit below that every call is refused, and one may forget a key without live hits and so let another key stay longer.
- Cookies, PKCE digests and constant-time comparison.
