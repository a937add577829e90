# Fumiko: synchronization and storage, verified

A Dafny model of how Fumiko keeps a local mailbox: the SQLite tables and the OS credential vault,
the synchronization pass over them, what the three providers feed into it (Gmail history, IMAP UIDs,
Microsoft Graph delta links), the capacity purge, the two-tier classification pass, and four smaller
protocols (OAuth loopback listener, account linking, streamed model pulls, MIME walks).

Check everything with `dafny verify dfyconfig.toml`.

## How it is modelled

- `Store` gives every SQL statement its meaning as a function on a value `Db`; `StorageHandle.Storage`
  is the mutable handle, each method proved equal to its statement; `Statements` says which
  columns each writes, and `Hydration` what the rows hold after answers were saved. `Engine.SyncService` is the pass
  over that handle. Every statement consumes one `Fault`: it works, it is refused, or it works while
  its answer is lost. A list either stops at the first reported failure (`Ran`) or goes on (`Tried`).
- A `Uuid` is a number taken from a counter, so identifiers are fresh. A clock reading is a parameter.
- `Row(db, account, message)` is a message's row without its identifier, `created_at` and `trashed_at`;
  replay and batch results are stated on it for every message of every account.
- `ORDER BY received_at DESC LIMIT k` selects the rows with fewer than `k` predecessors in a fixed total
  order that extends `received_at DESC` by the row identifier. A negative limit means "no limit", as in SQLite.
- Concurrent code is a state machine over its steps, and results hold for every sequence of steps;
  a step that is not enabled does nothing.
- The steps of linking fail in the same three ways. The ghost
  `log` of the storage handle lists every durable pair (account rows, account secrets). A process that
  stops leaves one of these moments; each of them is also reached by a failing step, after which a
  `Session` goes on.

## Premises

- Operations run one at a time, as do passes over one account; only the classification tasks and the
  listener interleave.
- IMAP results hold within one UIDVALIDITY epoch that is stable during a pass. That nothing is lost also
  needs complete answers (`ImapNoLoss.AllComplete`); without them every message is still accounted for
  (`EveryMessageIsAccountedFor`), and `CleanPassLosesNothingIff` and `SilentServerLosesMessages` show that
  the premise is needed.
- A failed pass, repeated cleanly, is repaired for a message exactly when the statements it executed are
  harmless for that message (`HeldCursor.Harmless`, exact by `ReplayIsSafeIff`): the page deletes it, or
  nothing deleted it, a marked message is marked by the page too, the first save's delivery time is the one
  answered again, and a saved snippet is answered again. Page growth and unchanging answers imply this
  (`ConfirmedAttemptsAreHarmless`).
- The text of a failed Gmail or Graph request is the label of the provider error and a cause, followed by
  " for url (...)" with the address of the request, which is how the HTTP client prints its errors. An
  answer whose body cannot be read or decoded prints no address; such a failure holds the cursor whatever
  the identifier, unless its cause contains a marker (`AddresslessFailureHoldsIff`).

## What the proofs found

- "Not found" is a substring test on the error text (`crates/email_core/src/sync_page.rs:618-620`), and
  the text of a failed request quotes the message's own identifier. Such a failure holds the cursor exactly
  when neither its cause nor the identifier contains a marker (`RequestFailureHoldsIff`); a pass moves the
  cursor past unanswered messages exactly when every failure reads as "not found"
  (`CursorPassesFailuresIff`), so for failures with another cause exactly when every failed one
  quotes an identifier with a marker such as `404` (`FailedRequestsPassedOverIff`). `docs/email_core.md:59`
  promises that the cursor moves only when all items were processed; what holds is that a listed message then
  has a row, is deleted by the page, or failed with such a text (`MovedCursorAccountsForEach`).
- A message without a date takes the time of each hydration
  (`crates/email_core/src/email_providers/gmail/mod.rs:79-83`,
  `crates/email_core/src/email_providers/imap.rs:303`,
  `crates/email_core/src/email_providers/outlook/mod.rs:120`), so after a failed pass it keeps the earlier time
  and the repetition is not repaired (`UndatedMessageKeepsItsFirstTime`).
- An IMAP batch that completes never holds the cursor: every UID without an answer is reported as "not
  found" (`ImapAnswersNeverHoldTheCursor`). A message on the server that a server leaves out of such an
  answer is lost (`SilentServerLosesMessages`, `OneMessageIsLost`).
- A Gmail message restored and trashed again within one history window ends up outside the trash,
  because restorations are applied after trashings (`OutAndBackDiffers` gives the window and its page);
  `BatchEqualsReplayInEveryStoreIff` gives the exact condition on the order of events.
- The findings limit counts matches, not emails: an email matched twice uses two places, so findings are
  removed although fewer than `max_findings` remain (`DuplicateMatchCostsAFinding`,
  `FindingsLimitIsUsedUpIff`), unlike `docs/storage.md:87` says.
- A cancelled listener stays blocked until something else connects exactly when its wake-up connection
  failed, its backlog is empty, and it is waiting in `accept` or handling a junk request
  (`LeftBlockedIff`, `PingLeavesBlockedIff`). An idle listener is one case (`FailedWakeUpBlocks`).
- A link attempt that reports failure can still leave a complete account: the secret was written, the
  answer was lost, and the roll-back could not delete it (`Linking.Register`). There is still no secret
  without a row.

## Model

| member | source | states |
|---|---|---|
| `Text.DecimalParses` | crates/email_core/src/email_providers/imap.rs:169-178 | a printed 32-bit number parses back to itself |
| `Text.DecimalInjective` | crates/email_core/src/email_providers/imap.rs:265-270 | different UIDs have different texts |
| `Text.TrimIsInner` | crates/local_ai/src/builtin/classifier.rs:92-105 | trimming takes all white space off both ends and nothing else |
| `Text.DecimalShifts` | crates/email_core/src/email_providers/imap.rs:169-178 | the most significant digit comes first |
| `Text.ParsingLimits` | crates/email_core/src/email_providers/imap.rs:169-178 | a plus sign is accepted and a number beyond 32 bits is not |
| `TopK.TopSize` | crates/storage/src/email.rs:355-362 | a limit of k selects min(n, k) rows |
| `TopK.SelectedFirst` | crates/storage/src/email.rs:355-362 | a selected row precedes every row left out |
| `TopK.Absorb` | crates/storage/src/email.rs:350-386 | dropping rows an earlier selection rejected changes no later selection, whatever arrives in between |
| `Store.ApplyOk` | crates/storage/migrations/20260903051011_initial_schema.sql:25-66 | every statement keeps keys, foreign keys, both unique constraints and "trashed exactly when dated"; surviving emails keep key, `received_at`, `created_at` and viewed mark, and deleted identifiers never return |
| `Store.RunOk` | crates/storage/migrations/20260903051011_initial_schema.sql:25-66 | the same over every sequence of statements |
| `Store.ReachableStoresAreWellFormed` | crates/storage/migrations/20260903051011_initial_schema.sql:25-66 | every store reachable from the empty one is well formed |
| `Store.WipeEmpties` | crates/storage/src/accounts.rs:224-235 | deleting accounts and criteria empties all four tables through the cascades |
| `Statements.InsertedAccount` | crates/storage/src/accounts.rs:17-46 | a new row with the given provider, address and time that has never synced; a taken address changes nothing |
| `Statements.DeletedAccount` | crates/storage/src/accounts.rs:132-145 | exactly the account, its emails and their classifications go |
| `Statements.AccountStatements` | crates/storage/src/sync.rs:12-57 | the three statements on an account row write their own columns and nothing else |
| `Statements.ErrorThenSync` | crates/storage/src/sync.rs:12-49 | a synced pass clears the error before it, and an error keeps the cursor |
| `Statements.MarkedMessage` | crates/storage/src/email.rs:165-199 | a remote mark writes flag and date of the message's row and nothing else |
| `Statements.ReadMessage` | crates/storage/src/email.rs:202-222 | the read flag of the message's row and nothing else |
| `Statements.TrashedEmail` | crates/storage/src/email.rs:225-240 | flag and date of that row and nothing else |
| `Statements.RestoredEmail` | crates/storage/src/email.rs:244-259 | flag and date of that row and nothing else |
| `Statements.ViewedEmail` | crates/storage/src/email.rs:263-277 | the viewed mark of that row and nothing else |
| `Statements.ReadScope` | crates/storage/src/email.rs:421-442 | exactly the active emails of the scope, read and viewed |
| `Statements.DeletedMessage` | crates/storage/src/email.rs:146-161 | exactly the message's row and its classifications go |
| `Statements.DeletedEmail` | crates/storage/src/email.rs:127-142 | exactly that row and its classifications go |
| `Statements.TrashSurvivesItsRetention` | crates/storage/src/email.rs:304-328 | an email trashed at some time is purged if and only if its retention has passed |
| `Statements.RemoteTrashSurvivesItsRetention` | crates/storage/src/email.rs:165-184 | the same for mail that a pass trashed |
| `Statements.InsertedCriterion` | crates/storage/src/criteria.rs:95-116 | a new active row with the given name, description and time |
| `Statements.SwitchedCriterion` | crates/storage/src/criteria.rs:165-190 | switching a criterion keeps its matches and everything else |
| `Statements.DeletedCriterion` | crates/storage/src/criteria.rs:121-134 | exactly the criterion and its matches go |
| `Statements.SavedMatch` | crates/storage/src/criteria.rs:303-325 | the row of this email and criterion is there with the new confidence and keeps its time |
| `Statements.OtherMatchUntouched` | crates/storage/src/criteria.rs:303-325 | saving a match leaves the rows of every other email or criterion alone |
| `Statements.ClearedMatches` | crates/storage/src/email.rs:444-466 | exactly the classifications that all given filters select are removed |
| `Statements.OneMatchDeleted` | crates/storage/src/criteria.rs:282-298 | deleting one match leaves every other |
| `StorageHandle.Storage.AddAccount` | crates/storage/src/accounts.rs:17-46 | conflict exactly when the address is taken and the database answers; otherwise the row is there under a fresh identifier unless the insert was refused |
| `StorageHandle.Storage.SaveAccountSecret` | crates/storage/src/secrets/token_store.rs:97-99 | the vault's new content under each way the call can go, for any identifier; it breaks "no orphan secret" exactly when it stores one without an account row |
| `StorageHandle.Storage.DeleteAccountSecret` | crates/storage/src/secrets/token_store.rs:113-115 | the vault's new content under each way the call can go |
| `StorageHandle.Storage.DeleteAccount` | crates/storage/src/accounts.rs:132-145 | keyring first: if the secret is not confirmed gone the row stays; success leaves neither row nor secret; the cascades; the error for every combination of failures |
| `StorageHandle.Storage.WipeAllData` | crates/storage/src/accounts.rs:213-235 | succeeds if and only if every keyring call, the credentials and the transaction work, and reports which failed; the tables are emptied exactly when the vault steps worked and the transaction was not refused, and the vault as soon as every account's secret could be deleted; never a secret without a row |
| `StorageHandle.Storage.SetSyncError` | crates/storage/src/sync.rs:12-27 | the account table afterwards; an unknown account changes nothing |
| `StorageHandle.Storage.UpdateSyncCursor` | crates/storage/src/sync.rs:29-49 | cursor and time are set and the error is cleared, together |
| `StorageHandle.Storage.ClearSyncCursor` | crates/storage/src/sync.rs:51-57 | only the cursor is cleared |
| `StorageHandle.Storage.SaveEmail` | crates/storage/src/email.rs:26-63 | the upsert: an existing message keeps identifier, `received_at`, viewed mark and trash state; the returned identifier is that of the message's row; fails exactly for an unknown account |
| `StorageHandle.Storage.MarkTrashed` | crates/storage/src/email.rs:165-184 | exactly the message's row is trashed |
| `StorageHandle.Storage.MarkUntrashed` | crates/storage/src/email.rs:186-199 | exactly the message's row is restored and its date cleared |
| `StorageHandle.Storage.DeleteByProviderMessageId` | crates/storage/src/email.rs:146-161 | exactly the message's row goes, with its classifications |
| `StorageHandle.Storage.TrashEmail` | crates/storage/src/email.rs:225-240 | the row is trashed; "not found" exactly for an unknown identifier |
| `StorageHandle.Storage.RestoreEmail` | crates/storage/src/email.rs:244-259 | the row is restored; "not found" exactly for an unknown identifier |
| `StorageHandle.Storage.MarkEmailViewed` | crates/storage/src/email.rs:263-277 | the row is marked viewed; "not found" exactly for an unknown identifier |
| `StorageHandle.Storage.DeleteEmail` | crates/storage/src/email.rs:127-142 | the row and its classifications go; "not found" exactly for an unknown identifier |
| `StorageHandle.Storage.MarkAllRead` | crates/storage/src/email.rs:421-442 | exactly the active emails in scope become read and viewed |
| `StorageHandle.Storage.PurgeExpiredTrash` | crates/storage/src/email.rs:304-328 | rejects a retention outside 0..3650 days and otherwise removes, and counts, exactly the trash at or before the cutoff |
| `StorageHandle.Storage.TrimInbox` | crates/storage/src/email.rs:350-366 | the first capacity statement by itself, counting what it removed |
| `StorageHandle.Storage.TrimFindings` | crates/storage/src/email.rs:369-386 | the second capacity statement by itself, counting what it removed |
| `StorageHandle.Storage.PurgeOldEmails` | crates/storage/src/email.rs:342-389 | both capacity statements, each committed by itself; a failure of the first skips the second and the first stays; on success the two results count the removed unclassified emails and the removed findings |
| `StorageHandle.Storage.PurgeOldEmailsAll` | crates/storage/src/email.rs:395-413 | on success every account ends as if purged alone and the totals count every removed row once, kind by kind; the first failing account ends the run: those before it are purged, it has exactly the statements done that took effect, and the others are untouched; either way nothing happens but deletions of emails with their classifications |
| `StorageHandle.Storage.GetMailboxStats` | crates/storage/src/email.rs:483-513 | the three counters of the scope, ordered findings <= unread <= total |
| `StorageHandle.Storage.AddCriterion` | crates/storage/src/criteria.rs:95-116 | a new active criterion under a fresh identifier |
| `StorageHandle.Storage.DeleteCriterion` | crates/storage/src/criteria.rs:121-134 | no classification of the criterion is left; "not found" exactly when it did not exist |
| `StorageHandle.Storage.SaveClassification` | crates/storage/src/criteria.rs:303-325 | one row per email and criterion, with the new confidence; fails exactly when one of them is gone |
| `StorageHandle.Storage.DeleteClassification` | crates/storage/src/criteria.rs:282-298 | exactly the match of this email and criterion goes |
| `StorageHandle.Storage.ClearClassifications` | crates/storage/src/email.rs:444-480 | exactly the classifications in scope go, and are counted |
| `Purge.PurgeIsOneDeletion` | crates/storage/src/email.rs:350-386 | the two statements together are one deletion; the first never changes what the second selects |
| `Purge.Survivors` | crates/storage/src/email.rs:350-386 | what is left of each kind of mail: the selected inbox rows, and the findings with a selected row |
| `Purge.InboxMeetsTheLimit` | crates/storage/src/email.rs:350-366 | afterwards there are exactly min(n, limit) unclassified active emails |
| `Purge.FindingsMeetTheLimit` | crates/storage/src/email.rs:369-386 | afterwards there are at most `max_findings` findings, at least one if there were any and the limit is positive |
| `Purge.PurgeKeepsTheNewest` | crates/storage/src/email.rs:350-386 | a removed email is of one of the two kinds, and never newer than a kept one of its kind |
| `Purge.PurgeTouchesNothingElse` | crates/storage/src/email.rs:350-386 | trashed mail, other accounts, surviving rows and their classifications are unchanged |
| `Purge.EarlierPurgeIsAbsorbed` | crates/storage/src/email.rs:342-389 | a purge before a batch arrives makes no difference to the purge after it |
| `Purge.PurgingAsYouGoEqualsPurgingOnce` | crates/storage/src/email.rs:342-389 | purging after every batch gives the same tables as one purge at the end, duplicate join rows included |
| `Purge.PurgeIsIdempotent` | crates/storage/src/email.rs:342-389 | a second purge removes nothing |
| `Purge.UnclassifiedMailNeverEvictsAFinding` | crates/storage/src/email.rs:334-336 | any amount of unclassified mail leaves the kept findings the same |
| `Purge.SameViewSamePurge` | crates/storage/src/email.rs:342-389 | a purge depends only on the account's own active mail and matches |
| `Purge.PurgeIsLocal` | crates/storage/src/email.rs:342-389 | purging one account is invisible to every other |
| `Purge.StoppedWithin` | crates/storage/src/email.rs:405-409 | a run over accounts that stops after n statements of one account leaves the accounts before it purged, this one as far as it got, and the others untouched |
| `PurgeCounts.EachStatementItsKind` | crates/storage/src/email.rs:350-386 | the first statement removes only unclassified mail, the second only findings |
| `PurgeCounts.RemovedAddsUp` | crates/storage/src/email.rs:401-412 | counting account by account counts each removed row once |
| `PurgeCounts.FindingsLimitIsUsedUpIff` | crates/storage/src/email.rs:369-386 | min(n, limit) findings are kept if and only if every finding owns one of the first k join rows or these rows belong to different emails |
| `PurgeCounts.DuplicateMatchCostsAFinding` | crates/storage/src/email.rs:374-381 | two findings, a limit of two, and one is removed because the other was matched twice |
| `Stats.CountersAreOrdered` | crates/storage/src/email.rs:483-513 | findings <= unread <= total in every scope |
| `Stats.CountersCount` | crates/storage/src/email.rs:483-513 | the counters column by column: active mail of the scope, what of it is neither read nor viewed, and what of that has a match |
| `Stats.StatsAddUp` | crates/storage/src/email.rs:483-513 | in every reachable store the all-accounts counters are the sums over the linked accounts, multiply matched emails counted once |
| `Stats.MarkAllReadClearsUnread` | crates/storage/src/email.rs:421-435 | marking a scope read leaves nothing unread and no unread finding in it, and no email leaves or enters the totals |
| `Stats.ClearingEmptiesTheFindings` | crates/storage/src/email.rs:444-466 | clearing an account's findings empties its findings counter and changes no other counter of any account |
| `Stats.RestoreUndoesTrash` | crates/storage/src/email.rs:225-259 | restoring a freshly trashed email gives the whole store back |
| `Stats.TrashLeavesTheTotal` | crates/storage/src/email.rs:225-240 | trashing an active email takes exactly it out of the total |
| `SyncEngine.QuotedIdentifierReleasesCursor` | crates/email_core/src/sync_page.rs:618-620 | an error quoting an identifier that contains one of the three markers releases the cursor, whatever the text around it |
| `SyncEngine.ReleasesIffMarked` | crates/email_core/src/sync_page.rs:618-620 | a failure releases the cursor if and only if "404", "Not Found" or "NotFound" stands somewhere in its text |
| `SyncEngine.QuotedErrorHoldsIff` | crates/email_core/src/sync_page.rs:618-620 | a text that quotes an identifier between two separators holds the cursor if and only if neither the identifier nor the text on either side contains a marker |
| `SyncEngine.RequestFailureHoldsIff` | crates/email_core/src/email_providers/gmail/mod.rs:58-68 | a Gmail or Graph failure that prints the request's address holds the cursor if and only if neither its cause nor the identifier of its message contains a marker |
| `SyncEngine.AddresslessFailureHoldsIff` | crates/email_core/src/email_providers/gmail/mod.rs:69-70 | a failure printed without an address, as when the body cannot be decoded, holds the cursor if and only if its cause contains no marker |
| `SyncEngine.AnyFailureHoldsIff` | crates/email_core/src/sync_page.rs:618-620 | a failed request, whether or not it prints its address, holds the cursor if and only if its cause, and the identifier if it is quoted, contain no marker |
| `SyncEngine.FixedErrorsHold` | crates/common/src/errors.rs:90-97 | rate limiting, rejected credentials and a body that cannot be decoded always hold the cursor |
| `SyncEngine.TransientFailureTakenForMissing` | crates/email_core/src/email_providers/gmail/mod.rs:58-68 | the same failure of a Gmail request holds the cursor for one identifier and releases it for another |
| `SyncEngine.RowAfterWrite` | crates/storage/src/email.rs:37-47 | every statement of a pass acts on each message separately, and only on its own account |
| `SyncEngine.RowAfterRun` | crates/email_core/src/sync_page.rs:271-342 | the same for whole lists of statements, which keep the tables well formed |
| `Replay.PassOnRow` | crates/email_core/src/sync_page.rs:271-327 | saves, trashings, restorations and deletions, executed in order, do to a message what the page says about it |
| `Replay.CleanPassRepairs` | crates/email_core/src/sync_page.rs:280-342 | a clean pass wipes out whatever permitted statements did to a row |
| `Replay.EarlierSaveHarmlessIff` | crates/storage/src/email.rs:37-47 | an earlier save of an answer is without effect after the clean pass if and only if the pass confirms it or deletes the message |
| `Replay.PermittedThenClean` | crates/email_core/src/sync_page.rs:271-342 | any permitted statements, in any order, then a clean pass: every row of every account as after the clean pass alone |
| `HeldCursor.RepairedIff` | crates/email_core/src/sync_page.rs:271-342 | whatever the row was, a clean pass gives it the row of the clean pass alone after any executed statements, if and only if these are harmless for the message |
| `HeldCursor.ReplayIsSafeIff` | crates/email_core/src/sync_page.rs:271-342 | the same over every well-formed store: which executed statements of earlier passes a clean pass makes up for, exactly |
| `HeldCursor.HeldCursorReplayIsSafe` | crates/email_core/src/sync_page.rs:227-342 | any number of failed passes, each over the page it rediscovered, with cleared cursors, saved matches and recorded errors, then a clean pass: every message whose executed statements are harmless has the row of the clean pass alone, and other accounts' messages always |
| `HeldCursor.HeldCursorReplayAccounts` | crates/email_core/src/sync_page.rs:227-244 | such failed passes change the account row in its last error and a cleared cursor only, and after a clean pass that moves the cursor the account rows are those of the clean pass alone |
| `HeldCursor.ConfirmedAttemptsAreHarmless` | crates/email_core/src/sync_page.rs:280-342 | passes whose marks the clean page repeats and whose answers the clean pass confirms are harmless for every message |
| `HeldCursor.UndatedMessageKeepsItsFirstTime` | crates/email_core/src/email_providers/gmail/mod.rs:79-83 | a message without a date, saved by a failed pass, keeps that pass's time although the clean pass alone would store its own |
| `Replay.OtherAccountsUntouched` | crates/email_core/src/sync_page.rs:271-342 | a pass never touches another account's rows |
| `Replay.CursorMovesOnlyOnCleanPass` | crates/email_core/src/sync_page.rs:329-342 | however far a pass gets, the cursor changes exactly when it ran to its end and no error held it |
| `Replay.CursorPassesFailuresIff` | crates/email_core/src/sync_page.rs:295-342 | the cursor passes over an unanswered message if and only if some answer failed, every failed answer reads as "not found", and the pass ran to its end |
| `Replay.MovedCursorAccountsForEach` | crates/email_core/src/sync_page.rs:280-342 | with one answer per listed identifier in any order, once the cursor has moved each listed message has a row, is deleted by the page, or failed with a text that reads as "not found" |
| `Replay.FailedRequestsPassedOverIff` | crates/email_core/src/sync_page.rs:295-342 | for failed requests with causes that are not "not found", a finished pass moves the cursor if and only if every one quotes an identifier with a marker |
| `Replay.OnlyMarkedIdentifiersArePassedOver` | crates/email_core/src/sync_page.rs:280-342 | then, once the cursor has moved, each listed message has a row, is deleted by the page, or has an identifier with a marker |
| `Engine.SyncService.FetchSyncPage` | crates/email_core/src/sync_page.rs:192-224 | an expired cursor is cleared, whether or not that succeeds, and one initial sync follows; other errors pass through |
| `Engine.SyncService.Discover` | crates/email_core/src/sync_page.rs:254-267 | discovery is repeated once, with a fresh token, exactly when the first was unauthorized |
| `Engine.DiscoveredIff` | crates/email_core/src/sync_page.rs:192-267 | the second attempt counts exactly when the first was rejected; without a cursor, or with an expired one, the initial listing counts and is marked as such, otherwise the incremental one |
| `Engine.ClearedOncePerExpiry` | crates/email_core/src/sync_page.rs:200-212 | the cursor is cleared once for every attempt that counts and finds it expired |
| `Engine.AnsweredIff` | crates/email_core/src/sync_page.rs:271-279 | a page without new messages asks for nothing, any other goes on exactly with the answers to its batch |
| `Engine.SyncService.SaveOne` | crates/email_core/src/sync_page.rs:282-296 | the row of the message gets the answer's subject, sender and flag, its snippet if it has one, and on a new row its time; every other row is unchanged |
| `Engine.SyncService.Hydrate` | crates/email_core/src/sync_page.rs:271-311 | saves every answered message in order up to the first failing save, lists the saved rows, and holds exactly when some error is not "not found"; on success each answered message's row holds its answers column by column and every other row is unchanged |
| `Hydration.SavedAnswer` | crates/storage/src/email.rs:37-47 | saving an answer writes its fields into the one row of its message and leaves every other row |
| `Hydration.SavedBatch` | crates/email_core/src/sync_page.rs:280-297 | a saved batch leaves every answered message a row with subject, sender and flag of its last answer, the last snippet there was, and on a new row the time of its first; all other rows are unchanged |
| `Engine.SyncService.MarkRemoteChanges` | crates/email_core/src/sync_page.rs:313-327 | trashings, then restorations, then deletions, stopping at the first database failure |
| `Engine.SyncService.AdvanceCursor` | crates/email_core/src/sync_page.rs:329-342 | writes the page's cursor exactly when nothing held it |
| `Engine.SyncService.ApplyPage` | crates/email_core/src/sync_page.rs:271-342 | saves, marks and cursor up to the first statement that reports a failure; on success the listed rows exist unless the page deletes their messages |
| `Engine.SyncService.SyncOneAccountInner` | crates/email_core/src/sync_page.rs:247-342 | whatever the provider answers and whichever statements fail: discovery's clearings are tried, the pass's statements run up to the first reported failure, and it succeeds exactly when discovery and the batch did and none failed |
| `Engine.CleanPassLeaves` | crates/email_core/src/sync_page.rs:271-342 | a pass without a failing statement leaves each message's row as page and answers say, and the page's cursor unless an answer held it |
| `Engine.SyncService.ClassifyAndPurge` | crates/email_core/src/sync_page.rs:344-371 | the matches are exactly what the interleaved pass over these rows accepted and stored, with the names of the active criteria; they are saved and the account is purged; failures are ignored, and so is what a match save reports when it took effect |
| `Engine.SyncService.SyncOneAccount` | crates/email_core/src/sync_page.rs:227-244 | a failed pass is recorded on the account when that statement succeeds; a successful one classifies exactly the rows of its answered messages, as an initial or incremental sync like the discovered page, and stores exactly the accepted matches, then purges |
| `Engine.MatchesNameSavedRows` | crates/email_core/src/sync_page.rs:571-587 | in every interleaving the matches name newly saved rows, each at most once, and offered criteria, with a confidence in [0.5, 1] |
| `Engine.ToMatchesIff` | crates/email_core/src/sync_page.rs:571-585 | a match is passed on if and only if the task of that row accepted that criterion with that confidence and stored it |
| `Engine.MatchesAreStored` | crates/email_core/src/sync_page.rs:578-585 | every match whose email and criterion exist is in the table afterwards, with its confidence |
| `Engine.ReadyRows` | crates/email_core/src/sync_page.rs:280-297 | the rows handed to classification are those of the answered messages, one for each answer, in order |
| `Engine.StoppedPassIsAttempt` | crates/email_core/src/sync_page.rs:227-342 | whatever the discoveries and the batch answered and wherever it stopped, a pass that did not execute its cursor update is such an attempt, with its clearings of the cursor and its recorded error or its saved matches |
| `Engine.RanConcat` | crates/email_core/src/sync_page.rs:280-342 | a list of statements goes on after a clean part and stops within any other |
| `GmailHistory.FoldRecords` | crates/email_core/src/email_providers/gmail/mod.rs:290-338 | the accumulated lists are what all records so far call for |
| `GmailHistory.IncrementalSync` | crates/email_core/src/email_providers/gmail/mod.rs:249-361 | exactly the page that the records of all pages read call for: new = added - deleted, strictly sorted; the last non-empty history id as cursor; the first error otherwise |
| `GmailHistory.WalkReadsReplies` | crates/email_core/src/email_providers/gmail/mod.rs:268-340 | the walk reads page after page up to the first without a token, or reports the first error |
| `GmailHistory.ReportedIff` | crates/email_core/src/email_providers/gmail/mod.rs:285-351 | in terms of the records read: new is what was added and not deleted, trashed what got a TRASH or SPAM label, restored what lost one |
| `GmailHistory.PagingDoesNotMatter` | crates/email_core/src/email_providers/gmail/mod.rs:254-360 | two walks that read the same records in different pages report the same lists, and each cursor is the last non-empty history id of its walk |
| `BatchReplay.BatchEqualsReplayIff` | crates/email_core/src/sync_page.rs:271-327 | for one message, batch and one-at-a-time replay agree from every starting row if and only if its events are faithfully ordered |
| `BatchReplay.WellOrderedIsFaithful` | crates/email_core/src/email_providers/gmail/mod.rs:290-351 | additions first, deletions last and no trash after a restore is a faithful order |
| `BatchReplay.BatchEqualsReplayInEveryStoreIff` | crates/email_core/src/sync_page.rs:271-327 | from every well-formed store the page and the record-by-record replay give a message the same row, if and only if its events are faithfully ordered |
| `BatchReplay.OutAndBackDiffers` | crates/email_core/src/email_providers/gmail/mod.rs:304-328 | two records, TRASH removed and TRASH added: their page leaves the message outside the trash, the records leave it in the trash |
| `BatchReplay.RetrashedMessageReappears` | crates/email_core/src/sync_page.rs:313-321 | restored and then trashed within one window: the batch leaves the message outside the trash |
| `BatchReplay.PageActsAsBatch` | crates/email_core/src/sync_page.rs:271-327 | a window's page acts on each message as the batch of its events |
| `BatchReplay.BatchEqualsReplay` | crates/email_core/src/email_providers/gmail/mod.rs:290-351 | applying the whole page leaves each faithfully ordered message, and every message of another account, as replaying the records one at a time does |
| `Imap.CursorRoundTrip` | crates/email_core/src/email_providers/imap.rs:148-178 | a written cursor parses back to the same pair |
| `Imap.MalformedCursors` | crates/email_core/src/email_providers/imap.rs:165-178 | a part of a cursor that is no number reads as zero, and a cursor of one part expires |
| `Imap.StarAlwaysMatches` | crates/email_core/src/email_providers/imap.rs:199-208 | under section 6.4.8 of RFC 3501 a range beyond every UID still answers with the greatest one |
| `Imap.FilteredSearchIsAbove` | crates/email_core/src/email_providers/imap.rs:199-208 | with the meaning of `n:*` in section 6.4.8 of RFC 3501, the filter leaves exactly the UIDs above the last one seen, also where the lower end wraps around |
| `Imap.WindowIsGreatest` | crates/email_core/src/email_providers/imap.rs:135-147 | an initial listing leaves out no UID greater than a listed one |
| `Imap.DescendingOrder` | crates/email_core/src/email_providers/imap.rs:135-147 | listed UIDs are strictly descending |
| `Imap.InitialSync` | crates/email_core/src/email_providers/imap.rs:110-158 | the min(n, max_results) greatest UIDs, greatest first, and the cursor at the greatest |
| `Imap.IncrementalSync` | crates/email_core/src/email_providers/imap.rs:162-226 | exactly the UIDs above the cursor, greatest first, for every cursor; another epoch expires the cursor, a malformed one is rejected, and the greatest 32-bit UID fails when overflow is checked |
| `Imap.ListedUidIff` | crates/email_core/src/email_providers/imap.rs:110-226 | an incremental page lists a UID if and only if it is present above the cursor, an initial one min(n, max_results) present ones; pages of new messages only; it fails exactly for another epoch or a malformed cursor, as an expired cursor |
| `Imap.CursorNeverGoesBack` | crates/email_core/src/email_providers/imap.rs:189-222 | within an epoch the cursor's UID never decreases and reaches every present UID |
| `Imap.OwnCursorIsAccepted` | crates/email_core/src/email_providers/imap.rs:110-226 | the cursor of an initial listing is accepted by the next pass over the mailbox, also without UIDVALIDITY, and an unchanged mailbox then lists nothing |
| `Imap.FetchMessageMetadata` | crates/email_core/src/email_providers/imap.rs:230-345 | one answer per requested id, in order: the fetched item of that UID or "not found" |
| `Imap.AnswerIsReadyIff` | crates/email_core/src/email_providers/imap.rs:320-342 | an answer carries metadata if and only if the server's reply mentions the UID |
| `Imap.AnswerIsTheLastItem` | crates/email_core/src/email_providers/imap.rs:277-342 | the fields of an answer are those of the last fetched item of that UID |
| `Imap.ImapAnswersNeverHoldTheCursor` | crates/email_core/src/email_providers/imap.rs:320-342 | a completed batch never holds the cursor |
| `ImapNoLoss.StepKeepsInv` | crates/email_core/src/sync_page.rs:271-342 | every server or client step keeps everything at or below the cursor saved, expunged or missing from an answer |
| `ImapNoLoss.MentionsItsOwnUid` | crates/email_core/src/email_providers/imap.rs:265-270 | a fetched item answers for its own UID and no other |
| `ImapNoLoss.PresentUntilExpunged` | crates/email_core/src/email_providers/imap.rs:110-226 | what was appended stays on the server until it is expunged, in every run |
| `ImapNoLoss.CommitSavesTheAnswered` | crates/email_core/src/email_providers/imap.rs:277-342 | a finished pass saves exactly the listed UIDs that the answer mentions |
| `ImapNoLoss.EveryMessageIsAccountedFor` | crates/email_core/src/sync_page.rs:280-342 | after any run of appends, expunges and passes failing anywhere, every UID between the baseline and the cursor was saved, is expunged, or was listed by a finished pass whose answer left it out |
| `ImapNoLoss.NoMessageIsLost` | crates/email_core/src/sync_page.rs:280-342 | when every finished pass got a complete answer, every UID between the baseline and the cursor was saved or is expunged |
| `ImapNoLoss.CleanPassLosesNothingIff` | crates/email_core/src/email_providers/imap.rs:277-342 | everything a finished pass claims was saved if and only if every message in its range still on the server had been saved before or was listed and answered |
| `ImapNoLoss.SilentServerLosesMessages` | crates/email_core/src/email_providers/imap.rs:277-342 | a first listing with an empty answer moves the cursor to the greatest UID, which is on the server and was never saved |
| `ImapNoLoss.OneMessageIsLost` | crates/email_core/src/email_providers/imap.rs:277-342 | a concrete mailbox whose only message is lost that way |
| `ImapNoLoss.SavedMeansStored` | crates/storage/src/email.rs:37-47 | saving gives the message a row in the account |
| `ImapNoLoss.InitialCovers` | crates/email_core/src/email_providers/imap.rs:135-154 | an initial listing names every present message from its base up |
| `ImapNoLoss.IncrementalCovers` | crates/email_core/src/email_providers/imap.rs:199-222 | an incremental listing names every present message above the cursor |
| `Outlook.SendRequestWithRetry` | crates/email_core/src/email_providers/outlook/mod.rs:34-72 | follows the retry rule, with at most four attempts and ninety seconds of backoff |
| `Outlook.BackoffSchedule` | crates/email_core/src/email_providers/outlook/mod.rs:48-66 | a server that only throttles is asked four times, with pauses of 2, 4 and 8 seconds, or three times its `Retry-After`, capped at 30 |
| `Outlook.SendAnswers` | crates/email_core/src/email_providers/outlook/mod.rs:41-71 | the answer is that of the last attempt; a throttled one is final only after all four |
| `Outlook.WalkLimits` | crates/email_core/src/email_providers/outlook/mod.rs:195-228 | against any server: at most the allowed pages, four attempts and ninety seconds a page |
| `Outlook.WalkYieldsCursorIff` | crates/email_core/src/email_providers/outlook/mod.rs:195-228 | a walk yields a cursor exactly when its last page carries a delta link, which is that cursor |
| `Outlook.WalkReadsTheServer` | crates/email_core/src/email_providers/outlook/mod.rs:195-228 | every page read is the server's answer at the link its predecessor names, the first at the start; a walk that stops reports what the server answered at the next link, the absence of one, or the page limit |
| `Outlook.EndlessWalk` | crates/email_core/src/email_providers/outlook/mod.rs:195-203 | against a server that always names a next page two hundred pages are read |
| `Outlook.LimitsAreDataErrors` | crates/email_core/src/email_providers/outlook/mod.rs:199-228 | neither the page limit nor a missing delta link reads as an expired cursor or a rejected token |
| `Outlook.GatheredLists` | crates/email_core/src/email_providers/outlook/mod.rs:269-275 | the lists the loops gather have one entry for every item of their kind, in the order of the pages and their items |
| `Outlook.ListedIff` | crates/email_core/src/email_providers/outlook/mod.rs:269-275 | an identifier is listed if and only if some page has an item of that kind with it |
| `Outlook.InitialSync` | crates/email_core/src/email_providers/outlook/mod.rs:181-236 | the first max_results identifiers over all items of the pages read, removed or not, in their order, and the last page's delta link, or the walk's error; at most 200 pages |
| `Outlook.IncrementalSync` | crates/email_core/src/email_providers/outlook/mod.rs:240-299 | removed items are trashed and all others are new, each list with one entry per item of the pages read and in their order, nothing is deleted or restored, and the cursor is the last page's delta link, or the walk's error; at most 200 pages |
| `Classifier.LookupFindsTheChosenCriterion` | crates/local_ai/src/builtin/classifier.rs:98-105 | the engine's exact lookup finds the very criterion the caseless match chose, even with duplicate labels |
| `Classifier.VerdictIff` | crates/local_ai/src/builtin/classifier.rs:92-117 | a verdict exactly when a match is claimed and the trimmed label equals a criterion up to case; it is the first such; its confidence is the model's kept within [0, 1], missing is 1, NaN is 0 |
| `Classifier.RawLabelIsTrimmed` | crates/local_ai/src/builtin/classifier.rs:92-105 | white space around the model's label does not count |
| `Classifier.VerdictIsSound` | crates/local_ai/src/builtin/classifier.rs:92-117 | a verdict names a known criterion and has a confidence in [0, 1] |
| `ClassifyPass.StepKeepsInv` | crates/email_core/src/sync_page.rs:487-610 | every step of every task keeps budget, progress, guard and saved matches consistent |
| `ClassifyPass.BudgetIsRespected` | crates/email_core/src/sync_page.rs:487-527 | in every interleaving: budget left plus bodies fetched is three, exactly min(3, ambiguous) are fetched, none on an initial sync, at most four tasks run |
| `ClassifyPass.AmbiguousMeansBetweenThresholds` | crates/email_core/src/sync_page.rs:507-527 | an email becomes ambiguous exactly on a Tier 1 confidence in [0.25, 0.5) of an incremental pass |
| `ClassifyPass.SavedMatchesAreSound` | crates/email_core/src/sync_page.rs:571-585 | every saved match has a confidence in [0.5, 1] and names the criterion the classifier chose; the guard drops no task |
| `ClassifyPass.TaskFollowsItsSteps` | crates/email_core/src/sync_page.rs:487-610 | in every interleaving each task stands where its own steps have brought it, with exactly the match they stored |
| `ClassifyPass.SavedIff` | crates/email_core/src/sync_page.rs:501-585 | criterion k with confidence c is stored for an email if and only if a reply to its task accepted them and the save after it took effect |
| `ClassifyPass.EveryEmailIsSettled` | crates/email_core/src/sync_page.rs:487-610 | when nothing is left to do, every email was asked about, every doubt whose body was fetched and found was asked about again, and every convincing reply was followed by a save |
| `ClassifyPass.FinishedPassStoresWhatWasAccepted` | crates/email_core/src/sync_page.rs:571-585 | when nothing is left to do and every save took effect, the stored matches are exactly the accepted ones |
| `ClassifyPass.ProgressIsGapless` | crates/email_core/src/sync_page.rs:602-610 | progress counts 0, 1, 2, ... and has reached the total when nothing is left to do |
| `ClassifyPass.SomeStepEnabled` | crates/email_core/src/sync_page.rs:487-610 | the pass is never stuck before all tasks completed |
| `ClassifyPass.PlacesAreUsed` | crates/email_core/src/sync_page.rs:487-610 | while emails wait, four tasks are in flight or another can start |
| `ClassifyPass.StartsInOrder` | crates/email_core/src/sync_page.rs:492-500 | emails are taken up in their order |
| `ClassifyPass.PassEnds` | crates/email_core/src/sync_page.rs:487-610 | a pass takes at most five steps per email |
| `Listener.DecisiveIff` | crates/oauth/src/authorization.rs:286-335 | a request decides exactly when it hits the redirect path with an error, or with a code that is not blank and a state; it forces that pair, or that refusal with its description |
| `Listener.FirstIsFirst` | crates/oauth/src/authorization.rs:286-335 | a parameter's value is that of its first occurrence |
| `Listener.JunkIsIgnored` | crates/oauth/src/authorization.rs:286-291 | a junk request, wherever it arrives, does not change the outcome |
| `Listener.ReceiveAuthorizationCode` | crates/oauth/src/authorization.rs:212-230 | returns at the first arrival that does not pass, with what it forces, and waits otherwise |
| `Listener.FirstDecisiveRequestWins` | crates/oauth/src/authorization.rs:212-230 | in every interleaving the result is that of the first decisive request handled before cancel; without one, cancelled or accept failed |
| `Listener.HandledInOrder` | crates/oauth/src/authorization.rs:212-236 | in every interleaving connections are handled in the order in which they arrived, none skipped and none made up |
| `Listener.NeverLeftBlocked` | crates/oauth/src/authorization.rs:38-44 | once the flow has ended, a listener in front of an empty backlog that has not seen the flag means a failed wake-up |
| `Listener.PingLeavesBlockedIff` | crates/oauth/src/authorization.rs:38-44 | the wake-up leaves the listener blocked if and only if it fails and finds it blocked |
| `Listener.LeftBlockedIff` | crates/oauth/src/authorization.rs:212-236 | after cancelling, no sequence of the listener's own steps returns if and only if the backlog is empty and it waits in `accept` or handles a junk request; the wake-up has then failed |
| `Listener.EveryRunLeftBlockedIff` | crates/oauth/src/authorization.rs:212-236 | the same after every interleaving from the start |
| `Listener.FailedWakeUpBlocks` | crates/oauth/src/authorization.rs:233-236 | a failed wake-up leaves an idle listener blocked; the next connection of any kind makes it return |
| `Listener.CancelledListenerStops` | crates/oauth/src/authorization.rs:217-224 | once the flag is set no request is handled and every listener step brings it closer to returning |
| `Listener.CancelledListenerCanStep` | crates/oauth/src/authorization.rs:233-236 | once cancelling has finished and woken it, an accept, check or handling step is enabled until it has returned; a failing accept does not count |
| `Listener.AtMostThreeMoreSteps` | crates/oauth/src/authorization.rs:212-236 | after the flag is set the listener takes at most three more steps |
| `PullModel.ReadLines` | crates/local_ai/src/ollama/service.rs:183-207 | the inner loop ends and takes every complete line off the buffer, stopping at the first error |
| `PullModel.Pull` | crates/local_ai/src/ollama/service.rs:176-215 | the events handed out and the result are those of feeding the chunks one by one |
| `PullModel.PiecesEqualWhole` | crates/local_ai/src/ollama/service.rs:179-207 | feeding a text in pieces has the same outcome as feeding it whole |
| `PullModel.ChunkingDoesNotMatter` | crates/local_ai/src/ollama/service.rs:176-215 | two ways of cutting the same text give the same events and the same result |
| `PullModel.PullDependsOnLinesOnly` | crates/local_ai/src/ollama/service.rs:176-215 | the events are those of the complete lines up to the first bad one, which decides the error; success needs a success line; an unterminated tail is ignored |
| `Mime.FindPartIsFirst` | crates/email_core/src/email_providers/gmail/parsing.rs:55-70 | the first part in pre-order that has the type and content, or none has |
| `Mime.ContentIsFound` | crates/email_core/src/email_providers/gmail/parsing.rs:55-70 | a part of the type is found when its content is inline or stored separately, and not without content |
| `Mime.CollectAttachments` | crates/email_core/src/email_providers/gmail/parsing.rs:81-110 | appends to each list exactly the files of its kind in the flattened tree, in pre-order |
| `Mime.EachFileHasItsPlace` | crates/email_core/src/email_providers/gmail/parsing.rs:86-104 | every named part with an attachment id stands in the list of its kind, after exactly the earlier ones, with its own id, name, type and size |
| `Mime.EntriesShowFiles` | crates/email_core/src/email_providers/gmail/parsing.rs:86-104 | every entry shows a part with a file name and stored content |
| `Mime.ContentIdIsTheHeader` | crates/email_core/src/email_providers/gmail/parsing.rs:86-104 | the content id is the value of the first header of that name in any case, without its angle brackets |
| `Mime.FilesAreSplit` | crates/email_core/src/email_providers/gmail/parsing.rs:86-104 | no file is in both lists and none is missing |
| `Linking.GroupingDoesNotMatter` | crates/email_core/src/linking.rs:159-160 | white space anywhere in an app password does not change what is stored |
| `Linking.WithoutSpacesKeepsTheOrder` | crates/email_core/src/linking.rs:159-160 | the stored password has every character that is not white space, once and in its order |
| `Linking.AddThenDelete` | crates/email_core/src/linking.rs:75-82 | rolling back a new account restores every table |
| `Linking.Register` | crates/email_core/src/linking.rs:55-84 | for every combination of failures: what is reported and what is left behind, both row and secret after success, neither after a roll-back that gets through, never a secret alone |
| `Linking.LinkAccount` | crates/email_core/src/linking.rs:25-84 | without a refresh token or profile nothing is written; otherwise exactly what registering the token does and reports |
| `Linking.LinkImapAccount` | crates/email_core/src/linking.rs:152-187 | a rejected login writes nothing; otherwise exactly what registering the very password the server accepted does and reports |
| `Linking.RotateRefreshToken` | crates/oauth/src/tokens.rs:113-158 | a rotated refresh token replaces a stored one; an account without a secret gets none; it fails exactly without a secret or when a new one is not confirmed |
| `Linking.Session` | crates/email_core/src/linking.rs:55-84 | over any links, unlinks, wipes and token rotations with any step failing, each request does what it should, and at every durable moment each secret has its account row |

## Left out

- Everything under `app/`: user interface, tray, updater, HTML sanitizing.
- HTTP, TLS, IMAP sockets, JSON decoding and SQL text; only the meaning of a query and the shape of a response.
- Access tokens: the token cache, refresh and its time-to-live. A 401 answer leads to one repetition of discovery with an arbitrary second result; a failure to obtain a token, or an unusable account, ends a pass before it changes anything.
- A token rotation that overlaps an unlink; rotations are requests of their own. Credentials and the token request.
- `sync_all` and its scheduling over accounts; each pass is proved for an arbitrary store.
- Gmail initial sync: its baseline is read after the listing (`crates/email_core/src/email_providers/gmail/mod.rs:231`), so no-loss is not claimed.
- Convergence of restorations for Outlook, which never reports any.
- IMAP across UIDVALIDITY epochs, where a new message may be saved over an old row with the same UID.
- Rows that a second epoch, the user or a purge deletes: `saved` in `ImapNoLoss` means saved at least once.
- A server that rejects `UID SEARCH UID 0:*`, which a wrapped lower end asks for; that ends discovery with an error.
- Settings, seeding of default criteria, display names, IMAP host and port columns, list queries, viewed-mark badges: simple reads and writes.
- The developer credentials in the vault; in `WipeAllData` they are one step that may fail. `VACUUM` and the checkpoint are not modelled.
- Progress reports of hydration and desktop notifications.
- Skipping classification when there is no model, no active criterion or no new mail; the pass starts where tasks start. Confidence is a real number or one of the special floating-point values.
- Prompt text and inference: the model's reply is arbitrary. JSON clean-up is part of the reply.
- The content of Tier 2 bodies and the second classifier's prompt; a fetched body is present or not.
- CSRF comparison, token exchange and browser launch; a failed join of the listener thread counts as giving up.
- Slow or stuck connections: reading a request line either succeeds or does not.
- UTF-8 decoding at chunk edges in `pull_model`; chunks are character sequences.
- MIME bodies: charset and Base64 decoding, HTML conversion, replacing `cid:` references. A missing list of children and an empty one are the same value, and are walked alike.
- ImapNoLoss.NoMessageIsLost: needs complete answers and one epoch, as listed under Premises; without complete answers see `EveryMessageIsAccountedFor`.
- HeldCursor.HeldCursorReplayIsSafe: speaks of rows up to identifier, `created_at` and `trashed_at`, so not of classifications, and leaves purges between the passes aside.
- BatchReplay.BatchEqualsReplay: needs every new message to hydrate, as a missing one is fetched in a later pass.
- GmailHistory.PagingDoesNotMatter: the deleted list comes from a hash set, so it is equal as a set and in length only; the two cursors agree when the two walks end with the same non-empty history id.
