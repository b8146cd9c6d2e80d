# Verified model of the study-materials backend

This project models the stateful core of the backend in Dafny and proves what its parts promise over all inputs and over
whole runs. Each module follows one component of the program. Code that updates state in place is a class whose methods
are proved equal to a step function; the properties are then proved about that step function and about every run of it.

| file | component |
|---|---|
| `SecurityStore.dfy` | the expiring key-value store (in-memory path) |
| `FixedWindows.dfy`, `RateLimiter.dfy`, `LoginLockout.dfy`, `AuthLimiter.dfy` | rate limiter, login lockout, the login endpoint, revocation of access tokens |
| `RefreshTokens.dfy` | refresh-token rotation (section 10.4 of RFC 6749) |
| `MaterialReview.dfy`, `MaterialEffects.dfy`, `MaterialRuns.dfy` | one material: edits, moderation, downloads; what each step asks for and changes; its log, counters, downloads and approved content over runs |
| `Storage.dfy`, `MaterialFiles.dfy` | storing uploads; attaching files with clean-up |
| `MaterialCache.dfy`, `MaterialWorld.dfy`, `MaterialServices.dfy` | cached lists; all materials with storage and caches; the services as methods |
| `LikeEscape.dfy`, `Text.dfy` | LIKE escaping, against a LIKE matcher (section 8.5 of ISO/IEC 9075-2) |
| `Decimal.dfy`, `Slug.dfy`, `Seed.dfy` | slugs, unique suffixes, the catalog seed |
| `TelegramLinks.dfy` | linking users to Telegram accounts |
| `Budget.dfy`, `EmailOutbox.dfy`, `TelegramOutbox.dfy` | the two outboxes |
| `BackupNames.dfy`, `BackupRetention.dfy`, `BackupRestore.dfy` | backup names; pruning the directory over runs; copies off site and restoring |
| `Wrappers.dfy`, `FiniteSets.dfy` | the option type, facts about set sizes |

Time is a `real`, or an `int` where only its order matters. A store call that reads the clock twice has two readings, the second
not before the first. Every service call is one atomic step: a transaction commits or leaves nothing. Random identifiers,
storage keys and token identifiers are parameters required to be unused. What other systems decide (the password check,
the mail server, the dump command, the signature check of a file, database failures) is a parameter that may take every
value. In whole runs of the materials, invalidating the caches after a commit is taken to work; what happens to attached
files when it does not is stated on its own (below).

## Where the code does less than one may expect

Each of these is proved with its exact condition.

- **Token revocation.** The time to live of a revocation record is rounded down to whole seconds, so a revoked token is
  accepted again shortly before it expires: revoked at 90.5 and expiring at 100, it is accepted at 99.5
  (`TokenRevocation.RevokedTokenAcceptedAgain`). The exact condition, for any time until which the decoder takes a token,
  is `TokenRevocation.RevocationCoversIff`; a decoder that compares whole seconds takes it one second past the expiry,
  which widens the gap, and gives the revocation of all tokens of a user one too: issued and revoked in second 90, a
  token with a lifetime of 900 seconds is refused at 990.4 and accepted at 990.6, before 991
  (`TokenRevocation.UserTokenAcceptedAgain`; the exact condition is `TokenRevocation.UserRevocationCovers`).
- **Login lockout.** The bound on failures per window holds exactly when the lock lasts at least as long as the window
  (`LoginLockout.LockoutBoundedIff`); `LoginLockout.OverrunExceeds` is the run that exceeds it otherwise.
- **Restore.** A restore first takes a backup of its own, which prunes both places. After any run of backups, from the
  directory it finds exactly the newest retention - 1, and from off site only backups that the directory still lists
  (`BackupRestore.RestoreAfterRuns`). When every backup completed, one can be restored exactly when the directory still
  holds it and fewer are newer than the larger of the two retentions less one (`BackupRestore.RestoreFindsIff`). So the
  oldest one of a full directory without copies off site is deleted by its own restore (`BackupRestore.OldestIsLost`),
  and a copy kept off site only is listed but never used, because the manifest is sent before it records the dump's key
  (`BackupRestore.OffsiteOnlyIsLost`). `BackupRestore.OldestLostByItsRestore` is an input for each.
- **Dumps without a manifest.** A backup that fails between its dump and its manifest leaves a dump that is never pruned;
  after any run these are the only dumps besides those listed (`BackupRetention.RunKeepsNewest`).
- **Attached files.** The caches are invalidated inside the `try` block and after the commit. If that raises, the
  clean-up deletes stored files whose rows are committed (`MaterialFiles.CommittedFileLost`); rows and files agree
  exactly when it does not raise, or nothing was uploaded, or not even the first deletion works
  (`MaterialFiles.CommittedRowsBackedIff`). A failed attempt whose clean-up works leaves the previews that it
  wrote, and nothing else (`MaterialFiles.FailedAttachLeavesPreviewsOnly`): the store is as it was exactly when an upload
  was refused, they were too large together, or the first document, if any, failed before its preview was written
  (`MaterialFiles.FailedAttachCleanIff`); `MaterialFiles.PreviewLeftBehind` is an attempt that leaves one.
- **Email outbox.** A retryable message is never picked up again exactly when it was queued with a maximum of zero or
  less (`EmailOutbox.StuckIff`, and `EmailOutbox.StuckFromTheStart` for such a message).

## Model

| member | source | states |
|---|---|---|
| `SecurityStore.SecurityKeyValueStore.Get` | app/core/security_controls.py:52-62 | answers and leaves the store as the lazy specification does; without a store it answers nothing |
| `SecurityStore.SecurityKeyValueStore.Set` | app/core/security_controls.py:64-74 | replaces the entry with a deadline of at least one second from now |
| `SecurityStore.SecurityKeyValueStore.Delete` | app/core/security_controls.py:76-87 | removes exactly the given keys |
| `SecurityStore.SecurityKeyValueStore.Increment` | app/core/security_controls.py:89-105 | the new count, from any text that reads as an integer; keeps the deadline of a live entry and fails on other text |
| `SecurityStore.SecurityKeyValueStore.Ttl` | app/core/security_controls.py:107-120 | the seconds left, at least one, of a live entry with a deadline |
| `SecurityStore.SecurityKeyValueStore.DeleteIfExpired` | app/core/security_controls.py:122-126 | drops the entry of one key if its deadline has come |
| `SecurityStore.StepsAgree` | app/core/security_controls.py:52-126 | stores that no reader can tell apart give equal answers and stay so under every operation |
| `SecurityStore.LazyRefinesEager` | app/core/security_controls.py:52-126 | every sequence of calls gets the answers of a store that drops each entry the moment it expires |
| `SecurityStore.TtlBounds` | app/core/security_controls.py:107-120 | with r seconds left the answer n is at least one, r < n + 1, and n <= r once r >= 1 |
| `SecurityStore.GetReads` | app/core/security_controls.py:52-62 | a reading answers the text of an entry whose deadline has not come, and nothing otherwise |
| `SecurityStore.ReadAfterWrite` | app/core/security_controls.py:64-87 | a written text is read for its time to live and at least a second, a deleted one not at all, every other one as before |
| `SecurityStore.ReadAfterRead` | app/core/security_controls.py:52-62 | reading and asking for the time to live change nothing that is read later |
| `SecurityStore.ReadAfterIncrement` | app/core/security_controls.py:89-105 | an increment answers one more than the number read, which is then read until the deadline that was there or for the time to live; what is no number stays |
| `FixedWindows.NumberIsRank` | app/core/security_controls.py:97-105 | the count a call gets is its position among the calls of its window |
| `FixedWindows.AnyInterval` | app/core/security_controls.py:145-166 | calls among the first `limit` of their windows number at most twice that in any interval of a window's length |
| `RateLimiter.IncrementCounts` | app/core/security_controls.py:89-105 | an increment continues a live window under its deadline or opens a new one with count one |
| `RateLimiter.ChecksAreWindowed` | app/core/security_controls.py:89-105 | in every run among other traffic the checks of a key fall into consecutive windows, and only numbers up to the limit are admitted |
| `RateLimiter.RateLimit` | app/core/security_controls.py:145-166 | each window admits exactly its first `limit` checks; any half-open interval of a window's length admits at most twice the limit |
| `RateLimiter.RetryAfterSuffices` | app/core/security_controls.py:157-166 | one second past the advice given with a refusal the next check is number one of a new window |
| `LoginLockout.KeysDiffer` | app/core/security_controls.py:252-256 | failure counter, lock and rate counter never share a key |
| `LoginLockout.AttemptAnswers` | app/core/security_controls.py:168-202 | a lock that is read refuses; otherwise a right password succeeds, and a wrong one locks if and only if the count has reached the limit |
| `LoginLockout.SuccessForgets` | app/core/security_controls.py:198-202 | after a success neither the failures nor the lock are there, and every other key reads as before |
| `LoginLockout.LockWaitSuffices` | app/core/security_controls.py:168-180 | one second past the wait told to a locked-out user the lock is over |
| `LoginLockout.FailuresAreWindowed` | app/core/security_controls.py:168-202 | with a lock as long as the window, failed checks between two successes fall into consecutive windows of at most the limit |
| `LoginLockout.LockoutBounds` | app/core/security_controls.py:168-202 | with a lock as long as the window: between two successes at most max(1, attempts) failed checks per window and twice that in any interval of that length |
| `LoginLockout.LockoutBoundedIff` | app/core/security_controls.py:182-196 | the bound per window holds in every run without a success if and only if the lock lasts at least as long as the window |
| `LoginLockout.OverrunExceeds` | app/core/security_controls.py:182-196 | with a shorter lock, the run that puts one failure more than the limit into one window |
| `LoginLockout.RateCheckIsTraffic` | app/modules/auth/api.py:50-58 | a rate check in front of a login changes nothing about the failures that are counted |
| `AuthLimiter.AuthRateLimiter.Check` | app/core/security_controls.py:145-166 | passes, refuses with a time to wait, or reports an unavailable store, exactly as the check specification says |
| `AuthLimiter.AuthRateLimiter.CheckLoginLockout` | app/core/security_controls.py:168-180 | a held lock refuses with a time to wait; otherwise only the reading of the key is left behind |
| `AuthLimiter.AuthRateLimiter.RecordLoginFailure` | app/core/security_controls.py:182-196 | counts the failure and locks at the limit; without a store every failure counts as the first |
| `AuthLimiter.AuthRateLimiter.RecordLoginSuccess` | app/core/security_controls.py:198-202 | forgets the failures and the lock |
| `AuthLimiter.AuthRateLimiter.Login` | app/modules/auth/api.py:43-58 | the order of rate check, lock, password and recording, and the store left in every case; the password is looked at exactly when neither check refused |
| `AuthLimiter.VisitsAreEvents` | app/modules/auth/api.py:43-58 | a run of logins has the failed checks of its attempts alone, its rate checks being traffic that leaves the lockout alone |
| `AuthLimiter.LoginsBounded` | app/modules/auth/api.py:43-58 | the lockout bounds for whole runs of logins, rate limit and lockout together |
| `AuthLimiter.LoginAnswers` | app/modules/auth/api.py:43-58 | the answer of a login: rate check first, then lock, then password, then whether the failure locked |
| `AuthLimiter.GrantedStartsAnew` | app/modules/auth/api.py:43-58 | after a granted login both keys are gone, the lockout bounds hold for the logins that follow, and the next failure is number one |
| `AuthLimiter.NoPasswordWhileLocked` | app/modules/auth/api.py:43-58 | in every run of logins, successes included: once a failed check has set the lock, no login that begins to read the lock before it ends gets its password looked at |
| `TokenRevocation.RevokedTokenRefused` | app/core/security_controls.py:275-287 | after any other traffic a revoked token is refused until its whole remaining seconds have passed, so at least until one second before expiry |
| `TokenRevocation.RevocationCoversIff` | app/core/security_controls.py:275-287 | a revoked token is refused up to a horizon of the decoder if and only if a whole second was left and the whole seconds, counted from the write, reach the horizon |
| `TokenRevocation.CoversExpiryIff` | app/core/security_controls.py:275-287 | for a decoder that refuses from the expiry on, the condition is that the dropped fraction had passed at the write |
| `TokenRevocation.RevokedTokenAcceptedAgain` | app/core/security_controls.py:275-287 | the input that shows it: revoked at 90.5, expiring at 100, refused at 99 and accepted at 99.5 |
| `TokenRevocation.UserTokensRefused` | app/core/security_controls.py:289-318 | after a revoke-all, and until its record ends, a token of the user is refused if and only if it was issued by the second of the call |
| `TokenRevocation.UserRevocationCovers` | app/core/security_controls.py:289-318 | a token issued by then is refused until it expires, and up to a later horizon if and only if the record lasts that long |
| `TokenRevocation.UserTokenAcceptedAgain` | app/core/security_controls.py:289-318 | the input that shows the gap for a decoder that compares whole seconds: issued in second 90 and revoked at 90.5, refused at 990.4 and accepted at 990.6 |
| `TokenRevocation.AccessTokenRevocationStore.RevokeClaims` | app/core/security_controls.py:275-287 | stores the revocation for the whole seconds left, and fails when the store is unavailable |
| `TokenRevocation.AccessTokenRevocationStore.RevokeAllForUser` | app/core/security_controls.py:289-297 | stores the time from which the user's tokens are good again |
| `TokenRevocation.AccessTokenRevocationStore.EnsureNotRevoked` | app/core/security_controls.py:299-318 | each answer exactly: refused for what one of the two records holds against the token, a bad record for one that is no number, accepted otherwise; changes nothing a reader could see |
| `RefreshTokens.RunKeepsInv` | app/modules/auth/service.py:144-190 | in every run: used if and only if succeeded by another session, used ones revoked, links to younger sessions of the same user |
| `RefreshTokens.LiveSessionsBounded` | app/modules/auth/service.py:311-350 | a user's live sessions never exceed the logins since the last revoke-all |
| `RefreshTokens.ChainsPartition` | app/modules/auth/service.py:144-173 | successor links form disjoint acyclic chains, one per login, and only the last session of a chain can be live |
| `RefreshTokens.SucceedsOnce` | app/modules/auth/service.py:144-173 | a refresh token succeeds at most once in any run |
| `RefreshTokens.SweptForever` | app/modules/auth/service.py:342-350 | after a revoke-all no refresh token issued to that user earlier ever succeeds again |
| `RefreshTokens.ReplaySweeps` | app/modules/auth/service.py:144-173 | replaying a used or revoked token of an active user revokes all sessions of exactly that user |
| `RefreshTokens.SweepsIff` | app/modules/auth/service.py:144-190 | who is swept: the user who asks for it, or the subject of a refresh token without a session or with a used, revoked or expired one |
| `RefreshTokens.LoginsCounted` | app/modules/auth/service.py:134-142 | logins are counted one by one per user, and anew after a sweep |
| `RefreshTokens.LoggedOutForever` | app/modules/auth/service.py:175-190 | a refresh token that was logged out with never succeeds again in any run |
| `RefreshTokens.RevokedForever` | app/modules/auth/service.py:292-304 | a session that its user revoked never succeeds again in any run |
| `RefreshTokens.RefreshAnswers` | app/modules/auth/service.py:144-173 | when each answer is given, and that the first four change nothing |
| `RefreshTokens.LiveUnlessEnded` | app/modules/auth/service.py:144-190 | a live session stays live in a run if and only if no event ends it: being presented by its active user, its logout or revocation, or a sweep of its user |
| `RefreshTokens.RefreshWorksIff` | app/modules/auth/service.py:144-173 | in any run an issued refresh token works if and only if its user is active, it has not expired and no event since has ended its session |
| `RefreshTokens.AuthService.Login` | app/modules/auth/service.py:134-142 | opens one session for a known and active user, and none otherwise |
| `RefreshTokens.AuthService.Refresh` | app/modules/auth/service.py:144-173 | rotates a live session, sweeps on replay or on a foreign token, and changes nothing otherwise |
| `RefreshTokens.AuthService.Logout` | app/modules/auth/service.py:175-190 | succeeds exactly without a refresh token or with a good one, whose session it revokes; nothing happens when the access token cannot be revoked |
| `RefreshTokens.AuthService.RevokeSession` | app/modules/auth/service.py:292-304 | revokes a session of the user's own |
| `RefreshTokens.AuthService.LogoutAll` | app/modules/auth/service.py:306-309 | revokes all sessions of the user |
| `RefreshTokens.AuthService.ResetPassword` | app/modules/auth/service.py:216-237 | with a good reset token, revokes all sessions of its user, unless the store of revoked access tokens is unavailable |
| `RefreshTokens.AuthService.GetRefreshSession` | app/modules/auth/service.py:328-340 | the row of exactly the token presented; otherwise its subject is swept |
| `RefreshTokens.AuthService.RevokeAllRefreshTokens` | app/modules/auth/service.py:342-350 | revokes the user's unrevoked sessions and no other |
| `RefreshTokens.AuthService.IssueTokenPair` | app/modules/auth/service.py:311-326 | adds one live session for the token issued |
| `MaterialReview.StepKeepsSound` | app/modules/materials/service.py:140-168 | every step keeps: the status is the reading of the review log, and an approved material has a file, an approver and no reason of rejection |
| `MaterialReview.DecisionsAnswerSubmissions` | app/modules/moderation/service.py:41-141 | in a log of the automaton every approval, rejection and withdrawal answers a submission with no decision or withdrawal between |
| `MaterialEffects.ChangedIff` | app/modules/materials/service.py:62-390 | a step goes through if and only if what it asks for holds (owner or scope, status, files, catalog), and changes nothing otherwise |
| `MaterialEffects.RefusedWith` | app/modules/materials/service.py:140-317 | which error an owner gets: for the material, for being another user, for what is asked about, for the state of review |
| `MaterialEffects.DecisionRefusedWith` | app/modules/moderation/service.py:41-141 | which error a moderator gets |
| `MaterialEffects.DownloadRefusedWith` | app/modules/materials/service.py:343-390 | which error a reader gets: for the material, for himself, for the file |
| `MaterialEffects.LogAfter` | app/modules/materials/service.py:532-539 | the actions that each step adds to the review log |
| `MaterialEffects.DeletedAfter` | app/modules/materials/service.py:182-186 | a material keeps its owner and slug, and is deleted by its owner or the clean-up only |
| `MaterialEffects.TagsAfter` | app/modules/materials/service.py:217-241 | a tag is there exactly if it was attached, or was there and has not been detached |
| `MaterialEffects.SubjectAfter` | app/modules/moderation/service.py:94-112 | the subject is that of an update or of a move, and otherwise the old one |
| `MaterialEffects.DetailsAfter` | app/modules/materials/service.py:170-317 | each field that a patch sets is the new value and each other one the old; choosing a file sets, gives up or leaves cover and primary |
| `MaterialEffects.FirstTakesOver` | app/modules/materials/service.py:243-271 | when the cover or the primary file is deleted, the file that then stands first replaces it |
| `MaterialEffects.FilesAfter` | app/modules/materials/service.py:243-286 | files are appended, taken out, renumbered or given a preview, and nothing else about them changes |
| `MaterialEffects.ReviewAfter` | app/modules/moderation/service.py:41-141 | a decision notes who decided, when and why, an approval takes the reason away, and no other step touches these |
| `MaterialEffects.DownloadsAfter` | app/modules/materials/service.py:343-390 | a download that goes through records its reader and counts him if he was not recorded |
| `MaterialEffects.DownloadsCountReaders` | app/modules/materials/service.py:343-390 | in every run of a draft the downloads are exactly the readers whose download went through, and the count is their number |
| `MaterialEffects.DraftIsEmpty` | app/modules/materials/service.py:44-60 | a new draft has what it was given and nothing else |
| `MaterialRuns.StepKeepsCounted` | app/modules/materials/service.py:77-131 | every step keeps the counters equal to the rows, the total size within the limit, and one download row per user |
| `MaterialRuns.ClampsNeverFire` | app/modules/materials/service.py:261-262 | deleting a file never takes a counter below zero |
| `MaterialRuns.ReorderFollowsIds` | app/modules/materials/service.py:273-284 | only permutations of the files are accepted, and each file then stands where it was put |
| `MaterialRuns.DeletionCloses` | app/modules/materials/service.py:252-255 | after a deletion the files are numbered from zero without gaps and in the order they had |
| `MaterialRuns.ApprovedSteps` | app/modules/materials/service.py:532-539 | a step leaves a material approved only if it is the approval or leaves its content alone; only a moderator may move its subject |
| `MaterialRuns.ApprovedAsSanctioned` | app/modules/materials/service.py:170-317 | in every run an approved material has exactly the content that the last approval saw |
| `MaterialRuns.EveryRun` | app/modules/materials/service.py:62-390 | log, counters, approver, reason and approved content, for every run of a new draft |
| `Storage.LocalStorageProvider.Save` | app/infrastructure/storage/service.py:75-123 | an accepted upload is stored whole with its size, the check seeing its first 4096 bytes; any other upload leaves no trace |
| `Storage.LocalStorageProvider.Delete` | app/infrastructure/storage/service.py:130-133 | removes one key; a missing one is fine |
| `Storage.LocalStorageProvider.DeleteMany` | app/infrastructure/storage/service.py:321-323 | stops at the first deletion that fails |
| `MaterialFiles.AttachIsSafe` | app/modules/materials/service.py:83-138 | whatever fails, everything stored before is still stored; committed rows carry their uploads' keys and orders and are backed unless the call raised |
| `MaterialFiles.AttachStores` | app/modules/materials/service.py:83-138 | an attempt goes through if and only if every upload is stored, every preview built, and commit and invalidation work; it then stores each upload whole and the previews, and nothing else |
| `MaterialFiles.SavedIff` | app/modules/materials/service.py:83-97 | all uploads are stored if and only if each is accepted and together they stay within the total size |
| `MaterialFiles.FailedAttachLeavesPreviewsOnly` | app/modules/materials/service.py:135-138 | a failed attempt whose clean-up works leaves what was stored before and exactly the previews it wrote |
| `MaterialFiles.FailedAttachCleanIff` | app/modules/materials/service.py:135-138 | such an attempt leaves the store as it was if and only if an upload was refused, they were too large together, or no preview was written |
| `MaterialFiles.PreviewLeftBehind` | app/modules/materials/service.py:135-138 | the input that shows it: one document saved and its preview built, a commit that fails, every deletion working, and the preview still stored |
| `MaterialFiles.CommittedRowsBackedIff` | app/modules/materials/service.py:132-138 | the rows committed keep their files if and only if invalidation works, nothing was uploaded, or no deletion of the clean-up works |
| `MaterialFiles.CommittedFileLost` | app/modules/materials/service.py:132-138 | the input that shows the loss: one upload, invalidation failing, one deletion working |
| `MaterialCache.SameAnswers` | app/modules/materials/service.py:443-487 | statistics and trending lists depend on status, downloads, deletion and time of review only |
| `MaterialCache.StatsCount` | app/modules/materials/service.py:464-487 | the statistics count each material once: in all, as approved or pending, and with its downloads |
| `MaterialCache.TopTenMeans` | app/modules/materials/service.py:443-462 | a trending list has approved, undeleted materials, all or ten of them, the latest reviewed first and then the most downloaded |
| `MaterialWorld.FiguresOrDropped` | app/modules/materials/service.py:619-622 | every operation that changes a figure behind the cached answers drops both of them |
| `MaterialWorld.CacheStaysRight` | app/modules/materials/service.py:443-487 | a cached answer stays the one that would be computed now, whatever is evicted |
| `MaterialWorld.SlugsStayApart` | app/modules/materials/service.py:44-60 | no two materials ever share a slug, deleted ones included |
| `MaterialWorld.NormalizedApart` | app/modules/materials/service.py:77-81 | new files get different positions: those asked for, or the next free numbers if those repeat |
| `MaterialWorld.AttachRefusedIff` | app/modules/materials/service.py:62-76 | files may be attached if and only if the material is one's own undeleted draft, each has a position and there are not too many |
| `MaterialWorld.CreateAdds` | app/modules/materials/service.py:44-60 | a draft is added for a known subject and nothing otherwise |
| `MaterialWorld.ActDoes` | app/modules/materials/service.py:140-390 | a step changes its own row where its conditions hold, and nothing at all otherwise |
| `MaterialWorld.RemoveDoes` | app/modules/materials/service.py:243-271 | a deleted file is taken out of its row, and exactly those of its stored keys go whose deletion works |
| `MaterialWorld.PreviewDoes` | app/modules/materials/service.py:392-422 | a preview is stored when its file has none, and noted if the commit works |
| `MaterialWorld.AttachDoes` | app/modules/materials/service.py:62-138 | uploads are tried where they may be attached, and their rows are added if and only if the attempt commits |
| `MaterialWorld.OthersDo` | app/modules/materials/service.py:503-517 | the clean-up deletes exactly the stale drafts, and reading fills a cache at most |
| `MaterialWorld.AttachKeepsStored` | app/modules/materials/service.py:83-138 | attaching keeps every file row backed and all keys apart |
| `MaterialWorld.RemoveKeepsStored` | app/modules/materials/service.py:243-271 | deleting a file keeps every other row backed, whichever deletions of stored files fail |
| `MaterialWorld.PreviewKeepsStored` | app/modules/materials/service.py:411-421 | building a preview later keeps every row backed |
| `MaterialWorld.StepKeepsInv` | app/modules/materials/service.py:44-541 | every operation keeps logs, counters, stored files, keys, slugs and caches in order |
| `MaterialWorld.EveryReachableWorld` | app/modules/materials/service.py:44-541 | all of that in every reachable state |
| `MaterialWorld.RowRanItsSteps` | app/modules/materials/service.py:519-539 | each row of a reachable state is its draft after its own steps |
| `MaterialWorld.ApprovedContentReviewed` | app/modules/moderation/service.py:41-63 | in every reachable state an approved material has the content and, up to moderators' moves, the subject its last approval saw |
| `MaterialServices.MaterialService.CreateDraft` | app/modules/materials/service.py:44-60 | adds an empty draft of a known subject, its slug the least free form of that of the title |
| `MaterialServices.MaterialService.AttachMaterialFiles` | app/modules/materials/service.py:62-138 | the whole attempt with its clean-up leaves rows, storage and caches as specified, whatever fails, and raises exactly when it was refused or something failed |
| `MaterialServices.MaterialService.SaveUploads` | app/modules/materials/service.py:83-96 | saves in order until an upload is refused or goes over the total size |
| `MaterialServices.MaterialService.BuildAllPreviews` | app/modules/materials/service.py:97-122 | a row per stored file, with a preview for documents, until one fails |
| `MaterialServices.MaterialService.SubmitForReview` | app/modules/materials/service.py:140-156 | a draft or rejected material with files goes to review, everything else is refused |
| `MaterialServices.MaterialService.WithdrawFromReview` | app/modules/materials/service.py:158-168 | only a pending material goes back to draft |
| `MaterialServices.MaterialService.OpenForEdit` | app/modules/materials/service.py:527-539 | no edit while pending; an approved material goes back to review with a log entry |
| `MaterialServices.MaterialService.UpdateMaterial` | app/modules/materials/service.py:170-180 | sets the fields that are set |
| `MaterialServices.MaterialService.DeleteMaterial` | app/modules/materials/service.py:182-186 | marks the material deleted |
| `MaterialServices.MaterialService.AddTag` | app/modules/materials/service.py:217-229 | adds a tag; one already there changes nothing and needs no new review |
| `MaterialServices.MaterialService.RemoveTag` | app/modules/materials/service.py:231-241 | removes a tag that is there |
| `MaterialServices.MaterialService.RemoveStoredFile` | app/modules/materials/service.py:243-271 | removes the row, closes the order, falls back for cover and primary, then deletes what can be deleted |
| `MaterialServices.MaterialService.BestEffortDelete` | app/modules/materials/service.py:624-629 | deletes every key whose deletion works, going on after failures |
| `MaterialServices.MaterialService.Reorder` | app/modules/materials/service.py:273-286 | gives each file the position of its id in the list |
| `MaterialServices.Renumber` | app/modules/materials/service.py:280-283 | the loop that assigns positions |
| `MaterialServices.MaterialService.UpdateFileSelection` | app/modules/materials/service.py:288-317 | sets or clears cover and primary |
| `MaterialServices.MaterialService.ReportMaterial` | app/modules/materials/service.py:319-341 | adds one log entry to an approved material |
| `MaterialServices.MaterialService.PrepareDownload` | app/modules/materials/service.py:343-390 | who may download what; the first download of a user is counted, later ones are not |
| `MaterialServices.MaterialService.CleanupStaleDrafts` | app/modules/materials/service.py:503-517 | marks the stale drafts deleted, counts exactly those, and invalidates the caches if there were any |
| `MaterialServices.MaterialService.ListTrendingMaterials` | app/modules/materials/service.py:443-462 | answers from a usable cached list, otherwise computes one; with right caches the answer is a valid top ten |
| `MaterialServices.Trending` | app/modules/materials/service.py:449-456 | ten approved undeleted materials, or all, in order, and none left out ahead of one listed |
| `MaterialServices.MaterialService.StatsSummary` | app/modules/materials/service.py:464-487 | with right caches the answer is the recomputed counts |
| `MaterialServices.Session.InvalidateMaterialCaches` | app/modules/materials/service.py:619-622 | drops both cached answers |
| `MaterialServices.ModerationService.ApproveMaterial` | app/modules/moderation/service.py:41-63 | approves a pending material with files and records who did |
| `MaterialServices.ModerationService.RejectMaterial` | app/modules/moderation/service.py:65-92 | rejects a pending material with a reason |
| `MaterialServices.ModerationService.RequestMaterialRevision` | app/modules/moderation/service.py:114-141 | sends a pending material back with a reason |
| `MaterialServices.ModerationService.MoveToSubject` | app/modules/moderation/service.py:94-112 | moves a material of any status, which keeps its status |
| `LikeEscape.EscapeIsPerCharacter` | app/modules/materials/repositories.py:15-16 | the three replacements together escape character by character |
| `LikeEscape.PatternMeansContains` | app/modules/materials/repositories.py:127-141 | the search pattern is well formed and matches exactly the texts that contain the user's text, up to the case fold |
| `LikeEscape.EscapeInjective` | app/modules/materials/repositories.py:15-16 | different texts have different escaped forms |
| `LikeEscape.ApplyTextFilter` | app/modules/materials/repositories.py:126-141 | keeps a row exactly when the text condition holds |
| `LikeEscape.FilterMeansContains` | app/modules/materials/repositories.py:126-141 | a row passes if and only if there is no query, it is blank, or it occurs without the space around it in a column that is not null |
| `Text.StrippedBetween` | app/modules/materials/repositories.py:126-141 | what is stripped is the space around a text and nothing else |
| `Slug.SlugifyIsJoinedWords` | app/utils/slug.py:5-8 | the lower-cased alphanumeric runs joined by single dashes, or "item" |
| `Slug.SlugCharacters` | app/utils/slug.py:5-8 | a slug has the characters a to z, 0 to 9 and dashes only; its letters and digits are those of the text in order, capitals made small, and it is "item" when there are none |
| `Slug.FixedIffSlug` | app/utils/slug.py:5-8 | a text is left alone if and only if it is a slug |
| `Slug.SlugifyIdempotent` | app/utils/slug.py:5-8 | normalising twice changes nothing |
| `Slug.SuffixedIsSlug` | app/bootstrap/seed_service.py:159-166 | a slug with a number appended is a slug |
| `Slug.ProbesBounded` | app/bootstrap/seed_service.py:159-166 | probes that were all taken are no more than the used slugs |
| `Slug.LeastFreeUnique` | app/bootstrap/seed_service.py:159-166 | the base, or the base with the least free number from two on, is one definite slug |
| `Slug.ProbeSlug` | app/bootstrap/seed_service.py:159-166 | the loop ends after at most one probe more than there are used slugs, with the least free form |
| `Slug.GenerateUniqueSlug` | app/modules/materials/service.py:550-557 | the least free form of the title's slug, itself a slug and not taken |
| `Seed.ExtractFacultyEntries` | app/bootstrap/seed_service.py:135-152 | the first entry of each clean name, in order |
| `Seed.DeduplicatedNames` | app/bootstrap/seed_service.py:135-152 | the names left are distinct, clean and not empty, and no clean name is lost |
| `Seed.DeduplicatedSnoc` | app/bootstrap/seed_service.py:135-152 | each further entry is taken, with its own subjects, unless its clean name is blank or was taken |
| `Seed.CleanBetween` | app/bootstrap/seed_service.py:155-156 | a name counts without the space around it, and a missing one is blank |
| `Seed.RawFacultiesFrom` | app/bootstrap/seed_service.py:135-152 | the plain list of names is used if and only if no unit is a faculty |
| `Seed.UnitsSnoc` | app/bootstrap/seed_service.py:135-152 | each further unit is taken, with its name and subjects, if and only if it is a faculty |
| `Seed.CleanNamesSnoc` | app/bootstrap/seed_service.py:106-118 | each further name is kept if and only if it is not blank |
| `Seed.SeedSubjects` | app/bootstrap/seed_service.py:106-118 | subjects keep the first name of each slug, in the order of those names, and no name's slug is lost |
| `Seed.SeedFaculties` | app/bootstrap/seed_service.py:93-118 | faculties in order with the least free slugs |
| `Seed.SeedUniversity` | app/bootstrap/seed_service.py:79-118 | one university with its faculties and the least free slug |
| `Seed.SeedCatalog` | app/bootstrap/seed_service.py:74-120 | the named universities in order, each with the least free slug so far |
| `Seed.SeededSlugsUnique` | app/bootstrap/seed_service.py:74-120 | slugs are unique among universities, among a university's faculties and among a faculty's subjects |
| `TelegramLinks.ConsumeRefines` | app/modules/telegram/service.py:324-398 | merging, deleting and reusing rows amounts to adding at most the one pair, refused when either side has another partner |
| `TelegramLinks.UnlinkRefines` | app/modules/telegram/service.py:94-125 | unlinking takes out exactly the pairs of the user or of the account |
| `TelegramLinks.EventRefines` | app/modules/telegram/service.py:52-137 | unlinking takes out exactly the pairs concerned, presenting a session that works does what the abstract machine does, and no other event links or unlinks |
| `TelegramLinks.RunKeepsInv` | app/modules/telegram/service.py:52-125 | in every run the links are a partial bijection, no two rows share a user or an account, and a user has at most one active session |
| `TelegramLinks.NeverFaults` | app/modules/telegram/service.py:400-435 | no lookup ever finds two rows |
| `TelegramLinks.ConsumedOnce` | app/modules/telegram/service.py:324-398 | a link session succeeds at most once in any run, by token or code |
| `TelegramLinks.CreatedSession` | app/modules/telegram/service.py:52-81 | a session is created unless its token or code is taken, is open until its time to live has passed, and closes the user's active ones |
| `TelegramLinks.SessionWorksIff` | app/modules/telegram/service.py:324-398 | in any run a session links its user as the abstract machine does if and only if it has not expired and nothing has closed it: a newer session, its own success, or being presented too late |
| `TelegramLinks.UnlinkAnswers` | app/modules/telegram/service.py:94-125 | unlinking finds a row if and only if the user or account is linked |
| `TelegramLinks.TelegramService.CreateLinkSession` | app/modules/telegram/service.py:52-81 | revokes the user's active sessions and adds one |
| `TelegramLinks.TelegramService.Unlink` | app/modules/telegram/service.py:94-103 | deactivates the user's active link |
| `TelegramLinks.TelegramService.UnlinkByTelegramUserId` | app/modules/telegram/service.py:105-125 | deactivates the account's active link |
| `TelegramLinks.TelegramService.ResolveLinkRecord` | app/modules/telegram/service.py:437-452 | the row to write to, after a second row has been deleted |
| `TelegramLinks.TelegramService.ConsumeLinkSession` | app/modules/telegram/service.py:324-398 | the checks in order and the row written |
| `TelegramLinks.TelegramService.Redeem` | app/modules/telegram/service.py:127-137 | the session of a token or code is consumed |
| `EmailOutbox.ProcessedRows` | app/modules/auth/email_outbox.py:48-81 | a batch applies each row's own delivery once and leaves all other rows alone |
| `EmailOutbox.RunKeepsInv` | app/modules/auth/email_outbox.py:83-117 | in every run attempts equal the deliveries tried, all failed but the last of a sent message, and tries are spaced by the backoff |
| `EmailOutbox.FinalAbsorbs` | app/modules/auth/email_outbox.py:48-117 | a sent or failed message never changes again |
| `EmailOutbox.SendDecides` | app/modules/auth/email_outbox.py:83-117 | what one delivery makes of a message: sent, failed with its last attempt, or to be tried again |
| `EmailOutbox.QueuedIsDue` | app/modules/auth/email_outbox.py:27-46 | a message is due from the moment it is queued, if it may be tried at all |
| `EmailOutbox.RetryIsDue` | app/modules/auth/email_outbox.py:107-117 | in every reachable state a message that failed so far is due if and only if the backoff has passed since the end of its last try |
| `EmailOutbox.DelayDoubles` | app/modules/auth/email_outbox.py:107-117 | the first backoff is the base and each later one twice the one before |
| `EmailOutbox.StuckIff` | app/modules/auth/email_outbox.py:56-63 | a retryable message is at its limit if and only if it was queued with none to make |
| `EmailOutbox.StuckFromTheStart` | app/modules/auth/email_outbox.py:27-46 | the input that shows it: a message queued with a maximum of zero is never due |
| `EmailOutbox.PermanentFailure` | app/modules/auth/email_outbox.py:83-117 | a failed message made exactly its maximum of failed tries, the last at least base * (2^(max-1) - 1) seconds after the first |
| `EmailOutbox.BatchSpends` | app/modules/auth/email_outbox.py:48-117 | a batch uses at least one remaining attempt per message |
| `EmailOutbox.DeliveriesBounded` | app/modules/auth/email_outbox.py:48-117 | deliveries made plus attempts left never exceed the attempts granted |
| `EmailOutbox.EmailOutboxService.Enqueue` | app/modules/auth/email_outbox.py:27-46 | adds one due message when mail is on |
| `EmailOutbox.EmailOutboxService.ProcessDue` | app/modules/auth/email_outbox.py:48-81 | processed = sent + retry + failed, each the number of batch rows left in that state |
| `EmailOutbox.EmailOutboxService.SendOne` | app/modules/auth/email_outbox.py:83-117 | one delivery and what it does to its row |
| `TelegramOutbox.BatchFacts` | app/modules/telegram/event_service.py:64-91 | a dispatched batch keeps the attempt bound and distinct identities, leaves dispatched rows alone and spends attempts |
| `TelegramOutbox.DispatchesIsAfterBatch` | app/modules/telegram/dispatcher.py:24-45 | a batch leaves one definite table: each of its rows delivered once, the others untouched |
| `TelegramOutbox.RunFacts` | app/modules/telegram/event_service.py:29-91 | in every run identities stay distinct, attempts within the maximum, dispatched rows unchanged, and deliveries within the attempts granted |
| `TelegramOutbox.DeliveryDecides` | app/modules/telegram/event_service.py:64-91 | a row of a batch is dispatched if and only if its delivery succeeded, and due again if and only if it failed and attempts are left |
| `TelegramOutbox.RowTellsDeliveries` | app/modules/telegram/event_service.py:64-91 | in every run a row's status, attempts, error and time are those of its deliveries: a dispatched row has exactly one success, its last |
| `TelegramOutbox.CreatedRow` | app/modules/telegram/event_service.py:29-62 | a new identity gets one row, due if attempts are granted, and a known one none |
| `TelegramOutbox.TelegramEventService.CreateEvent` | app/modules/telegram/event_service.py:29-62 | one row per event identity |
| `TelegramOutbox.TelegramEventService.MarkDispatched` | app/modules/telegram/event_service.py:78-84 | the row of a delivered event |
| `TelegramOutbox.TelegramEventService.MarkFailed` | app/modules/telegram/event_service.py:86-91 | the row of a failed delivery |
| `TelegramOutbox.TelegramEventService.DispatchEvents` | app/modules/telegram/dispatcher.py:24-45 | delivers each event of a batch once and answers how many went through |
| `BackupNames.EarlierIsChronological` | app/bootstrap/backup_service.py:195-200 | comparing date and time fields is comparing seconds |
| `BackupNames.StampOrder` | app/bootstrap/backup_service.py:195-200 | the earlier fixed-width stamp comes first in text order, whatever follows |
| `BackupNames.NamesSortByTime` | app/bootstrap/backup_service.py:195-200 | of one prefix and different seconds, names sort by text if and only if they sort by time |
| `BackupRestore.BackupService.PruneLocalBackups` | app/bootstrap/backup_service.py:251-268 | deletes and reports exactly the manifests past the retention and their dumps |
| `BackupRestore.BackupService.RunBackup` | app/bootstrap/backup_service.py:87-121 | what each way of failing leaves in the directory and off site |
| `BackupRestore.BackupService.UploadAndPruneOffsite` | app/bootstrap/backup_service.py:270-297 | the objects off site however far the upload and the pruning there get |
| `BackupRestore.BackupService.RestoreBackup` | app/bootstrap/backup_service.py:165-179 | its own backup first, which prunes both places, then the local dump, the one off site that the local manifest recorded, or an error |
| `BackupRetention.TakenSort` | app/bootstrap/backup_service.py:195-200 | backups with four-digit years in different seconds sort by time |
| `BackupRetention.RunsGoForward` | app/bootstrap/backup_service.py:195-200 | the names of runs in later and later seconds sort by time |
| `BackupRetention.RankIsAge` | app/bootstrap/backup_service.py:265-268 | the rank of a name among the names is the number of newer backups |
| `BackupRetention.PruneKeepsNewest` | app/bootstrap/backup_service.py:251-263 | pruning keeps exactly the newest backups, each with its dump, and touches no other dump |
| `BackupRetention.RunKeepsNewest` | app/bootstrap/backup_service.py:87-121 | for runs in later and later seconds of four-digit years under one prefix, whatever fails: the directory holds the newest of all backups made, and exactly those after a run that completes; its dumps are theirs and those of the runs that failed between dump and manifest |
| `BackupRetention.RestoreFindsLocalIff` | app/bootstrap/backup_service.py:165-179 | whatever backups of one prefix in different seconds a directory holds: one more backup, such as a restore's own, leaves the target's dump in place if and only if fewer than retention - 1 backups are newer |
| `BackupRestore.RunLeaves` | app/bootstrap/backup_service.py:87-121 | for the same runs with copies off site: off site are the dumps of the newest backups sent, with the manifests of those sent completely, and the local manifests that record a dump there are those of the completed runs |
| `BackupRestore.RestoreAfterRuns` | app/bootstrap/backup_service.py:165-179 | after any such run, where a restore finds its target: in the directory if and only if fewer than retention - 1 backups are newer; off site if and only if not there, still listed in the directory, sent completely, and fewer than retention - 1 backups sent off site are newer |
| `BackupRestore.RestoreAnswers` | app/bootstrap/backup_service.py:158-179 | an unknown target changes nothing; a known one is answered by the failure of the restore's own backup, or by where its dump still is |
| `BackupRestore.KeyedAfterRun` | app/bootstrap/backup_service.py:110-121 | a local manifest records a dump off site if and only if its run completed with copies off site |
| `BackupRestore.RestoreFindsIff` | app/bootstrap/backup_service.py:165-179 | when every run completed, a backup can be restored if and only if fewer are newer than the local retention and than the larger of the two retentions less one |
| `BackupRestore.OffsiteOnlyIsLost` | app/bootstrap/backup_service.py:390-416 | a backup past the local retention is listed, has its dump off site before and after, and cannot be restored |
| `BackupRestore.OldestIsLost` | app/bootstrap/backup_service.py:165-179 | without copies off site the oldest backup of a full directory is listed with its dump and cannot be restored |
| `BackupRestore.OldestLostByItsRestore` | app/bootstrap/backup_service.py:165-179 | the inputs that show both losses: two backups of one night and a restore of the older one |
| `BackupRestore.BackupService.PruneOffsiteBackups` | app/bootstrap/backup_service.py:325-350 | deletes and reports exactly the keys whose backup is past the retention |
| `BackupRestore.OffsiteKeepsNewest` | app/bootstrap/backup_service.py:325-357 | off site too, for backups of one prefix in different seconds and whatever the folder, exactly the newest are kept, each with all its keys |
| `Decimal.ParseWritten` | app/core/security_controls.py:103-104 | an integer written as text reads back as that integer |
| `Decimal.DigitsMeans` | app/core/security_controls.py:103-104 | exactly digits with single underscores between them are read, as the number they denote |
| `Decimal.ParseMeans` | app/core/security_controls.py:103-104 | space around and one sign before are allowed, and any other text is no number |

## Left out

- Redis, S3, SMTP, HTTP, `pg_dump` and `psql`, PDF slicing and ZIP inspection: other systems; only their success or failure and the effect of it are modelled.
- `SecurityKeyValueStore` with a Redis client and the constant key prefix that all keys of a deployment share: the in-memory path is modelled.
- `SpacesStorageProvider`: it uploads to S3 what `LocalStorageProvider` writes to disk; the chunk loop is the same.
- JWT encoding, Argon2, SHA-256 and HMAC: a token is a record of its claims (sections 4.1.4, 4.1.6 and 4.1.7 of RFC 7519), a hash stands for what it was computed from.
- `SecurityStore.SecurityKeyValueStore.Increment`: digits and space outside ASCII, which the conversion of a text to an integer reads as well, count as no number.
- The ASCII fold at the start of `slugify`: the model starts from its result.
- Database interleavings below the transaction (row locks, skipped locked rows beyond the choice of a batch) and the deadlock or statement time-outs they may cause.
- The text of an email or Telegram message, deep links, headers and signatures of requests; an error raised while a link is built after a commit.
- Issuing and consuming password-reset and email-verification tokens: a reset is modelled from the moment its token is known to be good.
- Tag renaming and deletion by administrators, which change materials outside the review cycle, and the dashboard cache, which not every writer invalidates.
- Catalog edits, proposals, moderator scopes, comments, ratings, saved materials, notifications and preferences: one-branch facts; a moderator's scope is a parameter.
- `submitted_at`, `last_reviewed_by` of links, audit rows and notes of the review log: written but read by nothing modelled here.
- An explicit null for a required column in an update, or an identifier of a missing row for a foreign key: the database refuses the commit, and nothing changes.
- Who may see a preview (`prepare_preview`): only its effect, storing a preview and its key, is a step.
- A clean-up inside `LocalStorageProvider.save` that fails to unlink the file it was writing, and a failing seek back to the start of an upload.
- The rows of the tables are sequences and maps of values held in fields of the service objects; row objects that share identity with the session's identity map are not modelled.
- `BackupRestore.BackupService.RestoreBackup`: the checks of path, size, checksum and archive of the dump found, the restoring itself, objects off site that the service did not send, and settings that change between backups are not modelled.
- `MaterialServices.MaterialService.AttachMaterialFiles`: that an error is raised is exact; which error a failed attempt raises (a refused upload, a failed preview or commit) is not told apart.
- `MaterialServices.MaterialService.CleanupStaleDrafts`: which drafts are older than seven days is a parameter, and the page limit of ten thousand rows is not modelled.
