# BirGap: verified model of the messenger core

BirGap is a messenger backend: NestJS services over Postgres tables (through Prisma), Redis keys and
job queues. Its services are state machines, and what they promise is about whole runs: numbers
without gaps, nothing sent twice, no session for a suspended user, no blob deleted under a live
message. This project models those state machines in Dafny and proves the promises for every run.

## How to read it

Each part has the same shape.

- A **state** (`World`, `Auth`, `Db`, `Store`): the tables, and where a property needs it the history
  of what was done. Tables are sequences (a row's id is its position) or maps.
- A **transition function** `Step`. In the larger parts it is split into `Decide`, the guards in the
  order of the source with their error replies, and `Apply`, the writes of one committed transaction.
  A transaction that fails leaves no trace. `RunFrom` runs a sequence of requests.
- **Laws**: lemmas about every run, or about every step under an invariant that every run keeps.
- **Calls**: for each call or job, exactly when it gives which answer, and what becomes of each row of
  each table. They are said about the tables, not through the functions that make up the step.
- A **class** per service with the tables as fields. Its methods have the branches and loops of the
  source, and are proved to do exactly what `Step` says and to answer what `Decide` says.

| file | part |
|---|---|
| `Otp.dfy` | login codes: cooldown, expiry, phone-wide lockout |
| `OtpCalls.dfy`, `SessionCalls.dfy`, `ModerationCalls.dfy`, `MessageCalls.dfy`, `MediaCalls.dfy`, `PrekeyCalls.dfy`, `ReactionCalls.dfy` | call by call: what it answers and what it does to every row |
| `OtpBound.dfy` | which configurations keep the guessing bound although codes are pruned |
| `Sessions.dfy` | refresh token families, reuse detection with a grace window, suspension |
| `Moderation.dfy`, `ModerationLaws.dfy`, `ModerationService.dfy` | roles, strikes, suspensions, tombstones, reports and the audit log, on top of `Sessions` |
| `RateLimit.dfy` | fixed-window limits on reports |
| `Text.dfy` | string order, the canonical pair of users, derived idempotency keys |
| `Messaging.dfy` | the transition system of sends, forwards, fan-outs, acks, counters |
| `MessageLaws.dfy` | sequence numbers, idempotency, replies |
| `EnvelopeLaws.dfy` | who receives an envelope, fan-out and edit fan-out |
| `UnreadLaws.dfy` | unread counters and their recalculation queue |
| `PendingSync.dfy` | cursor paging of undelivered envelopes |
| `MessagingService.dfy` | the services of the message core |
| `Media.dfy` | attachments, forwards that share blobs, reference-counted deletion |
| `Prekeys.dfy` | one-time and signed prekeys |
| `Reactions.dfy` | reactions and their cache |
| `Prelude.dfy` | `Option` |

`dafny verify dfyconfig.toml` checks everything.

## What is assumed

- A service call or a job is one atomic step, with one exception. A group send or group forward reads
  the last sequence number and inserts later, guarded by unique keys only; it is two steps, and the
  laws hold under every interleaving of those with each other and with everything else.
- Time is a parameter that does not go back. Random ids, tokens and storage keys are fresh: they come
  from a counter. A token stands for its hash.
- A job queue holds each job id at most once, and a job runs atomically.
- Envelope sequence numbers become visible in the order in which they are assigned.
- Rows that tie in an `orderBy createdAt` come in table order.

## Where the code differs from what one would expect

Each of these is modelled as the code has it. For each there is an exact law, in both directions, and
an input or a run at which the expectation fails.

- A DELIVERED ack overwrites READ (`src/messages/messages.service.ts:572-577`). A counter stays right
  all along a run if and only if no such ack makes a message unread again while nothing is queued
  (`UnreadLaws.CountersExactOrQueued`); `UnreadLaws.LateReceiptRun` is a run where one does.
- Deletes by senders write no audit row, and a group admin's delete writes one even for a message that
  is tombstoned already (`src/messages/messages.service.ts:846-912`). `ModerationLaws.LogRebuildsTombstones`
  is the law with these two terms in it. The plain law holds all along a run if and only if no such
  delete happens (`ModerationLaws.LogThroughoutIff`, `ModerationLaws.UnloggedDeleteRun`).
- Deletes do not close reports. No tombstoned message has an unresolved report all along a run if and
  only if no delete hits a message with one (`ModerationLaws.CleanThroughoutIff`,
  `ModerationLaws.StrandedReportRun`).
- The prune job removes expired and redeemed login codes together with their failed attempts
  (`src/common/tasks/prune.processor.ts:50-57`), although the lockout counts those for longer. What it
  forgets appears as a term in the law and in the bound on guesses (`Otps.AttemptsCoverWrongs`,
  `Otps.GuessingIsBounded`). `OtpBounds.BoundHoldsIff` says for which configurations the bound holds
  without that term: hardly any, and not for the default one.
- A message deleted for everyone can be restored by an administrator after its blobs were handed to
  deletion. No live message ever points at a given deleted blob if and only if no such restore brings
  back a message with it
  (`Media.SafeThroughoutIffHarmless`, `Media.RestoreCanLoseABlob`).
- A tombstoned message counts as a reference (`src/messages/media.service.ts:254-256`), and media rows
  of deleted messages stay. So a blob can ever be reclaimed if and only if no other message carries it
  (`Media.ReclaimableIffUnshared`), and a blob that was forwarded before it was handed over is never
  reclaimed (`Media.ForwardedBlobStays`).
- The admin bootstrap may promote a suspended user. Someone is a suspended admin exactly when that
  happened and neither the suspension nor the role has ended since
  (`ModerationLaws.SuspendedIsAdminIffBootstrapped`, `ModerationLaws.SuspendedAdminRun`).
- `refresh` does not look at expiry before it rotates an unrevoked token
  (`src/auth/auth.service.ts:54-57`): an expired token rotates exactly when it was never revoked and its
  owner is not suspended (`Sessions.ExpiredTokenRotatesIff`, `Sessions.ExpiredTokenRotates`).
- Reuse detection is not final: the tokens it revokes can be replayed within the grace window
  (`Sessions.ReuseDetectionIsNotFinal`, `Sessions.ReuseDetectionRun`). `Sessions.FamilyIsOverIff` says when a family is over.

## Model

| member | source | states |
|---|---|---|
| Otps.UnusedCodesAreSpaced | src/auth/otp.service.ts:52-71 | In every run two UNUSED codes of one phone were created more than the cooldown apart. |
| Otps.UsableCodesAreFew | src/auth/otp.service.ts:52-83 | At any instant after any run at most ceil(ttl / cooldown) codes of a phone are unused and unexpired. |
| Otps.RedemptionsNeverExceedCreations | src/auth/otp.service.ts:131-172 | Successful verifications plus codes still unused never exceed codes created, prunes included. |
| Otps.LockoutHolds | src/auth/otp.service.ts:111-128 | In every run the failed attempts on a phone's codes created within the lockout window never exceed the maximum, now and at every later instant. |
| Otps.PruneForgetsNothingIff | src/common/tasks/prune.processor.ts:50-57 | A prune keeps a phone's attempt count if and only if each row of the phone that it removes is outside the window or has no failed attempt. |
| Otps.AttemptsCoverWrongs | src/auth/otp.service.ts:147-154 | In every run the wrong codes on record against codes created after any instant are those the attempt counters still show plus those that prunes forgot. |
| Otps.NothingForgottenIff | src/common/tasks/prune.processor.ts:50-57 | A run forgets nothing about a phone if and only if each of its prunes does. |
| Otps.GuessingIsBounded | src/auth/otp.service.ts:115-167 | In every run, however many new codes are requested, no interval of length at most lockout minus ttl has more evaluated wrong codes for a phone than maxAttempts plus what prunes forgot about it. |
| OtpBounds.BoundHoldsIff | src/common/tasks/prune.processor.ts:50-57 | The bound holds without that term in all runs, prunes included, if and only if no code can be guessed at, or lockout is shorter than ttl, or there is one attempt and lockout is less than ttl + 2 ms. |
| OtpBounds.PruneForgetsAttempts | src/auth/otp.service.ts:115-128 | For every other configuration, a run with maxAttempts + 1 wrong codes within lockout minus ttl. |
| OtpCalls.VerifyAnswers | src/auth/otp.service.ts:107-175 | Exactly when a verification gives which answer; it succeeds if and only if the phone is not locked out, has a newest UNUSED row, that is unexpired, and the code equals its code after filling both up with zeros. |
| OtpCalls.SixDigitCodes | src/auth/otp.service.ts:147-150 | For codes of six ASCII characters that is equality, and the comparison never throws; so every other code on trial is a wrong one. |
| OtpCalls.VerifyChanges | src/auth/otp.service.ts:150-172 | A wrong code costs the row on trial one attempt, the right one uses it up, and no other row or field changes. |
| OtpCalls.RequestAnswers | src/auth/otp.service.ts:42-70 | A request is refused without a link, put off exactly while the newest UNUSED code is within the cooldown, and otherwise a code goes out. |
| OtpCalls.RequestChanges | src/auth/otp.service.ts:72-83 | A sent code is exactly one new UNUSED row without attempts that lives for the ttl. |
| OtpCalls.PruneChanges | src/common/tasks/prune.processor.ts:50-57 | A prune keeps exactly the UNUSED unexpired rows, in their order. |
| Otps.OtpService.FindNewest | src/auth/otp.service.ts:131-137 | The query finds the newest UNUSED row of the phone. |
| Otps.OtpService.SumAttempts | src/auth/otp.service.ts:118-125 | The loop computes the aggregate the lockout is about. |
| Otps.OtpService.RequestOtp | src/auth/otp.service.ts:23-105 | Reply and new table of a request: cooldown reply, or a fresh row. |
| Otps.OtpService.VerifyOtp | src/auth/otp.service.ts:107-175 | The method answers and writes as `OtpCalls.VerifyAnswers` and `OtpCalls.VerifyChanges` say of the step. |
| Otps.OtpService.PruneRows | src/common/tasks/prune.processor.ts:50-57 | The prune keeps exactly the rows that are unexpired and unused. |
| Sessions.SuspendedHasNoLiveToken | src/moderation/services/moderation.service.ts:204-207 | While a suspension is unrevoked and unexpired its user has no unrevoked refresh token, after every run and at every later instant. |
| Sessions.FamilyHasOneOwner | src/auth/auth.service.ts:83-112 | All tokens of a family belong to one user, in every run. |
| Sessions.RevocationIsWriteOnce | src/auth/auth.service.ts:54-57 | Over any run a token keeps owner and family, and its revocation time once it has one; a removed token never comes back. |
| Sessions.RefreshIssuesIff | src/auth/auth.service.ts:51-112 | A refresh issues exactly for a token that is live, or unexpired and revoked within the grace window, and whose owner is not suspended; the new token joins its family. |
| Sessions.ExpiredTokenRotatesIff | src/auth/auth.service.ts:54-57 | An expired token rotates if and only if it was never revoked and its owner is not suspended. |
| Sessions.ExpiredTokenRotates | src/auth/auth.service.ts:54-57 | A run in which an expired token rotates. |
| Sessions.FamilyIssuesIff | src/auth/auth.service.ts:51-112 | Some refresh issues into a family now if and only if one of its tokens is open and its owner not suspended. |
| Sessions.DeadFamilyStaysDead | src/auth/auth.service.ts:79-95 | Once every token of a family was revoked and has expired or is past the grace window, no run of logins, refreshes, logouts, suspensions and prunes puts a live token in it. |
| Sessions.FamilyIsOverIff | src/auth/auth.service.ts:79-95 | That condition is exact: otherwise some later run issues a new live token into the family. |
| Sessions.ReuseDetectionIsNotFinal | src/auth/auth.service.ts:82-95 | After reuse is detected, a token that the detection just revoked still issues a live one. |
| Sessions.ReuseDetectionRun | src/auth/auth.service.ts:82-95 | A run from the start in which the detection revokes the other token and that one then still issues. |
| Sessions.LiveTokensBoundedByReplays | src/auth/auth.service.ts:70-91 | In every run a family has at most one live token more than it had grace replays. |
| Sessions.RunKeepsInv | src/auth/auth.service.ts:141-160 | The session invariant holds in every run: fresh names, one owner, no live token while suspended. |
| Sessions.AuthService.IsSuspended | src/auth/auth.service.ts:141-152 | The query tells whether a suspension of the user is in force. |
| Sessions.AuthService.RevokeAll | src/auth/auth.service.ts:195-207 | The update revokes exactly the unrevoked tokens it selects and no other. |
| Sessions.AuthService.LoginUser | src/auth/auth.service.ts:37-49 | A login of a suspended user fails; otherwise it issues a token in a new family. |
| Sessions.AuthService.RefreshToken | src/auth/auth.service.ts:51-112 | The method answers and writes as `SessionCalls.RefreshAnswers`, `IssuedMeans` and `RefusedMeans` say. |
| Sessions.AuthService.LogoutUser | src/auth/auth.service.ts:114-130 | A logout revokes the caller's own token and nothing else. |
| Sessions.AuthService.PruneTokens | src/common/tasks/prune.processor.ts:32-39 | The prune removes exactly revoked and expired tokens. |
| SessionCalls.LoginMeans | src/auth/auth.service.ts:37-49 | A login fails exactly for a suspended user, and otherwise adds one live token in a family of its own. |
| SessionCalls.RefreshAnswers | src/auth/auth.service.ts:51-112 | Exactly when a refresh gives which answer. |
| SessionCalls.IssuedMeans | src/auth/auth.service.ts:82-111 | A refresh that issues revokes the presented token if it was live, adds one live token of the same user and family, and changes no other token. |
| SessionCalls.RefusedMeans | src/auth/auth.service.ts:93-97 | Reuse detection revokes exactly the live tokens of the family, now; a suspended owner's presented token is revoked; an invalid token changes nothing. |
| SessionCalls.ReuseLeavesNoneLive | src/auth/auth.service.ts:195-207 | After reuse is detected no token of the family is live. |
| SessionCalls.LogoutMeans | src/auth/auth.service.ts:114-130 | A logout revokes the named token if it is the caller's and live, and changes nothing else. |
| SessionCalls.ImposeMeans | src/moderation/services/moderation.service.ts:185-207 | A suspension adds exactly its row, with its end date, and revokes exactly the user's live tokens. |
| SessionCalls.ImposedUntil | src/auth/auth.service.ts:141-152 | With no other suspension in force it blocks the user at a later instant if and only if it has no end date or ends after that. |
| SessionCalls.LiftMeans | src/moderation/services/moderation.service.ts:355-363 | Lifting ends one suspension and touches no token. |
| SessionCalls.PruneMeans | src/common/tasks/prune.processor.ts:32-39 | Exactly the revoked and the expired tokens go. |
| Moderation.ActiveSuspension | src/moderation/services/moderation.service.ts:346-352 | The query returns an unrevoked suspension of the user, and none only if there is none. |
| ModerationLaws.LogRebuildsUsers | src/moderation/services/moderation.service.ts:184-281 | In every run status, strikes and role of every user follow from the audit log alone. |
| ModerationLaws.LogRebuildsTombstones | src/messages/messages.service.ts:887-912 | In every run, deletes included, tombstone rows minus untombstone rows equal the tombstone flag, less unlogged sender deletes, plus redundant admin deletes. |
| ModerationLaws.StepKeepsLogIff | src/messages/messages.service.ts:887-912 | A step keeps tombstone rows equal to the tombstone flag if and only if it is no sender's delete of a live message and no admin's delete of a tombstoned one. |
| ModerationLaws.LogThroughoutIff | src/messages/messages.service.ts:887-912 | The same for whole runs. |
| ModerationLaws.UnloggedDeleteRun | src/messages/messages.service.ts:887-912 | A run in which a delete leaves the log behind. |
| ModerationLaws.TombstonedIffLogSaysSo | src/moderation/services/moderation.service.ts:69-152 | Without deletes a message is tombstoned exactly when its tombstone rows outnumber its untombstone rows by one, and they never do by more. |
| ModerationLaws.CascadeCountsOnce | src/moderation/services/moderation.service.ts:209-246 | The cascade of a suspension logs each live message of the user exactly once and no other message. |
| ModerationLaws.CascadeSparesUsers | src/moderation/services/moderation.service.ts:209-246 | The rows of the cascade change nobody's status, strikes or role as read from the log. |
| ModerationLaws.SuspendedIffOneSuspension | src/moderation/services/moderation.service.ts:157-207 | In every run a user is SUSPENDED exactly when they have one unrevoked suspension, and otherwise has none. |
| ModerationLaws.StepOnSuspendedAdmin | src/moderation/services/moderation.service.ts:401-418 | Only the bootstrap of a suspended user makes a suspended admin, and only a lifted suspension or a demotion ends that. |
| ModerationLaws.SuspendedIsAdminIffBootstrapped | src/moderation/services/admin-bootstrap.service.ts:35-60 | After any run a user is a suspended admin if and only if the bootstrap met them suspended and nothing released them since. |
| ModerationLaws.SuspendedAdminRun | src/moderation/services/admin-bootstrap.service.ts:49-60 | A run, with a registered admin as suspending actor, that ends with a suspended admin. |
| ModerationLaws.SuspensionLocksSessions | src/moderation/services/moderation.service.ts:204-207 | The session invariant also holds in the whole system, whatever moderation and sessions do in between. |
| ModerationLaws.ReportsStayConsistent | src/moderation/services/reports.service.ts:57-105 | In every run a report has a resolution exactly when it is CLOSED, an unresolved report is on a tombstoned message exactly when that tombstone came from a delete, and nobody has two reports on one message. |
| ModerationLaws.StepKeepsCleanIff | src/messages/messages.service.ts:887-912 | A step leaves every tombstoned message without unresolved reports if and only if it is no delete of a message with one. |
| ModerationLaws.CleanThroughoutIff | src/messages/messages.service.ts:887-912 | The same for whole runs. |
| ModerationLaws.StrandedReportRun | src/messages/messages.service.ts:887-912 | A run in which a delete strands a report. |
| ModerationLaws.SuspensionMeans | src/moderation/services/moderation.service.ts:184-281 | A suspension adds its row with the given end date, and leaves one strike more, no live token, no live message, no unresolved report but those an earlier delete stranded, and the triggering report closed. |
| ModerationLaws.TombstoneMeans | src/moderation/services/moderation.service.ts:69-118 | A platform tombstone closes every report on the message, keeps earlier resolutions, and touches no other resolution. |
| ModerationLaws.NoOpenReportOnTombstone | src/moderation/services/moderation.service.ts:76-88 | Without deletes no tombstoned message has an OPEN or IN_REVIEW report. |
| ModerationLaws.DeleteLeavesReportOpen | src/messages/messages.service.ts:887-912 | A sender's delete leaves an unresolved report on a tombstoned message. |
| ModerationLaws.ClosedIsTerminal | src/moderation/services/reports.service.ts:178-232 | Over any run a closed report stays closed with the same resolution, and a pruned report never returns. |
| ModerationLaws.StepKeepsLawful | src/moderation/services/moderation.service.ts:157-438 | Every step keeps all of these laws together; it is what the service methods rely on. |
| ModerationCalls.RefusalChangesNothing | src/moderation/services/moderation.service.ts:157-183 | A call that is refused changes no table. |
| ModerationCalls.SuspendAnswers | src/moderation/services/moderation.service.ts:157-182 | Who may be suspended by whom until when, and the error for each failure. |
| ModerationCalls.SuspendChanges | src/moderation/services/moderation.service.ts:184-207 | Users, suspensions and tokens after a suspension, row by row. |
| ModerationCalls.SuspendCascades | src/moderation/services/moderation.service.ts:209-261 | Every message and report after it: closed exactly if unresolved and on a message it tombstoned, or the triggering one. |
| ModerationCalls.SuspendIsLogged | src/moderation/services/moderation.service.ts:234-277 | One row by the actor per message it tombstoned, in order, then the row of the suspension; earlier rows stay. |
| ModerationCalls.UnsuspendMeans | src/moderation/services/moderation.service.ts:331-380 | Answers, and exactly the newest unrevoked suspension is lifted, with its audit row. |
| ModerationCalls.ReactivateMeans | src/moderation/services/suspension-reactivation.service.ts:53-90 | Exactly an unrevoked suspension past its end date is lifted, without an actor. |
| ModerationCalls.ResetMeans | src/moderation/services/moderation.service.ts:294-329 | Answers, the one field that changes, and the audit row with the previous count. |
| ModerationCalls.ChangeRoleMeans | src/moderation/services/moderation.service.ts:401-445 | Answers, the new role, and a promotion or demotion row with both roles. |
| ModerationCalls.BootstrapMeans | src/moderation/services/admin-bootstrap.service.ts:35-60 | A user who is no admin becomes one, with a row without an actor; an admin is left alone. |
| ModerationCalls.TombstoneAnswers | src/moderation/services/moderation.service.ts:48-67 | Who may tombstone what, and the error for each failure. |
| ModerationCalls.TombstoneChanges | src/moderation/services/moderation.service.ts:69-118 | The message, every report and the audit log after a tombstone. |
| ModerationCalls.UntombstoneMeans | src/moderation/services/moderation.service.ts:120-155 | Answers, the flag and the audit row. |
| ModerationCalls.DeleteMeans | src/messages/messages.service.ts:846-912 | Answers, the flag, and an audit row exactly for a group admin. |
| ModerationCalls.FileMeans | src/moderation/services/reports.service.ts:31-105 | Answers, and the one report that is added unless the reporter has one on the message. |
| ModerationCalls.ReviewMeans | src/moderation/services/reports.service.ts:178-210 | Answers, reviewer, status and audit row of a review start. |
| ModerationCalls.DismissMeans | src/moderation/services/reports.service.ts:212-243 | Answers, reviewer, status, resolution and audit row of a dismissal. |
| ModerationCalls.PruneMeans | src/common/tasks/prune.processor.ts:31-83 | Exactly the reports before the cutoff and the dead tokens go. |
| ModerationServices.ModerationService.TombstoneMessage | src/moderation/services/moderation.service.ts:48-118 | A platform tombstone: guards, reply, message flag, closed reports, audit row. |
| ModerationServices.ModerationService.CascadeCloseReports | src/moderation/services/moderation.service.ts:447-471 | Every report on the message is closed; those closed before keep their resolution, the others get the actor as reviewer; all other reports are untouched but for the reviewer of the triggering one. |
| ModerationServices.ModerationService.UntombstoneMessage | src/moderation/services/moderation.service.ts:120-155 | Restoring a message: guards, reply, flag and audit row. |
| ModerationServices.ModerationService.DeleteMessage | src/messages/messages.service.ts:846-912 | Delete for everyone: who may, the flag, and the audit row for admins only. |
| ModerationServices.ModerationService.SuspendUser | src/moderation/services/moderation.service.ts:157-281 | Six guards in order; on success the suspension row with its end date, one strike more, no live token or message of the target, and no unresolved report on messages it tombstoned. |
| ModerationServices.ModerationService.TombstoneMessagesOf | src/moderation/services/moderation.service.ts:209-246 | The loop of the cascade tombstones exactly the live messages of the user and writes one row for each, in order. |
| ModerationServices.ModerationService.UnsuspendUser | src/moderation/services/moderation.service.ts:331-380 | Unsuspending succeeds exactly for an admin and a suspended user, and lifts the one suspension. |
| ModerationServices.ModerationService.HasActiveSuspension | src/moderation/services/moderation.service.ts:346-352 | A suspended user always has an active suspension, so the error for its absence cannot occur. |
| ModerationServices.ModerationService.ResetStrikes | src/moderation/services/moderation.service.ts:294-329 | Succeeds exactly for an admin and a user with strikes, and changes nothing else about users. |
| ModerationServices.ModerationService.ChangeUserRole | src/moderation/services/moderation.service.ts:401-445 | Succeeds exactly for an admin and a user who is not both suspended and to be promoted; it never leaves a suspended admin; the audit row has both roles. |
| ModerationServices.ModerationService.FileReport | src/moderation/services/reports.service.ts:31-105 | Guards in order; on success the reporter has a report on the message, and never two; filing again changes no report. |
| ModerationServices.ModerationService.MarkInReview | src/moderation/services/reports.service.ts:178-210 | OPEN goes to IN_REVIEW with an audit row, IN_REVIEW stays, CLOSED is refused. |
| ModerationServices.ModerationService.DismissReport | src/moderation/services/reports.service.ts:212-243 | An unresolved report is closed as DISMISSED with an audit row, a closed one refused. |
| ModerationServices.OverdueIdsListed | src/moderation/services/suspension-reactivation.service.ts:22-28 | The query lists exactly the unrevoked suspensions that have expired, each once. |
| ModerationServices.ModerationService.ReactivateExpired | src/moderation/services/suspension-reactivation.service.ts:21-51 | The batch lifts every overdue suspension but the failing ones, one transaction each, and returns their number. |
| ModerationServices.ModerationService.BootstrapAdmins | src/moderation/services/admin-bootstrap.service.ts:27-66 | After the loop every configured user is an admin; the three counters add up to the configured phones. |
| ModerationServices.ModerationService.PruneRows | src/common/tasks/prune.processor.ts:22-83 | The prune removes tokens and old reports and never an audit row. |
| RateLimits.AtMostLimitPerWindow | src/moderation/services/reports.service.ts:245-263 | For every run and every clock, of a subject's calls in one window exactly the first `limit` pass. |
| RateLimits.PassesIff | src/moderation/services/reports.service.ts:245-263 | A call passes if and only if fewer than `limit` calls of its subject came before it in its window. |
| RateLimits.AtMostTwiceLimitAnywhere | src/moderation/services/reports.service.ts:245-253 | Hence at most twice the limit pass in any interval as long as the window. |
| RateLimits.ShortLifetimeBreaksTheLimit | src/moderation/services/reports.service.ts:249-251 | With any key lifetime shorter than the window, a limit of one lets two calls through in one window. |
| RateLimits.FixedWindowLimiter.Check | src/moderation/services/reports.service.ts:245-253 | A call may go on if and only if fewer than `limit` calls of the subject came before it in the window; the calls that went on never exceed the limit in any window. |
| RateLimits.ReportLimits.Admit | src/moderation/services/reports.service.ts:80-94 | A plain user is admitted exactly when day and, with an IP, minute leave room; a call the day refuses is not counted against the IP. |
| Text.CanonicalPairIsUnordered | src/messages/thread.util.ts:1-6 | Two calls yield the same pair exactly when they are about the same two users in either order. |
| Text.DerivedKeyIsInjective | src/messages/messages.service.ts:226-229 | A derived key determines the request key and the target index, so two forwards, or two targets, never share a key. |
| Text.DecimalDenotes | src/messages/messages.service.ts:226-229 | The index is written in decimal digits without leading zeros. |
| Messaging.FindKey | src/messages/messages.service.ts:39-51 | The lookup returns a message with this device and key, and none only if there is none. |
| MessageLaws.NumbersAreGapless | src/groups/groups.service.ts:147-199 | Under every interleaving the messages of a conversation carry exactly 1..n: each number once and none else. |
| MessageLaws.FreeNumberIsNext | src/messages/messages.service.ts:470-487 | A number read earlier that is still free when the insert runs is exactly the next one. |
| MessageLaws.LastNumberIsCount | src/groups/groups.service.ts:160-166 | The last sequence number of a conversation is the number of its messages. |
| MessageLaws.OneThreadPerPair | src/messages/messages.service.ts:99-108 | In every run latestSequence of a thread is the size of its log, and two users share at most one thread. |
| MessageLaws.KeysAreUniqueRepliesAreFlat | src/messages/messages.service.ts:110-129 | In every run at most one message exists per device and key, and a reply targets an earlier message of its conversation that is no reply. |
| MessageLaws.LogIsAppendOnly | src/messages/messages.service.ts:135-157 | Over any run existing messages keep number, key, sender and reply target. |
| MessageLaws.RetryReturnsOriginal | src/messages/messages.service.ts:39-51 | Whatever ran in between, a direct send repeated with the same device and key returns the first message and changes nothing. |
| MessageLaws.SendCreates | src/messages/messages.service.ts:135-157 | A send that succeeds adds one message, under its own key, with the id it returns. |
| MessageLaws.ForwardReplayIsIdempotent | src/messages/messages.service.ts:294-304 | Whatever ran in between, replaying a target of a forward that succeeded once changes nothing. |
| MessageLaws.ForwardRecords | src/messages/messages.service.ts:226-263 | After a forward every target that reports success has its derived key in the log. |
| MessageLaws.SuccessfulForwardReplaysToNothing | src/messages/messages.service.ts:226-263 | A forward that succeeded for all targets can be replayed at any later time without effect. |
| MessageCalls.SendAnswers | src/messages/messages.service.ts:38-133 | Exactly when a direct send returns an old message, creates one, or gives which error. |
| MessageCalls.SendChanges | src/messages/messages.service.ts:99-160 | The message, its thread and the queued counter; every other row stays. |
| MessageCalls.SendEnvelopes | src/messages/messages.service.ts:144-153 | One PENDING envelope of version 1 per addressed device, with its ciphertext, addressed to the device's owner. |
| MessageCalls.BeginMeans | src/groups/groups.service.ts:126-187 | Only members may send; a used key returns its message; reply target and attachments are checked; the number read is one more than the greatest. |
| MessageCalls.CommitMeans | src/groups/groups.service.ts:189-199 | The draft is inserted exactly if its key and its number are free, and nothing else changes. |
| MessageCalls.ForwardMeans | src/messages/messages.service.ts:323-348 | A created target is one message marked as forwarded, without a reply target, to that user or group. |
| MessageCalls.ForwardEach | src/messages/messages.service.ts:226-263 | Target i is sent under the key `key:i` after the earlier ones, whether those succeeded or not, and answered at place i. |
| EnvelopeLaws.EnvelopesAreWellAddressed | src/groups/queue/group-fanout.processor.ts:40-68 | In every run each envelope's recipient owns its device, the sending device has none, and no message has two for one device. |
| EnvelopeLaws.DirectMessagesReachEveryDevice | src/messages/messages.service.ts:81-95 | In every run each direct message of the log was created by one request, and has an envelope for every device that was active for the recipient at that moment. |
| EnvelopeLaws.TargetsAreTheOtherMembersDevices | src/groups/queue/group-fanout.processor.ts:40-52 | A device is a target exactly when it is active, its owner is a member, and it is not the sending one. |
| EnvelopeLaws.SpreadRowsAreNew | src/groups/queue/group-fanout.processor.ts:59-68 | With duplicates skipped, rows are added only for targets without one, with rising sequence numbers. |
| EnvelopeLaws.FanoutIsRepeatable | src/groups/queue/group-fanout.processor.ts:51-68 | A fan-out changes no envelope, gives every target one, adds none elsewhere; a second run adds nothing. |
| EnvelopeLaws.RewriteInTwoParts | src/groups/queue/group-edit-fanout.processor.ts:58-71 | Updating two disjoint lists of devices one after the other is updating both at once. |
| EnvelopeLaws.RewriteInChunks | src/groups/queue/group-edit-fanout.processor.ts:53-71 | The loop over chunks of 100 has the effect and the count of one update, and bumps each matching version once. |
| MessageCalls.FanoutMeans | src/groups/queue/group-fanout.processor.ts:37-132 | Each added envelope is PENDING, of version 1, has the job's ciphertext and the device's owner; every target has one; the queued counters are those of the targets' owners but the sender. |
| MessageCalls.EditMeans | src/groups/queue/group-edit-fanout.processor.ts:32-71 | Exactly the message's envelopes at target devices get the ciphertext and the next version. |
| UnreadLaws.CountersExactOrQueued | src/unread/unread.service.ts:15-21 | All along a run a counter equals the distinct unread messages from others, or its recalculation is queued, if and only if no DELIVERED ack comes too late for it. |
| UnreadLaws.StepFreshIff | src/messages/messages.service.ts:561-622 | The same for a single step: nothing but such an ack breaks a counter. |
| UnreadLaws.DrainMakesExact | src/unread/queue/unread-recalc.processor.ts:22-47 | Working off the queued jobs in any order empties the queue and makes every counter exact. |
| UnreadLaws.LateReceiptBreaksCounterIff | src/messages/messages.service.ts:572-577 | A DELIVERED ack breaks a counter if and only if the envelope was READ, the message is from somebody else and not unread through another envelope, and no recalculation is queued. |
| UnreadLaws.LateReceiptRun | src/messages/messages.service.ts:572-577 | A run in which one does. |
| MessageCalls.AckMeans | src/messages/messages.service.ts:549-622 | Who may ack; READ marks exactly the user's envelopes of that message and queues one counter; DELIVERED changes exactly the status of the one envelope. |
| MessageCalls.MarkAllMeans | src/unread/unread.service.ts:30-50 | Exactly the user's envelopes in the conversation are READ and exactly its counter is zero. |
| MessageCalls.RecalcMeans | src/unread/queue/unread-recalc.processor.ts:22-45 | The job sets exactly its counter, to the number of messages from others with a PENDING or DELIVERED envelope of the user. |
| PendingSync.PagingMissesNothing | src/messages/messages.service.ts:513-547 | Paging to the end, with any requests between the pages, returns rising sequences and each envelope that stays unread exactly once. |
| PendingSync.CutsOfARun | docs/api-reference.md:810-826 | Every run, cut anywhere between page reads, is an instance of that theorem. |
| PendingSync.PageIsTheFrontOfTheBacklog | src/messages/messages.service.ts:516-525 | A page holds waiting rows only, and leaves only rows beyond its last one, and those only if it is full. |
| PendingSync.BacklogIsTheWaitingRows | src/messages/messages.service.ts:516-524 | The filtered list has exactly the waiting rows beyond the cursor, in ascending order. |
| PendingSync.SyncAll | docs/api-reference.md:816-826 | On a store at rest the client loop terminates; for an active device of the user the pages together are the whole filtered list, any other device is refused. |
| PendingSync.GetPending | src/messages/messages.service.ts:513-547 | Refused unless the device is an active one of the user; otherwise one page: filter, order, limit, and hasMore when the page is full. |
| MessagingServices.MessagingService.SendDirect | src/messages/messages.service.ts:38-200 | A direct send: eight guards in order, thread, number, message, envelopes and recalculation job. |
| MessagingServices.MessagingService.InsertDirect | src/messages/messages.service.ts:99-181 | The writes of a direct send, in place, with all other tables unchanged. |
| MessagingServices.MessagingService.BeginGroupSend | src/groups/groups.service.ts:126-166 | A group send up to the read of the last number. |
| MessagingServices.MessagingService.CommitGroupSend | src/groups/groups.service.ts:167-199 | The insert: refused when the key or the number is taken by then, otherwise one message. |
| MessagingServices.MessagingService.Forward | src/messages/messages.service.ts:203-266 | The loop over targets: derived keys, and a failing target does not stop the others. |
| MessagingServices.MessagingService.FanOut | src/groups/queue/group-fanout.processor.ts:37-135 | The job answers and writes as `MessageCalls.FanoutMeans` says of the step. |
| MessagingServices.MessagingService.EditFanOut | src/groups/queue/group-edit-fanout.processor.ts:32-71 | The edit job: new ciphertext and version for the targets' envelopes, and their number. |
| MessagingServices.MessagingService.AckMessage | src/messages/messages.service.ts:549-622 | The method answers and writes as `MessageCalls.AckMeans` says of the step. |
| MessagingServices.MessagingService.MarkThreadRead | src/unread/unread.service.ts:30-50 | All envelopes of the user in the conversation are READ and the counter is zero, together. |
| MessagingServices.MessagingService.CountUnread | src/unread/queue/unread-recalc.processor.ts:25-37 | The query counts each unread message from others once, however many envelopes it has. |
| MessagingServices.MessagingService.Recalculate | src/unread/queue/unread-recalc.processor.ts:22-47 | After the job the counter of its key is exact. |
| MessagingServices.MessagingService.Drain | src/unread/queue/unread-recalc.processor.ts:22-47 | Working off the queue leaves every counter exact and everything else as it was. |
| MessagingServices.MessagingService.Register | src/devices/devices.service.ts:22-64 | Re-registering an existing device skips the cap and reactivates exactly that row; another user's device is refused; a new device is added only below the cap. |
| MessageCalls.DevicesMean | src/devices/devices.service.ts:22-98 | Answers of registering and deactivating a device, and the one row that changes. |
| Media.StepKeeps | src/messages/media.service.ts:175-264 | Every step keeps the media table tidy, and keeps each deleted blob off live messages if and only if it restores no message with that blob. |
| Media.SafeThroughoutIffHarmless | src/moderation/services/moderation.service.ts:120-155 | The same for whole runs, blob by blob. |
| Media.DeletedBlobsAreUnreferenced | src/messages/media.service.ts:247-264 | In every run that restores no message with a blob once that was handed to deletion, the blob is referenced by tombstoned messages only. |
| Media.NoRestoresIsHarmless | src/moderation/services/moderation.service.ts:120-155 | Runs without untombstoning are such runs, for every blob. |
| Media.HandedStaysHanded | src/messages/messages.service.ts:209-216 | From then on, through any requests that restore no message with that blob, no live message and no unbound row comes to carry its key. |
| Media.RestoreIsSafeIffBlobsRemain | src/moderation/services/moderation.service.ts:120-155 | Restoring a message keeps a blob safe if and only if the message does not carry it or it was not handed over. |
| Media.RestoreCanLoseABlob | src/messages/messages.service.ts:948-954 | A concrete run in which a restored message points at a deleted blob. |
| Media.SharedBlobStays | src/messages/media.service.ts:254-256 | A blob carried by two messages is never handed to deletion, whatever runs, deletes of both included. |
| Media.ReclaimableIffUnshared | src/messages/media.service.ts:247-264 | Some run reclaims an attachment's blob if and only if no other message carries it, and then the delete of its message does. |
| Media.ForwardedBlobStays | src/messages/media.service.ts:218-245 | No run reclaims a blob that was forwarded before it was handed to deletion. |
| Media.RowBindsOnce | src/messages/messages.service.ts:155-160 | Over any run whatever a media row binds to at most one message, only when COMPLETE; a bound row stays and a removed row never returns. |
| Media.ForwardCarriesEveryBlob | src/messages/media.service.ts:218-245 | The new message of a forward carries exactly the blobs of its source, and no existing row changes. |
| Media.ReclaimKeeps | src/common/tasks/media-cleanup.processor.ts:26-75 | No row that stays carries a key that the reclaim job hands over, and the table's invariants hold. |
| MediaCalls.CompleteMeans | src/messages/media.service.ts:68-103 | Only the owner completes a PENDING upload whose object is there, and only that row changes. |
| MediaCalls.SendMeans | src/messages/media.service.ts:175-216 | Attachments pass exactly if few enough, distinct, existing, own, unbound and complete; then exactly these rows are bound to the new message. |
| MediaCalls.SendComplaints | src/messages/media.service.ts:180-213 | Which fault gives which error. |
| MediaCalls.ForwardMeans | src/messages/media.service.ts:218-245 | One complete row of the forwarding user per source row, with its key, and no existing row changes. |
| MediaCalls.DeleteMeans | src/messages/media.service.ts:247-264 | Exactly the message's keys that no row of another message carries are handed over. |
| MediaCalls.ReclaimMeans | src/common/tasks/media-cleanup.processor.ts:26-75 | Exactly the PENDING rows past the timeout whose object could be deleted go, and their keys are handed over. |
| Media.MediaService.AssertAttachmentsOwned | src/messages/media.service.ts:175-216 | The checks on attached rows: how many, distinct, existing, own, unbound, complete. |
| Media.MediaService.SendAttached | src/messages/messages.service.ts:131-160 | A send with attachments binds exactly the attached rows, and all or none. |
| Media.MediaService.ForwardMessage | src/messages/messages.service.ts:203-219 | A forward of a deleted message is refused; otherwise the source's media are cloned. |
| Media.MediaService.CloneMedia | src/messages/media.service.ts:218-245 | One COMPLETE row per source row with the same storage key, all old rows untouched. |
| Media.MediaService.CleanupMessageMedia | src/messages/media.service.ts:247-264 | The loop hands over exactly the keys that no other bound row carries. |
| Media.MediaService.Reclaim | src/common/tasks/media-cleanup.processor.ts:26-75 | The job removes exactly the stale rows whose object could be deleted, and counts them. |
| Prekeys.NeverHandedOutTwice | src/users/users.service.ts:43-72 | In every run no one-time prekey goes out twice, and those that went out are exactly those whose rows are consumed. |
| Prekeys.BundlesAreFair | src/users/users.service.ts:43-86 | After any run a fetch has one bundle per active device of the user, with that device's oldest unconsumed key, or none only if none is left. |
| Prekeys.StockNeverExceedsCap | src/prekeys/prekeys.service.ts:17-25 | In every run no device has more unconsumed keys than the maximum. |
| Prekeys.KeysAreConserved | src/prekeys/prekeys.service.ts:27-34 | In every run each key a device ever stored was handed out once or is in stock. |
| Prekeys.InsertCovers | src/prekeys/prekeys.service.ts:27-34 | After a refill every uploaded key id is in the table, duplicates inside the batch included. |
| Prekeys.OneSignedPrekeyIsActive | src/prekeys/prekeys.service.ts:59-84 | In every run a device has at most one active signed prekey. |
| Prekeys.RotatedKeyIsServed | src/prekeys/prekeys.service.ts:59-84 | After a rotation the device's bundles carry that key until the device rotates again, whatever else runs. |
| PrekeyCalls.RefillMeans | src/prekeys/prekeys.service.ts:14-37 | Who may refill and how much; old rows stay, and each key id that was not stored gets the public key uploaded first under it. |
| PrekeyCalls.RotateMeans | src/prekeys/prekeys.service.ts:59-84 | Every signed prekey after a rotation: the device's others inactive, the given one active with its key, other devices' untouched. |
| PrekeyCalls.FetchMeans | src/users/users.service.ts:43-72 | A fetch consumes exactly the first unconsumed row of each active device of the user. |
| PrekeyCalls.BundleMeans | src/users/users.service.ts:74-86 | Each bundle carries the device's active signed prekey and its next one-time key. |
| PrekeyCalls.HandedMeans | src/users/users.service.ts:63-72 | The recorded names are exactly those of the one-time keys in the response. |
| Prekeys.PrekeyService.CountStock | src/prekeys/prekeys.service.ts:18-20 | The count is the number of unconsumed keys of the device. |
| Prekeys.PrekeyService.RefillKeys | src/prekeys/prekeys.service.ts:14-37 | Refill: owner check, cap, insert with duplicates skipped, number inserted. |
| Prekeys.PrekeyService.RotateSignedPrekey | src/prekeys/prekeys.service.ts:59-84 | Rotation: owner check, old keys off, new or existing row on. |
| Prekeys.PrekeyService.ChooseKeys | src/users/users.service.ts:55-61 | The loop picks each active device's first unconsumed row and no other. |
| Prekeys.PrekeyService.GetDeviceKeyBundles | src/users/users.service.ts:14-88 | The bundles, and the rows consumed for them. |
| Reactions.CacheIsTransparent | src/reactions/reactions.service.ts:80-115 | In every run of toggles, removals, reads, evictions and passing time each reply is the one a service without a cache gives. |
| Reactions.ReadIsExact | src/reactions/reactions.service.ts:95-115 | After any run a read lists each emoji in use once, with the number of users who chose it; the counts add up to the users who reacted; the flag marks the reader's own emoji. |
| Reactions.ToggleMeaning | src/reactions/reactions.service.ts:27-44 | A toggle takes back the same emoji and otherwise sets the new one, a removal clears, and nobody else is affected. |
| Reactions.RunKeepsOnePerUser | src/reactions/reactions.service.ts:37-41 | In every run of the service with its cache a user has at most one reaction per message. |
| ReactionCalls.ToggleMeans | src/reactions/reactions.service.ts:24-52 | The answer, everybody's reaction afterwards, and exactly one cache entry gone. |
| ReactionCalls.RemoveMeans | src/reactions/reactions.service.ts:54-78 | The answer, everybody's reaction afterwards, and the cache entry gone only if there was a reaction. |
| ReactionCalls.ReadCaches | src/reactions/reactions.service.ts:186-199 | A read uses an entry younger than 300 seconds and otherwise stores one. |
| Reactions.ReactionsService.ToggleReaction | src/reactions/reactions.service.ts:24-52 | A toggle: reply, new table, and the message's cache entry gone. |
| Reactions.ReactionsService.RemoveReaction | src/reactions/reactions.service.ts:54-78 | A removal: reply, new table, and the cache touched only if something was removed. |
| Reactions.ReactionsService.GetAggregated | src/reactions/reactions.service.ts:80-115 | A read answers what the cache-free service answers, and caches what it counted. |
| Reactions.ReactionsService.CountReactions | src/reactions/reactions.service.ts:100-108 | The counting loop over an insertion-ordered map computes the tally of the message. |

## Left out

- Controllers, DTO validation, guards, exception filters, logging, metrics, health checks, backups, seed data and the admin CLI: plumbing without a hard property.
- Token, OTP and key randomness, hashing, JWT signing, storage presigning, push, Telegram: foreign calls; freshness is assumed.
- Socket.IO events, Redis presence sets and the cached list of group members: they carry notifications, not state that the laws are about.
- Group administration (create, add, remove, roles): membership is a table that requests may change at will, which covers every order of membership changes.
- Postgres isolation beyond the read and the insert of a group send: several services check outside their transaction, and two such calls racing are not modelled.
- `queueGroupMessage` looks the key up once more inside its transaction; in the two-step model the unique key at the commit plays that part, with an error where the program may return the old message.
- Failures to enqueue a job are ignored by the program and not modelled; the law on counters needs every job to reach the queue.
- Outcomes of lookups outside a part are parameters of its requests: access to a message, participants of a report, age of a deleted message, device cap, outcome of the attachment check within the message log.
- The three audit writes in `resetStrikes`, `unsuspendUser` and `changeUserRole` that do not join their transaction are modelled on the committed path.
- A concurrent read and toggle of reactions could cache an outdated tally for five minutes; calls are atomic here.
- `AuditLogService.list`, `sync` by `updatedAt`, message history and report lists: paging over random ids or timestamps, for which no order law holds.
- Edit idempotency: it depends on how the `not` filter treats null.
- Thumbnails: `initUpload` never sets a thumbnail key.
- OTP codes are compared as strings of Unicode characters; unpaired UTF-16 surrogates are not modelled.
- Daily metrics, socket tickets, SMS reports and the collusion counter: not part of the laws.
- MessageLaws.ForwardAll: starts after `forward` has checked the device and the source message; `Media.MediaService.ForwardMessage` models the check that the source is not deleted.
- PendingSync.SyncAll: models the client loop, whose pages come from one unchanging list; the moving store is `PagingMissesNothing`.
