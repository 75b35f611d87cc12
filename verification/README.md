# ShaidaGo, verified

A Dafny model of the parts of ShaidaGo that promise the most: the database protocol written in PL/pgSQL
functions, triggers and deferred constraint triggers; the idempotent report submission with its client and its
transport; the service worker's page cache; and three contract tools. Each module models one source file or one
protocol. State that the source changes in place is a class whose methods are proved against functions on a
snapshot of that state, and the promises are lemmas about those functions, over every input, every run and every
interleaving. `dafny verify dfyconfig.toml` checks everything.

| module | what it models |
|---|---|
| `Evidence`, `EvidenceLaws`, `EvidenceUpdates` | sources, immutable versions, facts, updates, citations, chunks, deferred events, commit and rollback |
| `Publication`, `PublicationRuns`, `PublicationLaws` | drafts, `publish_public_update`, and runs that mix it with evidence and report steps |
| `Discovery`, `DiscoveryRuns`, `DiscoveryLaws` | discovered sources, `attach_discovered_source`, and runs that mix it with evidence steps |
| `EscalationRoutes` | what keeps, and does not keep, a route's source approved |
| `Reports`, `FollowUps`, `ReportLaws` | status history and its projection, the version trigger, answering follow-up questions |
| `Idempotency`, `IdempotencyLaws`, `ExactlyOnce`, `ExactlyOnceLaws` | idempotency records, their purge, and the wizard-network-server protocol |
| `Backoff`, `BackoffLaws` | reporter-handle backoff |
| `PageCache`, `CachePolicy`, `SavedPages`, each with its `Laws` | saving and trimming pages, the policy, answering navigations |
| `Transport`, `BoundedBody`, `Decimal`, `WireLaws` | the server-side API client, the bounded body reader |
| `Json`, `ExampleGenerator`, `ExampleLaws`, `ExampleConformance` | synthetic examples from schemas, and when they are valid |
| `ContractValidator`, `ContractLaws` | the controlled-vocabulary contract and its state machines |

The modules called laws say what the operations come to without naming the functions that specify them: when each
transaction goes through and what it writes, which request carries which key, what a reader is shown, as conditions
on the tables, the history of a run and the constants themselves.

## Assumptions

- Transactions are serial. Two concurrent transactions could each remove a different support of one claim.
- The time passed to a function never goes backwards where a property speaks of time.
- Application roles insert drafts as drafts and discovered sources as not reviewed, and do not forge the
  publication's audit entry (`Publication.Allowed`, `DiscoveryRuns.Allowed`).
- SHA-256 and HMAC do not collide; random keys and UUIDs are fresh.
- The service answers a mutation with success after it has committed it or replays an earlier success, and with
  anything else after it has rolled it back; what stands between client and service does not forge a readable answer
  (`Transport.Possible`).
- Claim, report and completion of a submission commit together, as the request handler does it. In
  `Idempotency`, a completion comes before its record expires; `LateCompletionSeesThePurge` shows why.
- Primary keys of reports and source versions are not updated.

## Where the code and what is said about it differ

- Backoff: a try during the wait is recorded as a failure too (handle_store.py line 91), so "nothing is ever locked
  permanently" fails: whoever keeps trying, with anything, keeps the owner out (`Backoff.SteadyTriesLockTheHandle`,
  `Backoff.PatientOwnerIsLockedOut`). For any mixture of right and wrong tries, none is accepted exactly when each
  right one comes before the delay built up by the tries before it is over (`Backoff.RefusedIffMatchesComeTooEarly`).
  From twelve failures on, that delay is 900 seconds after the previous try, right or wrong, while no two tries are
  more than an hour apart (`Backoff.RefusedIffNoMatchIsLate`); a pause that a wrong try ends does not help.
- The wizard compares files by size, modification time and type, the server by content. Two reports the wizard
  takes for the same one can conflict, exactly when the contents differ (`ExactlyOnce.ConflictIffContentsDiffer`); a
  lost answer and a swapped picture are enough (`ExactlyOnce.SwappedPictureConflicts`).
- A draft may await verification, a public update may not (0025 relaxed only facts). Publishing such a draft raises
  instead of refusing; `Publication.RowIsAllowed` and `Publication.Writable` give all such cases.
- The last follow-up answer is refused at commit unless its event is the newest by time and id
  (`FollowUps.ResumesIffItsEventIsNewest`).
- A route is said to be active only while its source is approved. Nothing checks it when a version goes back into
  review (`EscalationRoutes.RoutesOutliveTheirSource`, and such a state in `EscalationRoutes.UncitedSourceIsEnough`).
- Attaching may reuse a version with the same text, whatever its review state, although the audit entry always says
  pending. The entry is right exactly when the source had no such version or only pending ones
  (`Discovery.EntryIsTrueIffOnlyPendingWasThere`); `Discovery.ReviewedVersionIsCalledPending` has the failing inputs.
- A page that the network answers with 200 is shown exactly when saving it succeeds
  (`SavedPages.ShownIffSavingSucceeds`); `SavedPages.OfflinePageDespiteAnswer` is a run that ends on the offline page.
- A read is sent again only for a transient 503, and a long Retry-After is to prevent that. A wait of 1,000,000 seconds
  or more, or one given as a date, is not read and so is not respected (`Transport.WaitsAreReadUpToSixDigits`,
  `Transport.LongWaitsAreIgnored`, `Transport.OtherFormsAreIgnored`, and two inputs in `Transport.RetriedAtOnce`).
- The comment on `preflightBody` says that a non-numeric length is allowed; the code refuses it
  (`BoundedBody.OddLengthsAreRefused`).
- The example generator truncates a fractional minimum and drops required names that are not declared; the exact
  condition for a valid example is `ExampleConformance.Suits`, and without unions `ExampleConformance.Sound`.

## Model

| member | source | states |
|---|---|---|
| Evidence.Database.Review | services/platform/migrations/versions/0018_approved_source_chunks.py:22-49 | a version's content is fixed and its state moves only along the machine; the statement queues its deferred event when it names the state |
| Evidence.Database.RemoveClaim | services/platform/migrations/versions/0004_sources_facts_citations.py:187-209 | deleting a claim cascades to exactly its citations and queues one event when there were any |
| Evidence.Database.WriteCitation | services/platform/migrations/versions/0004_sources_facts_citations.py:125-140 | a citation is written if and only if its passage is what the version has at the offset and its references and unique key hold |
| Evidence.Database.Execute | services/platform/migrations/versions/0004_sources_facts_citations.py:315-359 | each statement gives exactly the state and the events of the specification, or undoes the transaction |
| Evidence.Database.Commit | services/platform/migrations/versions/0004_sources_facts_citations.py:339-359 | the deferred triggers run one by one on the final state; all pass and the tables are committed, or everything is undone; `EvidenceLaws.CommitsIffAllBacked` says when they pass |
| Evidence.Database.Run | services/platform/migrations/versions/0004_sources_facts_citations.py:339-359 | a whole transaction is all or nothing and leaves what the specification says |
| Evidence.LostSupportIsNoticed | services/platform/migrations/versions/0004_sources_facts_citations.py:212-269 | however a public claim lost its support within a transaction, one of the transaction's own events fails for it |
| Evidence.TransactionsKeepSupport | services/platform/migrations/versions/0004_sources_facts_citations.py:212-269 | from a supported state any transaction leads to a supported state, although triggers look only at rows they touched |
| Evidence.CommitIffSupported | services/platform/migrations/versions/0004_sources_facts_citations.py:212-269 | the local checks pass if and only if every public claim is supported in the final state |
| Evidence.EveryStateIsGood | services/platform/migrations/versions/0004_sources_facts_citations.py:96-268 | in every state of every run: row checks, references, unique labels, exact quotations, support; versions are never lost or altered |
| Evidence.PublicClaimsAreCited | services/platform/migrations/versions/0004_sources_facts_citations.py:271-298 | every row of the public fact and update views has a row in the matching public citation view |
| Evidence.QuotationsAreExact | services/platform/migrations/versions/0004_sources_facts_citations.py:125-140 | every citation is the exact slice of its version at its offset, in every state |
| Evidence.ChunkIsVisibleIff | services/platform/migrations/versions/0027_embedding_384.py:28-46 | a chunk is visible if and only if it is active and its document is approved; what is visible is an exact slice of a publicly cited version |
| Publication.RowIsAllowed | services/platform/migrations/versions/0004_sources_facts_citations.py:175-182 | a draft's public row passes its checks exactly unless it awaits verification or was last checked in the future |
| Publication.CopyIsAllowed | services/platform/migrations/versions/0017_public_updates.py:127-133 | each copied citation passes the passage trigger, the references and the unique key, whatever was copied before it |
| Publication.OneMoreCopy | services/platform/migrations/versions/0017_public_updates.py:127-133 | inserting one copy leads from any set of copies to that set with the new one |
| Publication.FirstTheUpdate | services/platform/migrations/versions/0017_public_updates.py:121-126 | the update row goes in if and only if its id is free and its row checks hold |
| Publication.PublicationDatabase.Decide | services/platform/migrations/versions/0017_public_updates.py:94-120 | the refusals, in their order; `PublicationLaws.RefusalsNameTheFirstFailure` says what each means |
| Publication.PublicationDatabase.CopyCitations | services/platform/migrations/versions/0017_public_updates.py:127-133 | the loop writes exactly the draft's citable citations, or stops at an id in use |
| Publication.PublicationDatabase.PublishUpdate | services/platform/migrations/versions/0017_public_updates.py:83-145 | refusals change nothing, raising undoes all, and otherwise one update, its copies, the mark and one audit entry are written |
| PublicationRuns.PublishIsAllOrNothing | services/platform/migrations/versions/0017_public_updates.py:83-145 | a publish on its own either leaves the database unchanged or commits exactly its writes; the deferred checks never refuse it |
| PublicationRuns.CitationsAreTheDrafts | services/platform/migrations/versions/0017_public_updates.py:127-133 | the new update's citations are one copy for each citable citation of the draft and no other |
| PublicationRuns.StepKeepsIntact | services/platform/migrations/versions/0017_public_updates.py:61-82 | drafts and draft citations keep their checks, references, exact passages and unique labels through every step |
| PublicationRuns.EveryStateIsGood | services/platform/migrations/versions/0017_public_updates.py:147-169 | every run keeps all invariants of drafts, updates, support and report history at once |
| PublicationRuns.PublishedOnceExactlyAsDrafted | services/platform/migrations/versions/0017_public_updates.py:57-58 | a draft is published exactly when its public row exists, the row says what the draft says, and there is exactly one audit entry for it |
| PublicationRuns.WithdrawnStaysUnpublished | services/platform/migrations/versions/0017_public_updates.py:155-159 | once withdrawn, a draft never changes and never gets a public row or a publication entry |
| PublicationRuns.PublishedMeansVerifiedSince | services/platform/migrations/versions/0017_public_updates.py:101-111 | a publish accepted at a report version means that the report was verified in every state since one that had that version |
| Discovery.DiscoveryDatabase.FindOrAddSource | services/platform/migrations/versions/0023_discovery_review.py:153-167 | the source with the URL is found, or added when its checks and id allow |
| Discovery.DiscoveryDatabase.AddVersionOnce | services/platform/migrations/versions/0023_discovery_review.py:168-173 | a pending version is added unless the source already holds that text |
| Discovery.DiscoveryDatabase.AttachDiscoveredSource | services/platform/migrations/versions/0023_discovery_review.py:134-186 | not found and not allowed change nothing, raising undoes all, and otherwise the state is exactly the specified one |
| Discovery.NewSourceIsAllowed | services/platform/migrations/versions/0004_sources_facts_citations.py:44-64 | of the checks on the new source only an empty title or domain can fail |
| Discovery.AttachIsInvisible | services/platform/migrations/versions/0023_discovery_review.py:98-115 | attaching changes no public view: facts, updates, citations, cited sources, chunks, discovery runs and their sources |
| Discovery.AttachAsStatements | services/platform/migrations/versions/0023_discovery_review.py:153-173 | to the evidence an attach is at most two ordinary statements, which queue no deferred event |
| Discovery.AttachedHoldsTheExcerpt | services/platform/migrations/versions/0023_discovery_review.py:153-177 | afterwards the named source has the URL and holds the excerpt word for word; any new version is pending and was needed |
| Discovery.AttachingAgainAddsNothing | services/platform/migrations/versions/0023_discovery_review.py:168-173 | attaching again when the source already holds the excerpt adds no evidence |
| Discovery.EntryIsTrueIffOnlyPendingWasThere | services/platform/migrations/versions/0023_discovery_review.py:168-183 | the audit entry's review state is right about the attached source if and only if only pending versions of the excerpt, or none, were there before |
| Discovery.ReviewedVersionIsCalledPending | services/platform/migrations/versions/0023_discovery_review.py:178-183 | for every other review state, an attach whose entry calls the reused version pending |
| Discovery.AttachKeepsGood | services/platform/migrations/versions/0023_discovery_review.py:134-186 | attaching keeps every invariant of the evidence, support included |
| DiscoveryRuns.StepKeepsSound | services/platform/migrations/versions/0023_discovery_review.py:47-69 | every evidence, worker and reviewer step keeps discovered sources checked and backed |
| DiscoveryRuns.EveryStateIsGood | services/platform/migrations/versions/0023_discovery_review.py:39-45 | in every state a source marked attached names a source that holds its excerpt, and public claims are supported |
| DiscoveryRuns.PendingIsReviewedFirst | services/platform/migrations/versions/0018_approved_source_chunks.py:38-45 | along the review machine every path from pending to a citable state enters review and later is approved out of it |
| DiscoveryRuns.AttachedVersionNeedsReview | services/platform/migrations/versions/0023_discovery_review.py:12-14 | a version created by an attach supports a claim in a later state only after both moves were made since |
| EscalationRoutes.RetiringAsksOnlyAboutClaims | services/platform/migrations/versions/0004_sources_facts_citations.py:241-269 | taking an approved version back into review commits if and only if no public claim needs it |
| EscalationRoutes.RoutesOutliveTheirSource | services/platform/migrations/versions/0005_escalation_routes.py:58-71 | an active route keeps a citable source exactly when a public claim still needs that source |
| EscalationRoutes.UncitedSourceIsEnough | services/platform/migrations/versions/0005_escalation_routes.py:58-71 | a state in which the active route's source goes back into review |
| Reports.ReportDatabase.ChangeReport | services/platform/migrations/versions/0014_reviewer_queue.py:23-35 | the version written is the trigger's, raised if and only if status or risk changes |
| Reports.ReportDatabase.SubmitAnswer | services/platform/migrations/versions/0013_follow_up_answers.py:67-118 | one answer, and on the last open one the event, the status and the audit entry; or no change; or an error; `ReportLaws.AnswerIsStoredIff` says which |
| Reports.ReportDatabase.NewestEvent | services/platform/migrations/versions/0010_private_reports.py:180-181 | the loop finds the newest event by time and id, if there is one |
| Reports.ReportDatabase.Commit | services/platform/migrations/versions/0010_private_reports.py:166-188 | commits if and only if every touched report's status is its newest event's |
| Reports.CommitIffProjected | services/platform/migrations/versions/0010_private_reports.py:166-188 | checking touched reports is the same as checking all of them |
| Reports.EveryStateIsProjected | services/platform/migrations/versions/0010_private_reports.py:166-199 | in every committed state every report's status is its newest event's, and every earlier event is still there, unchanged |
| Reports.CommittedReportsCannotBeDeleted | services/platform/migrations/versions/0010_private_reports.py:95-116 | deleting any committed report, anywhere in a transaction, undoes the whole transaction through the cascade |
| Reports.EqualVersionsMeanNothingMoved | services/platform/migrations/versions/0014_reviewer_queue.py:23-35 | no ABA: with the same version at two moments, status and risk were the same in every state between |
| FollowUps.MissesChangeNothing | services/platform/migrations/versions/0013_follow_up_answers.py:77-99 | repeated, withdrawn and unowned submissions change nothing at all |
| FollowUps.LastHitResumes | services/platform/migrations/versions/0013_follow_up_answers.py:100-111 | the last open answer adds exactly one legal event and raises the version by one |
| FollowUps.ResumesIffItsEventIsNewest | services/platform/migrations/versions/0010_private_reports.py:179-185 | that transaction commits if and only if its event is newer than every other of the report |
| FollowUps.NothingOpenNothingMoves | services/platform/migrations/versions/0013_follow_up_answers.py:97-111 | with no question open no run of submissions touches the report |
| FollowUps.OnlyTheAnsweredSetMatters | services/platform/migrations/versions/0013_follow_up_answers.py:67-118 | over any run the report's fate is a function of the set of open questions answered |
| FollowUps.OrderDoesNotMatter | services/platform/migrations/versions/0013_follow_up_answers.py:67-118 | the same submissions in any two orders agree on status, version and what is still open |
| Idempotency.IdempotencyStore.TryClaim | services/platform/migrations/versions/0002_idempotency_records.py:20-62 | the outcome and the records after a claim, in the order of the branches |
| Idempotency.IdempotencyStore.Complete | services/platform/migrations/versions/0002_idempotency_records.py:65-78 | completes an open claim with a status, or raises and changes nothing |
| Idempotency.IdempotencyStore.Purge | services/platform/migrations/versions/0002_idempotency_records.py:81-100 | scrubs and deletes rows that a LIMIT may pick, and reports how many |
| Idempotency.Pick | services/platform/migrations/versions/0002_idempotency_records.py:90-96 | rows picked one by one are a choice the limit allows |
| Idempotency.PurgedRow | services/platform/migrations/versions/0002_idempotency_records.py:89-97 | row by row, a purge drops only expired rows and takes only stale sealed responses |
| Idempotency.PurgeIsInvisible | services/platform/migrations/versions/0002_idempotency_records.py:20-101 | purges of any size and choice anywhere in a time-ordered run of claims and in-time completions change no outcome |
| Idempotency.LateCompletionSeesThePurge | services/platform/migrations/versions/0002_idempotency_records.py:71-76 | a completion after expiry succeeds or raises depending on a purge, so the in-time condition is needed |
| Idempotency.PurgeProgress | services/platform/migrations/versions/0002_idempotency_records.py:81-100 | a purge with a positive batch makes progress unless there is nothing to do |
| Idempotency.PurgingFinishes | services/platform/migrations/versions/0002_idempotency_records.py:81-100 | as many purges as there is work leave nothing expired and nothing stale |
| ExactlyOnce.Wizard.Send | apps/web/src/components/report/report-wizard.tsx:323-362 | one request at a time; an unchanged report keeps its key, an edited one gets a new key |
| ExactlyOnce.Wizard.Finish | apps/web/src/components/report/report-wizard.tsx:364-387 | a receipt or a conflict forgets the key, anything else keeps it for the retry; `ExactlyOnceLaws.SameKeyIffNothingBetween` says what that comes to |
| ExactlyOnce.Server.Submit | services/platform/src/shaidago/api/v1/reports.py:363-430 | claim, report and completion as one unit; a replay creates nothing |
| ExactlyOnce.SameSignatureSameFingerprintIffSameContents | apps/web/src/lib/report/submit.ts:46-65 | reports the wizard takes for the same have the same server fingerprint if and only if their files have the same contents |
| ExactlyOnce.InvNext | services/platform/src/shaidago/shared/idempotency.py:125-176 | every step of clients, network, server, clock and purge keeps keys paired, reports recorded and receipts right |
| ExactlyOnce.AtMostOnceWithinRetention | services/platform/src/shaidago/shared/idempotency.py:39-40 | over any lossy, repeating network two reports of one key are at least the retention apart |
| ExactlyOnce.EveryReceiptIsTheRequests | services/platform/src/shaidago/shared/idempotency.py:136-165 | every receipt, first or replayed, is of a report made with that key from exactly that content, within the window |
| ExactlyOnce.ConflictIffContentsDiffer | apps/web/src/lib/report/submit.ts:46-65 | a conflict is answered if and only if the key's live report was made from files with other contents |
| ExactlyOnce.SwappedPictureConflicts | apps/web/src/lib/report/submit.ts:63 | a run in which a report is made once and its retry with a swapped picture is answered by a conflict |
| ExactlyOnce.FaithfulClientsNeverConflict | apps/web/src/components/report/report-wizard.tsx:351-354 | a client whose equal signatures mean equal contents never sees a conflict |
| Backoff.DelayDoubles | services/platform/migrations/versions/0012_reporter_handles.py:67-72 | the delay is 5 seconds doubling to 900, for every attempt count above three |
| Backoff.ReporterHandle.RecordFailure | services/platform/migrations/versions/0012_reporter_handles.py:54-75 | counter, last failure and wait after a failure, with the restart after an hour |
| Backoff.ReporterHandle.RecordSuccess | services/platform/migrations/versions/0012_reporter_handles.py:76-83 | a success clears all three |
| Backoff.ReporterHandle.Authenticate | services/platform/src/shaidago/reports/handle_store.py:73-92 | accepted exactly when the passphrase matches and no wait is running; every other try is recorded as a failure |
| Backoff.WaitIsBounded | services/platform/migrations/versions/0012_reporter_handles.py:67-72 | in every reachable row the wait ends at most 900 seconds after the last failure |
| Backoff.ResetLeavesNoWait | services/platform/migrations/versions/0012_reporter_handles.py:60-66 | when the counter starts again the leftover wait is already over |
| Backoff.AllowancePays | services/platform/migrations/versions/0012_reporter_handles.py:54-75 | the potential function: a checked failure costs 300 seconds of it, an unread one nothing |
| Backoff.GuessingIsSlow | services/platform/migrations/versions/0012_reporter_handles.py:12-14 | N guesses checked over T seconds without success satisfy 300 N <= T + 2685, across any number of restarts |
| Backoff.GuessingBoundIsMet | services/platform/migrations/versions/0012_reporter_handles.py:12-14 | the bound cannot be lowered |
| Backoff.QuietHandleOpens | services/platform/migrations/versions/0012_reporter_handles.py:12-14 | 900 quiet seconds always let the right passphrase in |
| Backoff.RefusedIffMatchesComeTooEarly | services/platform/src/shaidago/reports/handle_store.py:83-91 | for any mixture of right and wrong tries, none is accepted if and only if each right one comes before the delay of the count so far is over |
| Backoff.RefusedIffNoMatchIsLate | services/platform/src/shaidago/reports/handle_store.py:83-91 | from twelve failures on and within the hour, none is accepted if and only if no right try comes 900 seconds after the try before it |
| Backoff.SteadyTriesLockTheHandle | services/platform/src/shaidago/reports/handle_store.py:83-91 | tries of any kind never 900 seconds apart are all refused, the owner's included, for as long as they go on |
| Backoff.LateMatchGetsIn | services/platform/migrations/versions/0012_reporter_handles.py:12-14 | from any count, a right try 900 seconds after the try before it means that someone got in |
| Backoff.PatientOwnerIsLockedOut | services/platform/migrations/versions/0012_reporter_handles.py:12-14 | the failing input: twelve wrong tries, and the owner who then tries every 14 minutes never gets in |
| PageCache.PageStore.Trim | apps/web/public/sw.js:124-135 | deleting the first keys one by one leaves exactly the newest forty |
| PageCache.PageStore.SavePage | apps/web/public/sw.js:137-154 | undisturbed, a save leaves its page and the most recently written others, at most forty |
| PageCache.ExtraLeavesTheLimit | apps/web/public/sw.js:124-135 | the pages outside what a trim read as surplus are within the limit |
| PageCache.TrimsEnoughFinish | apps/web/public/sw.js:148-152 | a finished save that was counted leaves its surplus to saves that wrote even later |
| PageCache.InvNext | apps/web/public/sw.js:124-154 | every interleaved step of any number of saves keeps the bound of every trim under way |
| PageCache.SavedPagesAreBounded | apps/web/public/sw.js:124-154 | a cache never holds more than forty pages and one for each save that has put and not finished |
| PageCache.FinishingClearsOldSurplus | apps/web/public/sw.js:124-154 | when any save finishes, surplus is accounted for by saves that wrote after it read the keys |
| CachePolicy.CheckSearch | apps/web/public/sw-policy.js:42-51 | the loop accepts exactly the allowlisted query names with bounded values |
| CachePolicy.Classify | apps/web/public/sw-policy.js:57-82 | page exactly for an allowlisted GET navigation in our origin, asset exactly for a framework file |
| CachePolicy.PublicPathsAreCatalogue | apps/web/public/sw-policy.js:33-40 | every handled path, in any case, is a locale and then the catalogue, trust or offline page |
| CachePolicy.DirectiveIsFound | apps/web/public/sw-policy.js:105-108 | the expression finds a directive's name wherever it stands in a Cache-Control list |
| CachePolicy.NoStoreAndPrivateAreRefused | apps/web/public/sw-policy.js:89-115 | no response with a no-store or private directive (sections 5.2.2.5 and 5.2.2.7 of RFC 9111) is stored |
| SavedPages.InvNext | apps/web/public/sw.js:176-225 | every step of every navigation keeps the saved pages, the copies in hand and the answers in order |
| SavedPages.OnlyPublicPagesAreSaved | apps/web/public/sw.js:137-154 | whatever is saved, in the current cache or a cleared one, came from an allowlisted GET navigation to that URL with a storable response, and carries its save time |
| SavedPages.SavedAnswersAreYoung | apps/web/public/sw.js:183-220 | a saved copy handed out was at most seven days old at the lookup; with one in hand no offline page or server error is shown; `SavedPagesLaws.LookUpFindsIff` says when there is one |
| SavedPages.OnlyFreshCopiesSkipTheNetwork | apps/web/public/sw.js:197-206 | answering before the network happens only within five minutes of saving |
| SavedPages.ShownIffSavingSucceeds | apps/web/public/sw.js:186-219 | over any run from a storable answer to the end of its save, the reader gets that answer if and only if saving succeeds, and else the copy or the offline page |
| SavedPages.OfflinePageDespiteAnswer | apps/web/public/sw.js:186-219 | a run that ends on the offline page although the network answered 200 |
| Transport.Wire.Execute | apps/web/src/lib/api/server.ts:192-282 | at most two sends, the second exactly after a transient 503 or network failure of a read; the result is that of the last send |
| Transport.Wire.Mutate | apps/web/src/lib/api/server.ts:295-310 | a mutation is sent exactly once and has at most one effect on the service; unless the result is unavailable, it had it exactly when the result is a success that is no replay |
| Transport.UnavailableIffUndecided | apps/web/src/lib/api/server.ts:187-191 | the result is unavailable if and only if what the caller saw is possible both with the effect and without it |
| Transport.LongWaitsAreIgnored | apps/web/src/lib/api/server.ts:91-126 | a 503 that names its wait in seconds is worth retrying if and only if that is at most one second or at least 1,000,000 |
| Transport.WaitsAreReadUpToSixDigits | apps/web/src/lib/api/server.ts:91-126 | the same for every way to write the digits: a wait of more than six is not read |
| Transport.OtherFormsAreIgnored | apps/web/src/lib/api/server.ts:91-126 | a 503 whose wait is not all digits, such as a date, is always worth retrying |
| Transport.RetriedAtOnce | apps/web/src/lib/api/server.ts:118-126 | two failing inputs, eleven days and a date in 2099 |
| BoundedBody.Limiter.Transform | apps/web/src/lib/bff/body.ts:65-75 | a chunk passes unless the running total goes over the cap, and then the stream fails |
| BoundedBody.Limiter.Pipe | apps/web/src/lib/bff/body.ts:56-78 | fails if and only if the body is over the cap; what passed is the longest run of whole chunks within it |
| BoundedBody.ReadAll | apps/web/src/lib/bff/body.ts:80-100 | the buffer is the exact concatenation of the chunks |
| BoundedBody.ReadBoundedJson | apps/web/src/lib/bff/body.ts:106-124 | the outcome is a function of the headers and the joined bytes alone, whatever the chunking |
| BoundedBody.TrueLengthsAgree | apps/web/src/lib/bff/body.ts:48-52 | under every cap, a truthful length is accepted if and only if the body is within the cap and its length has at most 15 digits |
| BoundedBody.OddLengthsAreRefused | apps/web/src/lib/bff/body.ts:38-52 | a length that is no number is refused, whatever the body |
| ExampleGenerator.WalkStaysInside | scripts/render_frontend_contract.py:40-47 | resolving a reference ends inside the document, so it brings no references from elsewhere |
| ExampleConformance.CyclesStillGiveExamples | scripts/render_frontend_contract.py:117-129 | however references are linked, in cycles or not, every plain schema gets an example and nothing raises |
| ExampleConformance.RingsGiveNull | scripts/render_frontend_contract.py:120-122 | references that only name each other in a ring of any length come to null, wherever the ring is entered |
| ExampleConformance.SameExample | scripts/render_frontend_contract.py:117-122 | without cycles the references followed on the way do not matter: a schema has one example wherever it stands |
| ExampleConformance.ObjectShape | scripts/render_frontend_contract.py:85-92 | an object's example is valid exactly when required names are declared and its properties' examples are valid |
| ExampleConformance.ArrayShape | scripts/render_frontend_contract.py:93-95 | an array's example has enough items exactly when the minimum is not a positive fraction |
| ExampleConformance.NumericShape | scripts/render_frontend_contract.py:98-101 | an integer's example reaches its minimum exactly when that is whole or not positive; a number's always does |
| ExampleConformance.UnionExample | scripts/render_frontend_contract.py:67-71 | a plain union has a choice among its alternatives, and its example is the choice's |
| ExampleConformance.SoundSchemasGiveValidExamples | scripts/render_frontend_contract.py:117-129 | every plain schema without reference cycles has an example, valid if the schema is sound |
| ExampleConformance.ValidIffSuits | scripts/render_frontend_contract.py:117-129 | the exact condition for every plain schema without reference cycles, unions included |
| ExampleConformance.ValidIffSound | scripts/render_frontend_contract.py:117-129 | without unions the example is valid if and only if the schema is sound |
| ExampleConformance.FractionalMinimumFails | scripts/render_frontend_contract.py:98-99 | every positive fractional minimum of an integer gives an example that is too small |
| ExampleConformance.UndeclaredRequiredFails | scripts/render_frontend_contract.py:87-92 | a required name that is not declared gives an invalid example |
| ContractValidator.CheckItems | scripts/validate_controlled_vocabulary.py:106-120 | the loop accepts exactly values that are explained, distinct and differently explained, and collects them |
| ContractValidator.CheckTransitions | scripts/validate_controlled_vocabulary.py:151-176 | the loop accepts exactly well-formed, unambiguous transitions, and collects the states they name |
| ContractValidator.CheckMachine | scripts/validate_controlled_vocabulary.py:142-178 | accepts exactly well-formed machines over their vocabulary |
| ContractValidator.CheckMachines | scripts/validate_controlled_vocabulary.py:139-178 | accepts exactly when every machine is well formed and no failure code is reused |
| ContractValidator.ValidateContract | scripts/validate_controlled_vocabulary.py:84-178 | sound and complete: accepts exactly the well-formed contracts |
| ContractValidator.RunsAreDetermined | scripts/validate_controlled_vocabulary.py:173-175 | transitions without a repeated (state, command) pair leave a run no choice: its commands and first state decide it |
| ContractValidator.SoundRuns | scripts/validate_controlled_vocabulary.py:158-176 | runs over accepted transitions stay in declared states, change state each time and end at a terminal one |
| ContractValidator.AcceptedMachinesAreSound | scripts/validate_controlled_vocabulary.py:163-178 | every run of an accepted machine is determined by its commands, changes state each time, stays in declared states and ends at a terminal one |
| EvidenceLaws.CommitsIffAllBacked | services/platform/migrations/versions/0004_sources_facts_citations.py:212-269 | a transaction that raises nothing commits if and only if it leaves each public claim with a citation of an approved or superseded version |
| EvidenceLaws.EveryPublicClaimIsBacked | services/platform/migrations/versions/0004_sources_facts_citations.py:212-269 | in every state of every run from empty tables each public claim has such a citation |
| EvidenceLaws.MoveCommitsIff | services/platform/migrations/versions/0018_approved_source_chunks.py:38-45 | a review move on its own commits if and only if it is one of the seven, is dated when it decides, and leads to approved or superseded or is of a version that no public claim needs; it changes that state alone |
| EvidenceLaws.SupersedingKeepsEverythingPublic | services/platform/migrations/versions/0004_sources_facts_citations.py:241-298 | superseding an approved version always commits, changes that state only, and every public claim is still shown with a citation |
| EvidenceLaws.CitationGoesInIff | services/platform/migrations/versions/0004_sources_facts_citations.py:125-140 | a citation goes in if and only if it quotes its version exactly, is in bounds, its claim exists and its label is not taken |
| EvidenceLaws.CitationComesOutIff | services/platform/migrations/versions/0004_sources_facts_citations.py:212-238 | a citation is deleted if and only if its claim is not public or another citation backs it |
| EvidenceLaws.ClaimComesOut | services/platform/migrations/versions/0004_sources_facts_citations.py:187-209 | deleting a claim always commits and takes exactly its own citations with it |
| EvidenceLaws.ClaimGoesInIff | services/platform/migrations/versions/0004_sources_facts_citations.py:144-225 | a claim goes in on its own if and only if its checks hold and it is a draft |
| EvidenceLaws.CitedClaimGoesInIff | services/platform/migrations/versions/0004_sources_facts_citations.py:212-225 | a public claim goes in with its first citation if and only if both rows are in order and the cited version is approved or superseded |
| EvidenceLaws.ChunkIsReadIff | services/platform/migrations/versions/0027_embedding_384.py:28-46 | in every state of every run, which chunks the public reads, from project, source, version, claim and citation rows |
| EvidenceLaws.ChunkGoesInIff | services/platform/migrations/versions/0018_approved_source_chunks.py:143-172 | a chunk goes in if and only if it is an exact slice of its version and, if active, its document is in the public corpus |
| EvidenceUpdates.SourceIsWrittenIff | services/platform/migrations/versions/0004_sources_facts_citations.py:46-65 | a source is written if and only if its address, names and kinds are in order and its address is its own |
| EvidenceUpdates.VersionGoesInIff | services/platform/migrations/versions/0004_sources_facts_citations.py:67-92 | a version goes in if and only if it is in order and its source has not that text already |
| EvidenceUpdates.VersionsAreFixed | services/platform/migrations/versions/0018_approved_source_chunks.py:22-37 | no statement rewrites what a version says, or deletes one |
| EvidenceUpdates.StateIsLeft | services/platform/migrations/versions/0004_sources_facts_citations.py:90-91 | an UPDATE that does not name the state sets the date of the decision and nothing else, and a decided version keeps one |
| EvidenceUpdates.ClaimIsRewrittenIff | services/platform/migrations/versions/0004_sources_facts_citations.py:212-225 | a claim is rewritten if and only if its checks hold and, to be public, it is backed |
| EvidenceUpdates.ClaimIsRenamedIff | services/platform/migrations/versions/0004_sources_facts_citations.py:187-209 | a claim gets another id if and only if that is free, nothing cites for it and it is not public |
| EvidenceUpdates.CitationIsRewrittenIff | services/platform/migrations/versions/0004_sources_facts_citations.py:187-238 | a citation is rewritten if and only if it is in order among the others and its old claim stays backed or is not public |
| EvidenceUpdates.ChunkIsRewrittenIff | services/platform/migrations/versions/0018_approved_source_chunks.py:143-172 | a chunk is rewritten under the conditions of a new one |
| PublicationLaws.RefusalsNameTheFirstFailure | services/platform/migrations/versions/0017_public_updates.py:94-120 | each of the six refusals is given exactly when its own condition is the first that fails |
| PublicationLaws.PublishesIff | services/platform/migrations/versions/0017_public_updates.py:83-145 | a publish goes through if and only if a reviewer asks, the draft is a draft, its report is verified, at the version and of the same project, some citation is approved or superseded and the rows can be written; then exactly these rows are written |
| PublicationLaws.StateIsSetIff | services/platform/migrations/versions/0017_public_updates.py:147-169 | a reviewer's UPDATE of the state takes effect only as the withdrawal of a draft |
| PublicationLaws.DraftGoesInIff | services/platform/migrations/versions/0017_public_updates.py:30-58 | a draft goes in if and only if its id is free, its text is in bounds and its references exist |
| PublicationLaws.DraftCitationGoesInIff | services/platform/migrations/versions/0017_public_updates.py:60-82 | a draft citation goes in if and only if it quotes its version exactly, its draft exists and its label is not taken |
| DiscoveryLaws.AttachesIff | services/platform/migrations/versions/0023_discovery_review.py:134-186 | an attach goes through under exactly the listed conditions on the row, the decision and the rows to write, and then writes exactly the listed source, pending version, decision and entry |
| DiscoveryLaws.DecidesIff | services/platform/migrations/versions/0023_discovery_review.py:39-57 | a decision is taken if and only if it is one of the eleven, carries its date, reason and key, and names known rows |
| DiscoveryLaws.DiscoveredGoesInIff | services/platform/migrations/versions/0022_discovered_sources.py:51-115 | a find goes in if and only if it is new for its project or report, in bounds, and refers to what exists |
| DiscoveryLaws.CitationIsShownIff | services/platform/migrations/versions/0004_sources_facts_citations.py:271-298 | a citation is shown if and only if it backs a public claim, with its own source and date |
| DiscoveryLaws.SourceIsShownIff | services/platform/migrations/versions/0004_sources_facts_citations.py:271-298 | a source is shown if and only if a citation of one of its versions backs a public claim |
| DiscoveryLaws.FindIsShownIff | services/platform/migrations/versions/0023_discovery_review.py:98-115 | a find of a run is shown unless it or the run is a report's, or it is a duplicate, flagged or rejected |
| ReportLaws.EveryStatusIsLatest | services/platform/migrations/versions/0010_private_reports.py:166-199 | in every state of every run from empty tables each report has the status of the event that is latest by time and id |
| ReportLaws.StatusMovesIff | services/platform/migrations/versions/0010_private_reports.py:33-188 | a move with its event commits if and only if it is one of the fifteen and its event is the latest; the version rises by one |
| ReportLaws.RiskRaisesTheVersion | services/platform/migrations/versions/0014_reviewer_queue.py:23-35 | an UPDATE that does not name the status keeps it, and raises the version by one if and only if the risk changes |
| ReportLaws.AnswerIsStoredIff | services/platform/migrations/versions/0013_follow_up_answers.py:67-118 | in every state an answer is stored if and only if its question is open and not withdrawn, the caller has the handle or one of at most eight tracking keys of that very report, and content, ids and time are in order; what is written then, and when review resumes |
| ReportLaws.StrangersChangeNothing | services/platform/migrations/versions/0013_follow_up_answers.py:77-90 | a caller whose handle and digests are of other reports changes nothing |
| IdempotencyLaws.ClaimsFollowTheHistory | services/platform/migrations/versions/0002_idempotency_records.py:20-78 | after any run of claims, in-time completions and purges, a claim is answered by the last granted claim of its key and the first completion since |
| IdempotencyLaws.PurgeTakesUpToItsBatch | services/platform/migrations/versions/0002_idempotency_records.py:89-97 | a purge takes only responses and rows that are due, and all of them when there are fewer than its batch |
| IdempotencyLaws.PurgesFinish | services/platform/migrations/versions/0002_idempotency_records.py:81-100 | as many purges as there are rows due leave no row past its time and no response past its window |
| ExactlyOnceLaws.SameKeyIffNothingBetween | apps/web/src/components/report/report-wizard.tsx:349-387 | over every run, two requests of a client carry one key if and only if they are the same report to the wizard and the client neither heard a receipt or a conflict nor sent another report between them |
| ExactlyOnceLaws.KeyIsNewIffNoRetry | apps/web/src/components/report/report-wizard.tsx:349-362 | a request has a key never issued before if and only if it retries no earlier one: first, or after an edit, a receipt or a conflict |
| ExactlyOnceLaws.WaitingIffStillOut | apps/web/src/components/report/report-wizard.tsx:323-387 | a client waits exactly from a request it sent until it hears an answer or gives up |
| ExactlyOnceLaws.RetriesMakeOneReport | services/platform/src/shaidago/shared/idempotency.py:39-40 | of all deliveries of all retries of an unchanged report, any two that make a report are 86,400 seconds apart |
| ExactlyOnceLaws.DeliveriesFollowTheReports | services/platform/src/shaidago/shared/idempotency.py:125-176 | in every state of every run a delivery makes a report if and only if none with its key is a day young, and is answered by that report: conflict, its receipt for 900 seconds, then received |
| ExactlyOnceLaws.FingerprintsAgreeIff | services/platform/src/shaidago/api/v1/reports.py:347-357 | two requests have one fingerprint if and only if project, category, description, the contact of the chosen mode and the contents of the files agree |
| BackoffLaws.AcceptedIffWaitIsOver | services/platform/src/shaidago/reports/handle_store.py:73-92 | in every run a try is accepted if and only if it matches and, after more than three refusals in a row within the hour, the table's seconds have passed since the last one |
| PageCacheLaws.CacheListsWhatWasWritten | apps/web/public/sw.js:124-154 | in every state of every run a cache lists exactly the pages written and not deleted since, in the order of their last writes |
| PageCacheLaws.TrimTakesTheOldest | apps/web/public/sw.js:124-135 | a save sets out to delete exactly the pages after which forty or more others were written |
| PageCacheLaws.OnlyTheOldestAreDeleted | apps/web/public/sw.js:124-135 | whatever a save deletes was such a page when it read the keys |
| CachePolicyLaws.PathsAreTheCatalogue | apps/web/public/sw-policy.js:28-40 | a path is handled if and only if it is put together from a locale, a page and, where it has them, a slug and an id |
| CachePolicyLaws.HandledIff | apps/web/public/sw-policy.js:42-82 | which requests the worker handles as pages and as assets, from origin, verb, headers, path and query |
| CachePolicyLaws.StorableIff | apps/web/public/sw-policy.js:84-116 | which responses may be kept, from status, kind, headers, length and type |
| SavedPagesLaws.NavigationsTakenUp | apps/web/public/sw.js:249-253 | a navigation is taken up if and only if it is a plain one to a page of the catalogue |
| SavedPagesLaws.LookUpFindsIff | apps/web/public/sw.js:179-197 | in every state of every run a copy is found if and only if the opened cache holds that URL saved at most 604,800,000 ms ago, and it is that very response; the preference is asked if and only if that is at most 300,000 ms |
| SavedPagesLaws.ReadersGetWhatTheLookUpFound | apps/web/public/sw.js:179-220 | from the lookup to the end, over any run: a failure or an answer of 500 or more gives that response, the offline page or the error only without it, and a reader who was shown it at once is shown nothing more |
| SavedPagesLaws.PreferenceIsReadIff | apps/web/public/sw.js:197-206 | the network is asked without the reader waiting if and only if the copy is five minutes young and low data is off |
| SavedPagesLaws.SavedPagesAreTheNetworksAnswers | apps/web/public/sw.js:137-154 | in every state of every run a saved page is, but for its stamp, what the network answered to a navigation with the request it is kept for, stamped after that |
| SavedPagesLaws.PagesComeAndGo | apps/web/public/sw.js:137-154 | pages come into a cache by a save alone, under their own URL, and leave it by a removal alone |
| WireLaws.RetriedIff | apps/web/src/lib/api/server.ts:91-126 | an outcome is tried again if and only if nothing came back, for no named reason, or a 503 names no wait of two seconds or more |
| WireLaws.RefusedIff | apps/web/src/lib/api/server.ts:192-282 | a refusal is given exactly for another answer that says why, with its own problem and wait |
| WireLaws.JsonIff | apps/web/src/lib/bff/body.ts:38-52 | a body is taken for JSON if and only if its type is application/json in any case, with or without blanks and parameters |
| WireLaws.ReadingIs | apps/web/src/lib/bff/body.ts:38-124 | each outcome of a read, if and only if its condition on type, declared length, real length and parsing holds |
| ExampleLaws.ReferencesLead | scripts/render_frontend_contract.py:40-47 | a reference of names between slashes resolves if and only if the names lead somewhere (section 4 of RFC 6901 without escapes), and to that |
| ExampleLaws.ReferenceIsFollowed | scripts/render_frontend_contract.py:117-122 | a reference gives null where it was followed already, raises where it leads nowhere, and else gives its target's example |
| ExampleLaws.FirstAlternativeIsTaken | scripts/render_frontend_contract.py:67-71 | of `oneOf`, or else `anyOf`, the first alternative that is not just null gives the example |
| ExampleLaws.MergeTakesTheLast | scripts/render_frontend_contract.py:72-79 | the parts of an `allOf` are merged: the members their objects have, each as the last part that has it; it raises exactly when a part does |
| ExampleLaws.ObjectGetsWhatIsRequired | scripts/render_frontend_contract.py:85-92 | an object gets exactly the required names that are declared, or all, each with its own example; it raises exactly when one does |
| ExampleLaws.ArrayRepeatsItsItem | scripts/render_frontend_contract.py:93-95 | an array has as many items as the whole part of its minimum, each the example of its items |
| ExampleLaws.TextIs | scripts/render_frontend_contract.py:102-111 | text is its default, or the made-up text of its format |
| ExampleLaws.NumbersAre | scripts/render_frontend_contract.py:96-101 | numbers are their minimum or zero, integers without its fraction; a boolean is its default or false |
| ContractLaws.NameIff | scripts/validate_controlled_vocabulary.py:67-71 | a machine name is words joined by single underscores, of which the first begins with a letter |
| ContractLaws.WellFormedIffFine | scripts/validate_controlled_vocabulary.py:84-178 | a contract written out from actors, vocabularies and machines is accepted if and only if these are in order: complete, explained, distinct, declared, unambiguous and without unused states |

## Left out

- PageCache.SavedPagesAreBounded: no lower bound, because a stale reading of the keys can delete a page that was just saved again.
- ExampleConformance.ValidIffSound: excludes unions, because an unsound alternative's example may happen to satisfy another one; `ValidIffSuits` covers them, with a condition that generates the chosen alternative's example.
- ExampleConformance.SoundSchemasGiveValidExamples: `allOf`, `oneOf` and supplied examples are in the generator but not in the conformance fragment, and string formats are not validated.
- DiscoveryLaws.DiscoveredGoesInIff: does not ask that the report of a find exists, because reports are not among these tables.
- ContractLaws.WellFormedIffFine: speaks of contracts written out from their parts; documents of any other shape are left to `ContractValidator.ValidateContract`.
- ExampleGenerator.Example: schema keywords with a value of the wrong JSON type count as raising, also where Python happens to accept one (such as a string for `required`).
- PageCache.InvNext, SavedPages.InvNext: the interleaved steps are transitions on values rather than methods of an object, since no step of the source is atomic beyond them.
- Row-level security, role grants as a mechanism, encryption, sealing, Argon2, UUID generation: grants appear as the set of allowed steps, digests as injective.
- READ COMMITTED interleavings of transactions, and lock waits.
- Overflow of `failure_count`, of versions and of times.
- The chunk unique key as an invariant, embeddings, retrieval ranking and the chunker.
- Deleting projects, sources, reviewers and keys, and the `ON DELETE SET NULL` columns.
- Creating and moving discovery runs (0021), their status guard, and discovery follow-up answers; runs and sightings are arbitrary tables.
- The asset cache, `install` and `activate`, the Vary header, and the escaping of references.
- Request parsing, rate limits, evidence files and tracking codes of a submission; the report's content stands for them.
- The React components, i18n, cookies, headers and the Next.js cache; caller-facing entity tags are opaque.
- Checks on text columns that no property here depends on, such as message lengths and machine-value columns.
