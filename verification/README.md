# DeceptiForge backend: a verified model

DeceptiForge plants decoys in customer systems and turns the traces they leave into alerts, incidents and
outgoing notifications. This project models the parts of its API backend in which a small store changes step
by step, and proves what those changes keep over whole runs. `dafny verify dfyconfig.toml` checks everything.

Each stored record is a datatype, each table or in-memory store is a field of a class, and each operation of
the program that changes the store is a method that changes that field. A method's contract gives the whole new state as a
function of the old one (a relation where the database is free to choose rows); the properties are lemmas about
those functions over arbitrary runs. Concurrency is modelled by interleaving the atomic steps: a conditional
`UPDATE`, an insert against a unique constraint, one locked increment, one read.

| module | part of the system |
|---|---|
| `Collections` | ordered, bounded queries with ties in any order; counting and cardinality |
| `ReconstructionQueue`, `FairRuns`, `ClaimRace`, `FairInterleaving` | the reconstruction work queue: fair claiming, exclusive claims, no starvation, in sequence and interleaved |
| `Retention` | batched deletion and the incident lifecycle job |
| `Revisions`, `RevisionRuns` | narrative revision numbers and pruning |
| `Alerts`, `AlertAccounting`, `SealedAlerts`, `CodecWitness` | the atomic alert upsert, its indexed columns, its accounting; that the assumptions on codecs can be met |
| `Outbox`, `OutboxTransactions`, `OutboxWorkers` | leased deliveries, retries, dead letters, manual retries; the delivery worker's transactions |
| `OfflineQueue` | the agent client's bounded queue |
| `QuotaGate`, `QuotaCalls` | the monitoring quota: expiring counters, concurrent calls |
| `BodyLimit` | the streaming request-body limit |
| `JudgeQuota`, `JudgeOverlap`, `ResetOverlap`, `JudgeSandbox`, `SandboxReset` | judge budgets and cooldown, for requests in sequence and overlapping, session expiry, namespaced keys, reset |
| `Deployments`, `DeploymentRuns` | deployment jobs and tripwires |
| `Learning`, `VersionRaces`, `FeedbackRuns`, `FeedbackRaces` | model versions and analyst feedback, for requests in sequence and overlapping |
| `Encryption` | the sealed-value envelope, with base64url as in section 5 of RFC 4648 |

## Where the code differs from what it says

The model follows the code. These are the places where a comment, a document or an obvious expectation says
something else. Each has a lemma with the exact condition, or with a bound and a run that reaches it, and a lemma with
an input or a run that fails.

- **"Two workers never deliver the same row"** (`docs/SecurityIntegrations.md:45-46`). The delivery worker claims, sends
  and marks in one transaction, so two workers never hold a delivery at once, whatever manual retries do
  (`OutboxTransactions.AlwaysIsolated`), and a dead worker's deliveries are claimable as before
  (`OutboxTransactions.AbandonedIsRecovered`). But a send cannot be rolled back. After any run, and without a manual
  retry, the endpoint can get an existing delivery (again) if and only if its committed row is open
  (`OutboxTransactions.CanArriveAgainIff`), so also after a success whose transaction is rolled back
  (`OutboxTransactions.RollbackDuplicates`). It gets a delivery at most once plus once per lost answer, rollback after
  a success and manual retry (`OutboxTransactions.ReceiptsBound`).
- **The lease plays no part in that.** No session ever sees one (`OutboxTransactions.AlwaysIsolated`), so there are no
  stale leases to reclaim, although `restore_verify.py:82-87` reports that they can be; nor would a visible lease ever
  expire (`Outbox.ExpiryNeverReclaims`).
- **The lease update does not repeat the next-attempt check.** A lease from a stale candidate list respects the backoff
  if and only if nothing in between put the next attempt past the list's clock reading (`Outbox.ListedStaysDueIff`);
  `OutboxTransactions.StaleCandidateSkipsBackoff` is a run that does not.
- **"A retry never double-reports"** (`agent_sdk/client.py:108`, `docs/AgentAdapterSDK.md`). Emitting is safe against
  every transport if and only if no entry of the queue has the emission's id (`OfflineQueue.RepeatsIffCopyQueued`).
  Otherwise the connection only has to come back between the flush and the post, and both copies are acknowledged
  (`OfflineQueue.RepeatIsReported`, `OfflineQueue.ReportedTwice`).
- **Judge budgets are not enforced under concurrency.** Each request writes back the count it loaded plus one. The
  stored count is the number of uses if and only if no commit writes back an outdated copy
  (`JudgeOverlap.RecordedIffCurrent`). With n requests in flight a budget of L can be used up to
  C(n + L, L) - 1 times, and a schedule reaches that (`JudgeOverlap.OverspendBound`, `JudgeOverlap.OverspendReached`);
  for one request at a time this is L.
- **Nor is the reset cooldown.** With n requests in flight and a clock that never goes back, of any n + 1 consecutive
  resets the last is a cooldown after the first (`ResetOverlap.ResetsSpread`), and n resets can fall on one moment
  (`ResetOverlap.ResetsAtOnce`).
- **"Only one ACTIVE per org"** (`models/records.py:1423`) has no constraint behind it. A committed activation leaves at
  most one version active if and only if everything active at that moment is the activated version or the one the
  request had found (`VersionRaces.ActivationKeepsSingleIff`; over runs `VersionRaces.AlwaysSingleIffGuarded`). Two
  overlapping activations leave two versions active (`VersionRaces.TwoActive`).
- **"Repeated clicks cannot inflate evidence"** (`repositories/learning.py:184`). Of two overlapping submissions by an
  identified actor the second is refused with an error; without an actor both are recorded, as the same revision
  (`FeedbackRaces.DoubleClickFails`). An insert is refused if and only if the record it had found is no longer the latest
  (`FeedbackRaces.RefusedIffOutdated`), and a thread stays in order if and only if every insert had found the latest
  (`FeedbackRaces.InOrderIffAllCurrent`).
- **The body limit can start a second response.** The rejection is sent even if the application has already
  started its own (`BodyLimit.SecondStartIffAlreadyStarted`, `BodyLimit.SecondStartHappens`).
- **A merge assigns the indexed columns before it checks the size** of the merged alert. Within the session the
  columns then disagree with the data (`Alerts.AgreementIffMergeFits`, `AlertAccounting.MergeOutgrowsLimit`); what saves
  them is the request's rollback (`Alerts.RequestsKeepAgreement`).
- **"Never crosses organizations"** rests on how alert ids are derived, not on the query, which looks the row up by id
  alone (`Alerts.CrossesIffForeignId`, `Alerts.ForeignIdCrosses`, `Alerts.DerivedIdsStayInOrganization`).
- **A revision number can be reused** when it is read, its revision is generated by someone else and pruned, and only then
  it is stored (`RevisionRuns.PrunedNumberIsReused`; the exact condition is `RevisionRuns.CountsUpIffGuarded`).
- **"Identical resubmission is a no-op"** for feedback kinds of at most 24 characters only: the kind is cut on
  storing but not on looking up (`FeedbackRuns.ResubmissionIsNoOpIffKindFits`, `FeedbackRuns.LongKindFailsOnSecond`). The
  program's own kinds are short.
- **The archive's status filter excludes nothing** if and only if the archive window is at least the stale window, as in
  the default settings (`Retention.FilterExcludesNothingIff`): an incident that is still open is then retired and deleted
  in one pass (`Retention.OpenIncidentDeleted`).

## Model

| member | source | states |
|---|---|---|
| ReconstructionQueue.ReconstructionJobs.Enqueue | apps/api/app/repositories/artifacts.py:370-386 | a pending job with no attempts is added and no other row changes |
| ReconstructionQueue.ReconstructionJobs.TryClaim | apps/api/app/repositories/artifacts.py:428-441 | the update wins exactly if the job is still pending; a win claims that row and counts one attempt, a loss changes nothing |
| ReconstructionQueue.ReconstructionJobs.ClaimForOrg | apps/api/app/repositories/artifacts.py:417-443 | an undisturbed pass claims the organization's oldest pending jobs up to the limit, in some order that respects creation time, and marks exactly those |
| ReconstructionQueue.ReconstructionJobs.ClaimFair | apps/api/app/repositories/artifacts.py:400-415 | the pass hands equal shares of the limit to the organizations whose oldest pending job is oldest; what that comes to is in the FairPass rows and in SharesAreEqual |
| ReconstructionQueue.ReconstructionJobs.Complete | apps/api/app/repositories/artifacts.py:445-451 | the job becomes done or failed, an unknown id is ignored |
| ReconstructionQueue.ReconstructionJobs.Claim | apps/api/app/repositories/artifacts.py:388-398 | a fair pass without an organization, that organization's pass with one |
| ReconstructionQueue.ReconstructionJobs.Drain | apps/api/app/services/incident_reconstruction/worker.py:33-67 | draining, for all tenants or for one, terminates, attempts every pending job in scope exactly once, closes each as its own outcome says, leaves all other rows alone and returns the number of jobs that were pending; a zero batch drains nothing |
| ReconstructionQueue.FairPassClaimsPending | apps/api/app/repositories/artifacts.py:400-443 | one pass claims no job twice, only pending jobs, and never more than the limit |
| ReconstructionQueue.FairPassServes | apps/api/app/repositories/artifacts.py:402-408 | exactly min(limit, waiting organizations) are served, and no unserved one has an older oldest job than a served one |
| ReconstructionQueue.FairPassShares | apps/api/app/repositories/artifacts.py:411-414 | each served organization gets exactly min(equal share, its pending jobs), its oldest ones first |
| ReconstructionQueue.SharesAreEqual | apps/api/app/repositories/artifacts.py:411 | with s organizations served, one that still has a pending job left got exactly the whole number c of jobs with s * c <= limit < s * (c + 1) |
| ReconstructionQueue.OrgPassTakesOldest | apps/api/app/repositories/artifacts.py:420-426 | an organization's pass claims its pending jobs in order of creation, none left over is older, and all of them if there are fewer than the limit |
| ReconstructionQueue.EveryTenantServed | apps/api/app/repositories/artifacts.py:400-415 | if all waiting organizations fit in the limit each gets its share and at least one job, whatever the others have queued |
| ReconstructionQueue.FairPassTakesOldest | apps/api/app/repositories/artifacts.py:400-443 | a pass with a positive limit claims a globally oldest pending job, ties included |
| FairRuns.FairPassShrinksAhead | apps/api/app/repositories/artifacts.py:400-443 | every fair pass strictly reduces the number of pending jobs at least as old as a waiting one |
| FairRuns.StillPending | apps/api/app/repositories/artifacts.py:417-451 | no step of any kind removes or alters a pending job other than by claiming it or, if one does so unclaimed, completing it; purging spares it |
| FairRuns.NoStarvation | apps/api/app/repositories/artifacts.py:400-443 | a job with k other pending jobs at least as old is claimed within k+1 fair passes, however many newer jobs are enqueued and whatever claims, completions and purges happen in between |
| ClaimRace.ExclusiveClaim | apps/api/app/repositories/artifacts.py:388-443 | for every interleaving of attempts made from arbitrarily stale candidate lists, completions and purges, each job is won at most once and its attempts column equals its wins |
| ClaimRace.NeverPendingAgain | apps/api/app/repositories/artifacts.py:417-451 | a job that has left the pending status never returns to it in any run |
| ClaimRace.AttemptedJobIsWonOnce | apps/api/app/repositories/artifacts.py:428-441 | a pending job that is attempted is won by exactly one worker, the first one to attempt it |
| ClaimRace.UndisturbedPassIsARun | apps/api/app/repositories/artifacts.py:428-443 | a sequential pass is the special case of such a run in which every selected id is won |
| FairInterleaving.AlwaysExclusive | apps/api/app/repositories/artifacts.py:428-441 | in every interleaving of transactions no job is claimed by two workers, and a claimed job is pending in the committed table until its claim commits |
| FairInterleaving.PassShrinksAhead | apps/api/app/repositories/artifacts.py:400-443 | whatever other workers do between the statements of a fair pass, claims held but not committed and rollbacks included, once the pass has committed the committed table has fewer pending jobs at least as old as a waiting one |
| FairInterleaving.InterleavedNoStarvation | apps/api/app/jobs/reconstruction.py:12-17 | a job with k other pending jobs at least as old has been claimed, and the claim committed, by the time k+1 fair passes have committed one after another, with other transactions interleaving at every statement, waiting and rolling back |
| Retention.Table.SelectMatching | apps/api/app/repositories/artifacts.py:628 | the unordered bounded query returns any min(batch, matches) matching rows |
| Retention.Table.BatchedDelete | apps/api/app/repositories/artifacts.py:624-636 | whichever rows each batch holds, the loop terminates, removes exactly the matching rows, keeps all others unchanged and returns the initial number of matches; a zero batch removes nothing |
| Retention.BatchRemoved | apps/api/app/repositories/artifacts.py:628-635 | each batch reduces the number of matching rows by its size and never touches the rest |
| Retention.IncidentStore.Upsert | apps/api/app/repositories/artifacts.py:497-515 | the row is replaced with the indexed columns copied from the sealed incident |
| Retention.IncidentStore.RetireStale | apps/api/app/repositories/artifacts.py:527-554 | exactly this organization's incidents without activity since the cutoff, not yet stale, are re-tagged and counted; no other row changes |
| Retention.IncidentStore.RetireAllStale | apps/api/app/repositories/artifacts.py:734-741 | the passes over the organizations, in any order, add up to retiring every stale incident once |
| Retention.IncidentStore.Archive | apps/api/app/repositories/artifacts.py:743-756 | removes exactly the rows whose columns say resolved or stale and last seen before the cutoff, and counts them; a zero batch removes nothing |
| Retention.IncidentStore.LifecyclePass | apps/api/app/jobs/incident_lifecycle.py:17-36 | one job run retires, then archives; the two counts are the newly stale incidents and the rows that disappear |
| Retention.PassKeeps | apps/api/app/jobs/incident_lifecycle.py:27-34 | an incident survives a pass iff it was active within the archive window, or is neither resolved nor stale and was active within the stale window |
| Retention.ArchiveIgnoresLifecycle | apps/api/app/jobs/incident_lifecycle.py:27-34 | with an archive window at least as long as the stale window, survival depends on last activity alone |
| Retention.FilterExcludesNothingIff | apps/api/app/jobs/incident_lifecycle.py:27-34 | on every store a pass keeps exactly the incidents active within the archive window iff that window is at least the stale window |
| Retention.OpenIncidentDeleted | apps/api/app/repositories/artifacts.py:734-756 | one pass retires an open incident past the archive window and deletes it |
| Retention.PassIsIdempotent | apps/api/app/jobs/incident_lifecycle.py:17-36 | a pass keeps columns and sealed data in step, and repeating it at the same moment changes nothing |
| Revisions.NarrativeRevisions.NextRevisionNumber | apps/api/app/repositories/artifacts.py:566-568 | one past the largest surviving number, or 1 |
| Revisions.NarrativeRevisions.AddRevision | apps/api/app/repositories/artifacts.py:570-581 | the row is added iff the narrative is not too large and its number is free for the incident; a refusal changes nothing |
| Revisions.NarrativeRevisions.Prune | apps/api/app/repositories/artifacts.py:583-599 | exactly the numbers with fewer than `keep` newer ones survive, other incidents are untouched, and a non-positive count prunes nothing |
| Revisions.NarrativeRevisions.PruneAll | apps/api/app/repositories/artifacts.py:709-732 | every incident is pruned as by itself, and the answer is the number of rows that disappear |
| Revisions.NarrativeRevisions.Generate | apps/api/app/services/incident_narrative/service.py:48-55 | a generation stores the next number and prunes; it fails, without effect, only when the narrative is too large, never on the number |
| Revisions.FirstAreNewest | apps/api/app/repositories/artifacts.py:589-598 | cutting the descending list after `keep` records keeps exactly min(keep, all) newest revisions |
| RevisionRuns.RunIsInterval | apps/api/app/repositories/artifacts.py:566-599 | after any run the surviving numbers are an interval ending at the number of revisions ever generated |
| RevisionRuns.NumbersNeverReused | apps/api/app/repositories/artifacts.py:566-599 | for any alternation of atomic generations and prunes with any counts, the numbers assigned are 1, 2, 3 and so on |
| RevisionRuns.SurvivorsAreNewest | apps/api/app/repositories/artifacts.py:583-599 | under one retention count the survivors are exactly the newest min(n, keep) of the n revisions |
| RevisionRuns.StaleStore | apps/api/app/repositories/artifacts.py:566-581 | a number read earlier is new iff it exceeds the latest survivor; it is silently reused iff it does not and has been pruned |
| RevisionRuns.CountsUpIffGuarded | apps/api/app/repositories/artifacts.py:566-599 | with reads and stores of several workers interleaved, the numbering counts up iff every store was beyond the latest survivor |
| RevisionRuns.UninterruptedIsAtomic | apps/api/app/services/incident_narrative/service.py:48-55 | read, store and prune without interruption are one atomic generation |
| RevisionRuns.PrunedNumberIsReused | apps/api/app/services/incident_narrative/service.py:48-55 | a concrete interleaving with retention 1 assigns the numbers 1, 2, 1 |
| Alerts.AlertStore.UpsertAtomic | apps/api/app/repositories/artifacts.py:300-328 | insert if neither id nor episode exists, otherwise merge into the row with that id; columns are assigned before the size check; the outcome is the stored alert or the error |
| Alerts.InsertFailsIff | apps/api/app/models/records.py:96-107 | the insert fails iff the id is taken or, for an alert with a bucket, a row has its organization, key and bucket |
| Alerts.AlertStore.AddAlert | apps/api/app/repositories/artifacts.py:280-298 | the row is replaced by the alert's, keeping its creation time; an oversized alert, or one of an episode that another row has, is refused without change |
| Alerts.AlertStore.Request | apps/api/app/dependencies/__init__.py:13-23 | an upsert that raises leaves the table as it was |
| Alerts.AlertStore.RelatedAlerts | apps/api/app/repositories/artifacts.py:330-366 | the most recent matching alerts up to the limit, decoded, oldest first |
| Alerts.RecencyIsMostRecent | apps/api/app/repositories/artifacts.py:363-366 | what the bounded query returns are the matching rows created last, latest first |
| Alerts.AgreementIffMergeFits | apps/api/app/repositories/artifacts.py:300-328 | for any merge function, an upsert keeps count and times in step with the sealed data iff the merged alert fits or the merge left them as they were |
| AlertAccounting.MergeOutgrowsLimit | apps/api/app/repositories/artifacts.py:321-326 | it happens: of two fitting alerts of one episode the second upsert breaks the agreement within the session |
| Alerts.RequestsKeepAgreement | apps/api/app/repositories/artifacts.py:280-328 | over any run of requests the columns always equal the fields of the decoded data |
| Alerts.RequestsKeepKeys | apps/api/app/repositories/artifacts.py:280-328 | the same for the correlation columns, for merges that keep the first alert's keys |
| Alerts.RequestsKeepEpisodes | apps/api/app/models/records.py:96-107 | over any run of requests no two rows are of the same organization, key and bucket |
| Alerts.FilterMatchesAlerts | apps/api/app/repositories/artifacts.py:346-362 | the filter over indexed columns selects exactly the organization's rows whose decoded alert is related and overlaps the window |
| Alerts.CrossesIffForeignId | apps/api/app/repositories/artifacts.py:316-320 | a stored upsert lands in another organization's row iff that row has the candidate's id |
| Alerts.ForeignIdCrosses | apps/api/app/repositories/artifacts.py:316-328 | an upsert whose id another organization's row has is counted in that row |
| Alerts.DerivedIdsStayInOrganization | apps/api/app/services/alerting/engine.py:152-157 | with ids derived from organization, key and bucket, an insert fails exactly for the same episode, the row found is that episode's, and no other organization's row changes |
| AlertAccounting.RowHoldsEveryAlert | apps/api/app/repositories/artifacts.py:300-328 | no lost update, under any size limit: there is a row for exactly the ids of which an alert was accepted, holding the merge of all of that id's accepted alerts |
| AlertAccounting.FoldTotals | apps/api/app/services/alerting/engine.py:24-48 | the merged alert's count is the total, its times are the extreme times, its severity and confidence the maxima, of all merged alerts |
| AlertAccounting.FoldKeepsNewestEvidence | apps/api/app/services/alerting/engine.py:34 | the kept evidence is the last five pieces of everything observed |
| AlertAccounting.FoldKeepsNewestEvents | apps/api/app/services/alerting/engine.py:46 | the kept event references are the last twenty of all of them |
| AlertAccounting.LastOfIsSuffix | apps/api/app/services/alerting/engine.py:34 | what a bounded list keeps is its end, as much of it as fits |
| AlertAccounting.OrderDoesNotMatter | apps/api/app/services/alerting/engine.py:24-48 | merging the same alerts in another order gives the same count, times, severity and confidence |
| AlertAccounting.RowsGrow | apps/api/app/repositories/artifacts.py:321-325 | later upserts only widen a row's times and keep its organization and keys |
| AlertAccounting.JobCovers | apps/api/app/repositories/artifacts.py:373-383 | the job's query covers exactly the alerts with one of the trigger's keys that were active within the window of it, to the second |
| AlertAccounting.TriggerStaysRelated | apps/api/app/repositories/artifacts.py:330-386 | the alert that enqueued a reconstruction job still matches the job's query after any later upserts |
| SealedAlerts.SealedCodecIsFaithful | apps/api/app/repositories/artifacts.py:70-81 | an alert sealed under either provider is decoded to itself, which discharges the assumption of the Alerts results |
| CodecWitness.AssumptionsCanBeMet | apps/api/app/repositories/artifacts.py:70-81 | there are a serialization, a text encoding, a key and an id function that meet all assumptions of the alert and encryption results at once, under both providers and any size limit |
| Outbox.IntegrationRepository.Enqueue | apps/api/app/repositories/integrations.py:121-145 | a queued delivery is added iff its idempotency key is new; a duplicate changes nothing |
| Outbox.IntegrationRepository.TryLease | apps/api/app/repositories/integrations.py:163-177 | the update wins iff the row is open and lease-free, and then only sets status and lease |
| Outbox.IntegrationRepository.ClaimDeliveries | apps/api/app/repositories/integrations.py:147-179 | leases due deliveries up to the limit in order of creation, no due one left over being older than a leased one, and changes nothing else |
| Outbox.IntegrationRepository.MarkDelivered | apps/api/app/repositories/integrations.py:181-189 | the row is closed, its attempt counted, lease and error cleared; no other row or dead letter changes |
| Outbox.IntegrationRepository.MarkRetry | apps/api/app/repositories/integrations.py:191-202 | the row reopens after the delay with one more attempt and no lease |
| Outbox.IntegrationRepository.MarkDeadLetter | apps/api/app/repositories/integrations.py:204-219 | the row is closed with one more attempt, and one dead letter carries the new count and the reason cut to 64 characters |
| Outbox.IntegrationRepository.Requeue | apps/api/app/repositories/integrations.py:248-253 | the row is queued again now, without a lease, its attempts kept |
| Outbox.LeaseInvariant | apps/api/app/repositories/integrations.py:121-253 | in every reachable state a lease is set iff the row is being delivered, and idempotency keys are unique |
| Outbox.ExpiryNeverReclaims | apps/api/app/repositories/integrations.py:153-173 | in every reachable state a row can be leased iff it is open, at any time; a row in delivery is never due, however old its lease |
| Outbox.Accounting | apps/api/app/repositories/integrations.py:181-253 | over any run attempts equal marks, dead letters equal burials, and their attempt counts strictly increase |
| Outbox.LeasableIsDueIff | apps/api/app/repositories/integrations.py:153-173 | a row the lease update accepts is due iff its next attempt has come |
| Outbox.ListedStaysDueIff | apps/api/app/repositories/integrations.py:153-173 | a listed candidate that is leased some calls later is then still due iff no retry or requeue in between put it past the list's clock reading |
| OutboxTransactions.AlwaysIsolated | apps/api/app/jobs/_runtime.py:18-29 | in every run of claims, sends, marks, commits, rollbacks and manual retries, no delivery is in two workers' hands, no committed row is in delivery or leased, and the committed version of a claimed row is the open one that was claimed |
| OutboxTransactions.AbandonedIsRecovered | apps/api/app/jobs/_runtime.py:18-29 | when a worker's transaction is rolled back each delivery it had claimed is as it was before, whatever happened meanwhile, and can be leased by anyone |
| OutboxTransactions.TransactionsAreSerial | apps/api/app/services/integrations/worker.py:39-118 | however transactions overlap, abort and wait, the committed store is the result of the committed repository calls one after another |
| OutboxTransactions.CommittedAccounting | apps/api/app/repositories/integrations.py:181-253 | so attempts equal committed marks, dead letters equal committed burials, with increasing counts, and no mark is lost, without any assumption on manual retries |
| OutboxTransactions.ReceiptsBound | apps/api/app/services/integrations/worker.py:82-118 | the endpoint gets a delivery at most once plus once per lost answer, per rollback after a success and per manual retry |
| OutboxTransactions.CanArriveAgainIff | apps/api/app/services/integrations/worker.py:39-118 | after any run, some continuation without a manual retry brings an existing delivery to the endpoint (again) iff its committed row is open |
| OutboxTransactions.RollbackResends | apps/api/app/jobs/_runtime.py:18-29 | after any run, rolling back a successful send lets any worker send it once more |
| OutboxTransactions.RollbackDuplicates | apps/api/app/services/integrations/worker.py:91-94 | a run in which the endpoint gets an event twice without a lost answer or a manual retry |
| OutboxTransactions.StaleCandidateSkipsBackoff | apps/api/app/repositories/integrations.py:153-173 | a run of the program's worker in which a delivery listed as due and since put off to time 100 can be leased at time 2 |
| OutboxWorkers.GuardedMeansExclusive | apps/api/app/repositories/integrations.py:147-179 | if every repository call is committed by itself: while manual retries avoid deliveries in progress, each delivery in progress is held by exactly one worker with an up-to-date copy |
| OutboxWorkers.WorkersRefineStore | apps/api/app/repositories/integrations.py:181-219 | if every repository call is committed by itself: under that guard workers writing back private copies are the same as one store with atomic marks |
| OutboxWorkers.WorkersAccounting | apps/api/app/repositories/integrations.py:181-253 | if every repository call is committed by itself: under that guard attempts and dead letters count what the workers did |
| OfflineQueue.AgentClient.constructor | apps/api/app/agent_sdk/client.py:34-39 | starts with no session, an empty queue and a mirrored empty id set |
| OfflineQueue.AgentClient.SafePost | apps/api/app/agent_sdk/client.py:99-103 | one transport call; queue and session unchanged |
| OfflineQueue.AgentClient.StartSession | apps/api/app/agent_sdk/client.py:67-79 | sets the session and makes one call, whatever it answers; the queue is unchanged |
| OfflineQueue.AgentClient.Flush | apps/api/app/agent_sdk/client.py:115-123 | the bounded loop does what the specification does, keeping the id set equal to the queued ids |
| OfflineQueue.AgentClient.Enqueue | apps/api/app/agent_sdk/client.py:105-113 | the emission is suppressed, or queued after evicting the oldest if full, keeping the id set equal to the queued ids |
| OfflineQueue.AgentClient.EmitEvent | apps/api/app/agent_sdk/client.py:81-89 | without a session an error and no change; otherwise flush, post and enqueue exactly as specified |
| OfflineQueue.AgentClient.Finish | apps/api/app/agent_sdk/client.py:91-97 | drains and answers how many are still queued |
| OfflineQueue.EmitKeepsBounded | apps/api/app/agent_sdk/client.py:105-123 | the queue stays in emission order, within the limit, with pairwise different ids |
| OfflineQueue.RunConserves | apps/api/app/agent_sdk/client.py:81-123 | for every transport and every run each emission has exactly one fate: acknowledged, queued, evicted or suppressed |
| OfflineQueue.FlushSendsPrefix | apps/api/app/agent_sdk/client.py:115-123 | a flush removes the longest delivered prefix and calls the transport once per removed entry plus once if any remains |
| OfflineQueue.DrainsIffOnline | apps/api/app/agent_sdk/client.py:115-123 | a flush empties the queue iff the next calls, one per entry, are all delivered |
| OfflineQueue.AcknowledgedIffAccepted | apps/api/app/agent_sdk/client.py:86-88 | against a server that always answers one code, an emission is acknowledged and a waiting queue drained iff the code is 2xx or 409; otherwise the emission is kept or its copy is |
| OfflineQueue.FailureKeeps | apps/api/app/agent_sdk/client.py:99-103 | a transport that raises acknowledges and drains nothing |
| OfflineQueue.FullQueueEvictsOldest | apps/api/app/agent_sdk/client.py:109-112 | an entry is evicted iff a new id finds the queue full, and it is the one emitted before all that stay |
| OfflineQueue.RepeatsIffCopyQueued | apps/api/app/agent_sdk/client.py:81-108 | against every transport an emission is not acknowledged beside a queued copy iff no entry of the queue had its id before the call |
| OfflineQueue.RepeatIsReported | apps/api/app/agent_sdk/client.py:81-123 | if one had, a connection that comes back after the flush's first call has both acknowledged by the next drain |
| OfflineQueue.ReportedTwice | apps/api/app/agent_sdk/client.py:105-108 | an emission repeated as the connection comes back is acknowledged twice |
| OfflineQueue.RunSuppressesRepeats | apps/api/app/agent_sdk/client.py:106-108 | only emissions whose id occurred earlier are ever suppressed |
| OfflineQueue.DistinctIdsReportOnce | apps/api/app/agent_sdk/client.py:106-108 | with different ids nothing is suppressed and no id is acknowledged twice |
| QuotaGate.MonitoringQuotaGate.IncrementKey | apps/api/app/services/capacity.py:229-241 | one locked increment of an expiring counter, restarting it once it has run out |
| QuotaGate.MonitoringQuotaGate.Admit | apps/api/app/services/capacity.py:213-227 | both counters are incremented, even when the first already refuses, and the decision follows from their values, with the clock read separately by the call and by each increment |
| QuotaGate.AdmitIsTwoHits | apps/api/app/services/capacity.py:219-227 | an undisturbed call is two increments in a row, decided by what they return |
| QuotaGate.ReasonIff | apps/api/app/services/capacity.py:223-227 | a burst refusal iff the second's count exceeds the burst, a sustained one iff only the minute's count exceeds its limit, and no wait when admitted |
| QuotaGate.CountersHoldHits | apps/api/app/services/capacity.py:235-241 | as long as hits are in time the memory holds every key's number of hits and its first hit's expiry |
| QuotaGate.CounterLifetime | apps/api/app/services/capacity.py:219-239 | a second hit on a key counts on within 2 seconds of the first for a second key and 61 for a minute key, and starts over from then on |
| QuotaGate.IdealIffInTime | apps/api/app/services/capacity.py:235-241 | an increment returns the number of hits on its key so far iff it does not come after the counter ran out |
| QuotaGate.PromptHitsAreInTime | apps/api/app/services/capacity.py:219-220 | lifetimes of 2 and 61 seconds never reset a counter while increments happen within a second of their window, on any clock |
| QuotaCalls.DecidesByIdealCounts | apps/api/app/services/capacity.py:213-241 | in every interleaving of the increments of concurrent calls each call is decided by the exact ranks of its two increments among all of its organization's in that second and that minute |
| QuotaCalls.AdmittedIff | apps/api/app/services/capacity.py:223-227 | a call is admitted iff fewer than burst increments preceded its own in its second and fewer than 60 times the rate in its minute, those of refused calls included |
| QuotaCalls.AcceptedPerSecond | apps/api/app/services/capacity.py:223-224 | at most a burst of concurrent calls is admitted in any second |
| QuotaCalls.AcceptedInAnyInterval | apps/api/app/services/capacity.py:213-227 | in any real interval of T whole seconds at most (T+1) bursts are admitted |
| QuotaCalls.AcceptedPerMinute | apps/api/app/services/capacity.py:225-226 | in any minute window at most 60 times the per-second rate is admitted |
| QuotaCalls.RetryReachesNextMinute | apps/api/app/services/capacity.py:225-226 | the suggested wait is in 1..60 and ends in the next minute window, less than a second into it |
| QuotaCalls.BurstRetryReachesNextSecond | apps/api/app/services/capacity.py:223-224 | a burst refusal's wait ends in the very next second |
| QuotaCalls.RefusedWaits | apps/api/app/services/capacity.py:223-227 | every refused call, under any interleaving, is told a wait that ends in the next window of the limit that refused it, for the minute the shortest whole one |
| QuotaCalls.WaitingHelps | apps/api/app/services/capacity.py:223-227 | an organization that makes no further call but one after waiting as told is not refused for the same reason again, and is admitted after a sustained-limit refusal |
| BodyLimit.ContentLength | apps/api/app/middleware/observability.py:101-105 | the value of the first numeric content-length header, if any |
| BodyLimit.ReadsDecimal | apps/api/app/middleware/observability.py:103-104 | the value read from the decimal digits of n, after any number of zeros, is n |
| BodyLimit.BodyLimitMiddleware.CountingReceive | apps/api/app/middleware/observability.py:61-72 | one read: the message, or on overflow the rejection and a disconnect, or a disconnect ever after |
| BodyLimit.BodyLimitMiddleware.GuardedSend | apps/api/app/middleware/observability.py:74-78 | forwarded unless rejected |
| BodyLimit.BodyLimitMiddleware.Reject | apps/api/app/middleware/observability.py:82-98 | a 413 start and its body are appended to what was sent |
| BodyLimit.BodyLimitMiddleware.CheckDeclared | apps/api/app/middleware/observability.py:53-56 | the application runs iff the first declared length, if any, is within the limit; otherwise only the rejection is sent |
| BodyLimit.DeclaredWithinLimit | apps/api/app/middleware/observability.py:53-56 | a single content-length header printing n lets the application run iff n is within the limit |
| BodyLimit.StreamLimit | apps/api/app/middleware/observability.py:58-80 | for every stream and reading pattern the application receives the longest fitting prefix and then disconnects; the client gets what was sent before the overflow and one rejection |
| BodyLimit.ApplicationNeverOverfed | apps/api/app/middleware/observability.py:58-80 | the application never receives more body bytes than the limit |
| BodyLimit.ReceivesWhileBytesFit | apps/api/app/middleware/observability.py:66-72 | in bytes: a read gets its message iff the body up to and including it is no longer than the limit, and what was received never is |
| BodyLimit.SecondStartIffAlreadyStarted | apps/api/app/middleware/observability.py:67-71 | a second response start goes out iff the body overflows after the application started its response |
| BodyLimit.SecondStartHappens | apps/api/app/middleware/observability.py:67-71 | an application that starts its response before reading an oversized body has the client see both starts |
| JudgeQuota.JudgeQuotaService.CheckAction | apps/api/app/services/judge_quota.py:64-110 | the verdict: allowed, exhausted, cooling down with a wait, or unknown action |
| JudgeQuota.JudgeQuotaService.ConsumeAction | apps/api/app/services/judge_quota.py:114-133 | one use is recorded on exactly one counter, a reset with its time; an unknown action is refused unchanged |
| JudgeQuota.AllowedIff | apps/api/app/services/judge_quota.py:64-110 | analyses, interactions and exports are each held against their own limit, resets against the cooldown, and any other name is unknown |
| JudgeQuota.ConsumesOne | apps/api/app/services/judge_quota.py:123-131 | each action's use is recorded on its own counter only, a reset's with its time |
| JudgeQuota.JudgeQuotaService.Spend | apps/api/app/api/judge.py:174-186 | check, then consume iff allowed |
| JudgeQuota.UsedIsAskedUpToLimit | apps/api/app/services/judge_quota.py:64-133 | for requests one after another an action is used min(times asked, limit) times, whatever resets and clocks do |
| JudgeQuota.ResetsRecorded | apps/api/app/services/judge_quota.py:129-131 | the record counts the resets carried out and holds the last one's time |
| JudgeQuota.ResetsSpanCooldowns | apps/api/app/services/judge_quota.py:91-110 | for requests one after another, any k consecutive resets span at least k-1 cooldowns |
| ResetOverlap.ResetsSpread | apps/api/app/api/judge.py:211-223 | with n reset requests in flight, each checking the record it loaded, and a clock that never goes back, of any n+1 consecutive resets the last is at least a cooldown after the first |
| ResetOverlap.ResetsAtOnce | apps/api/app/api/judge.py:211-223 | n overlapping requests can all reset at the same moment, for every n |
| JudgeQuota.RetryAfterClears | apps/api/app/services/judge_quota.py:102-110 | from the suggested wait on a reset is allowed, and more than a second earlier it is not |
| JudgeQuota.RetryAfterIffWaitingHelps | apps/api/app/services/judge_quota.py:79-110 | a denial carries a wait iff some later moment would be allowed |
| JudgeQuota.SpentStaysSpent | apps/api/app/services/judge_quota.py:79-89 | a spent budget is never refilled by any later requests, resets or time |
| JudgeOverlap.RecordedIffCurrent | apps/api/app/services/judge_quota.py:114-133 | with requests of several sessions interleaved, the stored count is the number of uses iff every commit wrote back a copy that was still current; the stored count never exceeds the limit, so then neither do the uses |
| JudgeOverlap.OverspendBound | apps/api/app/api/judge.py:169-187 | with n requests in flight at once a budget of L is used at most C(n + L, L) - 1 times, in every interleaving |
| JudgeOverlap.OverspendReached | apps/api/app/api/judge.py:169-187 | for every n and L there is an interleaving that uses it that often |
| JudgeOverlap.PathsAreBinomial | apps/api/app/api/judge.py:169-187 | the number in the bound, counted as lattice paths, is the binomial coefficient |
| JudgeOverlap.PathsOfFew | apps/api/app/api/judge.py:169-187 | the bound is L for one request at a time and L(L + 3) / 2 for two |
| JudgeOverlap.LostUpdate | apps/api/app/api/judge.py:174-187 | two overlapping requests use a budget of one twice, and one use is recorded |
| JudgeSandbox.JudgeSandboxService.Provision | apps/api/app/services/judge_sandbox.py:93-128 | a positive lifetime adds a sandbox that resolves as live for exactly that many hours; any other is refused without change |
| JudgeSandbox.JudgeSandboxService.ResolveAt | apps/api/app/services/judge_sandbox.py:153-171 | not found, gone, or the live record, decided from status and deadline |
| JudgeSandbox.JudgeSandboxService.ExpireDue | apps/api/app/services/judge_sandbox.py:182-199 | some min(limit, due) of the sandboxes past their deadline are marked and counted, nothing else changes, and below the limit none is left |
| JudgeSandbox.SweepObservableIff | apps/api/app/services/judge_sandbox.py:153-208 | marking a sandbox changes how it resolves iff it was marked and would still be live at the query |
| JudgeSandbox.SweepUnobservable | apps/api/app/services/judge_sandbox.py:153-199 | a sweep no later than the query never changes an outcome, for any limit and choice |
| JudgeSandbox.SweepShrinksDue | apps/api/app/services/judge_sandbox.py:183-199 | a sweep reports exactly how many fewer sandboxes are due |
| JudgeSandbox.SweepsNeverObserved | apps/api/app/services/judge_sandbox.py:156-199 | over whole runs every organization resolves as if no sweep had ever run |
| JudgeSandbox.KeysNeverCollide | apps/api/app/services/judge_sandbox.py:40-67 | for colon-free scopes two keys are equal iff scopes and joined parts are |
| JudgeSandbox.KeyIs | apps/api/app/services/judge_sandbox.py:55-67 | a key is the prefix, environment, organization, session and part, separated by colons |
| JudgeSandbox.DeploymentModesAreColonFree | apps/api/app/config/settings.py:14 | every environment the settings accept is colon-free, so scopes are separated |
| JudgeSandbox.JoinIsInjective | apps/api/app/services/judge_sandbox.py:67 | colon-free parts can be read back from a key |
| JudgeSandbox.ColonInPartAliases | apps/api/app/services/judge_sandbox.py:56-67 | a part with a colon shares its key with the two parts around it |
| JudgeSandbox.ColonInEnvironmentAliases | apps/api/app/services/judge_sandbox.py:55-67 | the key function alone does not separate scopes: an environment that spelled out another scope would share keys with it |
| SandboxReset.SandboxResetService.DeleteOwned | apps/api/app/services/judge_sandbox.py:266-271 | one delete removes and counts exactly the organization's rows of one table |
| SandboxReset.SandboxResetService.Plant | apps/api/app/services/judge_sandbox.py:303-328 | seeding adds the fixture's rows under the organization, table by table |
| SandboxReset.SandboxResetService.Reset | apps/api/app/services/judge_sandbox.py:256-275 | every listed table loses exactly the organization's rows, each count is reported, the fixture is written, no other table changes |
| SandboxReset.ResetRestores | apps/api/app/services/judge_sandbox.py:256-275 | whatever the session had, after a reset it sees exactly the fixture in the listed tables and what it saw before in all others, and no other organization sees any difference |
| SandboxReset.SandboxesAreIsolated | apps/api/app/services/judge_sandbox.py:256-263 | in every run of writes and resets by any number of organizations each sees in every table what it would have seen alone |
| SandboxReset.ResetIsAFreshStart | apps/api/app/services/judge_sandbox.py:272-275 | after any run a reset, under its own fresh ids, shows the session in every listed table the same fixture items as its first seeding and nothing else |
| Deployments.DeploymentRepository.EnqueueJob | apps/api/app/repositories/deployments.py:199-219 | added iff the deployment has no job of the type; otherwise unchanged |
| Deployments.DeploymentRepository.ClaimJobs | apps/api/app/repositories/deployments.py:221-244 | claims pending jobs up to the limit in order of creation, none left over being older, one attempt each |
| Deployments.DeploymentRepository.CompleteJob | apps/api/app/repositories/deployments.py:246-252 | closes the job; an id without a row is ignored |
| Deployments.DeploymentRepository.ClearJob | apps/api/app/repositories/deployments.py:254-263 | removes exactly the deployment's job of the type |
| Deployments.DeploymentRepository.ActivateTripwires | apps/api/app/repositories/deployments.py:267-295 | the loop adds a row per item whose trace is new and returns the number of distinct new traces |
| Deployments.DeploymentRepository.SetTripwireStatus | apps/api/app/repositories/deployments.py:297-306 | all of the deployment's tripwires get the status, no others, and are counted |
| Deployments.ActivationAddsOnly | apps/api/app/repositories/deployments.py:275-295 | existing tripwires stay as they are, every trace of the items has one, new ones are active |
| Deployments.FirstItemWins | apps/api/app/repositories/deployments.py:277-293 | of several items with one new trace the first is monitored, with its decoy, its path and the commit |
| Deployments.RepeatActivatesNothing | apps/api/app/repositories/deployments.py:267-306 | activating again returns 0, changes nothing and never revives a tripwire, whatever status was set in between |
| Deployments.FullyMonitoredIffDistinct | apps/api/app/services/deployment/service.py:172-181 | the count check after a merge passes on a fresh deployment iff there are items and their traces are all different |
| DeploymentRuns.UniqueJobs | apps/api/app/models/records.py:436-443 | in every reachable state at most one job row per deployment and type |
| DeploymentRuns.LateFinishIsIgnored | apps/api/app/repositories/deployments.py:246-263 | finishing a job that was cleared changes nothing, not even its replacement |
| DeploymentRuns.CarriedOutOncePerClear | apps/api/app/models/records.py:436-443 | for all racing requests and workers, a deployment's job is claimed by committed transactions at most once plus once per clear |
| Learning.LearningRepository.CreateCandidate | apps/api/app/repositories/learning.py:347-374 | adds one candidate, activating nothing |
| Learning.LearningRepository.ActiveVersion | apps/api/app/repositories/learning.py:392-398 | some active version of the organization, or none iff there is none |
| Learning.LearningRepository.SetStatus | apps/api/app/repositories/learning.py:400-422 | the record gets the status with its time stamp, approver or reason; activation archives one previously active version, and nothing else changes |
| Learning.ActiveAfterStatus | apps/api/app/repositories/learning.py:408-421 | how any status change alters the set of active versions, however many there were |
| Learning.SingleActiveKept | apps/api/app/repositories/learning.py:408-421 | with at most one active before, activation leaves exactly the activated version |
| Learning.SeveralActiveStaySeveral | apps/api/app/repositories/learning.py:409-413 | with several active, activating another never brings their number down |
| Learning.AlwaysSingleActive | apps/api/app/repositories/learning.py:347-422 | for creations and status changes one after another each organization has at most one active version |
| VersionRaces.UndisturbedIsAtomic | apps/api/app/repositories/learning.py:400-422 | a request that nobody interleaves with is one atomic status change |
| VersionRaces.ActivationKeepsSingleIff | apps/api/app/repositories/learning.py:409-421 | a committed activation leaves at most one version active iff every version active at the commit is the activated one or the one the request had found |
| VersionRaces.AlwaysSingleIffGuarded | apps/api/app/models/records.py:1422-1430 | over runs of overlapping requests at most one version was active throughout iff no activation had missed one |
| VersionRaces.TwoActive | apps/api/app/repositories/learning.py:392-421 | two overlapping activations of different candidates leave both active |
| Learning.LearningRepository.RecordFeedback | apps/api/app/repositories/learning.py:162-205 | a repeat of the latest opinion returns it; otherwise the next revision is added, or refused by the unique constraint |
| FeedbackRuns.ThreadsAreContiguous | apps/api/app/repositories/learning.py:162-205 | for submissions one after another, of kinds that fit the column, each thread is numbered 1, 2, 3 and records exactly the changes of opinion |
| FeedbackRuns.ShortKindsNeverFail | apps/api/app/models/records.py:1365-1373 | and then, one after another, no submission is refused |
| FeedbackRuns.ResubmissionIsNoOpIffKindFits | apps/api/app/repositories/learning.py:174-192 | resubmitting changes nothing and returns the same record iff the kind has at most 24 characters |
| FeedbackRuns.LongKindFailsOnSecond | apps/api/app/repositories/learning.py:174-199 | with a longer kind an identified actor's second submission is always refused |
| FeedbackRaces.RefusedIffOutdated | apps/api/app/repositories/learning.py:174-199 | with lookup and insert as separate statements, an identified actor's insert is refused iff the record it had found is no longer the latest of its thread |
| FeedbackRaces.InOrderIffAllCurrent | apps/api/app/repositories/learning.py:174-199 | with submissions overlapping in any way a thread is numbered 1, 2, 3 iff every insert into it had found the latest record |
| FeedbackRaces.ActorsStayInOrder | apps/api/app/models/records.py:1365-1373 | for identified actors the unique constraint keeps every thread in order, whatever overlaps |
| FeedbackRaces.DoubleClickFails | apps/api/app/repositories/learning.py:184-199 | of two overlapping submissions the second is refused for an identified actor and recorded as a second revision 1 without one |
| Encryption.DecodeUndoesEncode | apps/api/app/services/encryption.py:52-58 | base64url decoding undoes encoding for every byte string |
| Encryption.EncodedIsUrlSafe | apps/api/app/services/encryption.py:52-54 | the encoding has whole groups of four, uses only the URL-safe alphabet and pad, and never the separator |
| Encryption.SymbolsInOrder | apps/api/app/services/encryption.py:53 | the 64 symbols in order, as in table 2 of RFC 4648 |
| Encryption.TestVectors | apps/api/app/services/encryption.py:53 | test vectors of section 10 of RFC 4648 |
| Encryption.UnwrapUndoesWrapIff | apps/api/app/services/encryption.py:16-17 | an envelope is read back as written iff mode and key version contain no separator |
| Encryption.EnvelopeIs | apps/api/app/services/encryption.py:49-72 | an envelope is the provider's mode, key version and payload, separated by colons |
| Encryption.KeyVersionIs | apps/api/app/services/encryption.py:33-34 | the key version is k and the first twelve hexadecimal digits of the digest |
| Encryption.DecryptUndoesEncrypt | apps/api/app/services/encryption.py:46-79 | both providers give back every plaintext, under every key |
| Encryption.UnsealUndoesSeal | apps/api/app/repositories/artifacts.py:70-78 | sealed text is read back and never mistaken for a legacy plaintext row |
| Encryption.LegacyRowsAreReturned | apps/api/app/repositories/artifacts.py:74-78 | a stored value is returned as it is if it starts with a brace, and decrypted otherwise |

## Left out

- HTTP routing, authentication, user interface, browser extension and API clients; SQLAlchemy, PostgreSQL and Redis themselves. A row is a map entry, a unique constraint a guarded insert, a conditional update one atomic step, an unordered `LIMIT` any choice of rows, equal sort keys any order.
- SHA-256, HMAC, Fernet, UTF-8 and JSON: parameters, of which only the stated round trip (or injectivity, for hashed alert ids) is assumed; `CodecWitness` shows that functions with these properties exist. The severity and the confidence of an alert, which are only compared, are ranks.
- UUIDs are integers that are only compared and never issued twice; timestamps are integers except where fractions of a second matter (quota gate, judge cooldown).
- `reset_organization` in the artifact repository deletes revisions wholesale and would restart their numbering; it is not a step of the revision runs.
- Reusing the latest narrative when its context is unchanged: such a call stores nothing and is not a step.
- JudgeSandbox.JudgeSandboxService.Provision: the credential and the first seeding are not part of the session record; the fixture is in `SandboxReset`.
- OutboxWorkers.GuardedMeansExclusive: describes callers that commit every repository call by itself; the program's worker does not, and is described by `OutboxTransactions`. The other results of `OutboxWorkers` are likewise about such callers.
- Purging of closed deliveries and dead letters is not a step of the outbox runs; the batched deletion it uses is modelled by itself.
- The choice between retry and dead letter in the delivery worker (backoff, Retry-After, maximum attempts and age) is left open: the workers may finish a delivery in any way.
- Reconstruction of incidents from alerts: the worker's processing is an arbitrary success or failure per job.
- What the fixture contains, and the judge credential minted with a sandbox: a fixture is any list of rows for resettable tables.
- Capacity estimates and tenant-limit administration; the Redis branch of the quota gate and its store-unavailable refusal.
- Metrics, request ids and headers of the 413 response; non-HTTP scopes, which bypass the body limit.
- Deployment status transitions, learning approval rules, audit rows, role catalogues, settings validation and record-to-summary mappings: easy members.
- Retention.IncidentStore.RetireStale: the size guard is not modelled; its only caller, the lifecycle job, sets no size limit.
- ClaimRace.ExclusiveClaim: the update and the attempt count that follows it are one step, as only the winner writes that count, and claims are committed at once; transactions are in `FairInterleaving`.
- OfflineQueue.AgentClient.constructor: a queue limit of zero is excluded; there the program fails on its first undelivered event. Signing of requests is not modelled, and a raised transport error counts as status 0.
- QuotaCalls.DecidesByIdealCounts: assumes each call finishes its increments within a second of reading the clock; `QuotaGate.IdealIffInTime` says exactly what happens otherwise.
- AlertAccounting.TriggerStaysRelated: the query's row limit may still cut off an old trigger when more than the limit of newer alerts match.
- JudgeQuota.JudgeQuotaService.Spend: a request rejected for other reasons between check and consume spends nothing and is not part of a run. Overlapping requests are in `JudgeOverlap` and `ResetOverlap`.
- ResetOverlap.ResetsSpread: a reset takes its moment and commits in one step, as nothing happens in between.
- DeploymentRuns.CarriedOutOncePerClear: rolled-back worker transactions, and what they have done outside the database, are not steps.
- Encryption.DecryptUndoesEncrypt: the decoder's treatment of malformed input follows the lenient library decoder but nothing is claimed about it.
