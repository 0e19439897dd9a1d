# Railway bridge defect priorities: a verified model

The backend keeps four versioned aggregates (bridge assets, inspection rounds, defect findings and
priority decisions) and limits the rate of requests. This project models its write protocols, its
local rate limiter, its paging and its audit summary, and proves what they keep.

**The protocol.** A write request reads a row, checks its guards on that copy, edits the copy, and writes
the whole row back where the row still has the version the *client* sent; a priority decision adds a
revision in the same transaction; the audit row follows as a separate step that may fail, and the answer is
read from the tables again after that. The service never compares the version it read with the version the
client sent. So whether the guards were checked on the row that is overwritten depends on all the other requests
in between.

**How it is modelled.** `decisions.dfy` holds the tables and the two halves of a call, `Prepare` (read and
guards) and `Write` (the transaction on tables that may have moved on). `store.dfy` has the repository, the
audit service and the decision service as classes; their methods are proved against `Execute`, which is
`Prepare` followed at once by `Write`. `interleaving.dfy` lets any number of requests take the same halves as
separate steps in any order, with storage failures, lost acknowledgements of commits and appends, failed audit
appends, deletions, and readers that fetch a row and its revisions in two queries. Results are about every state of every such run.

**What comes out.**

* In every run, whatever versions clients send: revisions are gapless and end in the row, nobody decides
  a priority they prepared, every past row is on record, split reads are coherent, deleted rows are frozen, and
  the answer to a committed write shows that write, unless the row has been deleted since.
* An edit overwrites the row its guards saw exactly when the version sent is not above the version read.
* When clients only send versions that have been reached: decided priorities are final, histories are drafts
  followed by at most one decision with the last draft's evidence, the audit log tells only of committed
  changes, and runs are serialisable, in commit order or any other, exactly when no deletion overtakes a decision.
* `Races` shows both hypotheses are needed. An update or a transition that was checked on a draft can change a
  later decision exactly when the version it carries is above the draft's. A deletion carries no version, so it
  can delete a priority that was decided after its check. `AggregateRaces` has the same exact condition for edits
  that leave the transition graph of the three shared aggregates.
* The rate limiter's local table answers with a key's exact count for the minute exactly when neither a call of the
  key in another minute nor a cleanup at a later clock reading came in between. The configured limit is exceeded
  exactly when calls are forgotten while more follow and the key makes more calls than the limit; no key is ever
  refused before it has had its limit.

**Where code and documentation differ.** README.md:42 of the repository says that every status change uses
the optimistic lock and is written to the audit log; the code can commit a transition and then fail to append its
row (the caller is told of an error), it can answer not-found to a transition that is committed and logged when the
row is deleted just then, and a deletion takes no version. README.md:44 calls the decided statuses final without
exception; the code keeps that only for versions that had been reached. The model follows the code.

**Inputs that stand for the outside.** Text fields arrive trimmed (codes upper-cased). Request ids and the fate of
an audit append are parameters; a failing database is a step of a run. Ids of new rows are fresh.

## Model

| member | source | states |
|---|---|---|
| StatusGraph.DecisionEdges | backend/internal/constants/status.go:50-60 | a draft leads exactly to observe, restrict and urgent, and these lead nowhere |
| StatusGraph.BridgeAssetEdges | backend/internal/constants/status.go:28-33 | the edges between active, restricted, closed and retired, and no others |
| StatusGraph.InspectionRoundEdges | backend/internal/constants/status.go:35-40 | the edges between planned, running, review and completed, and no others |
| StatusGraph.DefectFindingEdges | backend/internal/constants/status.go:42-48 | the edges between new, verified, monitoring, mitigated and closed, and no others |
| RevisionChain.HistoryIsTheRetrieval | backend/internal/repository/priority_decision.go:52-58 | over sound tables the query for a decision's revisions by ascending version has one possible answer, each stored revision once, and the history is that answer |
| RevisionChain.EditIsWrittenExactlyWhen | backend/internal/repository/priority_decision.go:69-84 | over sound tables an edit from any copy is written iff the row is live at the version sent, else it is a version conflict, never a duplicate revision; the columns come from the copy as changed, but for code, preparer and deletion mark |
| RevisionChain.CreateIsWrittenExactlyWhen | backend/internal/repository/priority_decision.go:59-68 | a creation is written iff no row, live or deleted, has its code, else it is a duplicate key; row and revision are added |
| RevisionChain.DeleteIsWrittenExactlyWhen | backend/internal/repository/base.go:72-81 | a deletion is written iff the row is live, in whatever status, and marks the row alone, else it is not found |
| RevisionChain.WriteKeepsSound | backend/internal/repository/priority_decision.go:59-87 | any write, from however stale a copy, keeps revisions chained to rows, duties separate and codes distinct, and only extends the tables |
| SequentialCalls.CreateAlone | backend/internal/service/priority_decision.go:43-68 | the row and first revision a creation leaves, or its error: invalid iff one of the six fields is blank, else duplicate iff a row, live or deleted, has its code |
| SequentialCalls.UpdateAlone | backend/internal/service/priority_decision.go:70-106 | an edit is accepted iff the row is a live draft at the version sent, the caller its preparer or an admin and the five fields filled in; it replaces the business fields and nothing else and appends one revision |
| SequentialCalls.UpdateRefusals | backend/internal/service/priority_decision.go:71-101 | which error a refused edit reports, each with its exact condition, in the order of the guards |
| SequentialCalls.TransitionAlone | backend/internal/service/priority_decision.go:108-138 | when a decision is accepted, and that it replaces the status and nothing else and carries the evidence into its revision |
| SequentialCalls.TransitionRefusals | backend/internal/service/priority_decision.go:109-133 | which error a refused decision reports, each with its exact condition, in the order of the guards |
| SequentialCalls.DeleteAlone | backend/internal/service/priority_decision.go:140-151 | a live draft is marked deleted and nothing else changes; a live row in another status is locked, any other is not found |
| SequentialCalls.AnswerAlone | backend/internal/service/priority_decision.go:43-152 | the tables, log and answer of a whole call: nothing for a refused one, the row and its history for a written one, an error after a lost entry of a transition or deletion |
| SequentialCalls.EntryAlone | backend/internal/service/priority_decision.go:66-151 | the entry of a written call, field by field, with the status of its row before and after |
| SequentialCalls.DecidedRowsOutlastAllCalls | backend/internal/service/priority_decision.go:75-77 | over any sequence of whole calls a decided row and its history never change and it is never deleted |
| SequentialCalls.CallsKeepSound | backend/internal/service/priority_decision.go:43-152 | any sequence of whole calls keeps the tables sound and only extends them |
| DecisionService.PriorityDecisionRepository.Get | backend/internal/repository/priority_decision.go:52-58 | the live row, if there is one, with exactly its revisions |
| DecisionService.PriorityDecisionRepository.CreateWithRevision | backend/internal/repository/priority_decision.go:59-68 | row and revision go in together under a new id, or neither does |
| DecisionService.PriorityDecisionRepository.UpdateWithRevision | backend/internal/repository/priority_decision.go:69-84 | the conditional update and the revision happen together, or neither does |
| DecisionService.PriorityDecisionRepository.Delete | backend/internal/repository/base.go:72-81 | only a live row is marked deleted |
| DecisionService.SecurityService.Audit | backend/internal/service/security.go:58-73 | one row with defaulted actor and request id is appended, or an error is reported and none is |
| DecisionService.PriorityDecisionService.Create | backend/internal/service/priority_decision.go:43-68 | tables, audit log and answer of the whole call; sound tables stay sound |
| DecisionService.PriorityDecisionService.Update | backend/internal/service/priority_decision.go:70-106 | tables, audit log and answer of the whole call; sound tables stay sound |
| DecisionService.PriorityDecisionService.Transition | backend/internal/service/priority_decision.go:108-138 | tables, audit log and answer of the whole call, including the error after a committed write whose audit append failed |
| DecisionService.PriorityDecisionService.Delete | backend/internal/service/priority_decision.go:140-152 | tables, audit log and answer of the whole call; sound tables stay sound |
| Correspondence.UninterruptedRequestIsTheMethod | backend/internal/service/priority_decision.go:43-152 | a stepwise request that nothing interrupts leaves the tables, audit log and answer of the service method |
| Correspondence.UninterruptedRequestCommits | backend/internal/service/priority_decision.go:43-152 | such a request enters one commit iff the method wrote, with the row read and the row overwritten |
| Correspondence.UninterruptedReaderIsTheGet | backend/internal/repository/priority_decision.go:52-58 | a reader that nothing interrupts gives the live row with its history, or finds nothing |
| Interleaving.RunKeepsInv | backend/internal/repository/priority_decision.go:52-84 | at every point of every overlapping run the tables are sound, and every copy, partial answer and answer in a request's hands is one the row has been in and moved on from |
| Interleaving.RunExtends | backend/internal/model/priority_decision.go:29-32 | later tables extend earlier ones: append-only revisions, rising versions, a version fixes its content |
| Safety.RevisionsAreAChain | backend/internal/repository/priority_decision.go:69-84 | each decision's revisions are versions 1 to the row's, and the last records the row |
| Safety.RevisionIndexIsUnique | backend/internal/model/priority_decision.go:34-35 | no two places of the revision table share a decision and a version; a later place has a higher version |
| Safety.NobodyDecidesTheirOwn | backend/internal/service/priority_decision.go:116-118 | a deciding revision's actor is never the preparer, even with stale reads and arbitrary versions |
| Safety.EveryPastRowIsOnRecord | backend/internal/service/priority_decision.go:165-176 | the row as it stood at any earlier point is recorded for good by the revision of its version |
| Safety.SnapshotsReplay | backend/internal/service/priority_decision.go:165-176 | from empty tables, decoding the snapshot of a version gives back the row of that version |
| Safety.SplitReadsAreCoherent | backend/internal/repository/priority_decision.go:52-58 | a row and revisions read apart are gapless, reach the row's version, and agree with it there |
| Safety.RowsKeepTheirIdentity | backend/internal/repository/priority_decision.go:71-74 | codes and preparers never change; deleted rows and their revisions never change or reappear |
| Safety.CodesAreNeverReused | backend/internal/model/base.go:11-20 | no two rows, live or deleted, ever share a code |
| ObservedVersions.WriteIsFreshExactlyWhen | backend/internal/service/priority_decision.go:95-101 | in any run a written edit overwrites the very row its guards saw iff the version sent is at most the version read |
| ObservedVersions.DecisionsAreFinal | backend/internal/service/priority_decision.go:75-77 | with reached versions no step of any request changes a decided row, but for deletion, or adds a revision to it |
| ObservedVersions.HistoriesKeepTheirShape | backend/internal/service/priority_decision.go:120-131 | all revisions but the last are drafts, and a decision repeats the evidence of the draft before it |
| Serialisation.CommitIsTheCallAlone | backend/internal/service/priority_decision.go:70-152 | a committed write does what the whole call would do alone, unless it is a deletion that lost a race |
| Serialisation.RunsAreSerialisable | backend/internal/service/priority_decision.go:43-152 | rows and revisions equal those of the committed calls run one at a time, or else some committed deletion found its row decided and would be refused |
| Overtaking.RunsAreSerialisableExactlyWhen | backend/internal/service/priority_decision.go:108-152 | the replay of the committed calls gives the tables iff no transition committed between the check and the committed write of a deletion of its row |
| Overtaking.SomeOrderExplainsExactlyWhen | backend/internal/service/priority_decision.go:43-152 | some whole calls, run one at a time in whatever order, give the tables of the run iff no transition committed between the check and the committed write of a deletion of its row |
| Overtaking.DecidedRowsAreDeletedExactlyWhen | backend/internal/service/priority_decision.go:140-152 | a decided row is found deleted iff the schedule has a committed transition of it between the check and the committed write of a deletion |
| Serialisation.EveryRevisionIsAccountedFor | backend/internal/service/priority_decision.go:78-80 | every revision was written by one committed call whose actor and role entitled it to the row it found |
| AuditTrail.AuditTellsOfCommittedChanges | backend/internal/service/priority_decision.go:123-137 | transition audit rows are a sub-multiset of committed status changes, and equal them iff the audit append of every committed transition has succeeded |
| AuditTrail.AnsweredTransitionsAreTold | backend/internal/service/priority_decision.go:134-137 | when every committed transition has been answered with success the log tells of all of them |
| AuditTrail.EveryEntryDescribesACommit | backend/internal/service/priority_decision.go:66-151 | every row of the log, of each of the four actions, has a committed call whose caller, request, found status and left status it names |
| AuditTrail.ReportedSuccessIsLogged | backend/internal/service/priority_decision.go:123-151 | a transition or deletion answered with success has committed, and the log has its row, naming caller, request, the status found and the status left |
| Answers.AnswersShowTheWrite | backend/internal/service/priority_decision.go:67-151 | in any run the answer to a committed write is a row no older than what was written with the call's own revision in its history, or not-found only for a row deleted since |
| Races.EditCanOverwriteExactlyWhen | backend/internal/service/priority_decision.go:95-133 | an update or transition admitted on a draft can change a later decision, in its status or otherwise, iff its version is above the draft's |
| Races.DeletionCanOvertakeADecision | backend/internal/service/priority_decision.go:137-150 | any live draft can be decided and logged between a deletion's check and its write, ends deleted, and the deciding caller is answered not-found |
| Seeding.SeedPriorityDecisions | backend/internal/database/database.go:206-253 | seeding inserts its three decisions, or nothing; it fails iff no row is live and a deleted row holds one of their codes |
| Seeding.FreshTablesAreSound | backend/internal/database/database.go:212-252 | empty and freshly seeded tables satisfy the invariants that every run starts from |
| Seeding.FreshTablesHold | backend/internal/database/database.go:212-252 | the three rows and five revisions of a freshly seeded database, field by field |
| Aggregates.CallsAlone | backend/internal/service/defect_finding.go:42-123 | for each call the first thing wrong, in the order of the guards and with the four fields it needs, or the one row it leaves changed |
| Aggregates.StaleWrites | backend/internal/repository/base.go:55-81 | what is written from any copy: an edit needs the row live at the version sent and takes its columns from the copy as changed, but for code and deletion mark |
| Aggregates.UninterruptedRequestIsTheCall | backend/internal/service/defect_finding.go:42-123 | a stepwise request that nothing interrupts leaves the rows, error and commit of the whole call |
| Aggregates.RunExtends | backend/internal/repository/base.go:59-81 | in any run codes never change, no version falls, a version fixes its content, and deleted rows are frozen |
| Aggregates.VersionsCountTheWrites | backend/internal/repository/base.go:59-70 | in any run the version of a row counts the writes made to it |
| Aggregates.CodesAreNeverReused | backend/internal/model/base.go:11-20 | no two rows, live or deleted, at any time of a run share a code |
| Aggregates.WriteIsFreshExactlyWhen | backend/internal/repository/base.go:59-70 | in any run a written edit overwrites the very row its guards saw iff the version sent is at most the version read |
| Aggregates.StatusesWalkTheGraph | backend/internal/service/inspection_round.go:64-112 | with reached versions statuses walk the entity's graph from its first status, one for each version |
| Aggregates.CommitsAreLawful | backend/internal/service/defect_finding.go:64-112 | with reached versions no committed business edit changes a status, every committed transition follows an edge from the status it found |
| AggregateRaces.EditCanLeaveTheGraphExactlyWhen | backend/internal/service/inspection_round.go:64-112 | an admitted edit can undo a transition it never saw, or make one the graph lacks, iff its version is above the row's |
| Aggregates.StatusesAreKnown | backend/internal/constants/status.go:28-48 | whatever versions clients send, no row ever has a status outside its entity's graph |
| Aggregates.RunsAreSerialisable | backend/internal/service/bridge_asset.go:42-123 | with reached versions overlapping runs leave the rows of the committed calls run one at a time, deletions included |
| AggregateServices.Store.Update | backend/internal/repository/base.go:59-70 | the conditional update writes all but id, code and deletion mark, or reports a conflict |
| AggregateServices.CreateLeaves | backend/internal/service/bridge_asset.go:42-62 | table, error and log of a creation, column by column |
| AggregateServices.UpdateLeaves | backend/internal/service/defect_finding.go:64-90 | table, error and log of an edit, column by column; the status stays, in the row and in the log |
| AggregateServices.TransitionLeaves | backend/internal/service/defect_finding.go:92-112 | table, error and log of a transition, column by column |
| AggregateServices.DeleteLeaves | backend/internal/service/defect_finding.go:114-123 | table, error and log of a deletion, column by column |
| AggregateServices.NewRowsStart | backend/internal/model/bridge_asset.go:25 | the first status of each entity and the name it has in the log |
| AggregateServices.AggregateService.Create | backend/internal/service/bridge_asset.go:42-62 | table, whole audit log and answer of the whole call |
| AggregateServices.AggregateService.Update | backend/internal/service/inspection_round.go:64-90 | table, whole audit log and answer of the whole call |
| AggregateServices.AggregateService.Transition | backend/internal/service/defect_finding.go:92-112 | table, whole audit log and answer of the whole call, with the statuses before and after in the new entry |
| AggregateServices.AggregateService.Delete | backend/internal/service/defect_finding.go:114-123 | table, whole audit log and answer of the whole call |
| RateLimiter.AnswerIsExactExactlyWhen | backend/internal/middleware/ratelimit.go:71-94 | for any clock a call is answered with at most the calls of its key in its minute, and with all of them iff neither a call of the key in another minute nor a cleanup at a later reading came in between |
| RateLimiter.AnswersAreExact | backend/internal/middleware/ratelimit.go:71-94 | while no minute follows a later one, each call is answered with the number of calls of its key in its minute, though old entries are dropped |
| RateLimiter.TheTableNeverOvercounts | backend/internal/middleware/ratelimit.go:71-94 | whatever the clock does, no bucket counts more calls than were made |
| RateLimiter.ClockStepsBack | backend/internal/middleware/ratelimit.go:76-79 | a clock that steps back makes the third call of a minute count as the first |
| RateLimiter.MemoryIsBounded | backend/internal/middleware/ratelimit.go:85-94 | for any clock the table holds at most 512 entries or as many as there are keys called in the current minute or a later one |
| RateLimiter.MemoryWhileMinutesAdvance | backend/internal/middleware/ratelimit.go:85-94 | while no minute follows a later one, at most 512 entries or as many as the current minute has keys |
| Admission.NoKeyGetsLess | backend/internal/middleware/ratelimit.go:37-55 | for any clock a key gets at least its limit of calls in a minute, or all it made if fewer |
| Admission.LimitHoldsExactlyWhen | backend/internal/middleware/ratelimit.go:37-55 | the local counter keeps a key to the configured limit in a minute iff the limit is below one, or the key makes no more calls than that, or no call is forgotten while more follow |
| Admission.AllLimitsHoldExactlyWhen | backend/internal/middleware/ratelimit.go:37-55 | every limit is kept iff no call of the key in the minute is forgotten while more follow |
| Admission.AdmissionIsExact | backend/internal/middleware/ratelimit.go:37-55 | while no call is forgotten a key gets exactly its limit of calls in the minute, or all it made if fewer |
| Admission.AnySixtySeconds | backend/internal/middleware/ratelimit.go:37-55 | a key gets at most twice its limit in any sixty seconds, if it is kept to the limit in the two minutes they meet |
| Admission.LimitsWhileMinutesAdvance | backend/internal/middleware/ratelimit.go:37-55 | while no minute follows a later one a key gets exactly its limit in a minute, or all it asks for, and at most twice the limit in any sixty seconds |
| Admission.TwoCountersAdmit | backend/internal/middleware/ratelimit.go:40-69 | the requests of a trace that were let through are those Redis let through and those the local counter did, none twice |
| Admission.RedisAddsItsLimit | backend/internal/middleware/ratelimit.go:40-69 | for any clock and however Redis fails, the requests let through are at most the limit more than the local counter lets through |
| Admission.AnyFailuresOfRedis | backend/internal/middleware/ratelimit.go:40-69 | at most twice the limit of a key's requests are let through in a minute, whatever Redis does, iff the local counter keeps to the limit on the calls that fall back to it |
| Admission.FailuresWhileMinutesAdvance | backend/internal/middleware/ratelimit.go:40-69 | in particular while no minute follows a later one on the clock of the local counter |
| Admission.Limiter.CleanupLocal | backend/internal/middleware/ratelimit.go:85-94 | the deleting loop keeps exactly the buckets of the current window and of later ones, once there are 512 |
| Admission.Limiter.IncrementLocal | backend/internal/middleware/ratelimit.go:71-83 | the answer is at most the naive count, and equals it iff nothing displaced the minute; memory stays bounded for any clock |
| Admission.Limiter.Admit | backend/internal/middleware/ratelimit.go:37-55 | a request is admitted iff the counter that answers it is within the limit; the local one counts only after Redis failed, and the request is entered in the trace |
| Listing.NormalizePage | backend/internal/repository/base.go:102-113 | pages start at 1, sizes lie in 1 to 100; values in range are kept, a page below 1 is 1, a size below 1 is 20 and one above 100 is 100 |
| Listing.EveryPage | backend/internal/repository/base.go:44-45 | the rows of every page, for every page number and size sent, and where it starts once the 64-bit offset wraps around |
| Listing.ListingIsUnique | backend/internal/repository/base.go:44-45 | update time and id leave one order only, so separate requests sort alike |
| Listing.PagesPartitionTheListing | backend/internal/repository/base.go:29-47 | pages 1 to ceil(total/size), fetched apart, give every matching row once, in descending order of update time and id |
| AuditSummaries.GroupingAnswers | backend/internal/repository/security.go:79-88 | each name in the window is shown once, largest counts first, with the number of places of the log it stands at |
| AuditSummaries.WindowCounts | backend/internal/repository/security.go:67-77 | each entry made at the start of the window or later counts once, and no other does |
| AuditSummaries.SummarizeAudits | backend/internal/repository/security.go:62-90 | every number and group counts places of the log its query finds; with appends between the queries total <= sum by action <= sum by entity and transitions <= their action's count, with equality when nothing is appended |

## Left out

- AnyFailuresOfRedis: Redis is an atomic counter per key and minute that is not reset within the minute; it may count increments of other servers too.
- PagesPartitionTheListing: is about rows that do not change between the requests, and totals below 2^63.
- SeedPriorityDecisions: is stated for sound tables, which is what every run leaves; the three business contents are parameters.
- SnapshotsReplay: seeded revisions keep a reduced text, so replay starts from empty tables; the id in a first snapshot is 0, as in the code, and is not part of what is recovered.
- Versions are unbounded naturals: wrap-around would take 2^64 - 1 accepted writes of one row.
- Timestamps of rows, revisions and audit rows, except as the sort key of listings and the window of the summary.
- Trimming and upper-casing of text, the LIKE search, JSON text and field lengths; the search is an arbitrary set of matching ids.
- The audit rows of the three shared aggregates in overlapping runs; the log is modelled there for whole calls only.
- In overlapping runs of the shared aggregates a lost acknowledgement is not told apart from a success; neither changes the rows.
- The decision list, which is the generic list with revisions preloaded, and counts by status.
- SummarizeAudits: groups of equal count come in one of the orders the query allows.
- Audit list pages, whose order by creation time alone is not total, and per-entity history.
- Audit action text is shortened; login, tokens, sessions, configuration, HTTP handlers, routing and role middleware: plumbing.
- Go's zero time as the window of an absent bucket is window 0 of the model's clock.
