# Verified model of the airworthiness release backend

The backend keeps release authorizations and certificates as versioned records. A request fetches a
private copy, checks status graph, role, lock and separation of duty on that copy, edits it, and writes
it back in one transaction: a conditional update on the version the *client* sent, a revision, and an
audit row. Any number of requests run at once, and any statement may fail. This project models that
protocol in Dafny and proves what it keeps, together with the batched listing, the in-memory rate
limiter, and aircraft parts as the case whose audit is written outside the transaction.

`dafny verify dfyconfig.toml` checks everything.

## How the model is built

| file | content |
|---|---|
| `Text`, `Results`, `Lifecycle`, `Records` | trimming and codes, results and errors, status graphs, tables |
| `Repository` | statements and transactions as functions of the tables, with a fault before each statement and at commit |
| `Service` | checks and edits on the fetched copy, for both kinds of record |
| `Rules`, `Answers` | the same in plain terms: edges, roles, names, errors and columns, of each request and each step, without the tables and functions it is computed by |
| `Protocol` | tables plus requests in flight; every client step is an event, a run is any sequence of events |
| `Invariant`, `Concurrency` | what every run keeps, whatever versions callers send and whatever fails |
| `Refinement` | requests executed atomically, and the refinement of interleaved runs to them |
| `Lawful`, `Guarantees` | what the rules of the services make of whole histories |
| `Unserved` | what of these rules survives when callers send versions they never read |
| `Words` | the languages of status sequences of authorizations and certificates, both inclusions |
| `Boundaries` | counter-runs, deletes, demonstration records |
| `Backend` | the program: a mutable store with rollback, and services that edit a copy field by field between other clients' steps |
| `Listing`, `RateLimit`, `Parts` | batched reads and paging; the limiter; aircraft parts |

Releases and certificates share one table indexed by kind, since their repositories are the same code;
their services differ and are modelled separately. Clocks, keys chosen by the engine, faults and the
interleaving are parameters of events.

### The served premise

The conditional update compares the stored version with the client's `expectedVersion`, not with the
version of the copy the checks ran on (`backend/internal/service/release_authorization.go:122-124`). A
request that copied version 1 but sends expected version 2 can therefore commit over somebody else's
version 2. `Served` is the premise that rules this out: when a request's first fetch finds the row, the
version it expects has already been stored. Callers that send a version they have read meet it
(`Guarantees.VersionsReadAreServed`). It is exactly the right one for freshness
(`Concurrency.CommitIsFreshExactlyWhenServed`), and without it a record under review is edited
(`Boundaries.UnservedVersionOverwrites`), which the repository's README says optimistic locking
prevents. Contiguous versions, the row being its last revision, append-only tables, unique codes, roles,
reading one's own revision, two different people in the control columns (`Unserved.ColumnsStaySeparated`)
and one audit row per commit (`Unserved.TrailIsCommits`) need no premise: it is needed only where the
columns, the fields or the state before a step are tied to earlier revisions. The tables under lawful
runs may start empty, or with the demonstration records (`Boundaries.DemonstrationIsLawful`).

`Get` is two statements outside any transaction, first the row, then its revisions. The final `Get` of a
write is therefore two events, and commits may fall between them (`Concurrency.ReadBackShowsOwnRevision`);
of the first `Get` of a write only the row is used. `List` is three such statements, with other clients
between them as well (`Listing.List`, `Listing.ListedItemFits`).

## Model

| member | source | states |
|---|---|---|
| Text.TrimStrips | backend/internal/service/release_authorization.go:48-57 | trimming takes white space off both ends, all of it and nothing else |
| Text.TrimIsUnique | backend/internal/service/release_authorization.go:48-57 | and it is the only text that does |
| Text.SpaceExactlyWhen | backend/internal/service/release_authorization.go:48-57 | white space is twenty-five code points, six of them ASCII |
| Text.CodeIsStrippedAndUpper | backend/internal/service/release_authorization.go:48 | a stored code is the submitted text without its outer white space, each ASCII letter of it in upper case, the code point 32 below |
| Text.CodesCollideExactlyWhen | backend/internal/service/release_authorization.go:48 | two texts get the same code if and only if they differ in outer white space and in the case of ASCII letters only |
| Text.CodeWithIsIdempotent | backend/internal/service/release_authorization.go:48 | for every case mapping that is idempotent and maps nothing to white space, storing a stored code again changes nothing |
| Rules.NormalizedExactlyWhen | backend/internal/service/release_authorization.go:74-84 | fields are stored as submitted, column by column and in no other way: each text stripped, the related code canonical, risk level, metric value and effective time unchanged |
| Service.NormalizeWithIsIdempotent | backend/internal/service/release_authorization.go:74-84 | sending back the fields a record stores changes none of them, for every such case mapping |
| Rules.MoveOutcome | backend/internal/service/release_authorization.go:98-123 | a transition of either kind is accepted if and only if it names an edge, the role is one of the edge's, and the actor is not the one whose work it reviews; each other case gives its own error, and each stored column is the old one or the named new one |
| Rules.UpdateOutcome | backend/internal/service/certificate_record.go:63-87 | an edit is refused as locked exactly outside draft, as invalid exactly if code, name, facility or owner is white space; otherwise each stored column is the submitted one |
| Rules.CreateOutcome | backend/internal/service/certificate_record.go:42-58 | a create is refused as invalid exactly if one of these is white space; otherwise the new row is a draft at version 1 with the submitted columns |
| Answers.BeginAnswer | backend/internal/service/release_authorization.go:63-97 | the first step of a request changes no table and answers not found, or what the rules say |
| Answers.CommitAnswer | backend/internal/repository/release_authorization.go:78-94 | the second step commits if and only if the record is live at the version sent and no statement fails, and then writes this row, this revision and this audit row; otherwise it writes nothing and says conflict or failure |
| Answers.CreateAnswer | backend/internal/repository/release_authorization.go:61-77 | a create commits if and only if its fields hold text, key and code are free and no statement fails, and then writes these three rows; otherwise nothing, with the error of the first that is not so |
| Answers.OneCreatePerCode | backend/internal/model/base.go:13-23 | of two creates of a kind whose codes differ in outer white space and ASCII case only, at most one commits in a run |
| Answers.BeginDeleteAnswer | backend/internal/service/release_authorization.go:130-137 | a delete is refused as not found or locked exactly if the record is missing or has left draft |
| Answers.DeleteIsAudited | backend/internal/service/security.go:58-73 | a delete that goes through, whatever runs between its steps, appends one audit row with its caller and request, draft before and deleted after |
| Answers.FailedDeleteAudit | backend/internal/service/release_authorization.go:138-142 | if that row cannot be written, the caller is told although the record is gone |
| Invariant.UpdateVersionOutcome | backend/internal/repository/release_authorization.go:78-94 | on valid tables the unique (record, version) index never rejects the revision of a swap that matched; a write fails only by a conflict or a failing statement |
| Invariant.RunKeepsValid | backend/internal/repository/release_authorization.go:61-94 | in every run with any faults, a record at version n has exactly revisions 1 to n, its row's status and evidence are those of revision n, and a copy in flight is never ahead of its row and equals it while the versions agree |
| Concurrency.HistoryIsCommits | backend/internal/repository/release_authorization.go:78-94 | a record's revisions after a run are those before it followed by one per committed request, in commit order |
| Concurrency.CommitsFitRequests | backend/internal/service/release_authorization.go:93-128 | every committed revision carries its request's actor, request id, version, reason and the status its text names along an edge; every transition was made as operator, reviewer or admin, and every decision, publication or revocation as reviewer or admin |
| Concurrency.CommitsCountVersions | backend/internal/repository/base.go:65-76 | the stored version is the initial one plus the number of commits, and the k-th commit stores the k-th next version |
| Concurrency.OneCommitPerExpectedVersion | backend/internal/repository/base.go:65-76 | two commits of a run on one record were made against different expected versions, so of all requests expecting the same version at most one commits |
| Concurrency.RunExtends | backend/internal/repository/base.go:65-101 | revision and audit tables only grow, codes never change, and a soft-deleted record's row and revisions are frozen |
| Concurrency.RunKeepsCodes | backend/internal/model/base.go:13-23 | no stored code has outer white space or a lower-case ASCII letter, and codes stay unique within a kind, deleted rows included |
| Concurrency.GetIsComplete | backend/internal/repository/release_authorization.go:53-60 | with nothing between its two statements Get returns the row with all its revisions, version i at index i-1 |
| Concurrency.ReadBackShowsOwnRevision | backend/internal/service/release_authorization.go:124-127 | however many commits come between a request's write, the row read and the revisions read of its final Get, the row is at least at the version it wrote, its own revision is at that index, the revision at the row's version has the row's status and evidence, and there is one more revision per commit between the two reads; it gets none exactly if the record was deleted before the row read |
| Concurrency.CommitIsFreshExactlyWhenServed | backend/internal/service/release_authorization.go:93-128 | when a request's swap matches, its copy is the stored row if and only if the version it sent was at most the version of its copy |
| Refinement.RunRefinesAtomic | backend/internal/service/release_authorization.go:63-128 | when callers send versions they were served, every interleaved run leaves the tables exactly as its committed requests executed atomically in commit order, each passing its checks |
| Refinement.SequentialIsAtomic | backend/internal/service/release_authorization.go:63-128 | a request with nothing between its fetch and its write is atomic without any premise |
| Lawful.AuthorizationStep | backend/internal/service/release_authorization.go:93-128 | an accepted authorization transition follows the graph, carries the evidence over, is separated from the submitter, and leaves control columns that say who acted |
| Lawful.CertificateStep | backend/internal/service/certificate_record.go:95-124 | the same for an accepted certificate transition, separated from the last preparer |
| Lawful.UpdateStep | backend/internal/service/certificate_record.go:63-93 | an accepted draft edit is a legal step and leaves lawful control columns |
| Lawful.ExecuteAllKeepsLawful | backend/internal/service/release_authorization.go:42-142 | any sequence of atomic requests, deletes included, keeps every history lawful and mirrored in the audit table |
| Guarantees.VersionsReadAreServed | backend/internal/service/release_authorization.go:93-97 | a version that was stored at any earlier moment of the run is served |
| Guarantees.RunIsLawful | backend/internal/service/release_authorization.go:42-142 | every interleaved served run keeps every history lawful |
| Guarantees.DualControl | backend/internal/service/release_authorization.go:105-119 | whoever approves, restricts, revokes or sends back is not the actor of the latest earlier transition into review, unless that name was empty; on created records that transition exists |
| Guarantees.ReviewColumnsFollowHistory | backend/internal/service/release_authorization.go:105-119 | in served runs the submitter column is the latest submitter of the history, and on created records reviewer and reason are those of the latest decision since |
| Unserved.ReviewerIsNotSubmitter | backend/internal/service/release_authorization.go:105-119 | in every run, whatever versions callers send, a recorded reviewer and a recorded submitter are two people |
| Guarantees.ApprovedIsSubmitted | backend/internal/service/release_authorization.go:110-124 | the evidence of any revision outside draft equals that of the latest transition into review, which exists |
| Guarantees.FieldsAreLatestEdit | backend/internal/service/release_authorization.go:74-84 | after any served run each business field is the one submitted by the latest committed create or update, stripped or canonical |
| Guarantees.FieldsFrozenOutsideDraft | backend/internal/service/release_authorization.go:63-91 | over a run that commits no draft of the record none of its business fields changes |
| Guarantees.AuditMirrorsHistory | backend/internal/repository/base.go:78-90 | create, update and transition audit rows are in order-preserving bijection with the revisions, seeds apart: action, actor and request up to blanks, state before and after |
| Guarantees.CertificateSeparation | backend/internal/service/certificate_record.go:107-115 | whoever publishes or revokes a certificate differs from the actor of the latest earlier create or update, which exists on created records |
| Guarantees.VerifierColumnsFollowHistory | backend/internal/service/certificate_record.go:85-115 | in served runs the preparer column is the latest preparer of the history, on created records the verifier column its verifier, and with non-empty actors the verifier is empty in draft only |
| Unserved.VerifierIsNotPreparer | backend/internal/service/certificate_record.go:85-115 | in every run the verifier of a certificate outside draft is not its preparer and a draft has none; with named actors the verifier is empty exactly in draft, seeded certificates included |
| Unserved.ColumnsStaySeparated | backend/internal/service/release_authorization.go:98-123 | both separations hold of every stored row and of every copy in flight after every run that starts with them |
| Unserved.VerifiersStayNamed | backend/internal/service/certificate_record.go:107-115 | if every actor has a name, every certificate outside draft, stored or in flight, names its verifier after every run |
| Unserved.FirstDecisionIsSeparated | backend/internal/service/release_authorization.go:110-119 | in every run, until it commits a submission of its own, no decision is by the recorded submitter at its start, so a record seeded under review is separated from its seeded submitter |
| Unserved.TrailIsCommits | backend/internal/repository/base.go:78-90 | in every run with any faults and any versions sent, each commit on a record adds exactly one audit row, in commit order, with its action, actor and request up to blanks, state after and detail, and nothing else adds one but deletes |
| Unserved.AuditAttestsHistory | backend/internal/repository/release_authorization.go:61-94 | from a lawful start, in every run, the audit rows of a record and its revisions correspond one for one in order, seeds apart, in everything but the state before |
| Words.RunsSpellWords | backend/internal/constants/status.go:45-58 | every served run spells, on every created authorization, a word of draft+ (review draft+)* followed by one of eight endings, and on every created certificate a word of draft+ followed by nothing, valid, valid expired, valid revoked or valid expired revoked |
| Words.EveryWordIsSpelled | backend/internal/constants/status.go:45-58 | every word of either language is spelled by some served run of two different actors, one operator and one reviewer, from any lawful system |
| Words.PathIsInLanguage | backend/internal/constants/status.go:45-63 | every sequence of single steps the graph of the kind and draft edits allow is a word of its language |
| Words.LanguageIsPath | backend/internal/constants/status.go:45-63 | every word of the language of a kind is such a sequence |
| Boundaries.UnservedVersionOverwrites | backend/internal/service/release_authorization.go:122-124 | counter-run: an unserved expected version turns a record under review into an edited draft, which no lawful history shows |
| Boundaries.DecidesOwnExactlyWhenNameless | backend/internal/service/release_authorization.go:110-119 | an accepted decision is by the recorded submitter if and only if both names are empty |
| Boundaries.NamelessApprovesOwn | backend/internal/service/release_authorization.go:105-119 | counter-run: a served run in which the empty name submits an authorization and approves it |
| Boundaries.SequentialDeleteRemovesDrafts | backend/internal/service/release_authorization.go:130-142 | a delete with nothing in between removes the record it names exactly if it is a draft, and no other |
| Boundaries.OvertakenDeleteRemovesReviewed | backend/internal/service/release_authorization.go:130-142 | counter-run: a submission between check and delete makes it remove a record under review |
| Boundaries.OvertakenDelete | backend/internal/service/release_authorization.go:130-142 | a delete that checked a draft and was overtaken by any run of other clients changes the tables if and only if the record is still live; the row removed is the one checked if and only if nothing was committed on it since, and a draft if and only if the last commit left one, while its audit row says draft in every case |
| Boundaries.SeededIsLawful | backend/internal/database/database.go:204-217 | tables in which every record has one seed revision and no audit row are a lawful start |
| Boundaries.SeededCodesAreValid | backend/internal/database/database.go:181-257 | seeding records with canonical codes, no two of a kind alike, leaves the tables with canonical and unique codes |
| Boundaries.DemonstrationIsLawful | backend/internal/database/database.go:181-257 | the six demonstration records, each with its own fields, are such tables, with separated columns, named verifiers, canonical unique codes, and the one under review submitted by the operator |
| Backend.Store.FetchRow | backend/internal/repository/release_authorization.go:53-60 | the first statement of Get: the live row or not found |
| Backend.Store.FetchRevisions | backend/internal/repository/release_authorization.go:53-60 | its second statement, on the tables at that later moment: every revision of the record and no other, each as often as the table holds it, ascending by version, whatever the table holds |
| Backend.Store.OptimisticUpdate | backend/internal/repository/base.go:65-76 | the row is overwritten, code and delete mark apart, exactly if it is live at the expected version |
| Backend.Store.AppendAudit | backend/internal/repository/base.go:78-90 | one row is appended, blank actor and request renamed |
| Backend.Store.StoreVersion | backend/internal/repository/release_authorization.go:78-94 | all three statements take effect, or after any fault the tables are as before |
| Backend.Store.StoreNew | backend/internal/repository/release_authorization.go:61-77 | the same for a create, with the code and key indexes |
| Backend.Store.SoftDelete | backend/internal/repository/base.go:92-101 | a live row is marked deleted, nothing else changes |
| Backend.Server.BeginUpdate | backend/internal/service/release_authorization.go:63-86 | fetch, checks and field-by-field edits are the update event of the protocol and answer as the rules say |
| Backend.Server.EditAuthorization | backend/internal/service/release_authorization.go:98-123 | the in-place edits of an authorization transition, error by error and column by column as the rules say |
| Backend.Server.EditCertificate | backend/internal/service/certificate_record.go:100-119 | the in-place edits of a certificate transition, error by error and column by column as the rules say |
| Backend.Server.Write | backend/internal/repository/release_authorization.go:78-94 | the transaction is the commit event, and commits, writes and answers as Answers.CommitAnswer says |
| Backend.Server.CreateNew | backend/internal/service/release_authorization.go:42-61 | validation and transaction are the create event, and store and answer as Answers.CreateAnswer says |
| Backend.Server.CheckDelete | backend/internal/service/release_authorization.go:130-137 | the delete's check is the first of its three events |
| Backend.Server.RecordDelete | backend/internal/service/release_authorization.go:138-142 | the delete's audit row is written outside any transaction |
| Backend.Server.Serve | backend/internal/service/release_authorization.go:63-128 | a whole update or transition with other clients between its steps, the two reads of its final Get included, is one interleaved run, and a record it returns is at a version of its own or later and carries the caller's own revision at the index of the expected version |
| Listing.RankedHoldsEachOnce | backend/internal/repository/base.go:45-48 | the listing order holds every entry exactly once, newer ones first and of two as new the higher id |
| Listing.WrittenIsListedFirst | backend/internal/service/release_authorization.go:122-124 | right after a commit the record carries the time of its write and is listed before every record written earlier, at the top if all others are older |
| Listing.NormalizePage | backend/internal/repository/base.go:122-133 | pages start at 1, sizes lie in 1 to 100, and values in range are kept |
| Listing.PagesPartitionTheListing | backend/internal/repository/base.go:31-49 | pages 1 to ceil(total/size), as the queries with 64-bit offsets return them, show every matching live record exactly once in order, for every size; a later page is empty if and only if its 64-bit offset is past the total, as it is while the offset does not wrap |
| Listing.ListedPageExactlyWhen | backend/internal/repository/base.go:46-47 | the query for any page returns that page if and only if (page-1)*size is below 2^63, or both that product and the offset 64 bits leave of it are past the total |
| Listing.FirstPageAgain | backend/internal/repository/base.go:46-47 | an input for which the condition fails: page 2^62+1 of size 20 has offset 0 and returns the first page |
| Listing.BatchAgreesWithGet | backend/internal/repository/release_authorization.go:39-51 | the one batched query, seen from any requested record, is that record's own query, on any revision table |
| Listing.GroupByRecord | backend/internal/repository/release_authorization.go:44-47 | the grouping loop gives every id exactly its own revisions, in order |
| Listing.AttachRevisions | backend/internal/repository/release_authorization.go:35-50 | after the loop over the page every item holds its row as before and the revisions its own query would give at that moment |
| Listing.List | backend/internal/repository/release_authorization.go:30-52 | with other clients between its three statements, a page holds the rows its 64-bit offset selects at the second with their revisions at the third, and the total of the first |
| Listing.ListedItemFits | backend/internal/repository/release_authorization.go:30-52 | whatever is committed in between, an item carries its whole history in order, one revision per such commit beyond its row's version, and its row is the revision at that version; with no commit it is what Get returns |
| RateLimit.NumberIsCountExactlyWhen | backend/internal/middleware/ratelimit.go:71-94 | under any clock, after any calls, the number a call gets is at most the number of calls of its key in its minute, and is that number if and only if after the first of them no call of the key fell in another minute and no later-minute call found 512 buckets |
| RateLimit.ForwardCountsRight | backend/internal/middleware/ratelimit.go:71-94 | under a clock that never steps back every number is right, whatever was evicted |
| RateLimit.ReplayBounded | backend/internal/middleware/ratelimit.go:71-94 | under any clock the map holds after a call at most max(512, keys called in its minute or a later one) buckets |
| RateLimit.SteppedClockForgets | backend/internal/middleware/ratelimit.go:77-79 | an input for which the condition fails: a clock that steps back makes the map forget calls of the minute it returns to |
| RateLimit.LocalAdmitsAtLeast | backend/internal/middleware/ratelimit.go:37-55 | under any clock at least min(n, limit) of n requests of a key and minute counted in memory pass |
| RateLimit.LocalAdmitsExactlyWhen | backend/internal/middleware/ratelimit.go:37-55 | exactly min(n, limit) pass if and only if n is within the limit, or the limit admits none, or every number was right |
| RateLimit.ForwardAdmitsExactly | backend/internal/middleware/ratelimit.go:71-83 | under a clock that does not go back, of the requests of a key from second 60k up to second 60k+60 counted in memory, exactly min(n, limit) pass |
| RateLimit.WindowExactlyWhen | backend/internal/middleware/ratelimit.go:74 | the minute of a time is the one of sixty seconds it lies in |
| RateLimit.StartsOnceExactlyWhenRight | backend/internal/middleware/ratelimit.go:77-79 | the in-memory counter starts a key over more than once in a minute if and only if a number was wrong |
| RateLimit.SharedAdmitsExactlyWhen | backend/internal/middleware/ratelimit.go:57-69 | of n increments of the shared counter for a key and minute, whichever processes make them, exactly min(n, limit) get a number within the limit if and only if n is within the limit, or the limit admits none, or no two consecutive ones are two minutes apart on the counter's clock |
| RateLimit.SharedStartsOnceExactlyWhenClose | backend/internal/middleware/ratelimit.go:62-65 | the shared counter starts a key and minute from one more than once if and only if two consecutive increments are two minutes apart |
| RateLimit.ClocksInStepStayClose | backend/internal/middleware/ratelimit.go:62-65 | while the processes' clocks are within 30 seconds of the counter's, no key and minute ever expires between two increments |
| RateLimit.ExpiredCounterStartsOver | backend/internal/middleware/ratelimit.go:62-65 | an input for which the condition fails: two increments for one minute three minutes apart both pass a limit of one |
| RateLimit.SharedAdmitsPerStart | backend/internal/middleware/ratelimit.go:37-69 | of the requests one process numbers by the shared counter, at most the limit pass in a key and minute for each time the counter starts from one |
| RateLimit.FallbackAdmitsAtMost | backend/internal/middleware/ratelimit.go:37-69 | in any pattern of fallbacks and under any clocks, one minute passes at most the limit per start from one of either counter, so at most twice the limit while the in-memory numbers are right and the shared counter does not expire in between |
| RateLimit.SpanAdmitsAtMost | backend/internal/middleware/ratelimit.go:37-83 | any 60 seconds pass at most the limit per start from one of either counter in their two minutes: twice the limit from memory and four times across fallbacks while the numbers are right and the shared counter does not expire in between |
| RateLimit.Limiter.CleanupLocal | backend/internal/middleware/ratelimit.go:85-94 | the deleting loop leaves exactly the buckets that are not of an earlier minute, once there are 512 |
| RateLimit.Limiter.IncrementLocal | backend/internal/middleware/ratelimit.go:71-83 | under any clock the map stays the replay of all calls, the returned count is at most the full log's and equals it exactly when the map had not forgotten the key, and the map keeps its bound |
| RateLimit.SharedCounter.Increment | backend/internal/middleware/ratelimit.go:57-69 | an increment drops an expired key first, then counts and renews the two-minute expiry; the number told is that of the log of all increments, also after an answer was lost |
| RateLimit.Limiter.CountElsewhere | backend/internal/middleware/ratelimit.go:57-69 | increments by other processes leave this one's decisions in order |
| RateLimit.Limiter.Admit | backend/internal/middleware/ratelimit.go:37-55 | one decision is added, by the shared counter or in memory when that gives no answer, admitting while the number is within the limit; the decision log stays regular, and a lost answer still counts in the shared log |
| Parts.VersionsAreAuditedLostOrPending | backend/internal/service/aircraft_part.go:42-122 | from any start, in every run, each version added to a part is one recorded non-delete audit row, one lost audit or one still pending |
| Parts.VersionsFromStartUp | backend/internal/database/database.go:129-153 | after start-up with any seeded parts, a part's versions beyond its seeded one are its audit rows plus its lost and pending audits, and the audit is complete if and only if none is lost and none pending |
| Parts.PartServer.Transition | backend/internal/service/aircraft_part.go:92-112 | a transition with nothing between its three statements is those three events, conserves the law, and answers as the next row says |
| Parts.TransitionOutcome | backend/internal/service/aircraft_part.go:92-112 | a transition whose audit fails reports an error although the new row is stored, and no other error leaves a changed row |
| Parts.FetchAnswer | backend/internal/service/aircraft_part.go:65-101 | a request on a part is refused exactly if the part is missing, a mandatory field is white space or the move is not one of eleven; otherwise the copy has the submitted fields, or the new status, and nothing else |
| Parts.StoreAnswer | backend/internal/repository/base.go:65-76 | the copy is stored if and only if the part is there at the version sent and the statement goes through, and owes an audit row of its caller from the copied status to the stored one |
| Parts.AuditAnswer | backend/internal/service/aircraft_part.go:84-111 | the owed row is appended, or if that fails only a transition or a delete is told |
| Parts.NewPartAnswer | backend/internal/service/aircraft_part.go:42-63 | a new part is received at version 1 exactly if its fields hold text and its code is free |
| Parts.RemoveAnswer | backend/internal/service/aircraft_part.go:113-122 | a delete marks a part in any status and owes an audit row from that status |

## Left out

- HTTP handlers, JSON binding and its length limits, routing, JWT and login: actor, role and request id are inputs.
- The role check of the router in front of the services: the services' own role checks are modelled.
- SQL, GORM and Redis themselves: transactions are atomic and isolated, soft-deleted rows are hidden, an increment of the shared counter and its expiry are one step, a key is gone two minutes after its latest increment by the clock that step reads.
- Search patterns of the listing: the WHERE clause is an arbitrary predicate on rows.
- Faults of the fetch, of either read of the final Get, and of the listing queries: they change no table.
- Unicode case mapping: the codes in the tables are upper-cased in the ASCII range only; that storing them again changes nothing is proved for every case mapping.
- Creation times of revisions and audit rows, and the overflow of version counters.
- Status counts, audit listing and audit summaries: single SQL aggregates.
- Inspection tasks: the same code as aircraft parts.
- Parts.PartServer.Transition: takes its target already read from the request's text, `None` if that names no status.
- RateLimit.Limiter.Admit: the requests of one process are decided one after the other; other processes take part through their increments of the shared counter.
- Boundaries.NamelessApprovesOwn: authentication refuses an empty username (`backend/internal/middleware/auth.go:50`), so over HTTP the empty name can only be a blank one that `backend/internal/handler/system.go:170-176` trims.
- Guarantees.DualControl: compares with the submitter as the code does, not with earlier editors of the draft; for a seeded record's first decision, whose submitter its history does not name, see Unserved.FirstDecisionIsSeparated.
