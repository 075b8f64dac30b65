# Browsertrix backend: a verified model

The backend keeps its business state in MongoDB documents and changes it with small atomic updates called
from larger, branching methods. This project models the parts of `backend/btrixcloud` whose correctness
depends on what those steps keep together, and proves what they keep. A document whose methods update it is a
class with the document's fields; every method is proved against a function of the old document, and what the
document is for is proved about that function. Protocols between processes are state machines with one step for
each database operation. Validation of schedules, which is made of expressions, is functions.

What an operation does is also stated a second time, from the values that are given and stored alone, without any of the
functions that specify it (`UpdateOfOneQuota`, `ImportedPages`, `WhatComesOfAnUpdate`, `PlainScheduleIff` and so on), so
that the functions the theorems speak of cannot all be wrong in the same way.

| module | what it models |
|---|---|
| `OrgLedger` | execution time of an organization: charging monthly, gifted and extra time, quota updates, the gate |
| `PageMigration` | any number of migration workers, with crawls that arrive, finish and are deleted, and workers that die |
| `PageImport` | batched import of pages with duplicates, interim counters and the recount; re-import that keeps review data |
| `UrlCounts` | the grouped page listing that is cut off by a limit |
| `CollectionStats` | membership changes, concurrent statistics updates and the staleness check |
| `CollectionSlugs` | slugs of collections and redirects from previous ones |
| `CrawlDeletion` | statistics of workflows: full recompute, incremental update, deletion of a list of items |
| `PresignedFiles` | presigned URLs in bulk: cached rows, grouping by storage, signing |
| `ConfigHistory` | updates of a workflow: refusals, revision numbers, sparse snapshots, what a revision refers to |
| `CrawlQueue` | resumable matching of the crawl queue, and the range of the old list queue |
| `CronFields`, `CronSchedule` | the schedule validator, its grammar, a printer and a parser |
| `BackgroundJobs` | job records: creation, finish callbacks, retries |
| `StorageBytes` | the byte counters of an organization and what a recount would say |
| `Options`, `Numbers`, `MapSums`, `Text` | an optional value, minimum and maximum, totals of maps, string operations |
| `ArchivedFiles` | files of archived items and their sizes, shared by two modules |

`dafny verify dfyconfig.toml` checks everything.

## What a reader should know

Assumptions. Each atomic database operation is one step. Serial modules (`OrgLedger`, `PageImport`, `CollectionSlugs`,
`CrawlDeletion`, `ConfigHistory`, `BackgroundJobs`, `StorageBytes`) run one request at a time; `PageMigration` and
`CollectionStats` interleave freely. Clocks, random ids, the cluster, object storage, the URL signer and the
regular expression are parameters. The signer returns one URL for each name, in order. Durations and sizes are
exact integers. URLs, names, labels and ids are opaque values with equality, or with an order where the source
sorts.

Where the code departs from what its names or comments promise, the model follows the code. Each departure is a
proved statement:

- Setting the gifted or the extra quota to a negative number breaks the bounds of that balance, and nothing else does:
  an update keeps a balance between 0 and 60 times its quota if and only if it does not leave that quota negative, and
  over a run both bounds hold all along if and only if no update leaves either of the two quotas negative
  (`UpdateKeepsBoundsIff`, `BoundsHoldExactlyWhen`). Adding never makes a quota negative (`AddingIsAlwaysAdmissible`).
- The gate can be closed while there is time left that the next charge draws on. With a quota set and in any ledger
  whose balances are not negative, which every reachable one is, the gate means that nothing is left if and only if no
  time is stranded, that is, not opened by any budget and behind a gifted or extra quota that is not positive or in a
  month whose quota is 0 (`GateIsExactUnlessStranded`). A negative quota that is set back strands time
  (`StrandedTimeIsReached`); where no time quota is ever negative none is stranded (`EveryAdmissibleLedger`).
- A change of a collection is sure to be noticed only under three conditions (`ChangesAreNoticed`), and each of them
  is needed, as complete runs from an empty collection show. A change that has written must read a later time than was
  read before, but times are kept in whole seconds (`utils.py:74`): `EqualReadingsLose`, with the exact condition in
  `SameSecondLoses`. No update may start between the announcement of crawls and their writing, but crawls that are
  added are announced first (`colls.py:265-275`): `AnnouncedFirstRun`, exact condition in `AnnouncedFirstLoses`. No
  stored time may replace a later one, but the clock is read before the time is stored: `StrictClockIsNotEnough`,
  exact condition in `LastToStoreDecides`. An upload of a thumbnail does so too, since it stores the whole document as
  it was read before the upload (`colls.py:1295-1299`). A change may write or announce a list of crawls, one by one,
  under one time; an update between two writes of one announcement is enough to lose the rest
  (`UpdateBetweenWritesLoses`).
- A worker that dies between claiming and completing leaves a crawl marked; no worker takes it up again, and none
  returns while it is there (`CrashOrphans`, `OrphansBlockTheJob`). Unless crawls are deleted, some worker can still
  return if and only if no marked crawl is without a worker (`ReturnIsPossibleIffNothingIsStuck`). In the waiting
  loops the log calls read an attribute that a dictionary does not have (`pages.py:1208`, `pages.py:1224`); the model
  lets that end the worker or not.
- After a duplicate in a batch the insert's result is never bound and using it fails, so the interim counters of the
  batch are skipped (`pages.py:233-260`); the recount at the end repairs them. When the stream of records or the
  conversion of one raises, there is no recount, and the exception goes no further (`pages.py:191-197`): a re-import
  goes on to merge, and may report nothing, with some pages in the store and both page counts still 0. The counters then
  equal a recount if and only if nothing that went in was new (`ReAddCrawlPages`, `FailedImportCounts`).
- Setting a collection's slug to null without a name forgets the slug (`RedirectEndsExactlyThen`).
- Deleting a list takes each of its items from its workflow, also one that has not finished and was never counted, and
  one that is listed twice: the statistics stay right if and only if the workflow's items have finished and are listed
  once (`Archive.DeleteCrawls`, `TakenIsLostIff`). When a file of a deleted item cannot be deleted the item is gone all
  the same, and the workflows are not updated (`LeftAloneIsRightIffNoneLost`). The incremental update does not clear the
  stopping flag when no crawl is left, which the full recompute does.
- An update can change what a workflow runs with past the change check: a null config, setting, profile or proxy, the
  forced scope type of a config with a seed file, and any proxy that is given while the profile stays. Without a
  snapshot of the present revision that loses a past setup, and nothing else does (`UpdateKeepsRecoverableIff`,
  `RepeatingTheSeedFileIsSilent`). Such a snapshot is there when an update was refused only after it had been taken,
  because a profile, a proxy or a collection was not found; the next change then takes a second one under the same
  number (`OneSnapshotPerNumberIff`).
- Two refusals of a workflow update do not keep what they are for: seeds and a seed file come together when one is given
  and the other, stored, is not mentioned; and the content check stays without its profile when the profile is set to
  null, or is cleared with a config that does not mention the check (`PromiseAllAlongIff`).
- The list fallback returns the whole list for offset 0 and count 0, since -0 is not negative (`ListRangeIsSliceIff`).
- A finish callback that is repeated after a retry ends the new attempt (`LateCallbackEndsTheNextAttempt`); each ending
  is reported by its own attempt if and only if every callback that finds the record open comes from the present
  attempt (`OwnReportsIffInTime`). Collection and upload jobs have ids made from what they work on, so a fresh start
  overwrites the record with its previous attempts (`FreshStartForgets`, `AllAttemptsListedIff`). A replica job can
  succeed without its replica on record, exactly when the file was gone by then (`SucceededReplicaIsOnRecordIff`). A
  retry answers with success even when nothing was started (`YesWithoutARestartIff`).
- Recalculation leaves the dedupe indexes out of the total; replacing a thumbnail, saving an index that matches no
  collection or has no time, committing a profile over one that has changed, an update of a profile whose replicas
  cannot be asked for, and files that could not be deleted move the counters away from a recount by exactly the bytes
  given by `Excess` (`DriftMovesByExcess`, `FaithfulIff`).
- The comment on `list_page_url_counts` speaks of sorting by snapshot count; the method groups what the page listing
  returns, in its order. Whatever the order is, it is one group for each of the URLs that occur first, with the
  snapshots read before the first URL too many (`GatheredMeaning`, `StopsBeforeOneTooMany`); with a prefix the order
  is by URL, and the groups are complete as far as the rows were fetched (`SortedAnswer`, `CompleteIffTheCutFits`).

## Model

| member | source | states |
|---|---|---|
| OrgLedger.Org.IncOrgTimeStats | backend/btrixcloud/orgs.py:1057-1156 | the whole new ledger after a charge of any of the four kinds is the one the closed-form division gives |
| OrgLedger.Org.ChargeBudgets | backend/btrixcloud/orgs.py:1083-1117 | the early returns amount to dividing the time by minima over the three budgets |
| OrgLedger.Org.ChargeOverage | backend/btrixcloud/orgs.py:1117-1156 | time over the month goes to gifted, then extra time, and exactly that leaves the available seconds |
| OrgLedger.Org.AddToQuotas | backend/btrixcloud/orgs.py:771-791 | adding moves each given field by its value, but takes no more away than there is |
| OrgLedger.Org.UpdateQuotas | backend/btrixcloud/orgs.py:742-839 | the whole new document after setting or adding quotas, with the update on record |
| OrgLedger.UpdateOfOneQuota | backend/btrixcloud/orgs.py:771-808 | setting a quota sets it to the given value, adding makes it the sum or 0 if that is negative, and a quota that is not given stays |
| OrgLedger.UpdateOfBalances | backend/btrixcloud/orgs.py:810-835 | each balance moves by 60 times what its quota moved by, but not below 0, the record is what was given or, when adding, what came out, and nothing else changes |
| OrgLedger.AddedThenTakenBack | backend/btrixcloud/orgs.py:776-835 | quotas that are added and then taken away again are as before, and so are their balances |
| OrgLedger.EachKindHasItsCounter | backend/btrixcloud/orgs.py:1066-1082 | each of the four kinds of time moves one counter of its own, in its month, and only a crawl's execution time touches budgets |
| OrgLedger.ChargeInSeconds | backend/btrixcloud/orgs.py:1083-1156 | how many seconds a charge puts on the month, on gifted and on extra time, from the quotas and balances alone, and that without any time quota it puts none |
| OrgLedger.ChargeRecordsWhatFits | backend/btrixcloud/orgs.py:1083-1156 | a charge records min(duration, what the three budgets have left), the total counter gets all of it, and other months are untouched |
| OrgLedger.ChargeFollowsTheOrder | backend/btrixcloud/orgs.py:1097-1156 | gifted time is touched only when the month is full, extra time only when gifted time is used up; what leaves a balance enters that budget's usage |
| OrgLedger.GateIsExactUnlessStranded | backend/btrixcloud/orgs.py:146-183 | with a quota set and no negative balance, the gate is closed exactly when no budget has anything left, if and only if no time is stranded behind a quota that does not open it |
| OrgLedger.GateInSeconds | backend/btrixcloud/orgs.py:146-183 | the gate is closed exactly when a time quota is set and none of the three budgets lets a crawl start, each put in seconds |
| OrgLedger.StrandedTimeIsReached | backend/btrixcloud/orgs.py:813-835 | a run after which every quota is right, the month is full and the gate closed, and the next charge is recorded in full all the same |
| OrgLedger.DroppedTimeClosesTheGate | backend/btrixcloud/orgs.py:1097-1156 | whatever the quotas, a charge that loses time leaves all budgets empty and the gate closed |
| OrgLedger.ChargesRecordNothingIff | backend/btrixcloud/orgs.py:1083-1156 | no charge, however long, raises the recorded total if and only if the three budgets together have nothing to give |
| OrgLedger.ClosedGateRecordsNothing | backend/btrixcloud/orgs.py:146-183 | where no time quota has ever been negative, a charge while the gate is closed adds nothing to the recorded total |
| OrgLedger.UpdateKeepsBoundsIff | backend/btrixcloud/orgs.py:813-835 | an update keeps a balance between 0 and 60 times its quota if and only if it does not leave that quota negative, whatever the other quotas are |
| OrgLedger.BoundsHoldExactlyWhen | backend/btrixcloud/orgs.py:742-1156 | over any run both balances stay within their quotas all along if and only if no update leaves the gifted or the extra quota negative |
| OrgLedger.AddingIsAlwaysAdmissible | backend/btrixcloud/orgs.py:776-784 | adding can never make a quota negative |
| OrgLedger.StepMovesSlackByFloor | backend/btrixcloud/orgs.py:813-835 | with any quotas and durations, available + used - 60 * quota changes only by the seconds a reduction floors away, and by exactly those |
| OrgLedger.SlackNeverFalls | backend/btrixcloud/orgs.py:742-1156 | over any run, negative quotas and durations included, no balance turns negative and no slack falls |
| OrgLedger.RunKeepsInv | backend/btrixcloud/orgs.py:742-1156 | over any run of charges, month changes and updates that leave no time quota negative: both bounds, monthly use not negative, recorded time within the total |
| OrgLedger.EveryReachableLedger | backend/btrixcloud/orgs.py:146-183 | from creation on, after any events and with any quotas: no negative balance, no lost slack, and the gate exact if and only if no time is stranded |
| OrgLedger.EveryAdmissibleLedger | backend/btrixcloud/orgs.py:742-1156 | if no time quota is ever negative: bounds, monthly use not negative, recorded time within the total, nothing stranded, and the gate exact |
| PageMigration.StepShrinksUnclaimed | backend/btrixcloud/pages.py:1124-1137 | a claim takes exactly one crawl out of the unclaimed ones, and no step puts one back |
| PageMigration.WhatHappensToACrawl | backend/btrixcloud/pages.py:1124-1187 | a claim marks one crawl, completing it sets the target version and takes the mark off, and no other step of a worker touches a crawl |
| PageMigration.ClaimsGoNewestFirst | backend/btrixcloud/pages.py:1124-1137 | in any run in which no crawl finishes, crawls are claimed in the order in which they finished, the newest first |
| PageMigration.NoWorkerIsStuck | backend/btrixcloud/pages.py:1117-1227 | a worker that has neither returned nor failed always has a database operation to do next |
| PageMigration.StepKeepsInv | backend/btrixcloud/pages.py:1117-1227 | every step of workers and crawls keeps ownership, spent claims and what each waiting phase has established |
| PageMigration.RunKeepsInv | backend/btrixcloud/pages.py:1117-1227 | the same over any run, with claims plus unclaimed crawls never growing |
| PageMigration.ClaimsAreExclusive | backend/btrixcloud/pages.py:1122-1144 | in no run is a crawl held by two workers or claimed twice, and claims are at most the crawls unclaimed at the start |
| PageMigration.ReturnMeansAllMigrated | backend/btrixcloud/pages.py:1192-1227 | once any worker has returned, every crawl has the target version, then and later, whatever arrives |
| PageMigration.CrashOrphans | backend/btrixcloud/pages.py:1131-1187 | a worker that dies holding a crawl leaves it marked and unowned |
| PageMigration.OrphansBlockTheJob | backend/btrixcloud/pages.py:1217-1227 | until it is deleted, such a crawl is never picked up and no worker returns |
| PageMigration.LoneWorkerReturns | backend/btrixcloud/pages.py:1117-1227 | from a quiet state a worker left alone has a run in which it returns |
| PageMigration.ReturnIsPossibleIffNothingIsStuck | backend/btrixcloud/pages.py:1117-1227 | in every reachable state, unless crawls are deleted, some worker can still return if and only if no marked crawl is without a worker |
| PageImport.PageStore.InsertMany | backend/btrixcloud/pages.py:236-249 | an unordered insert adds everything but duplicates, and reports them if and only if there is one |
| PageImport.PageStore.AddPagesToDb | backend/btrixcloud/pages.py:233-260 | pages of a batch always go in; its interim counters only without a duplicate |
| PageImport.PageStore.RecountCrawl | backend/btrixcloud/pages.py:317-335 | all four counters of a crawl are set to a recount of its pages |
| PageImport.PageStore.AddCrawlPagesFromWacz | backend/btrixcloud/pages.py:110-197 | for every stream, batch size and pattern of duplicates: an import that gets to the end leaves what one insert of all records would, and counters equal to a recount; one whose stream raises, or the conversion of a record after a full buffer was flushed for it, leaves exactly the flushed records and the interim counters; other crawls' counters stay |
| PageImport.ImportedPages | backend/btrixcloud/pages.py:199-231 | under any id an import leaves the old page, or that of the one record that brings it, with that record's URL and time, an error page exactly if its load failed and a file page exactly if it loaded a file, or none if no record has the id |
| PageImport.CountersOfAnImport | backend/btrixcloud/pages.py:317-335 | after an import into a crawl without pages the four counters are the numbers of records that bring a page, of their URLs, of those that loaded a file and of those that failed |
| PageImport.InterimCountersMove | backend/btrixcloud/pages.py:337-364 | a batch moves the file and error counters by the numbers of its file and error pages, and nothing else |
| PageImport.LostWhenRaising | backend/btrixcloud/pages.py:152-172 | a stream that raises loses at most one page more than the batch size; a conversion that raises loses none of a buffer that was full |
| PageImport.FirstRecordWins | backend/btrixcloud/pages.py:132-180 | old pages are untouched, and each new id has the first record that carries it |
| PageImport.InsertedInTwo | backend/btrixcloud/pages.py:143-172 | where the batches are cut does not matter |
| PageImport.PageStore.MergeReviews | backend/btrixcloud/pages.py:916-932 | the merge goes through exactly when every saved page is there; otherwise it has merged some part |
| PageImport.WhatIsMerged | backend/btrixcloud/pages.py:916-932 | merging replaces exactly those fields of a review that were saved, and nothing else of any page |
| PageImport.PageStore.ReAddCrawlPages | backend/btrixcloud/pages.py:867-946 | pages and counters after a re-import that raises while reading or converting any record, or not at all: the merge goes through if and only if all reviewed pages are back, and the counters equal a recount if and only if the import came to its end or brought no new page |
| PageImport.FailedImportCounts | backend/btrixcloud/pages.py:191-197 | after an import that raised, at whatever record and before or after a flush, the counters equal a recount if and only if nothing new went in |
| PageImport.MergingKeepsCounts | backend/btrixcloud/pages.py:916-932 | merging review data after the recount keeps the counters right |
| PageImport.ReviewsKeptIffReimported | backend/btrixcloud/pages.py:886-932 | reviewed pages keep all their review data if and only if all of them are imported again |
| PageImport.OtherCrawlsUntouched | backend/btrixcloud/pages.py:910-932 | pages of other crawls are exactly as before |
| PageImport.SecondReAddAbsorbsTheFirst | backend/btrixcloud/pages.py:867-946 | re-importing twice equals the second re-import alone |
| PageImport.SameRecordsSameEntries | backend/btrixcloud/pages.py:199-231 | the same records with valid ids, read twice, are the same pages up to times |
| PageImport.TwiceIsOnce | backend/btrixcloud/pages.py:867-946 | doing it twice equals doing it once, up to times, if all records have valid ids and include all reviewed pages |
| UrlCounts.GroupUpTo | backend/btrixcloud/pages.py:844-865 | the loop over the dictionary, for rows in any order: the groups of the rows before the first URL too many |
| UrlCounts.ListPageUrlCounts | backend/btrixcloud/pages.py:828-865 | the same for the rows that the limit lets through; when they are sorted, the first URLs with all their fetched snapshots |
| UrlCounts.GatheredMeaning | backend/btrixcloud/pages.py:844-865 | of rows in any order: one group for each URL, in the order of first occurrence, with every snapshot of it in order and their number |
| UrlCounts.SnapshotsAreOfTheRows | backend/btrixcloud/pages.py:855-863 | the snapshots of a URL are those of the rows where it occurs, in order, with their ids and times, and status 200 where there is none |
| UrlCounts.StopsBeforeOneTooMany | backend/btrixcloud/pages.py:850-853 | reading stops right before the first URL that would be one too many, and only there |
| UrlCounts.SortedAnswer | backend/btrixcloud/pages.py:844-865 | of sorted rows, what is gathered up to the stop is the first URLs with all of their snapshots |
| UrlCounts.GroupsMeaning | backend/btrixcloud/pages.py:844-865 | one group for each URL that occurs, in order, each with every snapshot of the URL and their number |
| UrlCounts.EveryRowIsCounted | backend/btrixcloud/pages.py:858-863 | the counts add up to the number of rows |
| UrlCounts.SnapshotsPerUrl | backend/btrixcloud/pages.py:836-842 | if no crawl has a URL twice, a URL has no more snapshots than there are crawls |
| UrlCounts.CompleteIffTheCutFits | backend/btrixcloud/pages.py:836-865 | the answer from the fetched rows is the answer from all rows if and only if the rows of the first URLs fit in the limit |
| UrlCounts.OncePerCrawlIsComplete | backend/btrixcloud/pages.py:828-865 | if no crawl has a URL twice, page_size rows for each crawl are always enough |
| CollectionStats.RunKeepsInv | backend/btrixcloud/colls.py:992-1069 | over runs that meet the three conditions, with changes that write any number of crawls under one time, every update that has read something out of date, stored or not, started before an announced or coming change |
| CollectionStats.ChangesAreNoticed | backend/btrixcloud/main_bg.py:176-186 | for changes of any number of crawls: if a change that has written reads a later time than was read before, no stored time replaces a later one and no update starts between announcement and writing of added crawls, then with no change on its way the statistics are a recount or the check asks for an update, so the loop ends only with right statistics |
| CollectionStats.ChangesAreNoticedUpToASecond | backend/btrixcloud/colls.py:976-990 | under the last two of these conditions, with whole seconds, the only other way out is that the collection carries the second in which the stored update started |
| CollectionStats.QuietUpdateEndsTheLoop | backend/btrixcloud/main_bg.py:176-186 | after one update that no change interrupts the statistics are right and the check lets the loop end |
| CollectionStats.SameSecondLoses | backend/btrixcloud/colls.py:983-988 | write, announce, finish of an older update: the change is lost if and only if the clock still shows the second of the update's start |
| CollectionStats.EqualReadingsLose | backend/btrixcloud/colls.py:983-988 | a run from a right, empty collection that meets every condition but different clock readings, and loses a change |
| CollectionStats.AnnouncedFirstLoses | backend/btrixcloud/colls.py:265-275 | crawls announced before they are written are lost if and only if an update that read in between did not start before the announced time |
| CollectionStats.AnnouncedFirstRun | backend/btrixcloud/colls.py:265-275 | a run from a right, empty collection that meets every condition but that added crawls are written before an update starts, and loses them |
| CollectionStats.UpdateBetweenWritesLoses | backend/btrixcloud/colls.py:258-275 | the same with two crawls announced together, where the update starts between their writes, sees the first and loses the second |
| CollectionStats.LastToStoreDecides | backend/btrixcloud/colls.py:299-304 | of any number of changes that have read the clock, stored in any order, the time stored last alone decides: the change is lost if and only if it is not after the start of the statistics |
| CollectionStats.StrictClockIsNotEnough | backend/btrixcloud/colls.py:1107-1113 | a run from a right, empty collection, all writes first and all clock readings different, that loses a change because an earlier time is stored last |
| CollectionStats.CountCollection | backend/btrixcloud/colls.py:1003-1039 | the loop over the crawls computes the recount of the successful ones, in any order |
| CollectionStats.RecountOfCrawls | backend/btrixcloud/colls.py:1003-1039 | the recount is the number of successful crawls and the totals of their pages and file sizes |
| CollectionStats.UpdateCanFinish | backend/btrixcloud/colls.py:992-1069 | any running update can be brought to its end, whatever has joined or left, and then carries its start |
| CollectionStats.ChangeCanFinish | backend/btrixcloud/colls.py:258-327 | any change on its way can be brought to its end, and what time the collection then carries |
| CollectionSlugs.CollectionStore.AddCollection | backend/btrixcloud/colls.py:154-196 | whole new state and outcome of creating a collection |
| CollectionSlugs.CollectionStore.UpdateCollection | backend/btrixcloud/colls.py:198-245 | whole new state and outcome of renaming or changing the slug, null slug and empty slug included |
| CollectionSlugs.WhenAnUpdateIsTaken | backend/btrixcloud/colls.py:213-239 | an update fails exactly when the collection is not there, or another one has the resulting name or slug up to case |
| CollectionSlugs.WhatACreationLeaves | backend/btrixcloud/colls.py:163-189 | a new collection has the name it was given and the slug given or made, and that slug is nobody's previous one |
| CollectionSlugs.WhatAnUpdateLeaves | backend/btrixcloud/colls.py:198-245 | name, slug and previous slugs of every collection after an update, from what was given and what was stored |
| CollectionSlugs.CollectionStore.GetCollectionBySlug | backend/btrixcloud/colls.py:377-396 | finds a holder if there is one, a current one before a previous one |
| CollectionSlugs.HoldersAfter | backend/btrixcloud/colls.py:198-254 | who holds which slug after any operation: it changes hands only to the collection that stores it |
| CollectionSlugs.StepKeepsInv | backend/btrixcloud/colls.py:154-254 | every operation keeps one holder for each slug |
| CollectionSlugs.LookupsRefineOwners | backend/btrixcloud/colls.py:154-254 | over any run, current and previous slugs together behave as one plain map from slugs to owners |
| CollectionSlugs.OneHolderPerSlug | backend/btrixcloud/colls.py:177-179 | from the empty organization on, no slug has two holders |
| CollectionSlugs.OldSlugsKeepResolving | backend/btrixcloud/colls.py:377-396 | a slug resolves to its last holder for as long as none of three events happens |
| CollectionSlugs.RedirectEndsExactlyThen | backend/btrixcloud/colls.py:198-254 | each of the three events does end it |
| CrawlDeletion.TallyCursor | backend/btrixcloud/crawlconfigs.py:1806-1832 | the loop of the recompute counts every finished crawl of the workflow once |
| CrawlDeletion.Archive.StatsRecomputeAll | backend/btrixcloud/crawlconfigs.py:1794-1876 | the recompute establishes consistent statistics; fields about a running crawl stay |
| CrawlDeletion.Archive.StatsRecomputeLast | backend/btrixcloud/crawlconfigs.py:1044-1106 | every field after the incremental update, with and without a running crawl and a last crawl |
| CrawlDeletion.LastCrawlIsTheLatest | backend/btrixcloud/crawlconfigs.py:1054-1078 | unless one crawl is running, right statistics are about a crawl that finished last, with its time, size and details, or about none if none has finished |
| CrawlDeletion.CountsAreOfTheFinished | backend/btrixcloud/crawlconfigs.py:1806-1837 | right statistics are the number of finished crawls, of successful ones among them, and the total of their sizes |
| CrawlDeletion.Archive.Accumulate | backend/btrixcloud/basecrawls.py:403-465 | for any list: what the loop gathers for each workflow is what its items in the list add up to, each as often as it is listed and whether it has finished or not; an id that does not exist or a crawl that cannot be stopped ends it |
| CrawlDeletion.Archive.DeleteCrawls | backend/btrixcloud/crawls.py:429-453 | for any list: what is left and the answer in every case, and right statistics of a workflow stay right if and only if its items in the list have finished and are listed once; with an early end or a file that fails the workflows are left alone |
| CrawlDeletion.HowTheLoopEnds | backend/btrixcloud/basecrawls.py:406-431 | a list is gone through if every id exists and every unfinished crawl is stopped; otherwise the loop ends at the first that does not or is not |
| CrawlDeletion.WhichFileFails | backend/btrixcloud/basecrawls.py:449-493 | the deletion fails on files exactly when some file of an item that goes cannot be deleted |
| CrawlDeletion.TakenIsLostIff | backend/btrixcloud/basecrawls.py:447-465 | a list takes from a workflow what the workflow loses if and only if its items have finished and are listed once, and counts too many otherwise |
| CrawlDeletion.RemoveOne | backend/btrixcloud/basecrawls.py:447-465 | removing a crawl takes its share from its own workflow and nothing from others |
| CrawlDeletion.ConsistentMeansEqualToRecompute | backend/btrixcloud/crawlconfigs.py:1794-1876 | consistent statistics equal the recompute field by field when finish times are distinct and no crawl is running |
| CrawlDeletion.LeftAloneIsRightIffNoneLost | backend/btrixcloud/basecrawls.py:492-493 | after a file failure a workflow's statistics are right if and only if it lost no finished item and, if its running crawl went, they were already about the crawl before |
| PresignedFiles.TakeCached | backend/btrixcloud/basecrawls.py:664-688 | each file with a cached row is served once, by the first row, and the others are left in order |
| PresignedFiles.GroupByStorage | backend/btrixcloud/basecrawls.py:690-701 | signing the groups gives every file the URL made for its name by the storage of its label's first file |
| PresignedFiles.BulkPresignedFiles | backend/btrixcloud/basecrawls.py:643-725 | the output as a multiset: what was served and what was signed |
| PresignedFiles.MappingKeepsAllIff | backend/btrixcloud/basecrawls.py:658-662 | the dictionary holds every file if and only if no name occurs twice |
| PresignedFiles.SignedByItsOwnIff | backend/btrixcloud/basecrawls.py:690-701 | every file is signed by its own storage if and only if equal labels mean equal storages |
| PresignedFiles.NothingIsLostIff | backend/btrixcloud/basecrawls.py:643-725 | the output is as long as the input if and only if no crawl has two files of one name, whatever is cached and however it is grouped |
| PresignedFiles.EveryFileOnce | backend/btrixcloud/basecrawls.py:643-725 | with unique names and unambiguous labels each input file is there exactly once, with its own cached URL or the one its own storage signed for its name |
| PresignedFiles.OutputIsWhatFilesGet | backend/btrixcloud/basecrawls.py:643-725 | under the same conditions, read off the input: the output is each file with the URL of the first cached row of its crawl with its name, or, if there is none or the update is forced, with the one its own storage signs, and nothing else |
| ConfigHistory.CrawlConfig.UpdateCrawlConfig | backend/btrixcloud/crawlconfigs.py:533-776 | whole new workflow and outcome of an update: refusals, merge, change check with the rules for profile and proxy, snapshot, refusals after it, forced scope type, revision |
| ConfigHistory.CrawlConfig.CheckInputs | backend/btrixcloud/crawlconfigs.py:545-607 | exactly which updates are refused before anything is stored |
| ConfigHistory.WhatComesOfAnUpdate | backend/btrixcloud/crawlconfigs.py:564-776 | answer, revision number and number of snapshots from what is given and stored: an update that may be stored counts up if and only if metadata changed, a start is asked for or a tracked value differs, and otherwise nothing changes |
| ConfigHistory.MetadataOnlyCountsUp | backend/btrixcloud/crawlconfigs.py:667-770 | an update of metadata alone keeps setup and snapshots and counts up the revision |
| ConfigHistory.WhatIsStored | backend/btrixcloud/crawlconfigs.py:715-770 | every field of config, settings, profile and proxy after an update that is stored |
| ConfigHistory.WhatASnapshotSays | backend/btrixcloud/crawlconfigs.py:707-713 | what a snapshot holds, field by field, and under which number |
| ConfigHistory.SetupWithoutSnapshot | backend/btrixcloud/crawlconfigs.py:609-713 | a stored update without a snapshot leaves config, settings, profile and proxy as they were if and only if it does none of six things |
| ConfigHistory.UpdateKeepsRecoverableIff | backend/btrixcloud/crawlconfigs.py:707-776 | every past setup stays recoverable if and only if the update is not one that changes the setup without a snapshot and finds none of the present revision |
| ConfigHistory.RecoverableAllAlongIff | backend/btrixcloud/crawls.py:480 | over any run, what every revision refers to is, all along, in each snapshot with the least number from it on, or else is the current setup, if and only if no update is silent |
| ConfigHistory.OneSnapshotPerNumberIff | backend/btrixcloud/crawlconfigs.py:707-735 | a second snapshot under one number is taken exactly by a change after an update that was refused with its snapshot taken |
| ConfigHistory.PromiseKeptIff | backend/btrixcloud/crawlconfigs.py:564-607 | an update leaves one kind of seeds, and a profile with the content check, if and only if it is not of two families that get past the refusals |
| ConfigHistory.PromiseAllAlongIff | backend/btrixcloud/crawlconfigs.py:564-607 | the same over any run, all along |
| ConfigHistory.RepeatingTheSeedFileIsSilent | backend/btrixcloud/crawlconfigs.py:750-755 | a run with no nulls in it that loses a past config |
| CrawlQueue.MatchCrawlQueue | backend/btrixcloud/crawls.py:591-643 | the matches of whole steps up to the end, or up to the first step that exceeds the size limit, with the offset to go on from |
| CrawlQueue.WhatAnAnswerSays | backend/btrixcloud/crawls.py:613-636 | an answer in positions of the queue: everything that matches from the offset on, or up to an offset a multiple of 50 further on, before which the matches exceed 500000 characters and 50 positions earlier did not |
| CrawlQueue.AnswersCompose | backend/btrixcloud/crawls.py:631-636 | an answer and what remains after its offset make up what remained before, and the offset moves on |
| CrawlQueue.MatchAll | backend/btrixcloud/crawls.py:606-643 | following the offset ends and gives exactly the queue filtered once |
| CrawlQueue.ListRangeIsSliceIff | backend/btrixcloud/crawls.py:545-552 | negative indices give the slice of the reversed list, except for an empty range at offset 0 of a list that is not empty |
| CronFields.FieldAcceptedIffSentence | backend/btrixcloud/cron_validator.py:65-102 | a field is accepted if and only if it is the print of a well-formed field of its position |
| CronFields.FieldAcceptedIffWellFormed | backend/btrixcloud/cron_validator.py:84-102 | a field is accepted if and only if its parse is well-formed |
| CronFields.SingleValueIff | backend/btrixcloud/cron_validator.py:65-102 | a single value is accepted if and only if it is a name or a number of digits in the range of the position |
| CronFields.StepIff | backend/btrixcloud/cron_validator.py:84-91 | a step is accepted if and only if it is of digits that are not all zero, after a star or a value that is accepted |
| CronFields.ListIff | backend/btrixcloud/cron_validator.py:94-102 | a list is accepted if and only if its parts are, and none of them is a question mark |
| CronFields.ParseOfPrintedField | backend/btrixcloud/cron_validator.py:94-102 | parsing the print of a well-formed field gives it back |
| CronFields.PrintOfParsedField | backend/btrixcloud/cron_validator.py:94-102 | printing a parsed field gives the text back |
| CronSchedule.EveryAcceptedIffTerms | backend/btrixcloud/cron_validator.py:62-62 | the duration pattern accepts exactly one or more number-unit pairs |
| CronSchedule.UniqueDuration | backend/btrixcloud/cron_validator.py:62-62 | a duration splits into pairs in only one way |
| CronSchedule.AcceptedIffParseIsWellFormed | backend/btrixcloud/cron_validator.py:115-157 | within the limits a schedule is accepted if and only if its parse is well-formed |
| CronSchedule.ReadsDeterminesTheTree | backend/btrixcloud/cron_validator.py:133-157 | a text is a sentence for at most one tree |
| CronSchedule.AcceptedIffSentence | backend/btrixcloud/cron_validator.py:115-157 | within the limits a schedule is accepted if and only if it is a descriptor, a duration or a sentence of five or six fields in range |
| CronSchedule.PlainScheduleIff | backend/btrixcloud/cron_validator.py:136-156 | five or six plain values are accepted if and only if each is one of its position of the calendar, by number or by name |
| CronSchedule.DescriptorsAccepted | backend/btrixcloud/cron_validator.py:105-112 | a schedule that starts with @ is accepted if and only if it is one of seven words or @every and a duration |
| CronSchedule.OutsideTheLimits | backend/btrixcloud/cron_validator.py:125-132 | lenient reading and the empty schedule are accepted, and otherwise nothing over 100 characters or of several lines |
| CronSchedule.RoundTrip | backend/btrixcloud/cron_validator.py:105-157 | printing then parsing gives any well-formed schedule back, and the print is accepted if and only if it fits the length |
| BackgroundJobs.JobStore.RetryJob | backend/btrixcloud/background_jobs.py:875-896 | answer and new record for every state of the record and every kind of job |
| BackgroundJobs.JobStore.RetryOrgJob | backend/btrixcloud/background_jobs.py:898-983 | the same for jobs of an organization, kind by kind |
| BackgroundJobs.WhatARetryDoes | backend/btrixcloud/background_jobs.py:875-983 | for every kind of job, state of its record and caller: the answer, and whether a new attempt is begun and the old one filed |
| BackgroundJobs.JobStore.JobFinished | backend/btrixcloud/background_jobs.py:641-701 | answer, records and replicas after a callback: a finished record stays, another organization's record stays, a periodic job gets its record, and a replica is entered exactly when the job reports success for an open record and the file is still there |
| BackgroundJobs.WhatACallbackDoes | backend/btrixcloud/background_jobs.py:641-701 | a callback closes an open record of its kind and organization, and leaves any other alone |
| BackgroundJobs.SucceededReplicaIsOnRecordIff | backend/btrixcloud/background_jobs.py:101-119 | over any run, a replica job that has come to success has its replica on record if and only if the file was still there when that success was reported |
| BackgroundJobs.SettledTogetherAlways | backend/btrixcloud/background_jobs.py:200-211 | over any run, finished is unset exactly when success is unset |
| BackgroundJobs.RecordTellsTheAttempts | backend/btrixcloud/background_jobs.py:188-215 | over any run in which no fresh start changes the record: endings and beginnings alternate, nothing follows success, and the record lists exactly the attempts they tell, in order |
| BackgroundJobs.NewJobTellsAll | backend/btrixcloud/background_jobs.py:211-227 | the same from creation on, while no fresh start changes the record |
| BackgroundJobs.FinishedAttemptsStay | backend/btrixcloud/background_jobs.py:677-698 | unless a fresh start changes the record, an attempt that has ended never changes, and a job that succeeded is left alone |
| BackgroundJobs.FreshStartForgets | backend/btrixcloud/background_jobs.py:523-572 | a fresh start under an old id leaves none of the earlier attempts |
| BackgroundJobs.AllAttemptsListedIff | backend/btrixcloud/background_jobs.py:200-229 | the record lists every attempt of a run, in order, if and only if no fresh start changed it |
| BackgroundJobs.OwnReportsIffInTime | backend/btrixcloud/background_jobs.py:677-698 | over any run each ending was reported by its own attempt if and only if every callback that found the record open came from the present attempt |
| BackgroundJobs.LateCallbackEndsTheNextAttempt | backend/btrixcloud/background_jobs.py:677-698 | a repeated callback after a retry ends the new attempt, whose own success is then ignored |
| BackgroundJobs.YesWithoutARestartIff | backend/btrixcloud/background_jobs.py:875-960 | a retry that answers yes has started nothing if and only if the cluster refused or the record is another organization's |
| StorageBytes.OrgStorage.DoCommitToProfile | backend/btrixcloud/profiles.py:262-377 | profile and bytes after a commit, in the failure cases too |
| StorageBytes.OrgStorage.UpdateProfileFromCrawlUpload | backend/btrixcloud/profiles.py:403-467 | profile and bytes after a crawl saved a profile, with the same hash or another, and with a request for replicas that raises after the profile is stored |
| StorageBytes.WhatAProfileUpdateDoes | backend/btrixcloud/profiles.py:403-467 | the stored profile, and by how much which counter and the total move, for every hash, size and failure |
| StorageBytes.OrgStorage.UploadThumbnailStream | backend/btrixcloud/colls.py:1202-1306 | collection and bytes after an upload; what is replaced is not taken off |
| StorageBytes.WhatDeletingACollectionDoes | backend/btrixcloud/colls.py:707-732 | a collection goes with its thumbnail's bytes unless it has an index or the thumbnail cannot be deleted |
| StorageBytes.OrgStorage.UpdateDedupeIndexInfo | backend/btrixcloud/colls.py:902-939 | collection and bytes after saving an index that matches or not, with a time or without |
| StorageBytes.WhatAnIndexDoes | backend/btrixcloud/colls.py:902-939 | index state, index file and bytes after saving an index, from what was there |
| StorageBytes.OrgStorage.DeleteCrawls | backend/btrixcloud/basecrawls.py:392-495 | items and bytes after deleting a list, with files that could not be deleted |
| StorageBytes.WhatDeletingItemsDoes | backend/btrixcloud/basecrawls.py:392-495 | which items a list leaves, and by how much which counter and the total move |
| StorageBytes.OrgStorage.RecalculateStorage | backend/btrixcloud/orgs.py:1660-1702 | five fields become recounts, the total their sum, and the index bytes are left out of it |
| StorageBytes.SumWithoutDoomed | backend/btrixcloud/basecrawls.py:403-483 | deleting a list of different items lowers the recount of their kind by what was freed and what was stuck, and that of the other kind not at all |
| StorageBytes.DriftMovesByExcess | backend/btrixcloud/orgs.py:1013-1029 | by exactly how many bytes each operation moves the counters away from a recount |
| StorageBytes.FaithfulIff | backend/btrixcloud/colls.py:912-937 | an operation leaves the counters as true as they were if and only if a condition on the state before it holds |
| StorageBytes.TotalMovesWithTheFields | backend/btrixcloud/orgs.py:1711-1724 | only recalculation changes the gap between the total and the six fields, and sets it to the index bytes |
| StorageBytes.FaithfulRunsStayConsistent | backend/btrixcloud/orgs.py:1711-1724 | over any run of faithful operations every field equals a recount and the total is the sum of the six |
| StorageBytes.RightAllAlongIff | backend/btrixcloud/orgs.py:1660-1724 | over any run, recalculations included, the counters are right all along if and only if each operation keeps them right |
| StorageBytes.RunDrift | backend/btrixcloud/orgs.py:1711-1724 | over any run the drift is the sum of what the operations added |
| StorageBytes.RecalculationForgetsIndexes | backend/btrixcloud/orgs.py:1680-1694 | after a recalculation five fields are right whatever they were, and the total is the sum of the six if and only if no index bytes are counted |

## Left out

- HTTP routes, permissions, request parsing, logging, mail and webhooks.
- Kubernetes, object storage, Redis and MongoDB themselves: they appear as parameters and as atomic steps.
- Interleavings inside one charge or one quota update, inside a finish callback, inside a retry and inside a profile
  commit: reads and later writes are not protected against each other there, and the claims are for serial runs.
- CrawlDeletion.Archive.DeleteCrawls: the cluster either stops the job of an unfinished crawl or the request fails; when
  the job is already gone the crawl is first marked as canceled and subtracted a first time.
- Other fields of collection statistics (unique pages, tags, dates, hosts, preloaded resources).
- Updating the collections of a deleted item; if one of them is missing, the request fails before the workflows are
  updated.
- Files of quality-assurance runs, their deletion and their statistics.
- InsertMany: takes an unordered insert to go through the batch in its order, so that of two records with one new id in
  the same batch the earlier one stays; the database does not promise that.
- CollectionSlugs goes on updating a document whose slug was set to null, although the source reads it through its
  document model first, which may refuse it.
- The whole-document write after an upload of a thumbnail (`colls.py:1295-1299`) stores back every field as it was read
  before the upload, among them an older modification time, statistics, slug, list of previous slugs and index file.
- When a list of items to delete names one that does not exist, files and pages of the items before it are gone and
  those items are marked as deleted; the model keeps their records as they were, as the statistics do.
- Pages added one at a time while a crawl runs, and whether a page is a seed.
- Listings of pages and crawls: query construction and sorting; what they return is a parameter.
- What follows a stored workflow update: deleting a seed file that is no longer used, the schedule of the cluster, and
  starting or changing a crawl. Which texts in a config are valid is a parameter. A crawl's filename template and
  whether it can be shared are tracked settings that neither snapshots nor crawls have.
- Non-ASCII digits and white space in schedules, and the lenient reading of stored schedules, which accepts everything.
- The order of the two ends of a range in a schedule, which the validator does not check either.
- Creation of crawls and uploads and the growth of their files, which add to the byte counters elsewhere.
- Scheduled deletion of replicas, and the mail that reports a failed job.
- Organization import and export.
