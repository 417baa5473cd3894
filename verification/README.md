# Verification of Heureka's core logic

This project models the parts of Heureka that decide what happens to data and proves, for all inputs, runs or
reachable states, what they are there for. Check everything with `dafny verify dfyconfig.toml`.

| files | what they model |
|---|---|
| `EventRegistry.dfy`, `EventHistory.dfy`, `EventProgress.dfy` | the event queue: lock-free pushes, channel growth under a lock, one drainer per replaced channel, four workers, handler dispatch, as a step system in which every access to shared memory is one action |
| `AutopatchTables.dfy`, `Autopatch.dfy` | the garbage collection after scanner runs: tables with live flags, phases, tags in any order, the default page of 1000 rows |
| `Cursor.dfy`, `Pagination.dfy`, `Pages.dfy` | keyset pagination: cursor condition and parameters, the walk over all pages, the page index |
| `Joins.dfy`, `IssueJoins.dfy`, `IssueWhere.dfy` | the join resolver, the join table of issues, and which joins their filter parts need |
| `Json.dfy`, `Filters.dfy` | the filter compiler and the flattening of JSON filters |
| `KeyCodec.dfy`, `InMemoryCache.dfy`, `CachedCalls.dfy`, `CacheFreshness.dfy`, `CacheRefreshes.dfy` | cache keys, the in-memory store, cached calls with single flight and background refresh as a step system, what an invalidation achieves, and which refreshes are started and what they store |
| `Tuples.dfy`, `Authz.dfy` | the authorization tuples, the OpenFGA client operations and the event handlers that use them |
| `Remediation.dfy` | the rule for creating remediations and what it keeps over whole runs |
| `Common.dfy` | counting and other small notions |

The primitives of the stores (get, set and invalidate of the cache, adding tuples) and the handlers that add or
remove one tuple have no rows of their own below; the results about whole runs rest on them.

Objects whose methods change state are classes here, and their methods are proved against functions of the old
state; the results about those functions, over whole runs, are lemmas. Concurrent code is a step system: `Runs`
says that a schedule is possible, `Run` where it leads.

Where the code falls short of what one would expect of it, with the exact condition under which it does not:

- A walk over pages skips rows that tie in the order. User orders are not completed by the id
  (`internal/database/mariadb/order.go:125-134`); a walk with pages of n is complete iff no two rows tie
  across the end of a page (`Pagination.WalkCompleteExactly`, `Pagination.TiedRowsAreSkipped`).
- Autopatch looks at one page of 1000 gone instances per tag, so a version can outlive all its instances
  (`AutopatchTables.VersionsAfterTagsExact`, `AutopatchTables.CrowdedTagLeavesVersion`). Components, patches, instances
  and matches do not depend on that limit.
- The remediation rule looks at one page of 1000 rows (`Remediation.CreateKeepsOrderExactly`,
  `Remediation.CrowdHidesPermanent`).
- A refresh that the rate limiter refuses keeps its semaphore token for ever, so tokens come back iff there is no
  limiter (`CachedCalls.TokensReturnExactly`); after as many refusals as there are tokens nothing is refreshed any
  more (`CachedCalls.RefusalsStopRefreshing`).
- A call begun after an invalidation can still get an old answer, from a flight that was under way
  (`CacheFreshness.InvalidationExactly`).
- Some filter combinations of issues name tables that are not joined (`IssueWhere.WhereInScopeExactly`,
  `IssueWhere.ComponentOfGroupOutOfScope`).

## Model

| member | source | states |
|---|---|---|
| `EventHistory.EveryRunConserves` | internal/app/event/event_registry.go:51-148 | In every interleaving of pushes (also through a stale channel), growth, draining and receiving, each occurrence of an accepted event is in exactly one place: a channel, a drainer, a worker, or handled; each offered one is accepted or still pending |
| `EventHistory.RestMeansHandled` | internal/app/event/event_registry.go:51-148 | Once nothing is in flight, every event has been handled exactly as often as it was pushed, and each handler found for it was called once per handling |
| `EventHistory.RegisteredHandlersAreCalled` | internal/app/event/event_registry.go:40-148 | For any moment of any run and any continuation: the events handled from then on are handled with lists that begin with the handlers registered at that moment, in registration order, except for exactly as many, at most four, as workers were calling an older list at that moment and have finished since |
| `EventHistory.HandlersAreRegistered` | internal/app/event/event_registry.go:40-49 | After every run the handlers of a name are the h of the schedule's Register(name, h) actions, in order |
| `EventHistory.HandledAsRegistered` | internal/app/event/event_registry.go:139-148 | In every run each event is handled, or being handled, with exactly the handlers registered for its name when it was looked up, neither more nor fewer, in order |
| `EventHistory.ReadsAreCurrent` | internal/app/event/event_registry.go:51-148 | In every run each push, drainer and worker uses the channel that was the newest when it read the field |
| `EventHistory.WaitsOnlyWhenFull` | internal/app/event/event_registry.go:51-62 | In every run a push goes for the mutex only after it found the channel it had read full |
| `EventHistory.GrowsOnlyWhenFull` | internal/app/event/event_registry.go:60-88 | In every run a channel is replaced only after the replacing push saw that very channel full under the mutex |
| `EventHistory.ChannelsAreFifo` | internal/app/event/event_registry.go:51-148 | In every run what was put into a channel, in order, is what was received from it, in order, followed by what is in its buffer |
| `EventHistory.NoneLagging` | internal/app/event/event_registry.go:139-148 | If no worker was calling handlers at that moment, there is no exception |
| `EventProgress.DrainersMoveForward` | internal/app/event/event_registry.go:67-86 | In every reachable state a drainer sends only to a channel created after its source; a fresh channel has capacity 1024 * 2^k, at least 2048, and holds exactly the event that caused the growth, so that send never blocks |
| `EventProgress.ForwardingTerminates` | internal/app/event/event_registry.go:80-86 | While no push puts in an event, the drainers together take at most Rank(s) actions, whatever else is interleaved |
| `EventProgress.StuckBehindCurrent` | internal/app/event/event_registry.go:80-86 | A drainer that holds an event while no drainer can move is blocked, through later and later channels, by a full current channel |
| `EventProgress.DrainersFinish` | internal/app/event/event_registry.go:80-86 | The drainers never block each other: when none can move, the current channel is full, or every replaced channel is empty and no drainer holds an event |
| `EventRegistry.StepInv` | internal/app/event/event_registry.go:40-148 | Every action keeps the invariant: capacities double, one drainer per replaced channel, mutual exclusion in PushEvent, conservation of events and of handler calls |
| `EventRegistry.RunInv` | internal/app/event/event_registry.go:40-148 | The invariant holds after every run |
| `EventRegistry.InitInv` | internal/app/event/event_registry.go:91-104 | A new registry satisfies the invariant |
| `EventProgress.OfferedAreCalled` | internal/app/event/event_registry.go:51-52 | The offered events are exactly those PushEvent was called with, as often as it was |
| `EventProgress.PushesReturn` | internal/app/event/event_registry.go:51-89 | Each call of PushEvent puts in its event once at most and has returned iff it did |
| `EventProgress.EverythingSettles` | internal/app/event/event_registry.go:51-148 | While no push puts in an event and no handler is registered, pushes, drainers and workers together take at most Measure(s, h) actions, where h bounds the handlers of a name: nothing circulates and nothing is idle |
| `EventProgress.SettledMeans` | internal/app/event/event_registry.go:51-148 | When nothing else can move, each push has returned, can put in its event or grow, or waits for the mutex; each worker waits at an empty channel or for the mutex; and the current channel is full or the drainers are done |
| `Autopatch.SqlDatabase.Autopatch` | internal/database/mariadb/autopatch.go:17-24 | Given the rows of the run query, an instance counts as gone iff some tag's second newest completed run saw it and its newest did not; whatever the order of the tags and the number of rows: exactly the instances gone and their matches die; a Patch row is inserted once for exactly the live services and versions, under their own ids and names, all of whose live common instances, at least one, are gone; a component dies iff it loses its last live version; exactly the versions that lost their last live instance die iff each tag's page covered them, as it does with at most 1000 live gone instances per tag; where everything gone is dead already nothing changes; the result is true iff something is gone |
| `Autopatch.SqlDatabase.FetchCompletedRunsWithNewestFirst` | internal/database/mariadb/autopatch.go:26-64 | The grouping loop maps each tag that has rows to exactly its run ids in row order |
| `Autopatch.SqlDatabase.ProcessAutopatchOnCompletedRuns` | internal/database/mariadb/autopatch.go:66-86 | In any order of the tag map, the new tables are those of PatchTags over the visited sets, which are exactly those of the tags with two runs; true iff some set is not empty |
| `Autopatch.SqlDatabase.ProcessAutopatchForSingleTag` | internal/database/mariadb/autopatch.go:88-155 | The seven phases in order amount to PatchTag of what disappeared between the two newest runs; true iff something did |
| `Autopatch.SqlDatabase.GetDisappearedInstances` | internal/database/mariadb/autopatch.go:157-171 | The set difference, each id once |
| `Autopatch.SqlDatabase.GetPatches` | internal/database/mariadb/autopatch.go:173-190 | Each once, the pairs of a live service and a live version with a live instance among the given ones, with the name of each |
| `Autopatch.SqlDatabase.InsertPatchesIfNoInstanceExists` | internal/database/mariadb/autopatch.go:396-428 | One Patch row for each info whose pair has no live instance, and no other row |
| `Autopatch.SqlDatabase.DeleteIssueMatchesOf` | internal/database/mariadb/autopatch.go:206-217 | The matches of one instance die and nothing else changes |
| `Autopatch.SqlDatabase.DeleteIssueMatchesOfDisappearedInstances` | internal/database/mariadb/autopatch.go:204-221 | The matches of all gone instances die and nothing else changes |
| `Autopatch.SqlDatabase.GetVersionIdsOfDisappearedInstances` | internal/database/mariadb/autopatch.go:223-245 | The version ids of the first 1000 live gone instances, NULL read as -1 |
| `Autopatch.SqlDatabase.GetComponentIdsOfDisappearedInstances` | internal/database/mariadb/autopatch.go:247-269 | The components of the first 1000 live versions among the ids, or among all versions when there is no id |
| `Autopatch.SqlDatabase.RemoveIssuesOfAll` | internal/database/mariadb/autopatch.go:284-288 | The inner loop removes the issue links of every version in the set |
| `Autopatch.SqlDatabase.DeleteVersionsOfDisappearedInstances` | internal/database/mariadb/autopatch.go:271-297 | Exactly the versions of the set without live instance die; links of the whole set go as soon as there is one |
| `Autopatch.SqlDatabase.DeleteComponentsOfDisappearedInstances` | internal/database/mariadb/autopatch.go:299-319 | Exactly the components of the set without live version die |
| `Autopatch.SqlDatabase.DeleteDisappearedInstances` | internal/database/mariadb/autopatch.go:321-329 | Exactly the given instances die |
| `Autopatch.RunsOfTag` | internal/database/mariadb/autopatch.go:26-64 | The list of a tag holds exactly its completed, undeleted runs, in descending order |
| `Autopatch.NewestAreFirst` | internal/database/mariadb/autopatch.go:88-90 | The first two ids of such a list are the two newest runs, and there are two newest runs iff there are two ids |
| `Autopatch.GoneIsDisappeared` | internal/database/mariadb/autopatch.go:88-106 | An instance is among those computed from the list iff it disappeared in terms of the run table |
| `AutopatchTables.RowsAfterTags` | internal/database/mariadb/autopatch.go:66-155 | For any sequence of tags and any number of rows: instances and matches die iff their instance disappeared in some tag, and the Patch table gains exactly ExpectedPatches, also when a pair's instances disappear across several tags |
| `AutopatchTables.PatchedPairs` | internal/database/mariadb/autopatch.go:173-202 | A (service, version) pair gets a patch iff both rows are live, it had a live instance and has none any more, and it gets exactly one |
| `AutopatchTables.DueExactly` | internal/database/mariadb/autopatch.go:368-428 | A patch row is expected iff its service and version are live and bear its two names, and the two had a live instance and all of them are gone |
| `AutopatchTables.TagsMeaning` | internal/database/mariadb/autopatch.go:66-155 | For any sequence of tags, in terms of the rows alone: what becomes of every instance, match, patch row and component, and that the versions come out right iff the pages covered |
| `AutopatchTables.PatchesSplit` | internal/database/mariadb/autopatch.go:192-202 | The patches of one more tag are exactly the pairs whose last live instance that tag takes away, disjoint from those of earlier tags |
| `AutopatchTables.TagVersions` | internal/database/mariadb/autopatch.go:223-297 | Without any bound: a version dies in a tag iff it is on the page that is looked at and has no live instance left |
| `AutopatchTables.VersionQuery` | internal/database/mariadb/autopatch.go:223-245 | A version is listed iff some live gone instance of it has fewer than 1000 live gone instances before it; an instance without version lists -1 |
| `AutopatchTables.TagLinks` | internal/database/mariadb/autopatch.go:283-288 | In a tag the issue links of all listed versions go as soon as one of them has no live instance left, and no other link does |
| `AutopatchTables.LinksAfterTags` | internal/database/mariadb/autopatch.go:283-288 | Over all tags no link is added, and links of versions that are never listed stay |
| `AutopatchTables.TagVersionsExact` | internal/database/mariadb/autopatch.go:223-245 | One tag deletes the right versions iff every version that loses its last instance has an instance on the page of 1000 |
| `AutopatchTables.VersionsAfterTagsExact` | internal/database/mariadb/autopatch.go:66-155 | Over all tags, in the order visited: exactly the versions that had a live instance before and have none after die iff every tag's page covered those losing their last instance in it |
| `AutopatchTables.SurvivorStays` | internal/database/mariadb/autopatch.go:223-245 | A version that lost its last instance unnoticed is never looked at again, whatever tags follow |
| `AutopatchTables.FewGoneArePaged` | internal/database/mariadb/autopatch.go:223-245 | The pages of all tags cover if no tag has more than 1000 live gone instances |
| `AutopatchTables.FewGoneAreCovered` | internal/database/mariadb/autopatch.go:223-245 | With at most 1000 live gone instances the page covers them |
| `AutopatchTables.CrowdedTagLeavesVersion` | internal/database/mariadb/autopatch.go:223-245 | With 1001 gone instances a version can survive without any instance |
| `AutopatchTables.TagComponents` | internal/database/mariadb/autopatch.go:247-319 | Without any bound: a component dies in a tag iff it had a live version before and has none after, also through the unfiltered query of an empty version set |
| `AutopatchTables.ComponentQuery` | internal/database/mariadb/autopatch.go:247-269 | A component is listed iff some live version of it that was asked for has fewer than 1000 such versions before it |
| `AutopatchTables.ComponentsAfterTags` | internal/database/mariadb/autopatch.go:66-155 | Over all tags in any order and without any bound: a component dies iff it had a live version before and has none after |
| `AutopatchTables.ListedComponentsHaveVersions` | internal/database/mariadb/autopatch.go:247-269 | Every component that is looked at has a live version before the deletion, filtered or not |
| `AutopatchTables.FirstIdsExact` | internal/database/mariadb/db_object.go:849-864 | An id is on a page of n iff it matches and fewer than n matching ids come before it |
| `AutopatchTables.QuietTag` | internal/database/mariadb/autopatch.go:88-155 | A tag whose gone instances and their matches are dead already changes no live flag, link or patch, including through the unfiltered component query |
| `AutopatchTables.OutcomeIsSettled` | internal/database/mariadb/autopatch.go:204-329 | After Autopatch everything gone is dead |
| `AutopatchTables.AgainChangesNothing` | internal/database/mariadb/autopatch.go:66-155 | Visiting the same tags again, in any order and any number of times, changes no live flag, no link and no patch |
| `Cursor.CreateCursorQuery` | internal/database/mariadb/cursor.go:71-103 | The recursion with its inner loop yields the condition ConditionOf, whose meaning CursorSelectsRowsAfter gives |
| `Cursor.CreateCursorParameters` | internal/database/mariadb/cursor.go:105-115 | The separate recursion yields the parameters ParametersOf |
| `Cursor.PlaceholdersMatch` | internal/database/mariadb/cursor.go:71-115 | For any field list there are as many parameters as placeholders |
| `Cursor.OneClausePerField` | internal/database/mariadb/cursor.go:71-103 | There is one clause per field, so an order of one field gives no disjunction |
| `Cursor.UnbracketedExactly` | internal/database/mariadb/db_object.go:605-619 | If the condition is joined to a filter by AND without brackets, a row is treated as meant iff it passes the filter or is not beyond the cursor in the order without its last field; with one field that is every row |
| `Cursor.ConditionMeaning` | internal/database/mariadb/cursor.go:71-103 | The condition with its parameters holds iff the row ties with the cursor on some number of fields and is beyond it on the next |
| `Cursor.TiesMeanAfter` | internal/database/mariadb/cursor.go:71-103 | That is the same as coming strictly after the cursor in the direction-aware lexicographic order |
| `Cursor.CursorSelectsRowsAfter` | internal/database/mariadb/cursor.go:71-115 | The generated condition, with the generated parameters bound by position, holds of exactly the rows strictly after the cursor, for any mix of directions |
| `Pagination.BuildCursor` | internal/database/mariadb/cursor.go:117-162 | The With builders: the fields are, in order, the row's values in the columns asked for, or else in the default column, that the entity knows, with the directions asked for; a non-empty order of known columns is kept whole |
| `Pagination.SortSelects` | internal/database/mariadb/db_object.go:605-619 | Selecting by a cursor and then sorting is sorting and then selecting, with ties or without |
| `Pagination.CursorSelectsSuffix` | internal/database/mariadb/db_object.go:605-619 | In the ordered list the cursor of row j selects exactly the rows after j, if the next one does not tie with it |
| `Pagination.PageAfterRow` | internal/database/mariadb/db_object.go:501-524 | The page fetched with the cursor of row j of the full list is the next rows of that list, as many as the limit, if the next one does not tie with it |
| `Pagination.NextPage` | internal/database/mariadb/db_object.go:205-242 | The cursor built for row j of the list in the requested order, or in the default order if none is requested, fetches exactly the rows behind it, as many as the limit, if the next one does not tie with it |
| `Pagination.FirstColumnSorts` | internal/database/mariadb/order.go:136-150 | The list is ordered by the first column in the direction asked for |
| `Pagination.WalkSeesEveryRowOnce` | internal/database/mariadb/db_object.go:501-524 | For an order that ties no two rows and no NULL keys, any walk page after page concatenates to the full ORDER BY list, with every row exactly once |
| `Pagination.UniqueColumnUnties` | internal/database/mariadb/order.go:125-150 | An order with a unique column, such as the id, anywhere in it ties no two rows |
| `Pagination.WalkEnds` | internal/database/mariadb/db_object.go:605-636 | Ties or not, the walk ends after at most one page more than there are rows |
| `Pagination.WalkIsBounded` | internal/database/mariadb/db_object.go:605-636 | Ties or not, a walk shows no row twice: never more rows than lie after its start |
| `Pagination.WalkCompleteExactly` | internal/database/mariadb/db_object.go:501-524 | A walk with pages of n sees every row exactly once iff no two rows tie across the end of a page |
| `Pagination.CompleteExactlyWhenUntied` | internal/database/mariadb/db_object.go:501-524 | Walks of every page size see every row exactly once iff the order ties no two rows |
| `Pagination.TiedRowsAreSkipped` | internal/database/mariadb/cursor.go:71-103 | Two rows with equal keys: with pages of one row the second is never shown |
| `Pages.GetPages` | internal/app/common/pagination_helpers.go:23-75 | The loop yields one entry per chunk of the cursor list, with its last cursor, size, number and whether it holds the first cursor; the current page is the last one so marked |
| `Pages.GetPageInfo` | internal/app/common/pagination_helpers.go:77-106 | Next and previous page flags, page number, next cursor and validity of the requested cursor; for distinct cursors with the first result at position m the page is m / size + 1, there is a next page iff cursors remain beyond it and a previous one iff m >= size |
| `Pages.ChunksPartition` | internal/app/common/pagination_helpers.go:23-75 | The pages partition the cursor list in order and all but the last are full |
| `Pages.ChunkCount` | internal/app/common/pagination_helpers.go:62-72 | There are ceil(n / size) pages |
| `Pages.ChunkSlice` | internal/app/common/pagination_helpers.go:46-60 | Page k holds the cursors from k * size on |
| `Pages.PageOfIsQuotient` | internal/app/common/pagination_helpers.go:36-60 | Position m lies on page m / size |
| `Pages.PageOfCursor` | internal/app/common/pagination_helpers.go:42-44 | With distinct cursors, cursor m is on page m / size and on no other |
| `Pages.PageIndex` | internal/app/common/pagination_helpers.go:77-106 | With distinct cursors and a listed first cursor: ceil(n / size) pages numbered from 1, each with its size and the last cursor on it, exactly one current, the one holding the cursor; a next page iff cursors remain beyond it, a previous one iff cursors come before it |
| `Pages.IndexFetchesPage` | internal/app/common/pagination_helpers.go:23-75 | Fetching after the cursor of index entry k - 1 yields exactly the rows of entry k of the ordered list |
| `Joins.JoinResolver.Require` | internal/database/mariadb/db_object.go:775-794 | For an acyclic table the recursion terminates, adds only what is needed, dependencies first; it fails only on an unknown name |
| `Joins.JoinResolver.Build` | internal/database/mariadb/db_object.go:796-842 | The order lists, each once and dependencies first, the least set containing forced and triggered joins and closed under DependsOn; if ON clauses use only own, base and direct dependency aliases, no table is joined twice and each ON clause is in scope |
| `Joins.JoinResolver.Emit` | internal/database/mariadb/db_object.go:809-839 | One join per table, the first in order |
| `Joins.FindsFirst` | internal/database/mariadb/db_object.go:775-783 | Of several definitions with a name it is the first one |
| `Joins.EmittedInOrder` | internal/database/mariadb/db_object.go:809-839 | The joins emitted are, unchanged, the definitions of the first ordered name of each table, in the order of the names |
| `Joins.EmittedTables` | internal/database/mariadb/db_object.go:809-839 | De-duplication loses no table: exactly the tables of the ordered names are joined |
| `Joins.EmittedIsReadable` | internal/database/mariadb/db_object.go:796-842 | No table twice, and every alias of an ON clause is the base table's, its own or an earlier join's |
| `Joins.OrderIsClosed` | internal/database/mariadb/db_object.go:785-793 | A list with dependencies first is closed under DependsOn |
| `IssueJoins.TableIsSound` | internal/database/mariadb/issue.go:97-319 | The issue join table is acyclic, complete and well scoped over the issue table |
| `IssueJoins.BuildIssueJoins` | internal/database/mariadb/issue.go:97-319 | For every issue filter, order and forced joins the resolver succeeds with readable joins of the least closed set of the wanted names |
| `IssueWhere.JoinsProvide` | internal/database/mariadb/issue.go:97-319 | The emitted joins provide an alias iff some triggered or forced join brings it along |
| `IssueWhere.WhereInScopeExactly` | internal/database/mariadb/issue.go:30-96 | Every alias that the filter parts of an issue query name is joined iff three conditions on the filter hold, on filtering by service id, by component and by severity of the materialised list |
| `IssueWhere.OthersInScope` | internal/database/mariadb/issue.go:30-96 | All other filter parts trigger the joins they need themselves |
| `IssueWhere.ComponentOfGroupOutOfScope` | internal/database/mariadb/issue.go:60-61 | Filtering by component and support group alone names a table that is not joined |
| `IssueWhere.JoinKinds` | internal/database/mariadb/issue.go:97-319 | Which joins are right joins, and that exactly those over the materialised list are inner joins |
| `IssueWhere.OneRemediationJoin` | internal/database/mariadb/issue.go:97-319 | A status filter open or remediated, and no other, triggers a join of the remediations, exactly one, which compares instances iff services are filtered and versions iff components are |
| `IssueWhere.NoFilterNoJoin` | internal/database/mariadb/issue.go:97-319 | Without a filter nothing is joined |
| `Json.SeparateJsonAttributesRecursive` | internal/util/json_encode.go:59-92 | The recursion with sorted keys yields the attributes of the document, independent of map order |
| `Json.AttributesAreLeaves` | internal/util/json_encode.go:59-92 | An attribute is listed iff the document has that scalar at that path |
| `Json.AttributesDistinct` | internal/util/json_encode.go:59-92 | No leaf is listed twice |
| `Json.KeysAscend` | internal/util/json_encode.go:64-69 | Sorted keys ascend strictly |
| `Json.StringLessMeans` | internal/util/json_encode.go:69 | Keys are compared by their first difference, and a prefix comes first |
| `Filters.BuildFilterQuery` | internal/database/mariadb/database.go:118-135 | One copy of the expression per value |
| `Filters.GetNParameters` | internal/database/mariadb/db_object.go:694-704 | Each value repeated count times, in order |
| `Filters.BuildQueryParametersCount` | internal/database/mariadb/database.go:141-149 | Each value repeated count times, in order, behind what is there already |
| `Filters.CombineFilterQueries` | internal/database/mariadb/database.go:93-116 | The parts that are not empty, in order |
| `Filters.BuildStateFilterQuery` | internal/database/mariadb/database.go:399-418 | The disjunction of the known states, and active rows only for an empty list |
| `Filters.BuildJsonFilterQuery` | internal/database/mariadb/database.go:420-438 | One conjunction per document with leaves, one test per leaf |
| `Filters.BuildJsonQueryParameters` | internal/database/mariadb/database.go:440-451 | One parameter per leaf, from a second flattening |
| `Filters.Compile` | internal/database/mariadb/db_object.go:682-736 | Query and parameters of a property, built by separate loops |
| `Filters.AddFilter` | internal/database/mariadb/db_object.go:594-602 | The parts and parameters of all properties whose query is not empty |
| `Filters.PlainMeaning` | internal/database/mariadb/database.go:118-149 | A plain property holds iff its expression holds for some value, with every placeholder bound to it |
| `Filters.PlainAlignment` | internal/database/mariadb/db_object.go:686-704 | Placeholders and parameters agree in number iff there is no value or the declared count is that of the expression's placeholders |
| `Filters.StateMeaning` | internal/database/mariadb/database.go:399-418 | The state condition holds iff the row's state is listed; unknown states contribute nothing |
| `Filters.JsonMeaning` | internal/database/mariadb/database.go:420-451 | The two flattenings stay aligned and the condition holds iff all scalars of some document with leaves match the row |
| `Filters.LeavesMatch` | internal/util/json_encode.go:59-92 | All listed attributes match iff every scalar of the document is found at the same path of the row's document |
| `Filters.PropertyMeaning` | internal/database/mariadb/db_object.go:682-736 | For every well declared property counts agree, and the compiled condition says what the property is there to say |
| `Filters.FilterMeaning` | internal/database/mariadb/db_object.go:594-602 | The whole compiled filter selects exactly the rows of which every property holds |
| `KeyCodec.HexRoundTrip` | internal/cache/key.go:74-94 | Hex decoding inverts hex encoding |
| `KeyCodec.Base64RoundTrip` | internal/cache/key.go:60-85 | Base64 decoding (section 4 of RFC 4648) inverts base64 encoding, including padding |
| `KeyCodec.KeyRoundTrip` | internal/cache/cache.go:282-293 | DecodeKey inverts EncodeKey iff the mode is base64, hex or none; in the SHA modes it always fails |
| `KeyCodec.EncodeKeyInjective` | internal/cache/cache_base.go:127-140 | In those modes different keys stay different |
| `KeyCodec.DigestKeys` | internal/cache/cache_base.go:127-140 | In the SHA modes the encoded key is the digest in hex: it can be read back, and keys stay different iff their digests do |
| `KeyCodec.UnknownModeIsBase64` | internal/cache/cache_base.go:127-140 | An unknown mode encodes as base64 does, but never decodes |
| `KeyCodec.HexIsStandard` | internal/cache/key.go:74-76 | Two lower case digits a byte, the high one first |
| `KeyCodec.HexDecodesPairs` | internal/cache/key.go:87-94 | A text decodes iff it is made of pairs of hex digits, to one byte a pair |
| `KeyCodec.LetterIsStandard` | internal/cache/key.go:60-62 | The alphabet of table 1 of RFC 4648 |
| `KeyCodec.GroupBits` | internal/cache/key.go:60-62 | Four letters spell the 24 bits of three bytes, the highest first |
| `KeyCodec.LineEndsIgnored` | internal/cache/key.go:78-85 | Line ends may stand anywhere in a base64 text |
| `KeyCodec.GroupsOnly` | internal/cache/key.go:78-85 | Besides line ends only whole groups of letters and padding decode |
| `InMemoryCache.InMemoryCache.InvalidateByMatch` | internal/cache/in_memory_cache.go:93-113 | Succeeds iff all keys decode, then exactly the entries whose decoded key matches are gone, in any key order; without a decodable mode nothing changes |
| `InMemoryCache.InvalidateMatching` | internal/cache/in_memory_cache.go:93-113 | On keys made by EncodeKey: exactly the entries whose original key matches are removed, or under SHA modes a non-empty store is left unchanged with an error |
| `CachedCalls.CacheOnlyReturnsAnswers` | internal/cache/cache.go:166-258 | In every run of calls, refreshes, expiry and invalidation, every stored and every returned value was an answer of that function on those arguments, given earlier in the run |
| `CachedCalls.CachedEqualsUncached` | internal/cache/cache.go:153-213 | While answers do not change, a successful cached call returns what an uncached one returns |
| `CachedCalls.CacheKeysTellCallsApart` | internal/cache/cache_base.go:142-149 | Keys tell calls apart in the decodable modes, given that the JSON texts do |
| `CachedCalls.StepProvenance` | internal/cache/cache.go:166-258 | Every action keeps the provenance of stored values, of values in hand and of flights |
| `CachedCalls.EachCallCountsOnce` | internal/cache/cache.go:181-199 | Hits and misses are exactly the calls counted as such; a call past its lookup counts exactly once, a refresh never |
| `CachedCalls.RefreshesStayBelowLimit` | internal/cache/cache_base.go:151-173 | With a positive limit, tokens equal those held by refreshes plus those lost to the limiter, and running refreshes plus refusals never exceed the limit |
| `CacheRefreshes.LaunchExactly` | internal/cache/cache_base.go:151-173 | After a hit, for every limit: exactly one refresh starts, of the same function and arguments, iff the limiter allows it and the limit is negative, or positive and not reached; a refused one starts none but takes the token all the same |
| `CacheRefreshes.RefreshesFollowHits` | internal/cache/cache.go:181-189 | In every run each refresh is for the function and arguments of an earlier call that was a hit |
| `CacheRefreshes.AnswerIsStored` | internal/cache/cache.go:215-241 | A call or refresh whose function answers and whose Set succeeds leaves exactly that answer under the key of its own function and arguments, whatever happens in between; if Set fails the store is as before |
| `CacheRefreshes.AllTokensComeBack` | internal/cache/cache_base.go:159-173 | Once all refreshes have returned, a schedule gives back all their tokens, one each, and exactly those lost to the limiter stay taken |
| `CacheRefreshes.Caller.CallEnabled` | internal/cache/cache.go:166-200 | In every case of lookup, decoding, answer and storing: the result, the entries and both counters |
| `CacheRefreshes.Caller.CallFn` | internal/cache/cache.go:215-258 | An answer is returned iff it was encoded and stored under the key; otherwise the store is unchanged |
| `CacheRefreshes.SoloRun` | internal/cache/cache.go:166-258 | A call that nobody interferes with has a schedule of the step system with the result, entries and counters of CallEnabled, in every case |
| `CachedCalls.QuietTokens` | internal/cache/cache_base.go:151-173 | When all refreshes have returned and none can give back a token, the tokens still taken are those lost to the limiter |
| `CachedCalls.TokensReturn` | internal/cache/cache_base.go:159-173 | Without a limiter no token is taken then |
| `CachedCalls.TokensReturnExactly` | internal/cache/cache_base.go:54-69 | With a positive limit and anything cacheable, all tokens come back in every run iff there is no limiter |
| `CachedCalls.TokensCanBeLost` | internal/cache/cache_base.go:151-173 | With a limiter any number of tokens, up to all of them, is lost in some run from the empty cache |
| `CachedCalls.RefusalsStopRefreshing` | internal/cache/cache_base.go:151-173 | With a limiter some run loses every token, and after any run that has, no refresh starts ever again |
| `CacheFreshness.InvalidationExactly` | internal/cache/cache.go:215-258 | After an invalidation in any reachable state, calls begun later only get answers of executions begun later iff at that moment no flight for the key can still deliver a value |
| `CacheFreshness.NoFlightNoStale` | internal/cache/cache.go:215-258 | Without such a flight nothing stale is returned, whatever older calls and refreshes still do |
| `CacheFreshness.FlightGoesStale` | internal/cache/cache.go:224-241 | With one, a call begun after the invalidation can join it and get its answer |
| `Authz.Authz.ListRelations` | internal/openfga/authz.go:476-529 | Accepts exactly the readable filters and lists each matching tuple once; a user type without id does not restrict |
| `Authz.Authz.AddRelation` | internal/openfga/authz.go:203-247 | The tuple is there afterwards and nothing else changed |
| `Authz.Authz.RemoveRelation` | internal/openfga/authz.go:292-342 | The tuple is gone and nothing else changed |
| `Authz.Authz.RemoveRelationBulk` | internal/openfga/authz.go:345-398 | All tuples selected by some filter go, unless a filter is unreadable or two filters select the same tuple, in which case nothing changes |
| `Authz.Authz.UpdateRelation` | internal/openfga/authz.go:444-473 | Afterwards the new tuple is there, what the filter selected is gone, the rest is kept; an unreadable filter changes nothing |
| `Authz.OnComponentInstanceUpdateAuthz` | internal/app/component_instance/component_instance_handler_events.go:227-332 | The check before each replacement is no more than a shortcut: the outcome is the specified update whose exactness Tuples.InstanceUpdateExact states |
| `Authz.OnComponentInstanceDeleteAuthz` | internal/app/component_instance/component_instance_handler_events.go:336-382 | Exactly the tuples naming the instance are gone |
| `Authz.OnComponentVersionUpdateAuthz` | internal/app/component_version/component_version_handler_events.go:102-148 | The specified update whose exactness Tuples.VersionUpdateExact states, also when the event carries no component |
| `Authz.OnComponentVersionDeleteAuthz` | internal/app/component_version/component_version_handler_events.go:151-191 | Exactly the tuples naming the version are gone |
| `Authz.OnIssueMatchUpdateAuthz` | internal/app/issue_match/issue_match_handler_events.go:288-335 | The specified update whose exactness Tuples.MatchUpdateExact states |
| `Authz.OnIssueMatchDeleteAuthz` | internal/app/issue_match/issue_match_handler_events.go:338-372 | Exactly the tuples naming the match are gone |
| `Authz.OnComponentDeleteAuthz` | internal/app/component/component_handler_events.go:113-140 | Exactly the tuples naming the component are gone |
| `Authz.OnServiceDeleteAuthz` | internal/app/service/service_handler_events.go:233-267 | Exactly the tuples naming the service are gone |
| `Authz.OnSupportGroupDeleteAuthz` | internal/app/support_group/support_group_handler_events.go:155-212 | Exactly the tuples naming the group are gone, also when a self tuple exists |
| `Authz.OnUserDeleteAuthz` | internal/app/user/user_handler_events.go:91-157 | Exactly the tuples naming the user are gone |
| `Authz.SelfTupleWouldBlockDelete` | internal/app/support_group/support_group_handler_events.go:166-180 | If the self tuple were still there, the bulk delete would be refused and leave everything |
| `Tuples.RunsAreFunctional` | internal/app/component_instance/component_instance_handler_events.go:168-332 | After any sequence of events each instance has at most one service and one version, each version at most one component, each match at most one instance, and only known tuple shapes occur |
| `Tuples.StepMembership` | internal/app/component_instance/component_instance_handler_events.go:168-382 | After an event a tuple is there iff the event asks for it, or it was there and the event does not take it away, told from the event and the tuple alone |
| `Tuples.RunMembership` | internal/app/heureka.go:185-282 | After any sequence of events a tuple is in the store iff some event asked for it and none took it away since, or it was there and none took it away: members, owners, services of groups, creator roles, and the links of instances, versions and matches |
| `Authz.HandleEvents` | internal/app/heureka.go:185-282 | Calling the registered handlers for any sequence of events leaves exactly the tuples that Tuples.RunMembership tells from the events, so each tuple function stays single-valued and the shapes are kept |
| `Tuples.StepFunctional` | internal/app/component_instance/component_instance_handler_events.go:227-332 | Every event keeps that uniqueness |
| `Tuples.ShapesKept` | internal/app/component_instance/component_instance_handler_events.go:168-382 | Every event keeps the tuple shapes |
| `Tuples.InstanceUpdateExact` | internal/app/component_instance/component_instance_handler_events.go:227-332 | After an update the service and version tuples are exactly the requested ones; a field that is not carried keeps its tuple |
| `Tuples.VersionUpdateExact` | internal/app/component_version/component_version_handler_events.go:102-148 | After an update the component tuple is exactly the requested one |
| `Tuples.MatchUpdateExact` | internal/app/issue_match/issue_match_handler_events.go:288-335 | After an update the instance tuple is exactly the requested one |
| `Tuples.DeleteRemovesExactly` | internal/openfga/authz.go:345-398 | For tuples of the known shapes every delete list is free of duplicates and exactly the tuples naming the entity are gone |
| `Remediation.Remediations.CreateRemediation` | internal/app/remediation/remediation_handler.go:141-306 | Creates iff the input is valid and no row of the first page blocks; the new table is the old one with the row appended, or unchanged |
| `Remediation.Remediations.DeleteRemediation` | internal/app/remediation/remediation_handler.go:497-550 | Rejects ids below 1; otherwise that row is inactive and nothing else changes |
| `Remediation.AcceptsExactly` | internal/app/remediation/remediation_handler.go:221-284 | When the active rows of the service and issue behind the first 1000 have expired, a remediation is accepted iff it names a service, has a URL if it accepts a risk, and expires later than every row in force with the same subject |
| `Remediation.CreateKeepsOrderExactly` | internal/app/remediation/remediation_handler.go:221-284 | Whatever unexpired remediation of a service and issue is created next, the order is kept iff the active rows of that service and issue behind the first 1000 have all expired |
| `Remediation.CrowdHidesPermanent` | internal/app/remediation/remediation_handler.go:221-233 | A run from the empty table that breaks the order: 1000 creates of an expired remediation, then the same permanent one twice |
| `Remediation.EarlierDoesNotBlock` | internal/app/remediation/remediation_handler.go:243-284 | In an ordered table no earlier row speaks against creating a later one in force again |
| `Remediation.RunsStayOrdered` | internal/app/remediation/remediation_handler.go:221-284 | Over any run with a monotone clock in which no row in force is hidden behind the first 1000 at a create, among rows in force with the same subject expirations strictly increase in creation order |
| `Remediation.PermanentIsAlone` | internal/app/remediation/remediation_handler.go:258-263 | A permanent remediation in force is the only one in force for its subject |

## Left out

Weaker than one might want, on purpose:

- AutopatchTables.VersionsAfterTagsExact: the condition looks at the tables when each tag's turn comes, so for tags with more than 1000 live gone instances it depends on the order in which the tag map is visited.
- AutopatchTables.AgainChangesNothing: time stamps are not modelled; a second call sets the deletion time and the updating user of the dead rows again (`internal/database/mariadb/db_object.go:137-165`).
- Autopatch.SqlDatabase.Autopatch: for calls without database error; the phases are not transactional, so a failed call leaves them half done. A second call changes no live flag, link or patch but still returns true.
- Pagination.WalkSeesEveryRowOnce: for the aggregated path, where the cursor condition is alone in HAVING (`internal/database/mariadb/db_object.go:612`), and no rows changing during the walk. On the other path the unbracketed disjunction is joined with the rest of WHERE by squirrel, which is not part of this model; `Cursor.UnbracketedExactly` says for which rows that matters if it adds no brackets, and with one order field there is no difference. NULL keys are excluded: SQL comparisons with NULL hold of nothing. Tied rows are taken in one fixed order in all queries.
- Pagination.BuildCursor: one method for the thirteen With builders, with the set of columns an entity can supply as a parameter.
- Pages.GetPageInfo: page sizes below 1 are not modelled; zero divides by zero in the program.
- Cursor.CreateCursorQuery: the text is kept as its structure, and a direction is ascending or descending; the program treats any other direction value as ascending in the comparison.
- Filters.Compile: query texts are kept as disjunctions of conjunctions of expressions with placeholders; the bracketing of the text is taken to mean that.
- Filters.JsonMeaning: paths are kept as steps; their rendering as `a.b[0]` is ambiguous for keys with dots or brackets, and JSON_VALUE is taken to find exactly the scalar at the path. A document without leaves contributes no condition.
- IssueJoins.TableIsSound: the two sub-select tables are named by their alias, the texts of ON clauses and filter parts are reduced to the aliases they name, and what right and left joins return is not modelled.
- Joins.JoinResolver.Build: conditions are functions of the filter, into which the order is put; cyclic tables, on which the program would recurse for ever, are excluded.
- CachedCalls.CachedEqualsUncached: JSON encoding of keys and values is taken to be faithful; single flight is taken to share one execution among overlapping calls of one key.
- CachedCalls.EachCallCountsOnce: the counter of shared flights is left out.
- EventProgress.DrainersFinish: what is proved of progress is this, `EventProgress.EverythingSettles` and `EventProgress.SettledMeans`. A worker parked on a replaced channel may wait there for ever (`internal/app/event/event_registry.go:126-130`), so no claim that every event is eventually handled. Cancellation, closing of channels, a panicking handler and data races on the channel field are not modelled.
- Tuples.RunsAreFunctional: here and in `Tuples.RunMembership` events are handled one at a time in order, and a create event for an instance is the first about its id. Store calls succeed apart from refused requests, and a read fits on one page.
- Tuples.DeleteRemovesExactly: for tuples of the shapes the handlers write, users in roles, and support groups in support groups.
- Remediation.RunsStayOrdered: one request at a time; two concurrent creates can both pass the check. Expirations are stored exactly; the column keeps no fractions of a second, so two that differ by less can become equal. Rows whose expiration is SQL NULL read back as the Unix epoch (`internal/database/mariadb/entity.go:47-53`) and count as expired; they, and updates of remediations, which do not apply the rule again, are left out, as are user lookup and the invalidation of cached lists.
- CacheFreshness.InvalidationExactly: an execution counts as begun when its call enters the single flight as leader; what the function reads from the database and when is not modelled.
- InMemoryCache.InMemoryCache.Set: time to live and expiry are not in the class; in `CachedCalls` any entry may be forgotten at any time.
- KeyCodec.KeyRoundTrip: SHA-256 and SHA-512 are parameters.

Not modelled at all:

- SQL text, squirrel, sqlx, MariaDB and migrations; they are replaced by sets of rows with live flags, filters, order and limit.
- Which ComponentVersionIssue links remain after several tags: it depends on map order (`internal/database/mariadb/autopatch.go:283-288`); only the links of each single phase are stated.
- The Valkey cache, time to live, the monitor goroutine, reflection and argument checks before a cached call.
- CheckPermission, ListAccessibleResources and the OpenFGA model.
- OnComponentVersionAssignmentToComponentInstance and BuildIssueVariantMap: an else-if lets a variant of lower priority and higher score win (`internal/app/shared/issueVariant.go:64`), which leaves only weak claims.
- The other list, get and update handlers, GraphQL, configuration, logging, scanners and generated clients: plumbing.
