# Verification of the platform's stateful services

A Dafny model of five pieces of the platform whose correctness depends on state kept over many
calls, with proofs of what they guarantee over whole runs:

- the folder tree of the file service, where every folder is stored both as a parent link and as a
  materialised path, and subtree operations go through the path;
- billing periods, the daily renewal job and invoice numbers of the billing service;
- the circuit breaker of the Kafka library, under every interleaving of calls in flight;
- the fixed-window rate limiter of the file service;
- two retry engines: the frontend's offline outbox and the Kafka consumer loop with its dead letter
  queue.

`dafny verify dfyconfig.toml` checks everything.

## How it is laid out

Each service is a class with the fields the service keeps, changed in place. The contract of every
mutating method equates the new state with a function of the old one; the theorems are lemmas about
that function and about runs of it.

| files | content |
|---|---|
| Text.dfy | SQL `LIKE`, `String.prototype.replace`, splitting and joining paths, bytewise order |
| FolderModel.dfy, FolderLinks.dfy, FolderIndex.dfy, FolderRuns.dfy, FolderViews.dfy, FolderNames.dfy, CleanPaths.dfy, FolderClashes.dfy, FolderAlphabets.dfy, FolderTenants.dfy, FoldersService.dfy | the folders table and its operations; links; the path index; runs and inverse operations; lookups and listings; which names the index needs; paths as lists of names; which names make two folders share a path; which characters names may use; tenants; the service |
| Calendar.dfy, Periods.dfy, Subscriptions.dfy, Scheduler.dfy | dates, billing periods, subscriptions, the renewal job |
| Decimal.dfy, Invoices.dfy | decimal text, invoice numbers |
| CircuitBreaker.dfy, RateLimit.dfy, Outbox.dfy, Consumer.dfy | one service each |

## What is assumed

- A repository is a map; a saved row is stored, and requests are served one after another. Generated
  uuids are new. Text columns compare bytewise, and `LIKE` has its default escape character.
- Clocks, generated ids, handler outcomes and failing calls are parameters. Clocks do not run
  backwards. Dates are UTC dates of the proleptic Gregorian calendar.
- Names, paths and limits are not restricted: the operations accept what the services accept. Where a
  theorem needs more, it says so in its own `requires`, and the restriction is discussed next.

## What the code does not promise

Each of these is a property one would expect and the code does not have in general. The condition under
which it holds is proved, together with an input, a run or a trace on which it fails.

- **The path index needs clean names.** The folder service accepts any non-blank name
  (folders.service.ts:39-42), and any at all on rename. A name works if it has no `/`, no `%`, `_` or
  backslash, and no `$$`, `$&`, `` $` `` or `$'`; with such names the index is right after every run
  (`FolderRuns.RunKeepsIndex`). In terms of characters that is exact: the index is right after every run
  with names over a set of characters if and only if the set has none of `/`, `%`, `_`, `$` and the
  backslash (`FolderAlphabets.RunsKeepIndexIff`). The same sets are the ones for which no two live folders
  ever share a path: each of the five characters alone can bring two of them together
  (`FolderAlphabets.RunsKeepPathsUniqueIff`). For single requests and single names:
  - in a table whose index is in order, creating a name can put two live folders at one path if and only if
    the name has a `/` and all pieces between slashes are clean (`FolderClashes.UniqueAfterCreateIff`); for a
    rename in such a table, what a template in the name makes of a path must be watched as well
    (`FolderClashes.UniqueAfterRenameIff`). These conditions are about one request: a name that passes can
    leave the index out of order for the next (`FolderAlphabets.StepsDoNotAddUp`);
  - a new folder, at the root or under a folder reached by walking down its own path, is reached by walking
    down its path if and only if its name has no `/` (`FolderNames.WalkFindsIff`);
  - `LIKE path/%` means "below path", and deletion takes along just that, if and only if the path has no
    wildcard (`Text.LikeIsPrefixIff`, `FolderNames.DeletesBelowIff`);
  - below an old path without templates `replace(oldPath, newPath)` is a prefix swap if and only if the new
    path has none either (`Text.ReplaceIsPrefixSwapIff`; with templates in both they can cancel out,
    `Text.TemplatesCanCancel`), and in every table whose index is in order a rename carries the children
    along if and only if the name has none (`FolderNames.RenamePlacesIff`).

  Three short runs show the damage: two live folders with one path (`FolderNames.SlashBreaksUniqueness`), a
  stranger's child deleted, a child left behind. That no folder becomes its own ancestor, and that tenants do
  not touch each other's folders, holds for all names (`FolderRuns.RunAcyclic`,
  `FolderTenants.RunIsolatesTenants`).
- **Permanently deleting a folder that is already in the bin** goes by its stored path, and removes live
  folders exactly when a live folder with children has since taken that path
  (`FolderIndex.HardDeleteOfDeleted`; a run of five requests that does it is
  `FolderNames.RemovalBreaksStranger`).
- **Twelve monthly periods are not a year** unless the date keeps its day: up to the 28th, or a 29th that
  meets no short February (`Periods.TwelveMonthsAreAYearIff`). Later dates overflow into the next month and
  end on the 1st, 2nd or 3rd for good, as 31 January does (`Periods.MonthsFallBehind`).
- **A failed invoice is not made up for.** The subscription keeps the period it was granted, and the
  invoices the service holds are as many as the periods granted if and only if no invoice call failed on a
  day of renewal (`Scheduler.SchedulerService.RunDays`). After one such day no run within the new period adds
  the invoice (`Scheduler.SchedulerService.RunDaysAfterFailure`).
- **A subscription to be cancelled at period end is never touched again** by the renewal job: it stays
  active, nothing ends it (`Scheduler.CancelledStaysActive`). The job's query filters on
  `cancelAtPeriodEnd`, which subscription.entity.ts does not declare. TypeORM rejects a condition on an
  undeclared property, so with that entity the query itself fails and nothing is ever renewed; the model and
  all theorems about the job assume that the column exists.
- **The 10001st invoice of a month repeats number 10000**, because the text order hides the first
  five-digit number (`Invoices.DistinctIff`); the monthly job repeats it as soon as it bills that many
  subscriptions (`Invoices.NumberRepeats`, `Scheduler.SchedulerService.GenerateMonthlyInvoices`).
- **A half-open circuit breaker has no single probe** (`CircuitBreaker.HalfOpenAdmitsAll`, and from the
  start `CircuitBreaker.ThreeProbes`), and with a non-positive threshold the breaker's state does not
  reflect its counter (`CircuitBreaker.ClosedIffBelowThreshold`).
- **Waiting as long as a rate-limit rejection advises** is not enough exactly when the remaining time is
  a whole number of seconds, because the window still covers its reset time (`RateLimit.AdvisedRetry`,
  with the trace `RateLimit.RetryRejected`).
- **An unparseable message never reaches the dead letter topic**, although the comment at
  kafka-service.ts:313 says it is sent there: wrapping it parses it again, which throws again and is only logged. The messages that are
  in neither place after a stream are those that do not parse, or fail every run while the queue is off or
  the producer down (`Consumer.KafkaConsumer.Consume`).

## Model

| member | source | states |
|---|---|---|
| Text.LikeIsPrefix | file-service/src/modules/folders/folders.service.ts:385-390 | for a path without wildcards the subtree query selects exactly the paths starting with it and a slash |
| Text.LikeIsPrefixIff | file-service/src/modules/folders/folders.service.ts:524-529 | the subtree query means "starts with path/" for all strings if and only if the path has no wildcard or escape |
| Text.ReplacePrefix | file-service/src/modules/folders/folders.service.ts:532 | replacing the first occurrence of a prefix swaps that prefix and nothing else, when the new path holds no replacement template |
| Text.ReplaceIsPrefixSwapIff | file-service/src/modules/folders/folders.service.ts:532 | below any old path without templates the replacement is a prefix swap on every path if and only if the new path holds no replacement template |
| Text.TemplateChanges | file-service/src/modules/folders/folders.service.ts:532 | expanding a text that holds a template always changes it, when the texts put in hold none |
| Text.IndexOfIsFirst | file-service/src/modules/folders/folders.service.ts:532 | the occurrence that is replaced is the first one; none is replaced only if there is none |
| Text.TemplatesMean | file-service/src/modules/folders/folders.service.ts:532 | the four templates stand for a dollar sign, the match, the text before and the text after it |
| FolderModel.BlankIffTrimmedAway | file-service/src/modules/folders/folders.service.ts:39-42 | a name is rejected as blank exactly if trimming white space leaves nothing of it |
| FolderLinks.AcyclicIffRanked | file-service/src/modules/folders/folders.service.ts:504-518 | no folder is its own ancestor if and only if some measure falls along every parent link, so the walks end |
| FolderLinks.CreateAcyclic | file-service/src/modules/folders/folders.service.ts:45-93 | creation closes no cycle of parent links, whatever the names |
| FolderLinks.MoveAcyclic | file-service/src/modules/folders/folders.service.ts:286-335 | a move, accepted or refused, closes no cycle, over live and deleted rows and for all names |
| FolderLinks.OthersAcyclic | file-service/src/modules/folders/folders.service.ts:209-262 | renaming and both deletions close no cycle |
| FolderIndex.AncestorsLive | file-service/src/modules/folders/folders.service.ts:45-53 | every ancestor of a live folder is live and of the same tenant |
| FolderIndex.PathsDiffer | file-service/src/modules/folders/folders.service.ts:69-78 | no two live folders of a tenant share a path |
| FolderIndex.PrefixHasOwner | file-service/src/modules/folders/folders.service.ts:523-529 | a prefix of a live path that ends before a slash is the path of a live ancestor |
| FolderIndex.MatchedIffBelow | file-service/src/modules/folders/folders.service.ts:523-529 | for live folders the subtree query of one matches another exactly when it is a proper descendant by parent links |
| FolderIndex.TakenIffPathInUse | file-service/src/modules/folders/folders.service.ts:55-67 | for names without a slash the duplicate check by parent and name refuses exactly when the path the folder would get is in use |
| FolderIndex.CreateAnswers | file-service/src/modules/folders/folders.service.ts:39-95 | for every name, when creation answers bad request, not found, conflict or success, in terms of live paths, and the new row; a name with a slash is never a conflict |
| FolderIndex.CreateCoherent | file-service/src/modules/folders/folders.service.ts:69-93 | creation with a clean name keeps the index in agreement with the links |
| FolderIndex.DestinationOutside | file-service/src/modules/folders/folders.service.ts:325-338 | the new path of a moved or renamed folder never lies below its old path, so the children's update does not catch it |
| FolderIndex.RepathIsSwap | file-service/src/modules/folders/folders.service.ts:523-538 | the children's update swaps the prefix of exactly the tenant's rows below the old path |
| FolderIndex.MoveAnswers | file-service/src/modules/folders/folders.service.ts:276-341 | for every folder and new parent, when a move is not found, circular or a clash, in terms of live folders and paths, and the moved row when it is accepted; otherwise nothing changes |
| FolderIndex.MoveCoherent | file-service/src/modules/folders/folders.service.ts:271-341 | a move keeps the index in agreement with the links |
| FolderIndex.RenameAnswers | file-service/src/modules/folders/folders.service.ts:216-262 | for every new name, when the change is not found, a clash or done, in terms of live paths, and the renamed row; a name with a slash is never a clash, the empty name changes nothing |
| FolderIndex.RenameCoherent | file-service/src/modules/folders/folders.service.ts:225-262 | renaming to a clean name keeps the index in agreement with the links |
| FolderIndex.SoftDeleteFrees | file-service/src/modules/folders/folders.service.ts:350-367 | soft deletion finds live folders only, and frees for new folders exactly the folder's path and the paths below it |
| FolderIndex.HardDeleteFrees | file-service/src/modules/folders/folders.service.ts:376-401 | permanent deletion finds any folder of the tenant; on a live one it frees the same paths, on a deleted one only the paths below the stored one |
| FolderIndex.SoftDeleteExact | file-service/src/modules/folders/folders.service.ts:349-367 | soft deletion marks the folder and exactly its live descendants and changes nothing else |
| FolderIndex.SoftDeleteCoherent | file-service/src/modules/folders/folders.service.ts:558-571 | soft deletion keeps the index in agreement with the links |
| FolderIndex.HardDeleteRows | file-service/src/modules/folders/folders.service.ts:375-401 | permanent deletion removes the folder and exactly the tenant's rows, live or deleted, whose path starts with the folder's path and a slash; every other row is unchanged |
| FolderIndex.HardDeleteExact | file-service/src/modules/folders/folders.service.ts:375-401 | permanent deletion of a live folder removes, among live rows, exactly it and its descendants |
| FolderIndex.HardDeleteCoherent | file-service/src/modules/folders/folders.service.ts:375-401 | permanent deletion, of live or deleted targets, keeps the index of the remaining live folders |
| FolderIndex.HardDeleteOfDeleted | file-service/src/modules/folders/folders.service.ts:376-394 | permanent deletion of a deleted folder spares every live folder if and only if no live folder with a live child has its stored path |
| FolderRuns.RunAcyclic | file-service/src/modules/folders/folders.service.ts:32-401 | after every run of create, rename, move and both deletions, with any names, no folder is its own ancestor |
| FolderRuns.RunKeepsSiblingsApart | file-service/src/modules/folders/folders.service.ts:55-67 | after every run, whatever the names, no two live folders with the same parent in a tenant have the same name |
| FolderRuns.RunCoherent | file-service/src/modules/folders/folders.service.ts:32-401 | after every run with clean names the index agrees with the links |
| FolderRuns.RunKeepsIndex | file-service/src/modules/folders/folders.service.ts:32-401 | after every run with clean names each live folder's path is the join of the names along its parent chain, its ancestors are live, its path is its own, and its subtree query finds exactly its live descendants |
| FolderRuns.AncestryExact | file-service/src/modules/folders/folders.service.ts:446-461 | the ancestry lists exactly the proper ancestors, root first, each once |
| FolderRuns.PathSpellsAncestry | file-service/src/modules/folders/folders.service.ts:446-461 | the names of the ancestry followed by the folder's own name spell its path |
| FolderRuns.MoveTakesSubtree | file-service/src/modules/folders/folders.service.ts:325-338 | an accepted move re-paths exactly the folder and its live subtree, by a prefix swap |
| FolderRuns.RenameTakesSubtree | file-service/src/modules/folders/folders.service.ts:241-252 | an accepted rename re-paths exactly the folder and its live subtree, by a prefix swap |
| FolderRuns.MoveBackRestores | file-service/src/modules/folders/folders.service.ts:271-341 | a moved folder can always be moved back, and that restores every live folder entirely |
| FolderRuns.RenameBackRestores | file-service/src/modules/folders/folders.service.ts:226-252 | a renamed folder can always get its old name back, and that restores every live folder entirely |
| FolderAlphabets.RunsKeepIndexIff | file-service/src/modules/folders/folders.service.ts:32-401 | the index is right about every live folder after every run with names over a set of characters if and only if the set has no slash, percent, underscore, backslash or dollar |
| FolderAlphabets.RunsKeepPathsUniqueIff | file-service/src/modules/folders/folders.service.ts:32-401 | no two live folders of a tenant share a path after any run with names over a set of characters, if and only if the set has none of the same five |
| FolderAlphabets.StepsDoNotAddUp | file-service/src/modules/folders/folders.service.ts:55-93 | a run of creations whose names each pass the condition for one creation, with two live folders at one path |
| FolderTenants.RunIsolatesTenants | file-service/src/modules/folders/folders.service.ts:32-401 | after any run, with any names, a tenant's rows, the answer to its next request and that request's effect are those of the run of its own requests alone |
| FolderNames.WalkFindsIff | file-service/src/modules/folders/folders.service.ts:69-93 | a new folder, at the root or under a folder reached by its own path, is reached by walking down its path if and only if its name has no slash |
| FolderNames.DeletesBelowIff | file-service/src/modules/folders/folders.service.ts:558-571 | deleting a folder at a path takes along exactly what is stored below it, in every table, if and only if the path has no wildcard |
| FolderNames.RenamePlacesIff | file-service/src/modules/folders/folders.service.ts:241-252 | renaming to a name carries the children along, in every table whose index is in order, if and only if the name has no replacement template |
| FolderClashes.UniqueAfterCreateIff | file-service/src/modules/folders/folders.service.ts:55-93 | one creation of a name, in every table whose index is in order, leaves all live paths of a tenant different if and only if the name has no slash or a piece between its slashes is not clean |
| FolderClashes.UniqueAfterRenameIff | file-service/src/modules/folders/folders.service.ts:225-252 | the same for one rename in such a table: if and only if neither the name, when it has a slash, nor what a template in it makes of a path splits at slashes into clean names only |
| FolderNames.RemovalBreaksStranger | file-service/src/modules/folders/folders.service.ts:375-401 | a run of five requests in which removing a deleted folder removes a live one below the folder that took its path |
| FolderNames.WildcardBreaksDeletion | file-service/src/modules/folders/folders.service.ts:558-571 | with a wildcard in a name soft deletion can delete a child of another live folder |
| FolderNames.TemplateBreaksRename | file-service/src/modules/folders/folders.service.ts:531-537 | with a replacement template in a new name the children's paths no longer lie below their parent's |
| FolderViews.FindByPathIsWalk | file-service/src/modules/folders/folders.service.ts:190-200 | for any string, the live folder stored under it is the one reached by splitting it on slashes and walking down live children by name; both find it or neither does |
| FolderViews.TreeExact | file-service/src/modules/folders/folders.service.ts:472-499 | the tree listing shows every live folder at or below its root exactly once, and nothing else |
| FolderViews.TreeInvertsAncestry | file-service/src/modules/folders/folders.service.ts:432-499 | a live folder is listed strictly below another, once, if and only if that one is in its ancestry |
| FoldersService.FoldersService.CreateFolder | file-service/src/modules/folders/folders.service.ts:32-95 | in any table, when creation is refused and how, and the one row it adds; parent links stay free of cycles |
| FoldersService.FoldersService.UpdateChildrenPaths | file-service/src/modules/folders/folders.service.ts:523-538 | the row-by-row update, in whatever order, rewrites exactly the matched rows at once |
| FoldersService.FoldersService.UpdateFolder | file-service/src/modules/folders/folders.service.ts:209-262 | in any table, when an update is refused and how, what an update without a new name answers, and every row after a change of name; parent links stay free of cycles |
| FoldersService.FoldersService.IsChildFolder | file-service/src/modules/folders/folders.service.ts:504-518 | true exactly when the first folder is a proper ancestor of the second; the recursion ends |
| FoldersService.FoldersService.MoveFolder | file-service/src/modules/folders/folders.service.ts:271-341 | in any table, when a move is refused and how, and every row after an accepted one; parent links stay free of cycles |
| FoldersService.FoldersService.DeleteFolder | file-service/src/modules/folders/folders.service.ts:349-367 | in any table, the answer of soft deletion and which rows it marks |
| FoldersService.FoldersService.PermanentlyDeleteFolder | file-service/src/modules/folders/folders.service.ts:375-401 | in any table, the answer of permanent deletion and which rows, live or deleted, it removes |
| FoldersService.FoldersService.FindByPath | file-service/src/modules/folders/folders.service.ts:190-200 | a live folder stored under the path, or not found when there is none |
| FoldersService.FoldersService.GetAncestry | file-service/src/modules/folders/folders.service.ts:432-464 | not found for a folder that is not live, otherwise its proper ancestors from the root down |
| FoldersService.FoldersService.First | file-service/src/modules/folders/folders.service.ts:484-487 | a folder whose name is least, for the ascending order of the listing |
| FoldersService.FoldersService.FindChildren | file-service/src/modules/folders/folders.service.ts:484-487 | exactly the live children, each once, ascending by name |
| FoldersService.FoldersService.GetFolderTree | file-service/src/modules/folders/folders.service.ts:472-499 | the tree in which every node lists its live children by name; the recursion ends |
| Calendar.MonthFollows | billing-service/src/modules/subscriptions/subscriptions.service.ts:33-43 | each month starts where the previous one ends, across year ends and leap years |
| Calendar.MonthLengths | billing-service/src/modules/subscriptions/subscriptions.service.ts:33-43 | the month lengths by the rule of the knuckles, with the leap years stated through 4, 16 and 25 |
| Calendar.FourCenturies | billing-service/src/modules/subscriptions/subscriptions.service.ts:33-43 | four hundred years have 146097 days from any month on |
| Calendar.KnownDates | billing-service/src/modules/subscriptions/subscriptions.service.ts:31-43 | the dates of eight instants in milliseconds, before 1970 and around the end of February in 1900, 2000 and 2100 among them |
| Calendar.CountingIsFormula | billing-service/src/modules/subscriptions/subscriptions.service.ts:30-31 | counting days one by one from 1 January 1970 gives the calendar of the closed formulas |
| Calendar.DateIsUnique | billing-service/src/modules/subscriptions/subscriptions.service.ts:30-31 | every date is the date of its own day number |
| Calendar.AddMonthsDate | billing-service/src/modules/subscriptions/subscriptions.service.ts:33-43 | month arithmetic keeps the time of day and the date, or overflows into the first days of the next month |
| Calendar.JsDate.SetMonth | billing-service/src/modules/subscriptions/subscriptions.service.ts:35 | the time value with the month replaced, months past December going on into the next year |
| Calendar.JsDate.SetFullYear | billing-service/src/modules/subscriptions/subscriptions.service.ts:41 | the time value with the year replaced |
| Calendar.JsDate.SetDate | billing-service/src/modules/subscriptions/subscriptions.service.ts:184-185 | setting a day of the month, possibly outside it, adds the difference in whole days |
| Periods.PeriodLength | billing-service/src/modules/subscriptions/subscriptions.service.ts:207-220 | a monthly period is as long as its month, a quarterly one as its three months, a yearly one as the year whose February it crosses |
| Periods.PeriodBounds | billing-service/src/modules/subscriptions/subscriptions.service.ts:207-220 | periods last 28 to 31, 89 to 92, and 365 or 366 days |
| Periods.KnownPeriods | billing-service/src/modules/subscriptions/subscriptions.service.ts:207-223 | the three period ends from 31 January 2024, in milliseconds |
| Periods.MonthlyDates | billing-service/src/modules/subscriptions/subscriptions.service.ts:207-223 | monthly renewals keep the day of the month while every month is long enough, and from then on stay on the first three days |
| Periods.TwelveMonthsAreAYearIff | billing-service/src/modules/subscriptions/subscriptions.service.ts:207-223 | twelve monthly renewals equal one yearly renewal if and only if the date keeps its day |
| Periods.MonthsFallBehind | billing-service/src/modules/subscriptions/subscriptions.service.ts:207-223 | from 31 January 2023 twelve monthly renewals end on 3 February 2024, a yearly one on 31 January |
| Periods.CyclesAgree | billing-service/src/modules/subscriptions/subscriptions.service.ts:207-223 | up to the 28th, twelve monthly, four quarterly and one yearly renewal end alike |
| Periods.DayOfMonthSettles | billing-service/src/modules/subscriptions/subscriptions.service.ts:207-223 | from any start the day of the month is constant from the 23rd monthly renewal on, and at most 28 |
| Periods.TwentyTwoDoNotSettle | billing-service/src/modules/subscriptions/subscriptions.service.ts:207-223 | from 29 March 2023 the day still changes with the 23rd renewal |
| Subscriptions.SubscriptionsService.Advance | billing-service/src/modules/subscriptions/subscriptions.service.ts:207-220 | the switch over the billing cycle computes the end of the next period |
| Subscriptions.SubscriptionsService.Create | billing-service/src/modules/subscriptions/subscriptions.service.ts:21-54 | not found, inactive plan, or a new subscription ending one period after its start |
| Subscriptions.SubscriptionsService.Cancel | billing-service/src/modules/subscriptions/subscriptions.service.ts:148-181 | cancellation at once or at period end, refused when already cancelled |
| Subscriptions.SubscriptionsService.FindExpiringSubscriptions | billing-service/src/modules/subscriptions/subscriptions.service.ts:183-195 | for any number of days, exactly the active subscriptions ending before now plus that many days of 86400000 ms, not to be cancelled at period end |
| Subscriptions.SubscriptionsService.RenewSubscription | billing-service/src/modules/subscriptions/subscriptions.service.ts:197-229 | the end date moves on by one period, or the error that prevents it |
| Scheduler.SchedulerService.RenewAndInvoice | billing-service/src/modules/scheduler/scheduler.service.ts:63-75 | one subscription: renewal first, then one invoice for it in the month of the day; a failing call leaves the rest undone |
| Scheduler.SchedulerService.ProcessSubscriptionRenewals | billing-service/src/modules/scheduler/scheduler.service.ts:56-77 | one run renews exactly the due subscriptions whose call does not fail and bills each of them once unless the invoice fails; its invoices are numbered in the month of its day |
| Scheduler.DaysPerSubscription | billing-service/src/modules/scheduler/scheduler.service.ts:56-77 | over any number of days, with any calls failing, a renewable subscription changes only its end date and any other one not at all |
| Scheduler.CatchesUp | billing-service/src/modules/scheduler/scheduler.service.ts:56-77 | with lag the distance from the end date to tomorrow, after lag / 27 days of daily runs that do not fail for it, and ever after, the end date is at least the next run |
| Scheduler.NeverFarAhead | billing-service/src/modules/scheduler/scheduler.service.ts:59-66 | whatever fails, no end date is moved further than a day and a year past the last run, and none moves back |
| Scheduler.RenewingIsRenewsOn | billing-service/src/modules/scheduler/scheduler.service.ts:60-72 | the runs in which the job renews and bills a subscription are those of its own day-by-day record |
| Scheduler.GrantedIsRenewed | billing-service/src/modules/scheduler/scheduler.service.ts:62-69 | whatever fails, after any number of days the end date is the old one advanced by exactly one period per renewal |
| Scheduler.SchedulerService.RunDays | billing-service/src/modules/scheduler/scheduler.service.ts:24-77 | after any number of daily runs, with any calls failing, the stored invoices bill every subscription once per renewal whose invoice call did not fail; the end date is the old one advanced once per renewal, and all periods granted are billed if and only if no invoice call failed on a day of renewal |
| Scheduler.DayOfInvoice | billing-service/src/modules/scheduler/scheduler.service.ts:56-77 | over many days each new invoice stands where its run put it, is for the subscription billed then and carries the month of that run's day |
| Scheduler.StampOfJune | billing-service/src/modules/invoices/invoices.service.ts:29-31 | on 15 June 2023 invoices are stamped 202306 |
| Scheduler.SchedulerService.RunDaysAfterFailure | billing-service/src/modules/scheduler/scheduler.service.ts:63-75 | a renewal whose invoice call fails: the stored list gets no invoice for that subscription in the runs that follow within its new period, and the period stays granted |
| Scheduler.SchedulerService.GenerateMonthlyInvoices | billing-service/src/modules/scheduler/scheduler.service.ts:136-157 | the monthly job bills every active monthly subscription not to be cancelled, once, unless its call fails; the list is that of as many calls of Create, so in a month empty before it repeats a number beyond 10000 of them |
| Scheduler.CancelledStaysActive | billing-service/src/modules/scheduler/scheduler.service.ts:59-66 | an active subscription cancelled at period end is the same after any number of days |
| Decimal.ParsePadded | billing-service/src/modules/invoices/invoices.service.ts:45-49 | parsing undoes printing with any padding |
| Decimal.PaddedOrder | billing-service/src/modules/invoices/invoices.service.ts:34-41 | up to 9999 the text order of padded numbers is their numeric order |
| Invoices.OtherMonthOutside | billing-service/src/modules/invoices/invoices.service.ts:35-37 | numbers of other months are outside the range searched |
| Invoices.LatestIs | billing-service/src/modules/invoices/invoices.service.ts:33-41 | the latest number found is min(count, 9999) for the month's count of invoices |
| Invoices.NextInOrder | billing-service/src/modules/invoices/invoices.service.ts:33-65 | the next invoice of a month gets the next number, until 10000 is reached and repeated, whatever other months hold |
| Invoices.DistinctIff | billing-service/src/modules/invoices/invoices.service.ts:33-49 | the invoices of a month have distinct numbers if and only if there are at most 10000 |
| Invoices.NumberRepeats | billing-service/src/modules/invoices/invoices.service.ts:33-49 | more than 10000 invoices issued one after another in an empty month: the 10001st has the number of the 10000th |
| Invoices.MonthsApart | billing-service/src/modules/invoices/invoices.service.ts:49 | invoices of different months never share a number |
| Invoices.StampInjective | billing-service/src/modules/invoices/invoices.service.ts:29-31 | different months have different stamps |
| Invoices.StampSpells | billing-service/src/modules/invoices/invoices.service.ts:29-31 | a stamp reads as the year followed by the two digits of the month counted from one |
| Invoices.StampOf2023 | billing-service/src/modules/invoices/invoices.service.ts:29-49 | the seventh invoice of June 2023 is INV-202306-0007 |
| Invoices.InvoicesService.FindLatest | billing-service/src/modules/invoices/invoices.service.ts:33-41 | the greatest stored number in the month's text range, or none |
| Invoices.InvoicesService.Create | billing-service/src/modules/invoices/invoices.service.ts:23-65 | appends an invoice numbered by its place in the month, capped at 10000 |
| CircuitBreaker.Reachable | kafka/lib/circuit-breaker.ts:42-98 | in every interleaving the counter is the number of failures since the last success or reset, an open breaker waits for the last failure's timeout, and a half-open one has a call in flight |
| CircuitBreaker.StateFromHistory | kafka/lib/circuit-breaker.ts:42-123 | in every interleaving and for every threshold the state is a function of the history: closed until enough failures, at least one, trip it, then half-open once a call has arrived after the last failure's timeout, else open |
| CircuitBreaker.WhoGetsIn | kafka/lib/circuit-breaker.ts:42-66 | in every interleaving a call gets through if and only if too few failures have completed since the last success or reset to trip the breaker, or a call has got through since it tripped, or the last failure's timeout has passed |
| CircuitBreaker.ClosedIffBelowThreshold | kafka/lib/circuit-breaker.ts:71-98 | in every interleaving the breaker is closed exactly below the threshold, if and only if the threshold is positive |
| CircuitBreaker.CompletionSettles | kafka/lib/circuit-breaker.ts:55-65 | no completed call leaves the breaker half-open |
| CircuitBreaker.OpenAdmitsIff | kafka/lib/circuit-breaker.ts:43-53 | an open breaker lets a call through exactly when the timeout since the last failure has passed |
| CircuitBreaker.OpenKeepsCallsOut | kafka/lib/circuit-breaker.ts:86-98 | after a failure at t that leaves the breaker open no call begins at or before t + resetTimeout unless a success or reset intervenes |
| CircuitBreaker.HalfOpenAdmitsAll | kafka/lib/circuit-breaker.ts:43-53 | a half-open breaker lets two further calls through and stays half-open |
| CircuitBreaker.ThreeProbes | kafka/lib/circuit-breaker.ts:42-98 | a run with threshold one that ends half-open with three calls in flight |
| CircuitBreaker.SequentialIsRun | kafka/lib/circuit-breaker.ts:42-66 | calls made one at a time are a run of begin, succeed and fail events that leaves the same breaker and nothing in flight, with one completion per call that reached the service |
| CircuitBreaker.SequentialSettles | kafka/lib/circuit-breaker.ts:42-66 | with one call at a time no call returns leaving the breaker half-open |
| CircuitBreaker.FailingServiceIsSpared | kafka/lib/circuit-breaker.ts:42-98 | with one call at a time an always-failing service is reached by at most threshold + (T - start) / (resetTimeout + 1) calls by time T |
| CircuitBreaker.DefaultsSpare | kafka/lib/kafka-service.ts:98-100 | with the defaults an always-failing service is reached by at most 5 + (T - start) / 30001 calls made one at a time by time T |
| CircuitBreaker.ServiceBreakerSound | kafka/lib/kafka-service.ts:98-100 | the producer's breaker is closed exactly below its threshold in every interleaving if and only if the configured threshold is not negative |
| CircuitBreaker.CircuitBreaker.BeginCall | kafka/lib/circuit-breaker.ts:43-53 | admission and the new state of a call that arrives |
| CircuitBreaker.CircuitBreaker.Success | kafka/lib/circuit-breaker.ts:71-81 | the state after a success |
| CircuitBreaker.CircuitBreaker.Failure | kafka/lib/circuit-breaker.ts:86-98 | the state after a failure |
| CircuitBreaker.CircuitBreaker.ResetCircuit | kafka/lib/circuit-breaker.ts:117-123 | the state after a reset |
| CircuitBreaker.CircuitBreaker.Fire | kafka/lib/circuit-breaker.ts:42-66 | a whole call with nothing interleaved |
| RateLimit.WindowCount | file-service/src/common/guards/rate-limit.guard.ts:131-144 | a counter's window has admitted exactly min(count, limit) requests since it opened |
| RateLimit.CountsEach | file-service/src/common/guards/rate-limit.guard.ts:131-144 | within a window the counter is the number of the route's requests since the one that opened it, admitted or not |
| RateLimit.RejectionIsEarned | file-service/src/common/guards/rate-limit.guard.ts:124-145 | a rejection at t means at least limit requests of the route were admitted in the window length before t |
| RateLimit.BurstBound | file-service/src/common/guards/rate-limit.guard.ts:116-145 | in no interval of the window's length are more than 2 * limit - 1 requests of a route admitted, limit if the window is zero |
| RateLimit.BurstBoundIsTight | file-service/src/common/guards/rate-limit.guard.ts:131-144 | for every limit and every window, zero included, some trace attains that bound |
| RateLimit.ResetReopens | file-service/src/common/guards/rate-limit.guard.ts:131-144 | from the first request after the reset time on, the next limit requests of the route are all admitted |
| RateLimit.AdvisedRetry | file-service/src/common/guards/rate-limit.guard.ts:74-90 | the advised wait reaches the reset time, and the retry made then is admitted if and only if rounding up to seconds added something |
| RateLimit.RetryRejected | file-service/src/common/guards/rate-limit.guard.ts:74-90 | a trace in which the caller waits the advised second and is rejected again |
| RateLimit.OthersDoNotMatter | file-service/src/common/guards/rate-limit.guard.ts:124-140 | requests of other tenants and keys never change a route's counter or outcome |
| RateLimit.RateLimitGuard.CheckAndUpdateRateLimit | file-service/src/common/guards/rate-limit.guard.ts:116-145 | the new counters and whether the limit is exceeded |
| RateLimit.RateLimitGuard.GetResetTimeInSeconds | file-service/src/common/guards/rate-limit.guard.ts:147-156 | the least whole number of seconds that reaches the reset time, zero without a counter |
| Outbox.PassSpendsBudget | frontend/src/lib/offline/offline-storage.ts:171-210 | a pass lowers the sum of 6 - attempts over its snapshot by at least the snapshot's size |
| Outbox.AttemptsCount | frontend/src/lib/offline/offline-storage.ts:189-206 | an item still queued after n passes has n more attempts and at most five |
| Outbox.SixPassesSuffice | frontend/src/lib/offline/offline-storage.ts:171-210 | everything queued now is gone after six passes, whatever the outcomes and arrivals |
| Outbox.FewerPassesKeepFailing | frontend/src/lib/offline/offline-storage.ts:189-206 | a request whose sends all fail is kept until its attempts are used up |
| Outbox.PassOf | frontend/src/lib/offline/offline-storage.ts:171-210 | sending every queued request once more, and no other, is one pass over the store |
| Outbox.Conservation | frontend/src/lib/offline/offline-storage.ts:153-210 | requests added = delivered + dropped + queued, at any time; none is sent more than six times, and one is dropped only after six sends |
| Outbox.OfflineStorage.AddToOutbox | frontend/src/lib/offline/offline-storage.ts:153-168 | a request is queued under a new key with no attempts |
| Outbox.OfflineStorage.ProcessItem | frontend/src/lib/offline/offline-storage.ts:177-208 | one send: delivered, kept with one more attempt, or dropped after the sixth |
| Outbox.OfflineStorage.ProcessOutbox | frontend/src/lib/offline/offline-storage.ts:171-210 | one pass sends every queued request exactly once and settles it by its own outcome, while further requests arrive |
| Consumer.BackoffBound | kafka/lib/kafka-service.ts:318-348 | total backoff is at most 100 * (2^(n+1) - 2) ms, and that exactly when the first n runs throw |
| Consumer.ThreeRetries | kafka/lib/kafka-service.ts:320-342 | with three retries the pauses are 200, 400 and 800 ms; 1400 ms in all exactly if the first three runs throw |
| Consumer.KafkaConsumer.SendToDlq | kafka/lib/kafka-service.ts:239-289 | what giving a message up does when the queue is disabled, the message does not parse, or the producer is down |
| Consumer.KafkaConsumer.EachMessage | kafka/lib/kafka-service.ts:293-360 | a message is handled exactly when it parses and one of n + 1 runs succeeds, otherwise given up once; runs and backoff are exact |
| Consumer.KafkaConsumer.Consume | kafka/lib/kafka-service.ts:239-361 | over a stream every message ends up in the handled list, the dead letter topic or nowhere, exactly once and in order; none ends up nowhere if and only if each parses and has a run that succeeds or a queue that takes it; the runs and the time slept are exact sums, with their bounds |

## Left out

- FolderRuns.RunKeepsIndex: stated for clean names; the converse is proved for sets of characters (FolderAlphabets.RunsKeepIndexIff), not name by name.
- FoldersService.FoldersService.CreateFolder: description, metadata, creator and owner are stored as given and play no part.
- FoldersService.FoldersService.UpdateFolder: description, metadata and owner are stored as given and play no part.
- FoldersService.FoldersService.DeleteFolder: the time of deletion is not recorded, only that the row is deleted.
- FoldersService.FoldersService.PermanentlyDeleteFolder: parent_id is a foreign key without cascade (folder.entity.ts), so the database can refuse the removal when a deleted row with a stale path still points at a removed one; the model removes the rows.
- Subscriptions.SubscriptionsService.Create: the payment gateway step, and fields such as price and metadata that are copied from the request.
- Subscriptions.SubscriptionsService.Cancel: canceledAt and the gateway call.
- Invoices.InvoicesService.Create: the lookup of the subscription, amounts, due dates and status; the number is what the invoice is modelled for.
- Scheduler.SchedulerService.RunDays: a day on which the expiry query itself fails, which is a day without a run.
- Text.Like: a pattern ending in a lone escape character is an error in the database; no subtree query ends so.
- Decimal.ParseInt: signs, leading white space and radix prefixes, which no invoice number contains.
- Calendar.AddMonths: the range limit of ECMAScript time values, and local time zones with daylight saving.
- Outbox.OfflineStorage.ProcessOutbox: a database call that fails inside the pass, and passes that overlap.
- Consumer.KafkaConsumer.EachMessage: a handler that throws something other than an error object.
- Paths and undeletion of deleted folders: their stored paths can be stale, and nothing is claimed about them.
- Overlapping folder requests and concurrent invoice creation: the code takes no transactions, so the claims are for sequential runs.
- TypeORM, SQL and IndexedDB mechanics, foreign keys and column lengths, NestJS wiring, guards' HTTP handling, logging and events.
- Reminders and overdue marking, free-form updates of subscriptions and invoices, and payment gateways.
- Route matching of the rate limiter, quotas, virus scanning, encryption, storage providers and authentication.
- Plain listing, filtering and paging of folders, and the notification, CRM, HRM and marketplace services: record keeping that would only add easy members.
