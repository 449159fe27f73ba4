# CapitalForge: a verified model of its protocols, scans and parsers

The project models the parts of CapitalForge whose correctness depends on more than one function, and proves what they
promise over every input, every interleaving or every run. `dafny verify dfyconfig.toml` checks it.

| file | what it models |
|---|---|
| `TokenRefresh.dfy`, `ApiClient.dfy` | the mobile client's token refresh: many concurrent calls share `isRefreshing` and `refreshQueue`. `TokenRefresh` is the state machine over the stretches of code between two awaits and the theorems about all interleavings; `ApiClient` is the client itself, one method per stretch, each proved to be that step |
| `TopicMatcher.dfy`, `TopicPatterns.dfy` | the wildcard matcher: the two string rewrites, a reader and matcher for the regular expressions they produce (ECMA-262, section 22.2), the glob they have to mean, and what other patterns do |
| `EventBus.dfy` | subscriptions, the ledger write and the dispatch, with anything happening while a write is pending |
| `Ledger.dfy` | the ledger table, its queries and pages |
| `SourceScan.dfy`, `RouteTenancy.dfy` | the two source scanners of the guard scripts, what they make of printed code, where they agree, and the verify-then-use rule |
| `AprExpiry.dfy`, `MissedPayments.dfy` | the scheduled scans, with either write of a pair failing |
| `AiRateLimiter.dfy`, `RateLimiter.dfy` | the sliding-window log and the Redis counter |
| `MigrateData.dfy` | validation of a tenant export and its import under fresh ids |
| `TestClaims.dfy`, `Office.dfy` | the array element counter and the venture map parser |
| `Common.dfy` | options, results, and trimming |

Code that changes state is a class or a loop here too. Its methods are proved equal to a function or relation of the
old state, and the theorems are about runs of that function.

What came out differently from what the code or its comments say; each is a theorem here, with the exact condition:

- A refresh that fails drops the queue without settling the queued promises (`mobile/src/lib/api-client.ts:123-126`).
  `WaiterCanBeReleased`: a waiter can still be released if and only if its own refresh is running and has not been
  refused; otherwise it waits in every continuation. `WaiterIsLeftBehind` reaches such a waiter from a fresh start, and
  `OnlyFailuresLeaveBehind` says that nothing but a failed refresh makes one.
- A queued call's retry can carry the token it was refused with. `WaiterMayRepeat` says exactly when, and
  `WaiterRepeatsRefusedToken` reaches such a state from a fresh start. The call that ran the refresh never does
  (`OwnRetryIsFresh`).
- "One bad handler never crashes others" (`src/backend/events/event-bus.ts:110`) holds for rejected promises. A handler
  that throws before it returns a promise ends the `map`, so those after it are not called (`EveryMatchIsCalledOnce`).
- A subscribed pattern whose `*` or `?` has nothing to quantify, such as `*.created`, is no regular expression, and stops
  the dispatch of every topic but its own text to everybody. `ErrsExactlyIfUnusable` says which patterns those are, from
  their characters; `SilentWhileSubscribed` is about runs of any length, and `SilentBus` is one.
- The first rewrite leaves `*` and `?` alone. The matcher answers what the glob answers on every topic if and only if
  every `*` of the pattern follows a dot and it has no `?` (`GlobExactlyIfWellFormed`).
- Masking comments does not know about strings. A string literal loses its closing quote to it if and only if a comment
  opened in the literal is still open there (`QuoteIsLostExactlyIfOpen`). With no such literal in and before a block the
  two scanners agree on it (`ScannersAgree`). With one in the block, whose quote does not occur again in the block, and
  with text after the block, they part (`ScannersAgreeExactly`).
- The pages of a query join into a prefix of its answer, wherever the reads fall, if and only if the rows it selects were
  written in chronological order (`PagesJoinExactlyInOrder`).
- A comment of the route guard asks for a verifying read that came first (`scripts/check-route-tenancy.ts:475-477`); the
  code asks for one anywhere in the handler. `EarlyWritesPass` and `RuleElsewhere` say exactly when that differs.
- An APR alert can be written twice if a run fails between the alert and its flag; the count is exact
  (`AlertsAreFlagsPlusCrashes`). Gaps of 15 days are the most that cover every window (`LongerGapMissesAWindow`).
- The loop that marks missed payments is not guarded. When it breaks off, the next run, whenever it comes, considers a
  plan if and only if the plan has an overdue payment that was not marked (`NextRunConsiders`, `BrokenRunForgetsPlans`).
  The same goes for a plan whose case could not be written (`FailedCaseWaitsForAnotherRow`).
- Redis rounds TTL to the nearest second, so the advertised Retry-After can end inside the same slot. The exact
  condition is `RetryAfterLandsLater`; `PatientCallerIsRefusedAgain` is a caller it happens to. On a clock of whole
  seconds it cannot (`WholeSecondsLandLater`).

## Model

| member | source | states |
|---|---|---|
| `TokenRefresh.StepKeepsInv` | mobile/src/lib/api-client.ts:61-128 | every step of every call, and of the store and the login around them, keeps the protocol's invariant: the lock belongs to exactly the one refreshing call, the queue holds the calls waiting for that refresh, each once, and no settled token comes back |
| `TokenRefresh.OneRefreshAtATime` | mobile/src/lib/api-client.ts:108-125 | in every interleaving of any number of calls `isRefreshing` is set if and only if exactly one call is refreshing, and a queue implies it is set |
| `TokenRefresh.AtMostTwoRequestsPerCall` | mobile/src/lib/api-client.ts:84-128 | no call ever sends its own request more than twice or is released more than once |
| `TokenRefresh.AtMostOneRefreshPerCall` | mobile/src/lib/api-client.ts:64-128 | beside its own request, a call posts to the refresh endpoint at most once in any run |
| `TokenRefresh.CallTerminates` | mobile/src/lib/api-client.ts:84-128 | a measure through the recursive retry: whatever the others do, a call runs at most ten stretches of code |
| `TokenRefresh.ReleaseReachesEveryWaiter` | mobile/src/lib/api-client.ts:118-121 | a successful refresh releases every call queued behind it, each for the first and only time, with its own token, and changes no other call |
| `TokenRefresh.WaiterCanBeReleased` | mobile/src/lib/api-client.ts:107-126 | a waiting call is released in some continuation if and only if the refresh it queued behind is running and has not been refused |
| `TokenRefresh.LeftBehindForever` | mobile/src/lib/api-client.ts:123-126 | a call whose resolver was dropped stays as it is in every continuation |
| `TokenRefresh.OnlyFailuresLeaveBehind` | mobile/src/lib/api-client.ts:64-126 | a step leaves a waiter behind if and only if it ends a refresh without a token and the waiter is in the queue then |
| `TokenRefresh.NobodyIsLeftBehind` | mobile/src/lib/api-client.ts:107-121 | in every run without a failed refresh no waiter is left behind |
| `TokenRefresh.WaiterIsLeftBehind` | mobile/src/lib/api-client.ts:107-126 | a left-behind waiter is reachable from every fresh start |
| `TokenRefresh.RefusedNeverReleases` | mobile/src/lib/api-client.ts:74-77 | from the server's refusal on, no continuation releases a call of that queue |
| `TokenRefresh.OwnRetryIsFresh` | mobile/src/lib/api-client.ts:116-122 | in every run, the retry of the call that refreshed does not carry the token that call was refused with |
| `TokenRefresh.WaiterMayRepeat` | mobile/src/lib/api-client.ts:89-113 | a waiter's retry can carry its refused token in some continuation if and only if, at its release, the store still holds that token or the refresh produced it |
| `TokenRefresh.WaiterRepeatsRefusedToken` | mobile/src/lib/api-client.ts:79-113 | such a release is reachable from every fresh start |
| `TokenRefresh.ReplyDecides` | mobile/src/lib/api-client.ts:106-116 | a reply of 401 to a first try puts the call at the end of the queue if the lock is set, and otherwise sets the lock and starts a refresh; every other reply ends the call and changes nothing else |
| `TokenRefresh.OnlyA401StartsARefresh` | mobile/src/lib/api-client.ts:106-116 | in every step, a call comes to refresh or to wait only by a 401 to its first try |
| `TokenRefresh.RefreshesFollowRefusals` | mobile/src/lib/api-client.ts:106-116 | over every run the refreshes started are at most the replies of status 401, and a run without one starts none |
| `ApiClient.Client.OnResponse` | mobile/src/lib/api-client.ts:106-116 | a 401 on a first try goes to the end of the queue if the lock was set, and otherwise sets the lock and starts a refresh; on any other reply the call is done, with lock, queue, owner and refreshes as they were |
| `ApiClient.Client.OnRefreshStored` | mobile/src/lib/api-client.ts:80-122 | the queue is released and emptied, the lock opened, and the retry begun without the right to a third try |
| `ApiClient.Client.ReleaseQueue` | mobile/src/lib/api-client.ts:119 | the loop resolves each queued call once with the token and no other |
| `TopicMatcher.RewritesFuse` | src/backend/events/event-bus.ts:216-224 | the two rewrites together are one pass over the pattern |
| `TopicMatcher.SyntaxIsEscaped` | src/backend/events/event-bus.ts:217-224 | the compiled text has no bare character that begins an anchor, a group, an alternative, a class or a count, so the reader of expressions covers all that occurs |
| `TopicMatcher.CompiledTextParses` | src/backend/events/event-bus.ts:216-226 | for a well-formed pattern the compiled text is a regular expression, and its terms are those of the pattern |
| `TopicMatcher.ItemsAreTheGlob` | src/backend/events/event-bus.ts:222-227 | these terms accept a text if and only if the glob does |
| `TopicMatcher.RegexIsTheGlob` | src/backend/events/event-bus.ts:211-228 | for every well-formed pattern and every topic, the compiled expression answers what the glob with single-line wildcards answers |
| `TopicMatcher.MatchesIsTheGlob` | src/backend/events/event-bus.ts:211-228 | on single-line topics the matcher is the plain glob, and the equal-strings shortcut changes no answer |
| `TopicMatcher.NamespaceWildcard` | src/backend/events/event-bus.ts:200-210 | `ns.*` receives exactly the topics that begin with `ns.`, are longer, and go on without line feed, carriage return, U+2028 or U+2029, so every longer topic of printable ASCII; a pattern without wildcard receives exactly itself; `*` receives everything |
| `TopicPatterns.GlobExactlyIfWellFormed` | src/backend/events/event-bus.ts:211-228 | the matcher, shortcuts and errors included, answers what the single-line glob answers on every topic if and only if the pattern is well-formed |
| `TopicPatterns.ShortestIsShorter` | src/backend/events/event-bus.ts:217-226 | every stray `*` or `?` of a pattern that compiles makes the shortest text it accepts shorter than the pattern |
| `TopicPatterns.ErrsExactlyIfUnusable` | src/backend/events/event-bus.ts:211-228 | matching throws if and only if the pattern is neither the topic nor `*` and, read from the left, has a `*` or `?` with nothing to quantify |
| `EventBus.DeliveryFollowsRecord` | src/backend/events/event-bus.ts:126-145 | in every run, each delivery of a persisted call comes after a ledger record of that call, whose envelope has the event type, aggregate type, aggregate id, payload and metadata that the handler is given |
| `EventBus.EverythingWasPublished` | src/backend/events/event-bus.ts:112-173 | in every run, each record is an envelope that was published as that call, and each delivery gives the handler the five fields of one |
| `EventBus.WriterSeesEveryLaterCall` | src/backend/events/event-bus.ts:134-140 | once a writer is set, every later call goes through it |
| `EventBus.RejectedPersistDeliversNothing` | src/backend/events/event-bus.ts:134-142 | a call whose ledger write is rejected delivers nothing, then or in any continuation |
| `EventBus.DeliverCalls` | src/backend/events/event-bus.ts:175-184 | the handlers called are a first part of the matching ones, and all of them if and only if none before the last throws synchronously |
| `EventBus.EveryMatchIsCalledOnce` | src/backend/events/event-bus.ts:112-197 | over whole runs, for a publish, a publish without writer and the end of a write alike: if every pattern is usable for the topic, exactly the subscriptions that match then are called, once each, if and only if no handler before the last throws synchronously; if some pattern is not, nobody is called; every call gives the five fields of the envelope; rejections stop nobody and no later event adds a call |
| `EventBus.MatchingIsTheFilter` | src/backend/events/event-bus.ts:187-197 | the search succeeds if and only if every subscribed pattern is the topic, is `*`, or compiles, and then returns exactly the matching subscriptions, without repetition |
| `EventBus.BadPatternSilencesTheBus` | src/backend/events/event-bus.ts:161-197 | one pattern that is not the topic, not `*` and does not compile stops the dispatch to all |
| `EventBus.SilentWhileSubscribed` | src/backend/events/event-bus.ts:126-197 | as long as such a pattern stays subscribed, no run delivers any event of another topic to anybody |
| `EventBus.SilentBus` | src/backend/events/event-bus.ts:126-197 | after subscribing `*.created`, a persisted event is recorded and the handler for everything is not called; without it, it is |
| `EventBus.Bus.FindMatchingSubscriptions` | src/backend/events/event-bus.ts:187-197 | the loop returns the specified filter, or the first pattern's syntax error |
| `EventBus.Bus.DispatchEvent` | src/backend/events/event-bus.ts:161-185 | the deliveries of one dispatch, in order, up to a synchronous throw; each is a call of a subscriber with the five fields of the envelope |
| `EventBus.Bus.PublishAndPersistEvent` | src/backend/events/event-bus.ts:126-145 | with a writer the trace stays and the write is pending; without one it dispatches at once |
| `EventBus.Bus.OnPersisted` | src/backend/events/event-bus.ts:135-142 | the deliveries go to those subscribed when the write ends |
| `EventBus.Bus.AddSubscription` | src/backend/events/event-bus.ts:81-94 | the new subscription comes last and no other changes |
| `EventBus.Bus.RemoveSubscription` | src/backend/events/event-bus.ts:97-99 | exactly the subscription with this id goes, and the result says whether it was there |
| `Ledger.PagesJoinIntoAPrefix` | src/backend/events/ledger.service.ts:59-146 | consecutive pages, read while others persist and mark, join into a prefix of the query's final history: no repetition, no gap; every row is of the query's tenant and, if asked for, of its aggregate type and id, or of its event type and no earlier than `since` |
| `Ledger.LedgerIsAppendOnly` | src/backend/events/ledger.service.ts:59-146 | no operation removes, reorders or changes a row, except for `processedAt` |
| `Ledger.FindSelects` | src/backend/events/ledger.service.ts:90-133 | on any table a query returns only rows it selects, oldest first, within its limit, and all of them when it asks for enough |
| `Ledger.FindFinds` | src/backend/events/ledger.service.ts:90-133 | every row a query returns is a selected row of the table, and every selected row is returned if the limit is no less than the size of the table |
| `Ledger.PersistedIsFound` | src/backend/events/ledger.service.ts:59-107 | an event that is persisted is found by its own tenant, aggregate type and aggregate id, with its event type and payload |
| `Ledger.OrderIsChronological` | src/backend/events/ledger.service.ts:101 | the order is chronological and a permutation of the rows |
| `Ledger.PagesJoinExactlyInOrder` | src/backend/events/ledger.service.ts:95-104 | for given writes, every interleaving of reads joins into a prefix of the final answer if and only if the rows the query selects were written in chronological order |
| `Ledger.LedgerService.Persist` | src/backend/events/ledger.service.ts:59-82 | one new row at the end, each of its fields that of the envelope or its default (`{}`, version 1, not processed); a blank tenant is refused and nothing written |
| `Ledger.LedgerService.GetByAggregate` | src/backend/events/ledger.service.ts:90-107 | a blank tenant is refused; otherwise exactly the page, from `offset` (0) and `limit` (100) long at most, of the listing that has each row of this tenant and aggregate once, by time and then insertion; every row returned has this tenant, aggregate type and aggregate id, and every such row is returned if enough are asked for |
| `Ledger.PageIsDetermined` | src/backend/events/ledger.service.ts:95-132 | that description of a page fits one sequence of rows only |
| `Ledger.LedgerService.GetByTenant` | src/backend/events/ledger.service.ts:112-133 | the same for the rows of this tenant, of this event type if one is given and not empty, and from `since` on if it is given |
| `Ledger.LedgerService.MarkProcessed` | src/backend/events/ledger.service.ts:139-146 | the rows with this id and tenant get `processedAt`, and every other row stays at its place as it is |
| `SourceScan.BlankComments` | scripts/lib/source-scan.ts:30-53 | the loop over the character array computes what the recursive lexer computes |
| `SourceScan.MaskedKeepsOrBlanks` | scripts/lib/source-scan.ts:20-29 | every character stays at its offset or becomes a space |
| `SourceScan.MaskedHasNoOpener` | scripts/lib/source-scan.ts:20-53 | the result contains no `//` and no `/*` |
| `SourceScan.MaskingIsIdempotent` | scripts/lib/source-scan.ts:30-53 | masking twice is masking once |
| `SourceScan.MaskingDistributes` | scripts/lib/source-scan.ts:30-53 | a text can be masked in two parts split after a newline if the first leaves no block comment open |
| `SourceScan.MaskingSplits` | scripts/lib/source-scan.ts:30-53 | the same for any split outside comments that does not cut an opener in two |
| `SourceScan.StarClosesAtOnce` | scripts/lib/source-scan.ts:44-49 | `/*/` is a whole comment |
| `SourceScan.MatchBrace` | scripts/lib/source-scan.ts:64-87 | the loop returns the first offset outside strings at which the depth is back at zero |
| `SourceScan.CodeIsSkipped` | scripts/lib/source-scan.ts:64-87 | inside a block, any printed tree of brace- and quote-free text, well-escaped strings and blocks is passed over without effect on the depth |
| `SourceScan.MatchBraceInvertsPrint` | scripts/lib/source-scan.ts:64-87 | for every such tree printed as a block between any prefix and any suffix, the result is the block's last character |
| `SourceScan.LiteralsAreSkipped` | scripts/lib/source-scan.ts:64-87 | a block of one literal in apostrophes, quotation marks or backticks ends at its last character, for any body without that quote and backslash, and with an escaped character, the quote included, in it |
| `SourceScan.BraceTurn` | scripts/lib/source-scan.ts:64-87 | one turn at each character: the two braces count, the three quotes open a literal, every other character is passed; at the end the last offset is returned |
| `RouteTenancy.Blank` | scripts/check-route-tenancy.ts:211-262 | the loop computes the recursive specification, regular-expression literals included |
| `RouteTenancy.BlankKeepsOrBlanks` | scripts/check-route-tenancy.ts:210-262 | every character stays at its offset or becomes a space, in every text |
| `RouteTenancy.MatchAnyBrace` | scripts/check-route-tenancy.ts:264-274 | the loop returns the first offset at which the count of all braces is back at zero |
| `RouteTenancy.CountTurn` | scripts/check-route-tenancy.ts:264-274 | one turn of the count: the two braces count and every other character is passed |
| `RouteTenancy.CodeIsMasked` | scripts/lib/source-scan.ts:30-53 | masking printed code in which no literal leaves a comment open gives the text of the same tree with its comments blanked, those inside literals too, whatever follows |
| `RouteTenancy.CodeIsBlanked` | scripts/check-route-tenancy.ts:211-262 | blanking printed code, with any strings, gives the text of the same tree with comments and string contents blanked |
| `RouteTenancy.LiteralsAreBlanked` | scripts/check-route-tenancy.ts:217-225 | a literal in apostrophes, quotation marks or backticks keeps its quotes and has spaces between them, for any body without that quote and backslash, and with an escaped character in it |
| `RouteTenancy.RegexIsBlanked` | scripts/check-route-tenancy.ts:240-257 | a slash behind white space begins a regular expression if and only if the character before is one of the twelve listed there and fewer than 40 characters of white space come between; then it is blanked to its closing slash or the newline that cuts it off, with any escapes and any slashes in classes, and otherwise the slash stays |
| `RouteTenancy.OpenLiteralIsBlanked` | scripts/check-route-tenancy.ts:217-225 | a literal that is never closed runs to the end of the text, for both scanners |
| `RouteTenancy.OtherTurns` | scripts/check-route-tenancy.ts:211-262 | every character but the three quotes and the slash stays; `/*/` is a whole comment |
| `RouteTenancy.ScannersAgree` | scripts/check-route-tenancy.ts:211-274 | on every printed block after printed code in which no literal leaves a comment open, both scanners return the block's last character, whatever braces, quotes and closed comments the comments and strings hold |
| `RouteTenancy.QuoteIsLostExactlyIfOpen` | scripts/lib/source-scan.ts:30-53 | masking blanks the closing quote of a literal, whatever follows, if and only if a comment opened in the literal is still open there |
| `RouteTenancy.ScannersAgreeExactly` | scripts/check-route-tenancy.ts:211-274 | on every block in which the quote of the first literal that leaves a comment open, if there is one, does not occur again, with any text after it, the scanners return the same end if and only if there is none |
| `RouteTenancy.ScannersPartExactlyIfOpen` | scripts/lib/source-scan.ts:36-87 | on a block of one literal, with any text after it, they agree if and only if the literal leaves no comment open; if its quote does not occur again, the masked scan otherwise runs to the end of the text |
| `RouteTenancy.CheckHandler` | scripts/check-route-tenancy.ts:385-513 | a handler passes if and only if it is out of scope, or every unscoped read comes after a verifying one and, failing any verification, no id is written and the tenant is named; otherwise the reason is exact |
| `RouteTenancy.WhoPasses` | scripts/check-route-tenancy.ts:385-513 | a guarded mount exempts an id in the path and no other; an id from query or body passes with a helper, or if and only if every read of it comes with the tenant or after one that does, and there is such a read or the handler names the tenant and writes no id |
| `RouteTenancy.EarlyWritesPass` | scripts/check-route-tenancy.ts:465-493 | with a verifying read somewhere, the handler passes; by the comment's rule it would pass if and only if every clause that writes an id opens after the first verifying read |
| `RouteTenancy.RuleElsewhere` | scripts/check-route-tenancy.ts:465-493 | in every other handler the code's verdict is the rule's |
| `AprExpiry.AprJob.CheckAprExpiry` | src/backend/jobs/inngest-functions.ts:94-221 | one run, in any order of the rounds: each due round is scanned once, others stay, the number scanned is that of the completed rounds that expire within 60 days and lack a flag, and the result has exactly one detail for each round whose two writes succeeded and no other |
| `AprExpiry.AprJob.ProcessRound` | src/backend/jobs/inngest-functions.ts:135-206 | the alert is written before the flag, and a failing write leaves what was written before it |
| `AprExpiry.WhatAnAlertSays` | src/backend/jobs/inngest-functions.ts:101-188 | one scan of one round: an alert if and only if the round is completed, expires within 60 days, has no flag for its window (15, 30 or 60 days) and the write succeeds; its window, days rounded up, and action; and exactly that flag is set if both writes succeed |
| `AprExpiry.EveryRun` | src/backend/jobs/inngest-functions.ts:94-221 | over every run of the job: the windows of a round only narrow, no alert is fired after the expiry, and the alerts for a window are its flag plus the failures between the two writes |
| `AprExpiry.AlertsAreFlagsPlusCrashes` | src/backend/jobs/inngest-functions.ts:152-206 | the balance behind it: a set flag has its alert, and a window fires at most once unless such a failure repeats it |
| `AprExpiry.WindowsOnlyNarrow` | src/backend/jobs/inngest-functions.ts:137-150 | with a clock that does not run backwards, the windows fired for a round never widen and none is fired after the expiry |
| `AprExpiry.EveryWindowFiresOnce` | src/backend/jobs/inngest-functions.ts:101-188 | scans from 60 days before expiry with gaps of at most 15 days fire every window exactly once, before the expiry |
| `AprExpiry.EveryRoundIsCovered` | src/backend/jobs/inngest-functions.ts:101-188 | the same for a round in a table with any other rounds |
| `AprExpiry.LongerGapMissesAWindow` | src/backend/jobs/inngest-functions.ts:137-153 | a gap one millisecond longer can miss the 30-day window |
| `AprExpiry.RerunChangesNothing` | src/backend/jobs/inngest-functions.ts:94-221 | after a run without failures, another at the same instant changes neither table nor ledger |
| `AprExpiry.RerunAddsNothing` | src/backend/jobs/inngest-functions.ts:152-188 | round by round: the second scan adds an alert if and only if a write of the first failed |
| `AprExpiry.RunIsVisits` | src/backend/jobs/inngest-functions.ts:94-221 | the order in which scans visit rounds is irrelevant: each round goes through its own visits only |
| `MissedPayments.MissedPaymentJob.CheckMissedPayments` | src/backend/jobs/inngest-functions.ts:495-653 | a whole run, with the marking breaking off anywhere and any write for a plan failing: what is marked, opened, recorded and reported; at most one open case per business stays so; every plan with a newly missed payment and two different payments marked missed and due in the last 180 days has an open case for missed payments unless writing it failed |
| `MissedPayments.MissedPaymentJob.MarkOverdue` | src/backend/jobs/inngest-functions.ts:527-532 | the loop marks the rows up to the update that throws |
| `MissedPayments.MissedPaymentJob.ConsiderPlan` | src/backend/jobs/inngest-functions.ts:559-631 | one plan: nothing without two recent misses, with an open case for missed payments of this business, or if the case cannot be written; otherwise one case, with its severity, and then the ledger row and the detail unless that write fails |
| `MissedPayments.MarkingIsExact` | src/backend/jobs/inngest-functions.ts:503-532 | exactly the rows `upcoming` and due before now become `missed`, no other changes, and the next query at that instant is empty |
| `MissedPayments.GroupByPlan` | src/backend/jobs/inngest-functions.ts:535-553 | the map has every plan once, in order of first appearance, with its owner and its number of overdue rows |
| `MissedPayments.GroupsAddUp` | src/backend/jobs/inngest-functions.ts:541-553 | the counts of the groups add up to the number of overdue rows |
| `MissedPayments.RecentMissedCounts` | src/backend/jobs/inngest-functions.ts:561-569 | the count is that of the payments of the plan with status `missed` and due no earlier than 180 days of 86,400,000 ms before |
| `MissedPayments.CasesAreOpenedOnce` | src/backend/jobs/inngest-functions.ts:559-631 | a business never gets a second open case, however many of its plans are in trouble; cases are never lost; a plan with two recent misses ends with an open case unless writing it failed |
| `MissedPayments.CasesHaveReasons` | src/backend/jobs/inngest-functions.ts:571-600 | every new case is open, belongs to a plan of the run with two different payments marked missed and due in the last 180 days, counts exactly those, has the severity of their number, and its write did not fail |
| `MissedPayments.TwoMissesOpenACase` | src/backend/jobs/inngest-functions.ts:559-600 | two such payments of a plan of the run leave its business with an open case for missed payments unless writing the case failed |
| `MissedPayments.OthersChangeNothing` | src/backend/jobs/inngest-functions.ts:561-569 | a payment that is paid, upcoming, older, or of a plan the run does not consider changes nothing the run writes |
| `MissedPayments.CasesAreFlagsPlusFailures` | src/backend/jobs/inngest-functions.ts:582-629 | the new cases are the new ledger flags plus the ledger writes that failed after their case, each flag repeats a case of the run, and the details report exactly the flags |
| `MissedPayments.FailedCaseWaitsForAnotherRow` | src/backend/jobs/inngest-functions.ts:503-629 | a plan whose case write fails gets no case in that run, and whatever happens in between the next run considers it if and only if a payment other than those the run found is overdue then |
| `MissedPayments.RerunFindsNothing` | src/backend/jobs/inngest-functions.ts:503-532 | a second run at the same instant finds no row and writes nothing |
| `MissedPayments.NextRunConsiders` | src/backend/jobs/inngest-functions.ts:503-553 | after a run that marked its first k rows, and whatever is added, paid or moved before the next, that run considers a plan if and only if it has an overdue payment not marked then |
| `MissedPayments.BrokenRunForgetsPlans` | src/backend/jobs/inngest-functions.ts:497-553 | after a run that broke off at update k, with nothing else changed, the next run at any later instant considers a plan if and only if it has a row from k on or another payment overdue by then |
| `AiRateLimiter.InMemoryRateLimiter.Limit` | src/backend/middleware/ai-rate-limiter.ts:61-86 | the new log and the answer are those of the step function: admitted if and only if fewer than `tokens` instants of the key are live, `remaining` what this call leaves, `limit` and `reset` from the configuration |
| `AiRateLimiter.InMemoryRateLimiter.Prune` | src/backend/middleware/ai-rate-limiter.ts:88-98 | a key stays if and only if one of its instants is later than `windowMs` ago, and keeps exactly those |
| `AiRateLimiter.LiveIsTheFilter` | src/backend/middleware/ai-rate-limiter.ts:66-70 | what is live are exactly the instants after the start of the window, each as often as before |
| `AiRateLimiter.RefinesHistory` | src/backend/middleware/ai-rate-limiter.ts:61-98 | every answer of a run, `remaining` included, is that of a limiter that remembers all successes and admits a call if and only if fewer than `tokens` lie in the last `windowMs` |
| `AiRateLimiter.PruningIsInvisible` | src/backend/middleware/ai-rate-limiter.ts:88-98 | taking every pruning out of a run changes no answer |
| `AiRateLimiter.NoIntervalExceedsTheLimit` | src/backend/middleware/ai-rate-limiter.ts:61-86 | over every run, no half-open interval of length `windowMs` holds more than `tokens` successes of a key |
| `AiRateLimiter.AdmitsIsALag` | src/backend/middleware/ai-rate-limiter.ts:72-75 | a call is admitted if and only if a window has passed since the success `tokens` places back |
| `AiRateLimiter.ResetIsLateEnough` | src/backend/middleware/ai-rate-limiter.ts:84 | at the advertised reset a caller is admitted if nobody took the place |
| `RateLimiter.KeysAreDistinct` | src/backend/middleware/rate-limiter.ts:167 | two tenants or two slots never share a Redis key, whatever the tenant's text |
| `RateLimiter.CheckBucket` | src/backend/middleware/rate-limiter.ts:86-117 | the script's INCR, EXPIRE and TTL: a new or expired key starts at 1 with 60 seconds to live, another counts up and keeps its expiry; and the bucket it gives |
| `RateLimiter.RateLimit` | src/backend/middleware/rate-limiter.ts:166-200 | the decision and the headers, and only the key of this tenant and slot changed |
| `RateLimiter.AliveInItsSlot` | src/backend/middleware/rate-limiter.ts:95-102 | a counter never expires inside its own slot |
| `RateLimiter.AnsweredByPlace` | src/backend/middleware/rate-limiter.ts:86-117 | in every run, with Redis dropping expired keys at any time, a request is passed if and only if fewer than its limit came before it in its tenant's slot; `remaining` and `limit` are exact, and `resetAt` is what is left of 60 seconds from the slot's first request, rounded, or 60 if nothing is |
| `RateLimiter.SlotPassesUpToTheLimit` | src/backend/middleware/rate-limiter.ts:166-200 | each slot passes exactly the smaller of its requests and the limit |
| `RateLimiter.AnyMinutePassesTwiceTheLimit` | src/backend/middleware/rate-limiter.ts:166-200 | any 60 seconds pass at most twice the limit |
| `RateLimiter.TwiceTheLimitIsReached` | src/backend/middleware/rate-limiter.ts:167 | the bound is reached within two milliseconds |
| `RateLimiter.RefusedRetryAfter` | src/backend/middleware/rate-limiter.ts:106-178 | what a refused request is told, from the slot's first request |
| `RateLimiter.RetryAfterLandsLater` | src/backend/middleware/rate-limiter.ts:106-178 | the advertised wait leads to a later slot if and only if under half a second is left, or TTL rounds up, or what it rounds off is no more than the first request's offset in the slot |
| `RateLimiter.WaitsAreLongEnough` | src/backend/middleware/rate-limiter.ts:106-178 | every wait in a slot leads to a later one if and only if the first request came 499 ms or more into it |
| `RateLimiter.WholeSecondsLandLater` | src/backend/middleware/rate-limiter.ts:106-178 | on a clock of whole seconds every wait leads to a later slot |
| `RateLimiter.PatientCallerIsRefusedAgain` | src/backend/middleware/rate-limiter.ts:106-178 | a run in which a caller who waits as told is refused again |
| `MigrateData.ValidateExport` | scripts/migrate-data.ts:158-208 | valid if and only if version, tenant id, tenant object and all sixteen arrays are there and every owner and credit profile names a business of the export; the errors are exactly the faults, the warnings exactly the empty tables, and the statistics the sizes |
| `MigrateData.Importer.Remap` | scripts/migrate-data.ts:233-239 | an id already mapped keeps its name, a new one gets a name nobody has, and the renaming stays injective |
| `MigrateData.Importer.ImportOwners` | scripts/migrate-data.ts:326-349 | exactly the owners whose business is known by then are imported, each at its business's new id |
| `MigrateData.Importer.ImportRecords` | scripts/migrate-data.ts:353-400 | consent records and compliance checks, with their optional business looked up in the renaming at that moment |
| `MigrateData.Importer.ImportTenant` | scripts/migrate-data.ts:212-407 | refuses exactly the unsound exports; otherwise it writes the renamed rows of users, businesses, owners, consent records and compliance checks, and the renaming is injective over exactly the ids met |
| `MigrateData.NoOwnerIsSkipped` | scripts/migrate-data.ts:333-334 | in a sound export the skip branch is dead |
| `MigrateData.EverythingArrives` | scripts/migrate-data.ts:254-400 | every user, business, consent record and compliance check arrives in its place, with its new id and the new tenant |
| `MigrateData.OwnersFollowTheirBusiness` | scripts/migrate-data.ts:326-350 | the imported owners are as many as the source's, each at the imported copy of its own business under the new tenant |
| `MigrateData.IdsStayDistinct` | scripts/migrate-data.ts:233-239 | in every table, ids are equal after the import if and only if they were before |
| `MigrateData.RecordsKeepTheirBusiness` | scripts/migrate-data.ts:364-389 | a consent record or compliance check leads to the copy of a business if and only if it led to the business, and loses its reference if and only if it had none or the id is unknown by then |
| `MigrateData.AdvisorsAreKept` | scripts/migrate-data.ts:305 | a business has the copy of a user as advisor if and only if it had the user |
| `MigrateData.NoOldIdSurvives` | scripts/migrate-data.ts:232-400 | no id of the file is in any imported row, as its id or as a reference |
| `TestClaims.ElementCount` | scripts/check-test-claims.ts:263-275 | the loop computes the specified count |
| `TestClaims.SixBrackets` | scripts/check-test-claims.ts:262-294 | the brackets `{ [ (` open and `} ] )` close, for the counter and the matcher alike |
| `TestClaims.CountOfJoin` | scripts/check-test-claims.ts:262-275 | counting undoes joining: any list of non-blank, balanced elements without top-level comma, with padding and with or without a trailing comma, is counted right |
| `TestClaims.FindEnd` | scripts/check-test-claims.ts:285-294 | the loop returns the first closing bracket that brings the depth back to zero |
| `TestClaims.MatchFindsTheEnd` | scripts/check-test-claims.ts:283-295 | through any nesting, the matched bracket is the array's own |
| `TestClaims.FixtureArrayCounts` | scripts/check-test-claims.ts:278-299 | the loop over the matches of the start pattern computes the specified counts, the search resuming at each end |
| `TestClaims.IntroducesIsThePattern` | scripts/check-test-claims.ts:158-159 | a text introduces an array if and only if it ends with one of the five names, an equals sign, or a word character and a colon, then white space, perhaps one parenthesis, and white space |
| `TestClaims.FixtureIsFound` | scripts/check-test-claims.ts:158-283 | after quiet text the search finds the bracket that a call of one of the five names, a label or an equals sign introduces |
| `TestClaims.EveryFixtureIsCounted` | scripts/check-test-claims.ts:278-299 | for every body of array literals, each after a gap that introduces it and no bracket before, and a rest that introduces none, the counts are the literals' lengths, in order, and nothing else |
| `Office.VentureTenantMap` | src/backend/config/office.ts:103-135 | the map of all pairs, or the error that the first offending entry calls for |
| `Office.RejectsExactly` | src/backend/config/office.ts:103-135 | it throws if and only if an entry is malformed, a venture is bound to two tenants, or there is no pair (a value unset or blank is refused by the parser's own contract) |
| `Office.DecidesOnce` | src/backend/config/office.ts:107-134 | the contract of the parser determines its result, and which error it is |
| `Office.BindingsAreNames` | src/backend/config/office.ts:111-119 | a pair that is accepted has a venture without colon and a tenant, both trimmed and not empty |
| `Office.ParsingUndoesRendering` | src/backend/config/office.ts:92-135 | every rendering of a map, in any order, with blank entries, repetitions and padding, is parsed to that map and to nothing else |

## Left out

- `OwnRetryIsFresh` and `WaiterMayRepeat`: tokens are known by the order of issue, so two refreshes never return the same text.
- `MaskedKeepsOrBlanks` and `BlankKeepsOrBlanks`: the length is part of the specification functions' own contracts.
- `CodeIsBlanked` and `ScannersAgree`: printed code has no slash outside comments and strings; `RegexIsBlanked` is about one regular expression or division after any text.
- `EveryWindowFiresOnce`: a day is 86,400,000 ms; the look-ahead's local daylight-saving changes are not modelled.
- `NextRunConsiders`: between two runs no payment goes back to upcoming.
- `CheckMissedPayments`: the same holds for the 180 days; a failing read or a stale read of the case table by a concurrent run is not modelled.
- `PagesJoinIntoAPrefix` and `PagesJoinExactlyInOrder`: rows of the same instant come back in the order of insertion, which the database does not promise.
- `AnsweredByPlace`: the application's clock and Redis's are one, and the key is computed when the script runs.
- `AnyMinutePassesTwiceTheLimit`: the tenant's limit is the same during the run; `AnsweredByPlace` covers changing ones.
- `ImportTenant`: the imported columns other than ids, and constraints of the database such as unique emails, are not modelled; a failing transaction writes nothing. The eleven tables it drops (credit profiles, funding rounds, applications, documents and others) appear in validation only, although it prints that all records are written (scripts/migrate-data.ts:403).
- `ValidateExport`: a table that is neither missing nor an array throws in the original and is not modelled.
- `FixtureArrayCounts`: the pattern that finds an array's start is a predicate on the text before the bracket, not a compiled regular expression.
- `CheckHandler`: the regular expressions that find handlers, clauses and markers are its input, and the text of the reason is not modelled.
- `GlobExactlyIfWellFormed`: regular expressions are read only for the characters the rewrites can produce; no character classes or groups.
- Login, logout and refresh are steps of the environment in the token protocol; response bodies, multipart upload and the secure store's failures to write are not modelled beyond an exception.
- Restack opportunities, and the helpers that wire the jobs to their scheduler: easy members.
- The v1 to v2 transform and the export command: a pure map and I/O.
- The plan-to-limit lookup, the bypass paths, requests without tenant, the fixed-limit variant and the fail-open paths of the limiters, and the hosted backend of the AI limiter.
- `lineAt`, the second masking routine of the test-claims script, and the third copy of the scanner in the document-provenance script: easy or repetitions.
- The other settings of the Office bridge: simple reads.
- Services, routes, metrics, sanitising, authentication, seeds and screens.
