# dsa-api: register, event log and rate limiter

A Dafny model of the two stateful cores of the DSA Trusted Flaggers API and of the code that
connects to them:

- **The register.** A scrape of the EU page is normalized, reconciled with the table of flaggers, and
  every difference is appended to an event log. A run is one transaction inside a longer sequence of
  fetches, a freshness stamp, file exports and a git push, any of which may fail or be cut short.
- **The rate limiter.** A sliding window per address and limit, kept in a Redis sorted set that is
  read and written in separate steps, applied twice to every metered request.

## How the model is laid out

| file | content |
|---|---|
| `Text`, `Sequences`, `Calendar`, `Wrappers` | strings, insertion-ordered keys, ISO dates, optional values |
| `Areas`, `Identity`, `Normalize`, `Flagger`, `Lookup` | raw rows to records; identity; serialized records; lookups by address and domain |
| `Diff`, `Reconcile`, `Session` | field diffs; what one scrape means id by id; the class that reconciles in place |
| `EventLog`, `Histories` | the log on its own (replay, undo, lifecycle, totals); all committed scrapes since the empty table |
| `Export`, `Ingest`, `Guarantees`, `Scraper` | exported files; the run state machine; its guarantees; the class whose method performs one run |
| `Feed` | the change feed and the paged history |
| `Fetch` | the retry loop |
| `SlidingWindow`, `LimiterRuns`, `RateLimiter`, `Middleware` | one limit, its runs, the Redis-backed limiter, the two limits together |
| `LimiterRace`, `RaceWitness` | interleaved commands of concurrent calls on one key; runs that attain or exceed the bounds, and the exact condition |
| `MiddlewareRace` | interleaved commands of requests of any addresses over both limits |

`Session.Session` and `Scraper.Scraper` are classes because the source assigns to rows, sessions and
stores; `RateLimiter.Redis` is one because the limiter changes a shared store. `Session.ApplyDiff` is
proved equal to a per-id description of reconciliation (`Reconcile.RowAfter`, `Reconcile.EventFor`),
and everything about histories is proved about that description. `Scraper.RunIngest` is proved to
follow the state machine of `Ingest`, whose steps may also stop anywhere (`End`), so the guarantees
cover crashes between any two effects; a commit may take effect and raise all the same. `History` is
the list of all scrapes whose commit took effect; `Valid` says that each scrape's SELECT returned the
rows there were, in any order, and that run ids are fresh.

## What was found

- **Retry-After can be one second short.** The wait is rounded down. After a denial, and with nothing
  admitted since, the next call is allowed exactly when the oldest request of the window has aged out
  (`AllowedIffOldestAgedOut`); waiting the announced time plus one second always suffices; waiting
  exactly the announced time suffices if and only if the time left was a whole number of seconds or at
  most one second (`AnnouncedWaitSufficesIff`, `RetryAfterMayBeTooShort`).
- **Concurrent overshoot is exactly known, command by command.** The limiter's pipelines are not
  transactions, so evict, count, add and expire of different calls may fall between each other. Let at
  most k calls of a key be between count and add at once. If every call counts and renews the key's
  expiry within one second of its clock reading, and counts before anything is evicted with a later
  reading, every window gets at most max + k - 1 entries (`ConcurrentBound`), and for every max and k
  some run adds that many. The second is the one added to the key's expiry; it also ensures that no
  entry is lost between its add and its renewal (`NothingIsLost`). Each half is needed: a count more
  than a second late overshoots in some run (`DelayOvershoots`), so does any eviction that overtakes an
  earlier call's count, however close the readings (`SwapOvershoots`), and so does a renewal more than
  a second late although every count is immediate (`LateRenewalOvershoots`). `ConcurrentBoundIsExact`
  and `DeadlinesAreExact` are the if-and-only-ifs. A call that dies before its add counts no more; one
  that dies between add and renewal never renews, so it is outside this bound. Whatever the order and
  the delays, u calls between clock and count, and x calls between add and renewal when the key
  expires, add at most u + x (`StalledBound`); for every u and x = 0 some run adds that many
  (`StalledBoundIsAttained`). Both bounds carry over to requests of any addresses interleaved over both
  limits (`InterleavedForwardsAreBounded`, `DelayedForwardsAreBounded`).
- **A commit whose acknowledgement is lost marks a committed run failed.** The commit is inside the `try`
  of apps/scraper/ingest.py:224-343 and the handler tests only that the run row exists, so an exception out
  of a commit that took effect overwrites the row (`LostCommitIsMarkedFailed`). A run that owns part of
  the history is `failed` exactly when this happened to it (`RunsAreAtomic`), and a row written by a
  commit changes in no other way (`CommittedIsFinal`). The log still replays to the table, the stamp
  stays what it was, and nothing of that run is published until another run changes something
  (`LostCommitStaysUnpublished`).
- **A missed push stays missed.** The published copy equals the export of today's database exactly when
  something was pushed and no run since that push changed anything (`PublishedIff`). Every run rewrites
  the export directory, so that is recoverable as apps/scraper/ingest.py:292-293 says, but runs that
  change nothing never push it (`StaleUntilNextChange`).
- **Two names can collide exactly when one continues the other with a bar.** Names are compared
  trimmed and in lower case. Some regulators and dates give two different names one canonical text if
  and only if one of the names is the other followed by a bar, and that bar ends it or is not followed
  by white space (`NamesCollideIff`). So names without a bar never collide, even when the regulator's
  name has bars, and equal canonical text plus equal bar counts in the names is agreement of all three
  parts (`CanonicalDecides`).
- **A diff cannot tell a missing key from a null one** (`DiffMissesMissingKeys`). Over records of the
  same fields, which is all the reconciler compares, it detects every change (`DiffDetectsEveryChange`).
- The design document (prds/active/PRD_dsa-flaggers-api.md:307) says a second consecutive run writes
  nothing. It logs nothing, but it moves the last-seen time of every row it contains
  (`SecondRunIsSilent`); the export leaves that time out, so the published files stay the same.
- The documentation string of `fetch` promises retries for transport errors, timeouts and 5xx only. The
  code also retries 422, 429 and every other non-2xx status outside 4xx; the model follows the code.

## Model

| member | source | states |
|---|---|---|
| Session.IndexById | apps/scraper/ingest.py:111 | a repeated id keeps its last record, and ids are visited in the order of their first occurrence |
| Session.Session.VisitScraped | apps/scraper/ingest.py:115-169 | one scraped id is created, restored, updated or left silent, with exactly the matching event; only its own row changes |
| Session.Session.VisitMissing | apps/scraper/ingest.py:171-186 | an id missing from the scrape is marked removed once, keeping its record and last-seen time |
| Session.Session.ApplyDiff | apps/scraper/ingest.py:101-189 | table and log become what the per-id description says for any list, duplicates included, and the four counters are the event counts by kind |
| Session.VisitAllMeaning | apps/scraper/ingest.py:110-186 | updating rows one after another in place gives what deciding every id from the table selected at the start would give |
| Reconcile.LastOccurrenceWins | apps/scraper/ingest.py:111 | the record reconciled for an id is the one at its last position in the list |
| Reconcile.Convergence | apps/scraper/ingest.py:115-186 | after any scrape of any table the listed ids are exactly the scraped ids, with their last records, `last_seen_at` moved, `first_seen_at` kept, removed ones active again and formal statuses kept; delisted rows change in status only |
| Reconcile.SecondRunIsSilent | apps/scraper/ingest.py:110-189 | repeating a scrape logs nothing and moves nothing but last-seen times |
| Reconcile.OrderDoesNotMatter | apps/scraper/ingest.py:109-186 | permuting a list with distinct ids, or the rows the database returns, gives the same table and the same multiset of events |
| Reconcile.EventsKeepOrder | apps/scraper/ingest.py:113-186 | within a run the events of scraped ids come first, in the order of their first occurrence in the response, and removals last, in the order of the selected rows |
| Diff.ComputeDiff | apps/scraper/ingest.py:86-93 | the diff holds a key if and only if it reads differently on the two sides, with both readings; unchanged fields are never listed |
| Diff.DiffEmptyIff | apps/scraper/ingest.py:89-93 | the diff is empty exactly when every key reads the same, a missing one as null |
| Diff.DiffDetectsEveryChange | apps/scraper/ingest.py:155-158 | between records with the same fields no change is lost: an `updated` event never has an empty diff |
| Diff.DiffMissesMissingKeys | apps/scraper/ingest.py:90 | different dictionaries with an empty diff: a null key against a missing one |
| Diff.PatchInverts | apps/scraper/ingest.py:86-93 | patching with the diff goes forward to the new record and, swapped, back to the old one |
| Flagger.DictReadsBack | apps/scraper/ingest.py:63-76 | reading every column from the key of its own name, null as none and the ISO text as the date, gives back the record that was serialized |
| Flagger.CompareDictInjective | apps/scraper/ingest.py:63-76 | comparing serialized records compares the records: all fifteen fields count and dates stay distinct |
| Flagger.OrmToCompareDict | apps/scraper/ingest.py:63-71 | the field loop serializes a row into a dictionary that reads back as its record |
| EventLog.ScrapeExtends | apps/scraper/ingest.py:115-186 | whatever ids a scrape visits, the log stays consistent event by event, an update listing exactly the fields that changed, and replays to the table as far as it was reconciled |
| EventLog.RewindRecovers | apps/scraper/ingest.py:155-185 | undoing events from the newest, with swapped diffs and removal snapshots, recovers what the log said at every earlier point |
| EventLog.RemovalIsLast | apps/scraper/ingest.py:171-186 | a delisted id's latest event is its removal, whose snapshot is the record it had |
| EventLog.Lifecycle | apps/scraper/ingest.py:115-186 | every id's events form created (updated, removed restored)* removed? and the form tells whether it is listed |
| EventLog.Conservation | apps/scraper/ingest.py:113-189 | known ids = created events; listed ids + removed events = created + restored events |
| Histories.LogMatchesTable | apps/scraper/ingest.py:101-189 | after every history of scrapes from the empty table the log is consistent and replays to the table's fields and listed status |
| Histories.PointInTime | prds/active/PRD_dsa-flaggers-api.md:45 | replaying the events logged up to any earlier run gives the table as it stood after that run |
| Histories.AuditAsOf | prds/active/PRD_dsa-flaggers-api.md:45 | with transaction times in order, the events dated up to a time replay to the table in force at that time |
| Histories.AsOfIsComplete | prds/active/PRD_dsa-flaggers-api.md:45 | the events dated up to a time are exactly the logged ones with no later time |
| Histories.RewindToAnyRun | apps/scraper/ingest.py:155-185 | walking the log backwards from the current table recovers the table after every earlier run |
| Histories.NothingIsErased | apps/scraper/ingest.py:115-186 | the log only grows at its end and no row is ever deleted |
| Histories.TableIsHistory | apps/scraper/ingest.py:115-176 | every row equals one read off the raw scrapes: last record of the latest scrape containing the id, active iff the newest contains it, first and last seen at the starts of the first and latest such scrapes |
| Histories.OneEventPerRun | apps/scraper/ingest.py:115-186 | no id has two events in one run, over the whole log |
| Histories.RunOwnsItsEvents | apps/scraper/ingest.py:126-134 | however much is logged later, the events carrying a run's id are the ones its own scrape produced |
| Histories.LifecycleOfEveryId | apps/scraper/ingest.py:115-186 | in every history a row is active, removed or absent exactly when its events are an open, closed or empty lifecycle |
| Histories.TotalsAddUp | apps/scraper/ingest.py:113-189 | rows = created events, listed rows = created + restored - removed events = distinct ids of the newest scrape |
| Histories.RowsAreDerived | core/normalize.py:131-145 | rows in any history carry derived columns that agree with their source columns |
| Normalize.AcceptedRowIsDerived | core/normalize.py:118-145 | an accepted row's domain, area list, areas and country codes agree with the columns they come from, and no optional text is empty |
| Normalize.NormalizeOne | core/normalize.py:99-145 | a row is accepted if and only if it has a name, a two-letter country and a date, and otherwise the first part missing is the reason; name, website, address, regulator and country are their own raw texts without outer white space, the email is the contact or else the decoded link, the regulator's code is the "(CC)" that ends its name or else the country, and hash and id are those of the row |
| Normalize.NormalizeRows | apps/scraper/parse.py:62-71 | bad rows never stop the rest: the records are those of the acceptable rows and the errors those of the others, each in the order of the response |
| Normalize.RecordsAreDerived | core/normalize.py:131-145 | every record that reaches the reconciler has its domain, areas and country code derived from its own fields |
| Normalize.SameIdentifier | core/normalize.py:105-132 | with a collision-free hash two accepted rows share id and bar count in their names iff name, regulator and date agree up to case and outer space |
| Identity.DateIsRecoverable | core/models.py:14-16 | the date can always be cut from the canonical text, whatever bars the names contain |
| Identity.CanonicalDecides | core/models.py:14-16 | equal canonical texts with equally many bars in the names mean the same name, regulator and date, and conversely |
| Identity.BarFreeNamesNeverCollide | core/models.py:14-16 | for names without a bar the canonical text alone decides, even if the regulator has bars |
| Identity.NamesCollideIff | core/models.py:14-16 | some regulators and dates give two names one canonical text with different keys if and only if one name, trimmed and in lower case, continues the other with a bar that no white space follows |
| Identity.BarInNameCollides | core/models.py:14-16 | two different keys with one canonical text |
| Calendar.IsoReadsBack | core/models.py:15 | year, month and day are read back from their places in the ISO text, so it identifies the date |
| Calendar.IsoOrders | core/models.py:15 | ISO texts sort as their dates do |
| Text.LowerMergesCases | core/normalize.py:49 | two texts of one length are lowered to the same text if and only if they agree up to ASCII case, and a text without capitals stays |
| Text.WhiteSpaceIsBlank | core/normalize.py:42 | blanks, tabs and line ends are white space and visible ASCII characters are not |
| Areas.SplitAreasPart | core/normalize.py:42 | a text without a semicolon is one trimmed label, or none when blank |
| Areas.SplitAreasConcat | core/normalize.py:38-42 | parsing two texts joined by a semicolon gives the two lists joined |
| Areas.PrintThenParse | apps/scraper/export.py:70-78 | a joined list parses back to itself exactly when its labels are trimmed, non-empty and free of semicolons |
| Areas.ParsePrintParse | core/normalize.py:38-42 | whatever the source publishes, its parsed list survives the CSV column |
| Areas.NormalizeAreas | core/normalize.py:45-51 | no area twice, and exactly the areas some label maps to |
| Areas.AreasKeepFirstSeenOrder | core/normalize.py:45-51 | areas are ordered by the first label that maps to each |
| Areas.AreaIgnoresCaseAndSpace | core/normalize.py:49 | white space and ASCII case around a label never change its area |
| Areas.PublishedLabels | core/normalize.py:14-33 | the published labels, in any case and with any outer white space, have these areas (first third) |
| Areas.MorePublishedLabels | core/normalize.py:14-33 | the same for the second third |
| Areas.OtherPublishedLabels | core/normalize.py:14-33 | the same for the last third |
| Areas.OtherIsTheRest | core/normalize.py:49 | a label falls into `other` if and only if it is not published |
| Areas.CodeIsReadBack | core/enums.py:4-25 | every area is told from its string value |
| Areas.PrintedCodesAreReadBack | apps/scraper/export.py:70-78 | a joined list of area values gives the areas back |
| Lookup.EmailLookupImpliesDomainLookup | apps/api/routers/trusted_flaggers.py:146-150 | a row found by any spelling of an address carries that address's extracted domain and is found by it |
| Lookup.LookupIgnoresCaseAndSpace | apps/api/routers/trusted_flaggers.py:147-150 | case and outer white space of the query change neither answer |
| Lookup.LookupFindsExactly | apps/api/routers/trusted_flaggers.py:146-150 | a query finds exactly the rows whose address, or whose domain, it is up to case and outer white space |
| Lookup.DomainFollowsFirstAt | core/normalize.py:82-86 | the domain is what follows the first "@", trimmed and in lower case; without one, or with nothing behind it, there is none |
| Export.CsvReadsBack | apps/scraper/export.py:70-78 | the CSV line of a normalized row gives back its id, its status and its record but for address and source hash |
| Export.CsvIsFaithful | apps/scraper/export.py:70-78 | two normalized rows have the same CSV line exactly when they differ at most in address, source hash and scrape times |
| Export.WriteAll | apps/scraper/export.py:127-148 | the loop over the rows, in any order, and over the columns of each writes both files with one entry for every row, removed ones included, and no other, and a changelog with every event as often as the log has it |
| Export.ExportReadsBack | apps/scraper/export.py:32-55 | an exported row gives back its id, its status and, column by column from the key of its name, its record but for the source hash |
| Export.ExportIsFaithful | apps/scraper/export.py:32-55 | two rows export alike exactly when they have one id and differ at most in source hash and scrape times |
| Export.CsvKeepsAreaLabels | apps/scraper/export.py:70-78 | the raw labels of a normalized row can be read back from its CSV cell |
| Export.FilesChangeIffLogged | apps/scraper/ingest.py:286-298 | a scrape changes the exported files exactly when it logs an event, so `had_changes` is the right test for pushing |
| Export.FilesAreCurrentIffQuiet | apps/scraper/export.py:95-149 | files written at an earlier point equal today's exactly when no run since then changed anything |
| Ingest.StepKeepsInv | apps/scraper/ingest.py:205-350 | every step of a run, failures, aborts and commits that raise after taking effect included, keeps database, run rows, stamp, git state and history consistent |
| Ingest.PublishIsNeverEmpty | apps/scraper/publish.py:45-48 | after a run that changed something the working tree differs from the local head, so there is always something to commit |
| Guarantees.RunsAreAtomic | apps/scraper/ingest.py:257-284 | an event names a run of the history; such a run is failed exactly when its commit raised after taking effect and the handler ran, otherwise success or partial; every other failed, crashed or running run left no event; the freshness stamp is the completion time of a run that is not failed |
| Guarantees.LostIffFailed | apps/scraper/ingest.py:335-343 | over any steps, of the runs whose commit took effect on the way exactly those lost to the handler end up failed |
| Guarantees.CommittedIsFinal | apps/scraper/ingest.py:335-343 | over any further steps a row written by a commit changes exactly when that commit has just raised and the next step is the handler, which keeps its counters; after that it never changes |
| Guarantees.DatabaseOnlyGrows | apps/scraper/ingest.py:192-353 | over any further steps the log only grows, no row disappears and without a commit the database stays as it is |
| Guarantees.LostCommitIsMarkedFailed | apps/scraper/ingest.py:277-343 | every response with an acceptable row can end with its events logged and its run failed |
| Guarantees.LostCommitStaysUnpublished | apps/scraper/ingest.py:277-343 | after such a run the log replays to the table, the stamp is unmoved, and remote and staleness stay through any steps that log nothing |
| Guarantees.CountersMatchEvents | apps/scraper/ingest.py:262-274 | each run's stored counters equal its own events in the log forever; `rowsSeen` is accepted plus rejected rows; unless it was lost the run is `success` without a message when none was rejected, else `partial` naming all errors or five |
| Ingest.CommitTellsErrors | apps/scraper/ingest.py:262-274 | a commit counts all rows of its response as seen, accepted plus rejected, and names the first five of that response's errors |
| Guarantees.StampIsNewest | apps/scraper/ingest.py:279-284 | right after it is written the stamp is the completion time of the newest run of the history |
| Guarantees.LogRefinesTable | apps/scraper/ingest.py:101-189 | in every reachable state the log alone gives fields and listed status, statuses are active or removed, and totals add up |
| Guarantees.DerivedColumnsAgree | apps/api/routers/trusted_flaggers.py:146-150 | in every reachable state lookups by address and by its domain agree, and CSV cells give the labels back |
| Guarantees.PublishedIff | apps/scraper/ingest.py:286-312 | the remote is current exactly when something was pushed and no run since changed anything |
| Guarantees.PublishedCopyStaysCurrent | apps/scraper/ingest.py:295-310 | as long as every changing run's export and push succeed the remote is current after every run, although quiet runs skip the push |
| Guarantees.StaleUntilNextChange | apps/scraper/ingest.py:298-312 | a stale remote stays as it is, and stale, through any steps that change nothing |
| Guarantees.RunsCompose | apps/scraper/ingest.py:192-353 | one run after another is one run of the state machine, so what holds of reachable states holds after any series of calls |
| Scraper.Scraper.ApplyAndCommit | apps/scraper/ingest.py:257-277 | if the commit takes effect, table, log and run row change together, whether or not it also raises; if it rolls back, nothing does |
| Scraper.Scraper.FailRun | apps/scraper/ingest.py:335-343 | the failure handler changes the run row and nothing else |
| Scraper.Scraper.PublishChanges | apps/scraper/publish.py:45-66 | head and tree agree afterwards unless the git commit fails; the remote gets the tree exactly when the push succeeds and the tree was not clean |
| Scraper.Scraper.RunIngest | apps/scraper/ingest.py:192-353 | a whole run takes the state machine through its planned steps in every combination of outside outcomes; its result counts the run's events or names the failure; table and log are those of the reconciled response if the commit took effect; only its own row changes; the stamp is its completion time if it came through with Redis up; the files are those of the database, and head and remote follow exactly when it changed something and a remote is configured, as far as git goes along |
| Feed.FeedIsComplete | apps/api/routers/changes.py:30-48 | without a foreign key the join still lists every event since the cutoff exactly once with its own row, so the total is their number |
| Feed.SinceIsComplete | apps/api/routers/changes.py:30-48 | the events since the cutoff are exactly the logged ones with no earlier time |
| Feed.HistoryIsComplete | apps/api/routers/trusted_flaggers.py:212-215 | one flagger's history has exactly the logged events that name it, each as often as logged |
| Feed.HistoryAscends | apps/api/routers/trusted_flaggers.py:212-214 | with increasing transaction times one id's events have pairwise different times |
| Feed.HistoryPagesConcatenate | apps/api/routers/trusted_flaggers.py:212-215 | however ties are broken in each query, the pages of one history put together are its events newest first, without gap or repetition |
| Fetch.FetchWithRetries | apps/scraper/fetch.py:46-76 | while attempts remain, 422, 429, 5xx and transport errors are never the last outcome; the first 2xx, other 4xx or foreign exception decides; without one the fetch gives up after exactly that many requests; the sleeps are the backoff series |
| Fetch.TotalSleepClosedForm | apps/scraper/fetch.py:74-75 | n requests sleep base * (2^(n-1) - 1) in all |
| Fetch.TotalSleepGrows | apps/scraper/fetch.py:47-75 | fewer requests never sleep longer, so exhaustion is the longest sleep |
| Fetch.ConfiguredBackoff | apps/scraper/ingest.py:238-248 | the JSON fetch sleeps 14 s at most, the page fetch 3 s |
| SlidingWindow.CallAgrees | core/ratelimit.py:41-65 | one sequential call decides like a limit that forgets nothing, and eviction, expiry and removal of empty sets keep that agreement |
| SlidingWindow.AdmitKeepsBound | core/ratelimit.py:50-65 | admitting never overfills any window of the configured length, wherever it is placed |
| SlidingWindow.RetryAfterInRange | core/ratelimit.py:52-55 | the announced wait lies between one second and the window |
| SlidingWindow.AllowedIffOldestAgedOut | core/ratelimit.py:50-55 | after a denial with nothing admitted since, a later call is allowed exactly when the window's oldest request has aged out |
| SlidingWindow.RetryAfterPlusOneSuffices | core/ratelimit.py:52-55 | waiting one second longer than announced is always enough |
| SlidingWindow.AnnouncedWaitSufficesIff | core/ratelimit.py:52-55 | the announced wait is the time left rounded down, but one second at least; a call made exactly that long after a denial is allowed if and only if the time left was a whole number of seconds or at most one second, and a call one second earlier never is |
| SlidingWindow.RetryAfterMayBeTooShort | core/ratelimit.py:53 | a denial announcing 59 s after which a call 59 s later is denied again |
| LimiterRuns.LimiterRefinesIdeal | core/ratelimit.py:41-65 | on every sequential call sequence decision, count and wait are those of a limit that remembers every admitted request, and every window holds at most the maximum |
| LimiterRuns.DenialsAreNotRemembered | core/ratelimit.py:50-55 | denied calls leave no trace: what is remembered after any run of denials is what was remembered before it |
| LimiterRuns.RetryAfterIsHonest | core/ratelimit.py:50-55 | in any run, denied calls in between never extend a block: the next call's fate depends only on the oldest request at the first denial; it is allowed once the wait and a second have passed and never while more than a second of a longer wait is to come |
| RateLimiter.KeyInjective | core/ratelimit.py:23-24 | for colon-free limit names keys agree only for the same limit and address, whatever the address contains |
| RateLimiter.CheckLimit | core/ratelimit.py:27-65 | the call is allowed if and only if its window has fewer entries than the maximum; it reports their number, itself included if allowed, and the time left rounded down if denied; only an allowed one is added, with its reading, and the key then lasts a second longer than the window; every other key is left alone |
| RateLimiter.RateLimit | apps/api/main.py:60-85 | paths outside /v1/, /v1/health and /v1/version touch nothing; otherwise 60 seconds with the minute maximum deny first, then 86400 with the day maximum, with their waits; forwarded requests are added for both limits, day-denied ones for the minute, minute-denied ones for neither, under the address's own two keys |
| Middleware.RunKeeps | apps/api/main.py:60-85 | after any sequential run both sets of every address hold exactly what each limit admitted and still counts |
| Middleware.RepliesAreIdeal | apps/api/main.py:60-85 | every reply is that of a server counting forwarded requests in both windows, day-denied ones in the minute window only and minute-denied ones in neither |
| Middleware.ForwardedWithinBothLimits | apps/api/main.py:68-80 | forwarded requests of an address respect both limits over every minute and every day |
| Middleware.AddressesDoNotInterfere | apps/api/main.py:66-80 | every reply is what it would be if only its own address had sent requests |
| LimiterRace.RunIsRoomy | core/ratelimit.py:36-63 | in every interleaving of commands, whatever the delays, stored entries and pending adds together stay within max + k - 1 |
| LimiterRace.RunIsGuarded | core/ratelimit.py:45-63 | in every interleaving, if the key is to expire, either some call that read the clock earlier has yet to renew it, or nobody past its eviction read the clock in the last second before |
| LimiterRace.NothingIsLost | core/ratelimit.py:60-63 | when calls renew within a second of their reading, no entry is lost between its add and its renewal |
| LimiterRace.RunIsAccounted | core/ratelimit.py:36-63 | within a second and in order, all entries of a window are stored until an eviction or expiry could reach it, and nothing is admitted to it afterwards |
| LimiterRace.ConcurrentBound | core/ratelimit.py:36-63 | with at most k live calls between count and add, counts and renewals within a second of the clock readings and no eviction overtaking an earlier count, stored plus pending and every window's entries, pending ones included, never exceed max + k - 1 |
| LimiterRace.StalledBound | core/ratelimit.py:42-63 | whatever the order and the delays, u calls between clock and count, and x calls between add and renewal when the key expires, add at most u + x to what a window gets |
| RaceWitness.ConcurrentBoundIsAttained | core/ratelimit.py:36-40 | for every maximum and k some run, every command at the time of its reading, adds exactly max + k - 1 entries to one window |
| RaceWitness.DelayOvershoots | core/ratelimit.py:42-63 | for every maximum, k and delay above one second some run in order, with one call counting that late, adds max + k entries to one window |
| RaceWitness.SwapOvershoots | core/ratelimit.py:42-63 | for every maximum, k and gap between two readings some run, in which the later reading evicts before the earlier call counts, adds max + k entries to one window |
| RaceWitness.LateRenewalOvershoots | core/ratelimit.py:60-63 | for every maximum and window of at least two, k and delay above one second some run in which every call counts at once, but one renews that late, adds max + k entries to one window |
| RaceWitness.ConcurrentBoundIsExact | core/ratelimit.py:36-63 | with one deadline for all commands, max + k - 1 bounds every window of every run if and only if the deadline is zero, or at most a second with no eviction overtaking an earlier count |
| RaceWitness.DeadlinesAreExact | core/ratelimit.py:36-63 | with separate deadlines, and maximum and window of at least two, the bound holds if and only if counts are immediate, or within a second and never overtaken, and renewals come within a second |
| RaceWitness.StalledBoundIsAttained | core/ratelimit.py:42-63 | for every maximum, k and u some run with u stalled calls, no entry being lost, adds max + k - 1 + u entries to one window |
| MiddlewareRace.ServerSimulatesRace | apps/api/main.py:60-85 | seen from one address and limit, any interleaving of the commands of requests of all addresses over both limits, dying requests included, is a run of calls on that one key |
| MiddlewareRace.InterleavedForwardsAreBounded | apps/api/main.py:66-80 | in every interleaving, the requests forwarded for an address exceed neither limit in any window by more than that limit's own live calls between count and add for that address, less one |
| MiddlewareRace.DelayedForwardsAreBounded | apps/api/main.py:66-80 | whatever the order and the delays, that limit's calls between clock and count for that address, and those between add and renewal when the key expires, add at most their own number |
| MiddlewareRace.EachForwardedPassedBoth | apps/api/main.py:68-80 | a forwarded request has an entry of both limits for its own address; the day limit adds entries only for requests with a minute entry, and each of those is forwarded or has only the renewal left |

## Assumptions

Transactions that reconcile do not overlap (the scraper's CronJob forbids concurrent runs,
k8s/scraper-cronjob.yaml:10), run ids and sorted-set members are fresh, and Redis and its clients
share one clock that never runs backwards. White space is Python's full list; `lower`
acts on ASCII letters. `upper`, `uuid5`, `strptime`, `unquote` and SHA-256 are arbitrary functions; only
`Normalize.SameIdentifier` asks `uuid5` to be injective.

## Left out

- HTTP, PostgreSQL, Redis, git and Slack clients: each call is a step that succeeds or fails.
- `suspended` and `revoked`: no code sets them; the reconciler's contracts cover tables that contain them, histories start from the empty table.
- Rows as separate mutable objects: the ORM's rows are values in the session's map, so aliasing between them is not modelled.
- Event ids: an event is known by its position in the log; gaps in the sequence are not modelled.
- The response status, content hash, snapshot path and source URL of a run row.
- `data/source-snapshots` in the exported directory, JSON and CSV encoding, and the order of exported rows with equal names or equal times.
- Export.FilesChangeIffLogged: compares the files' content, with rows by id and the changelog as a multiset, because the export fixes no order among equal names or times.
- Lookup.EmailLookupImpliesDomainLookup: folds ASCII letters only; the source lowers every letter.
- Lookup.LookupIgnoresCaseAndSpace: folds ASCII letters only, likewise.
- Export.FilesAreCurrentIffQuiet: the same comparison of content; the snapshots of the source page are not among the files.
- Feed.HistoryPagesConcatenate: needs transaction times that strictly increase; nothing is claimed about pages of the global feed, where events of one run share a time.
- Floating-point rounding of timestamps; time is real-valued.
- Client address extraction, response headers, CORS, health and version endpoints, statistics, badges, waitlist and watchdog.
- Filters of the list endpoint, the website lookup and URL parsing; the lookup's check that exactly one parameter is given.
- The HTML settings blob and the JSON envelope: a fetch yields raw rows or raises.
