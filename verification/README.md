# Event Radar, modelled and verified

Event Radar collects events for one city. Sources are calendar feeds and web searches; web
finds become *candidates*, which a page check verifies and an operator approves, rejects or
restores; approved candidates and feed events land in one events table, which is published
as an iCalendar feed. This project models that logic in Dafny and proves what has to hold
across its parts, over every run and every input.

| module | what it models |
|---|---|
| `Text`, `Model`, `Timestamps`, `Keys` | byte strings and SQLite's text order, the entities, the calendar and RFC 3339 text, the two event keys |
| `EventRows`, `Events` | the events table, its upsert and its two queries |
| `CandidateRows`, `Candidates` | the candidates table, its per-column merge, verification, the publish gate, pruning |
| `Review`, `ReviewEffects` | syncs and any number of reviewers interleaved over one database, as a transition system, and what each step leaves in the tables |
| `Store` | the store object and the review actions, as methods that change it in place |
| `FanOut` | the verification fan-out: goroutines, semaphore, wait group, every schedule |
| `Sync`, `SyncEffects` | one sync over the sources, what it leaves behind, and many syncs among reviews |
| `IcsText`, `IcsLines`, `Feed`, `RoundTrip`, `ForeignFeed` | the iCalendar printer and parser, their round trip, and feeds that others publish |
| `Dedupe`, `Discovery`, `Numerals` | the in-place compaction, the two web searches, the integer printer |
| `Allowlists`, `Sessions`, `LoginFlow`, `Provenance`, `Auth` | the OIDC allowlist, session table and handlers, and a login from start to end |
| `CallbackSteps` | callbacks that overlap, statement by statement |

Times are whole nanoseconds since 0000-01-01T00:00:00Z. A character stands for a byte. Clock
readings, random texts, answers of sources, of the page check and of the identity provider,
and whether the database lets a statement through are inputs. Go's `error` results are
datatypes.

The parts that change state step by step (`Store`, `Sync`, `Auth`, `Dedupe`, `Discovery`,
`Numerals`, `Feed`, the line loops of `IcsText` and `IcsLines`) are methods proved against
functions; what the program promises is then proved of those functions.

## What the proofs found

- A verified start whose UTC year is 10000 or later (`9999-12-31T23:59:59-05:00` is one) is
  stored with a five-digit year and reads back as the zero time. The next rejection or restore
  blanks the start column, and meanwhile the gate refuses the row as having no start while a
  prune may take it years before the event (`internal/radar/store.go:199-206`,
  `internal/radar/store.go:284-289`). Both properties, evidence in one piece and pruning in
  agreement with the gate, hold in every run if and only if no verified start is of that kind:
  `Review.EvidenceHoldsExactly` and `Review.PruneHoldsExactly`.
- Text order is time order for more than years 0-9999, but not much more:
  `Timestamps.TextOrderExactly` names the seconds.
- `unfoldICS` strips every leading blank of a continuation line where section 3.1 of RFC 5545
  removes one character, so it inverts folding exactly when no continuation begins with a
  blank of its own (`IcsText.UnfoldInvertsFolding`).
- A carriage return inside a text survives the trip through the feed; one at the end of a uid,
  title, location or URL does not. The scanner's error is ignored, so a line of 64 KiB or more
  silently drops its event and every later one (`RoundTrip.FeedReadBack` and, in both
  directions, `RoundTrip.FeedRoundTrip`).
- An identity with a permitted e-mail address and an empty subject gets a session row that no
  later request is answered from, whatever requests come in between (`Sessions.SessionLifetime`).
- The callback deletes its login row without looking at how many rows it removed
  (`internal/auth/auth.go:266-272`), so that a login yields one session only, when callbacks
  overlap, rests on the provider: it holds if and only if there is no login whose code the
  provider may redeem twice (`CallbackSteps.SingleUseExactly`).
- The comment on `Allowlist` says that every entry is lower-cased; subjects are only trimmed
  (`internal/auth/allow.go:34-38`). The model follows the code.
- An event under a new key whose uid is in use is refused by SQLite, because the conflict
  clause names the fingerprint only (`Events.RefusedExactly`). A uid does not depend on the
  location, so when a feed moves an event to another place, every later sync that comes to it
  fails there (`Review.MovedEventIsRefused`, `Sync.MovedEventFailsSync`).
- A rejection lasts as long as its row. A prune may delete a rejected row once its event is
  past, and when the page is found again the candidate starts over as pending
  (`ReviewEffects.VerdictStays`, `ReviewEffects.PruneForgetsRejection`).
- An approval whose gate is open fails for a candidate that is there only if its event is new
  under a uid in use (`ReviewEffects.ApprovalCommitsExactly`); two approvals of one source have
  one uid only for one page, title and second (`ReviewEffects.ApprovalsHaveOwnUids`).
- One event with a start that cannot be read makes a whole feed an error
  (`ForeignFeed.InvalidStartFails`).

## Model

| member | source | states |
|---|---|---|
| Text.NormaliseExactly | internal/radar/model.go:75-87 | Two texts have one normal form exactly when they are the same but for white space at the two ends and the case of letters |
| Text.TrimExactly | internal/auth/allow.go:20-36 | Trimming takes the six kinds of white space off both ends, all of it, and nothing else |
| Timestamps.ClockTicks | internal/radar/store.go:156 | From one second to the next the calendar carries as people count: lengths of minutes, hours, days, months and leap years |
| Timestamps.ParseFormat | internal/radar/store.go:191 | Stored RFC 3339 text parses back to its second exactly for years 0-9999, and not at all beyond |
| Timestamps.ParsesExactly | internal/radar/store.go:190-193 | A stored text parses exactly when it is the one the store writes for a second of years 0-9999, and as that second |
| Timestamps.TextOrderIsTimeOrder | internal/radar/store.go:165-173 | For years 0-9999, byte order of the text is order in time, and equal texts are equal seconds |
| Timestamps.TextOrderExactly | internal/radar/store.go:165-173 | A second sorts on the right side of every second of years 0-9999 if and only if it lies before or among them, or in a later year whose first four digits are 9999 |
| Timestamps.StampAfter | internal/radar/store.go:199-206 | Comparing a stored stamp with a clock reading as text agrees with comparing the times; the fraction does not matter |
| Timestamps.StampOrder | internal/radar/store.go:171-173 | Two stored stamps compare as the times they read back as |
| Keys.FingerprintInjective | internal/radar/model.go:81-87 | The hashed text determines normalised title, second and normalised location, whatever separators they contain |
| Keys.UidExactly | internal/radar/model.go:75-79 | Two entries have one uid exactly when source, entry, normalised title and second agree, for sources and entries without the separator; the location has no say |
| EventRows.TableRecordsWrites | internal/radar/store.go:147-153 | After any writes there is one row for each accepted fingerprint, made of its first and last accepted write |
| EventRows.UpsertKeepsRows | internal/radar/store.go:147-153 | Rows and their keys stay, both keys stay unique, an accepted write is stored under its fingerprint |
| EventRows.ReplayKeepsUnique | internal/radar/store.go:68-71 | uid and fingerprint are unique after any sequence of writes |
| Events.EventTableHistory | internal/radar/store.go:138-159 | The table is a map from (title, second, location) to the last accepted write, with uid and created_at of the first; each fingerprint is that of its row's contents |
| Events.RefusedExactly | internal/radar/store.go:147-159 | A write is refused if and only if its key is new and its uid is taken; a refusal changes nothing |
| Events.SameKeySameFingerprint | internal/radar/model.go:81-87 | Two events share a fingerprint exactly when they share the key |
| Events.ReplayKeepsCurrent | internal/radar/store.go:154-157 | Every row's fingerprint column is that of its current title, start and location |
| Events.EventRoundTrip | internal/radar/store.go:138-197 | An event written and read back is the same in every field, times to the second, defaults filled in |
| Events.UpcomingAreTheLaterOfAll | internal/radar/store.go:165-173 | After any writes of events of years 0-9999, UpcomingEvents returns exactly the AllEvents rows whose start second is not before the given one, both in order of time |
| Events.UpcomingExactly | internal/radar/store.go:165-167 | The query puts a start on the right side of every clock reading exactly for the starts that sort right as text |
| CandidateRows.MergeKeepsIntact | internal/radar/store.go:261-274 | Filling empty columns never mixes two verifications; a stored finding stays |
| CandidateRows.MergeIsAssociative | internal/radar/store.go:261-274 | Re-discoveries combine in any grouping, and repeating one changes nothing |
| CandidateRows.UpsertKeepsIntact | internal/radar/store.go:244-282 | An upsert of an intact row keeps every row of the table intact |
| Candidates.VerifyContract | internal/radar/gemini.go:73-83 | A verified lead has all six evidence fields and a future start; any other has none of them and is not marked verified |
| Candidates.VerifyExactly | internal/radar/gemini.go:193-265 | Verification succeeds exactly on a specific, complete page with a later start, and takes over what it says; otherwise it only marks the failure |
| Candidates.GateOpens | internal/radar/approval.go:104-124 | The gate opens exactly for a verified candidate with complete evidence and a later start |
| Candidates.GateNamesTheFirst | internal/radar/approval.go:104-124 | A refusal names the first of the eight conditions that fails, in their order |
| Candidates.CandidateRoundTrip | internal/radar/store.go:244-282 | A candidate stored and loaded is the same in every field, times to the second, defaults filled in |
| Candidates.WriteBackIsIdentity | internal/radar/store.go:348-361 | Writing a row back as it was loaded changes no column if and only if its times read back as they are stored |
| Candidates.StoredStart | internal/radar/store.go:284-289 | A start reads back from its column exactly when its UTC year is at most 9999; otherwise it reads as zero |
| Candidates.StableReload | internal/radar/store.go:284-289 | Loading a readable start column and formatting it again gives the column |
| Candidates.PruneByTime | internal/radar/store.go:199-206 | A row is pruned when it is verified, not approved, and has a start that has come |
| Review.RunKeepsPublished | internal/radar/store.go:378-401 | In every run, each approved row has an event row with the fingerprint of its current title, start and location |
| Review.ApprovedIsPublished | internal/radar/approval.go:43-61 | In every run, each approved candidate's event is in the table, with its start and normalised title and location |
| Review.ApprovalIsVisible | internal/radar/approval.go:43-61 | A committed approval leaves an event row with all the reviewed columns and the approved candidate, whether the event was new or known |
| Review.ApprovalStays | internal/radar/store.go:199-206 | A step ends an approval exactly when it writes back a rejection or restore of that candidate; no step removes the row |
| Review.EventsAreTheWrites | internal/radar/store.go:378-401 | In every run, the events table is what its accepted sync and approval writes make of an empty one, in order; failed approvals leave nothing |
| Review.MovedEventIsRefused | internal/radar/model.go:75-79 | Once an event is stored under its uid, the same entry at another place is refused after every continuation of the run, exactly as long as no other write has stored its own key |
| Review.EvidenceIsOneFinding | internal/radar/store.go:261-281 | In every run with storable starts, a row's six evidence columns are all empty or all from one verification, and a verified row has all six |
| Review.EvidenceHoldsExactly | internal/radar/store.go:348-361 | Verified starts from any set of times keep evidence in one piece in every run if and only if the UTC year of each is at most 9999 |
| Review.UnstorableStartBreaks | internal/radar/store.go:284-289 | The run that shows it: verified, loaded by a reviewer, rejected |
| Review.PruneHoldsExactly | internal/radar/store.go:199-206 | In every reachable state a prune deletes exactly the unapproved rows the gate refuses as past, and what stays is unchanged and, if verified and unapproved, passes the gate: for any set of verified starts, if and only if the UTC year of each is at most 9999 |
| Review.FarFutureIsPruned | internal/radar/store.go:203-204 | A run that shows it: a candidate verified for year 10000 is pruned years before, though the gate refuses it as having no start and never as past |
| Review.RunKeepsKeys | internal/radar/store.go:261 | In every run each row is stored under its own URL |
| Review.ReviewTouchesItsRow | internal/radar/approval.go:64-90 | In every run, a review that loaded a URL writes back to that URL and to no other row, whatever the table is by then |
| Review.LoadLosesNothing | internal/radar/store.go:403-445 | In every run whose times can be written and read back, a row loaded and written back is the same |
| Review.UpcomingInEveryRun | internal/radar/store.go:165-173 | In every run of syncs and reviews that writes events of years 0-9999, the upcoming events are the later ones of all, in order of time |
| ReviewEffects.ApprovalCommitsExactly | internal/radar/approval.go:43-61 | An approval commits if and only if the gate is open, the row is still there, and the event is known or new under a uid that no other event has |
| ReviewEffects.ApprovalWritesOneEvent | internal/radar/store.go:138-159 | It writes one event row with all the reviewer saw and no other; a new one gets the computed uid and the time of the write, a known one keeps both |
| ReviewEffects.ApprovalsHaveOwnUids | internal/radar/approval.go:51 | Approvals of one source share a uid only for one page, title and second |
| ReviewEffects.ReviewIsStored | internal/radar/store.go:344-361 | A review that commits changes its own row only: status, time and note of the review, the columns it had loaded, and the find that was there |
| ReviewEffects.VerdictChangesExactly | internal/radar/store.go:261-274 | Status, review time and note of a candidate change by a review that is written back to it and by nothing else while its row is there |
| ReviewEffects.VerdictStays | internal/radar/store.go:373-377 | So a verdict stays through every continuation of a run without another one for it, as long as the row does |
| ReviewEffects.PruneForgetsRejection | internal/radar/store.go:199-206 | A rejected candidate that was pruned starts over as pending when its page is found again |
| ReviewEffects.RediscoveryExactly | internal/radar/store.go:244-282 | A find changes its own row only: it brings its title, snippet, score and verification, fills what is empty, and leaves the verdict; a new one is pending |
| ReviewEffects.ReviewWritesWhatItLoaded | internal/radar/approval.go:64-90 | Whatever comes between its load and its write-back, a review stores what it had loaded with its verdict, over the find that is there by then, or nothing |
| Store.SQLiteStore.UpsertEvent | internal/radar/store.go:138-163 | Fails when the statement does or the row is refused; otherwise the table is the upsert's |
| Store.SQLiteStore.UpsertCandidate | internal/radar/store.go:244-282 | Inserts the row or merges it column by column |
| Store.SQLiteStore.UpdateCandidate | internal/radar/store.go:348-366 | Overwrites the row; a missing row affects none and is no error |
| Store.SQLiteStore.Publish | internal/radar/store.go:378-401 | Both writes or neither, whatever part of the transaction fails; a vanished candidate is told from other failures |
| Store.SQLiteStore.PruneCandidates | internal/radar/store.go:199-206 | Deletes the prunable rows and no others |
| Store.SQLiteStore.Candidate | internal/radar/store.go:403-445 | Loads exactly the rows whose optional times parse; missing, unreadable and failed are told apart |
| Store.SQLiteStore.UpcomingEvents | internal/radar/store.go:165-197 | The selected rows decoded in their order; in order of time, none before the given second |
| Store.SQLiteStore.AllEvents | internal/radar/store.go:171-197 | Every stored event, in order of time |
| Store.QueryEvents | internal/radar/store.go:175-197 | The row loop decodes every row, in order |
| Store.ApproveLoaded | internal/radar/approval.go:48-61 | The half of an approval after the load does the write-back step of module Review, on whatever state it meets |
| Store.ApproveCandidate | internal/radar/approval.go:43-61 | Undisturbed, it is the load and the write-back step; unless it reports success it changes nothing |
| Store.UpdateLoaded | internal/radar/approval.go:69-73 | The half of a rejection or restore after the load is the write-back step |
| Store.RejectCandidate | internal/radar/approval.go:64-75 | Undisturbed, it is the load and the write-back step of a rejection |
| Store.RestoreCandidate | internal/radar/approval.go:79-90 | The same for a restore |
| FanOut.ReturnsSequential | internal/radar/radar.go:121-144 | Every schedule that returns has computed the sequential map over the first eight, each index that needs it written once, the others untouched |
| FanOut.AtMostThree | internal/radar/radar.go:128-141 | At most three verifications are in flight in every reachable state |
| FanOut.ThreeAtOnce | internal/radar/radar.go:128-141 | And for three candidates that need it, some schedule has all three in flight |
| FanOut.NeverStuck | internal/radar/radar.go:128-142 | Every reachable state that has not returned has an enabled step |
| FanOut.RunsAreBounded | internal/radar/radar.go:128-142 | Every schedule has at most eight steps a candidate and two more |
| FanOut.CanComplete | internal/radar/radar.go:128-142 | Any schedule so far extends to one that returns |
| FanOut.Execute | internal/radar/radar.go:121-144 | Stepping the goroutines along any complete schedule yields the sequential result |
| Sync.VerifyCandidates | internal/radar/radar.go:121-144 | Without a verifier all candidates unchanged; with one, the sequential result under any schedule |
| Sync.AttemptsStoreVerified | internal/radar/radar.go:104-109 | A sync stores exactly what verification returned, in its order |
| Sync.SyncSource | internal/radar/radar.go:62-110 | One turn of the source loop: its batch on the tables, and the number of its failures |
| Sync.SyncSources | internal/radar/radar.go:62-111 | The loop: one batch a source, in order |
| Sync.RunSync | internal/radar/radar.go:56-116 | A sync is a prune followed by the batches in order; a failed prune ends it |
| Sync.NilExactly | internal/radar/radar.go:112-115 | The result is nil exactly when every attempted operation succeeded and every enabled source not named a discovery source answered |
| Sync.BatchTouches | internal/radar/radar.go:64-97 | A source touches no health row but its own, and if disabled, failing or unsaved it touches nothing else |
| Sync.IdleSourceIsInvisible | internal/radar/radar.go:64-97 | Such a source leaves what all other sources do, and their failures, as if it were not there |
| Sync.HealthTellsEachTurn | internal/radar/store.go:208-215 | After a sync a health row tells the last saved turn of its source; the rows of others are as before |
| SyncEffects.SyncStoresExactly | internal/radar/radar.go:99-103 | After a sync that returned nil an event's key is stored exactly when it was before or an enabled source that answered handed it over |
| SyncEffects.SyncStoresNothingElse | internal/radar/radar.go:99-103 | Whatever a sync returns, it loses no event and stores none that was not handed over |
| SyncEffects.SyncFilesExactly | internal/radar/radar.go:104-109 | After a sync the candidates are those the prune left and one for each find that verification handed on and whose statement went through |
| SyncEffects.NilFilesAll | internal/radar/radar.go:104-109 | After a sync that returned nil every candidate that verification handed on is in the table: all of them, or the first eight of each source when there is a page check |
| SyncEffects.VerifiedOneByOne | internal/radar/radar.go:121-144 | What verification hands on, find by find: checked if it has no start yet and there is a page check, else as it was found |
| SyncEffects.HealthIsTold | internal/radar/radar.go:64-97 | The health row of a source says disabled, healthy, degraded for a failing source with "discovery" in its name, or error |
| SyncEffects.NilMeans | internal/radar/radar.go:84-115 | A sync returns nil exactly when all it attempted succeeded and every enabled source without "discovery" in its name answered |
| SyncEffects.ResultCounts | internal/radar/radar.go:112-115 | Otherwise it reports as many failures as statements and sources failed |
| Sync.SyncIsARun | internal/radar/radar.go:56-116 | What a sync leaves after any run is that run extended by the sync's steps |
| Sync.SyncsKeepPublished | internal/radar/radar.go:41-43 | However reviews fall between the statements of successive syncs, every approved candidate has its event, at every moment |
| Sync.SyncsKeepEvidence | internal/radar/radar.go:41-43 | And if the page checks find no start beyond year 9999, every candidate's six evidence columns are all empty or all from one verification, and a verified one has all of them |
| Sync.MovedEventFailsSync | internal/radar/radar.go:99-103 | A sync that comes to an event which its feed has moved to another place does not return nil, unless something else has stored the moved event's key |
| IcsText.PassesAreOnePass | internal/radar/output.go:39-43 | The four replacement passes are one byte-by-byte pass |
| IcsText.UnescapeEscape | internal/radar/source.go:429-432 | Unescaping undoes escaping for every text |
| IcsText.EscapedIsPlain | internal/radar/output.go:39-45 | An escaped text has no line feed, whatever the text; carriage returns are neither made nor lost |
| IcsText.UnfoldIcs | internal/radar/source.go:329-341 | The line loop: continuations joined to the line before, within the scanner's limit |
| IcsText.LinesReach | internal/radar/source.go:329-341 | Joined lines without line feeds are scanned up to the first that is too long, each but for a last carriage return |
| IcsText.LinesSurvive | internal/radar/source.go:329-341 | Within the limit, all of them are |
| IcsText.UnfoldInvertsFolding | internal/radar/source.go:329-341 | Unfolding undoes folding exactly when no continuation begins with a blank of its own |
| IcsLines.ParseLines | internal/radar/source.go:296-327 | The component state machine, line by line, with its error return |
| IcsLines.PropertyReadBack | internal/radar/source.go:343-364 | A printed property line splits into its key and value and is never a component frame |
| IcsLines.ComponentReadBack | internal/radar/source.go:300-325 | A printed component is rebuilt from the map of its properties |
| IcsLines.OutsideLines | internal/radar/source.go:317-320 | Lines outside a component change nothing |
| Feed.ParseIcs | internal/radar/source.go:296-327 | Parsing is unfolding, the state machine and event building together |
| Feed.WriteIcs | internal/radar/output.go:39-45 | Appends the property line with its value escaped |
| Feed.WriteEvent | internal/radar/output.go:22-33 | Appends the properties of the event in order, the URL only when there is one |
| Feed.RenderIcs | internal/radar/output.go:17-37 | The text is the header, one component an event in order, and the end, joined by line breaks |
| Feed.FeedIsCalendar | internal/radar/output.go:17-37 | The lines are a calendar with the version, product and names that section 3.6 of RFC 5545 and readers ask for |
| Feed.FeedHasEvent | internal/radar/output.go:18-33 | Every event is a component with all its lines, between those of the events before and after it, and its description names the source |
| RoundTrip.DateReadBack | internal/radar/source.go:393-413 | A printed time parses to its second, whatever zones are known |
| RoundTrip.EventReadBack | internal/radar/source.go:366-391 | A printed and scanned component builds the event again, or is dropped exactly when it has no title or a zero start |
| RoundTrip.FeedReadBack | internal/radar/output.go:17-37 | Parsing a rendered feed gives, in order and up to the first overlong line, one event for each with a title and a start, in every field, but for a carriage return at the very end of a text |
| RoundTrip.FeedRoundTrip | internal/radar/source.go:296-391 | No event is lost, added or moved, and title, location, status, times to the second, uid, description and URL are recovered, if and only if there is no event, or no line is too long and no uid, title, location or URL ends in a carriage return |
| ForeignFeed.ZonedDateReadBack | internal/radar/source.go:393-413 | A time with a zone is read as the instant whose local time it is |
| ForeignFeed.ZonedEventReadBack | internal/radar/source.go:296-413 | A published event with a zoned start, from its text to the event: it starts at that instant and lasts two hours when no end is given |
| ForeignFeed.PlainDateReadBack | internal/radar/source.go:407-411 | A day alone is its midnight in UTC, a time without zone is in UTC |
| ForeignFeed.FirstZoneCounts | internal/radar/source.go:355-362 | The first TZID parameter counts, in whatever case, whatever parameters stand before it |
| ForeignFeed.MissingProperties | internal/radar/source.go:366-391 | What an event gets for a missing end, link, identity or status |
| ForeignFeed.InvalidStartFails | internal/radar/source.go:307-311 | One event with an unreadable start makes the whole feed an error |
| ForeignFeed.LfIsEnough | internal/radar/source.go:330 | A feed with line feeds only is scanned like one with carriage returns |
| ForeignFeed.LastLineNeedsNoBreak | internal/radar/source.go:329-341 | A last line without a break is scanned too, unless it is too long |
| ForeignFeed.UnescapeByPairs | internal/radar/source.go:429-432 | The five escapes, and any other backslash standing for itself |
| Dedupe.FirstOfEachIsFirsts | internal/radar/gemini.go:57-66 | What is kept stands in order, each the first with its key, no key twice, no valid key missing |
| Dedupe.Compact | internal/radar/gemini.go:57-66 | The in-place loop overwrites nothing unread and leaves the first of each key |
| Discovery.FetchGemini | internal/radar/gemini.go:38-69 | Fails exactly when enabled and a query failed; otherwise the first find of each canonical URL, nothing verified or reviewed if the queries found it so |
| Discovery.FetchSearx | internal/radar/source.go:84-158 | The first forty relevant finds, one for each canonical URL, across usable replies, nothing verified or reviewed; fails exactly when there is none and something was wrong |
| Discovery.SearxPicks | internal/radar/source.go:84-158 | Hit by hit: at most forty, each made of the first relevant hit with its URL, in order; with fewer than forty no such URL is missing |
| Discovery.TakeHits | internal/radar/source.go:139-152 | One reply's hits, up to the limit |
| Discovery.LimitReached | internal/radar/source.go:149-151 | Stopping at the limit gives what reading on would give |
| Discovery.RecordsFailure | internal/radar/source.go:134-138 | Whether an unresponsive engine was named |
| Numerals.Itoa | internal/radar/http.go:283-296 | The decimal numeral of every non-negative 64-bit value, within the buffer; empty for negative ones |
| Numerals.Room | internal/radar/http.go:288-293 | The buffer index stays positive while digits remain, and the digits written at the end are the numeral |
| Numerals.DecimalIsTheNumeral | internal/radar/http.go:283-296 | The result is the one numeral without leading zeros whose value is the input |
| Allowlists.NewAllowlist | internal/auth/allow.go:16-40 | Each list keeps exactly its non-empty entries in compared form |
| Allowlists.PermitsExactly | internal/auth/allow.go:41-57 | A configured subject, or a verified address that is listed or whose part after the first @ is; nobody when nothing is configured |
| Sessions.SweepingIsInvisible | internal/auth/session.go:53-90 | Every sequence of requests gets the same responses from the sweeping store as from one that never sweeps |
| Sessions.HandlersAgree | internal/auth/auth.go:234-254 | For one request: the same response, and tables that differ in expired rows only |
| Sessions.SessionLifetime | internal/auth/auth.go:312-335 | After a completed callback and any later logins, callbacks, logouts and reads, the new id answers with the provider's identity exactly until eight hours have passed or it is logged out, and never when no subject was named |
| Sessions.LookupLaws | internal/auth/session.go:53-84 | A created row is found under its id and a deleted one is not; no id is used twice while its row lasts; other rows only go once they have expired |
| LoginFlow.LoginSends | internal/auth/auth.go:192-213 | The cookie names the stored row, and the provider gets its state, nonce and verifier; the row is good for ten minutes |
| LoginFlow.LoginCompletes | internal/auth/auth.go:221-335 | When the browser comes back in time with cookie and state and the token has the nonce of a permitted identity, then, whatever came in between, the callback sets a new cookie for eight hours and returns to where the login was asked from |
| LoginFlow.OnlyPermittedGetIn | internal/auth/auth.go:221-335 | And only then |
| LoginFlow.CallbackRefusals | internal/auth/auth.go:240-265 | How a callback is answered for an expired row, a signed-in operator, a wrong state and an error of the provider, and what becomes of the row |
| LoginFlow.RefusedIdentity | internal/auth/auth.go:266-311 | A token that does not fit and an identity that is not permitted are told apart, and the login row is gone either way |
| LoginFlow.LogoutExactly | internal/auth/auth.go:341-358 | What a logout answers and deletes |
| Provenance.SessionIsEarned | internal/auth/auth.go:254-325 | In every run, an authenticated row traces to one login row, gone by then, matched on non-empty state and nonce, for a permitted identity |
| Provenance.LoginsAreSingleUse | internal/auth/auth.go:267-272 | With handlers one after another, no login row yields two completed callbacks |
| CallbackSteps.SessionIsEarned | internal/auth/auth.go:229-325 | However callbacks overlap, a session row comes from a login row that is gone and for whose nonce the provider issued a token to somebody permitted |
| CallbackSteps.SingleUseExactly | internal/auth/auth.go:229-325 | For any set of logins whose codes the provider may redeem twice: in every overlapping of callbacks a login yields at most one session, if and only if the set is empty |
| CallbackSteps.AloneIsTheHandler | internal/auth/auth.go:221-337 | With nothing in between, the four steps of a callback do what the handler does |
| Provenance.PhasesAreDisjoint | internal/auth/session.go:18-34 | No row has both a state and a user; every stored return path is on this site |
| Provenance.RedirectsStayOnSite | internal/auth/auth.go:333-334 | Every redirect of a handler after any run is to a path on this site |
| Provenance.SanitizedIsSameSite | internal/auth/auth.go:159-167 | Sanitising gives a same-site path, keeps exactly those it is given, and makes /admin of anything else |
| Auth.SessionStore.Insert | internal/auth/session.go:53-63 | Sweeps, whether that succeeds or not, then inserts unless the statement fails or the id is in use |
| Auth.SessionStore.Remove | internal/auth/session.go:81-84 | If the statement succeeds the row is gone and all others stay |
| Auth.SessionStore.SweepRows | internal/auth/session.go:87-90 | If the statement succeeds, exactly the rows whose expiry second lies before the current one are gone |
| Auth.Handlers.LoginHandler | internal/auth/auth.go:186-215 | Does the login transition of module Sessions on the table and answers as it does |
| Auth.Handlers.CallbackHandler | internal/auth/auth.go:221-337 | The same for the callback, branch by branch, with failing lookups, deletes and inserts |
| Auth.Handlers.LogoutHandler | internal/auth/auth.go:341-358 | The same for the logout, with and without an authenticator |
| Auth.Handlers.CurrentSession | internal/auth/auth.go:101-123 | The session of an authenticated, unexpired row, or none |

## Left out

- HTTP clients, JSON decoding, prompts, SMTP, HTML, metrics, routes and cookie attributes; `verify` enters by the checks it makes on an answer already decoded.
- Configuration, telemetry, the command line, schema migration and the digest (`BuildDigest`, deliveries): straight-line code.
- The listing queries `Candidates` and `CandidateCounts`, reading the health table, `filterByLocation`, and the AI Tinkerers source: they would only add easy members.
- `canonicalURL` and `relevanceScore`: functions given to the model, an empty URL meaning an invalid one.
- SHA-256: a digest is represented by the text that is hashed, so collisions, and the cut of uids to twelve bytes, are not modelled.
- Case folding and white space beyond ASCII: the model lower-cases and trims bytes.
- Time zones: a TZID names a fixed UTC offset; daylight saving is not modelled.
- Leniency of Go's time parser beyond the layouts themselves (fractional seconds, and RFC 3339 offsets, which the store never writes).
- Line breaks in the branding, and events without a uid, title or start or outside years 0-9999: outside the domain of the feed round trip, though inside that of the parser's own members.
- Event statuses other than CONFIRMED and TENTATIVE: no source produces any.
- The order SQLite gives rows with equal start text: left open, any order is allowed.
- The wording of a verification error for a start that does not parse: one text stands for all.
- Store.SQLiteStore.UpcomingEvents: the engine's answer to the query is an input constrained to be an ordered selection; its completeness, and that the stored starts are in range, are Events.UpcomingAreTheLaterOfAll and Review.UpcomingInEveryRun.
- Store.SQLiteStore.AllEvents: likewise.
- Sync.RunSync: runs undisturbed; reviews between its statements are the subject of Sync.SyncsKeepPublished and Sync.SyncsKeepEvidence. The verifier is a function of the candidate, and the scheduler's choices are an input.
- FanOut.Execute: the schedule is given; that one always exists is FanOut.CanComplete.
- Discovery.TakeHits: the inner loop of the search is a method of its own, and the map of seen URLs is the set of keys of what was kept.
- Provenance.LoginsAreSingleUse: handlers are single steps here; overlapping ones are the subject of CallbackSteps.SingleUseExactly.
- CallbackSteps.SingleUseExactly: statements do not fail in that module; a code is identified with the nonce its token carries.
- Numerals.Itoa: digits are characters, not a byte array converted at the end.
