# Mood diary core, modelled in Dafny

This project models the core of a single-session mood-diary service. Users register or log in by
name. They record one mood per calendar date and ask for month-scoped reports. The HTTP layer is
removed. Each handler becomes a method of a `Handler` class that takes already-parsed arguments.
It updates the shared `App` state in place and returns the kind of response it would send.

Modules, one per source file or component:

- `Models` (`models.dfy`): the five mood labels and `ValidMoods`, the twelve `Months`, the
  `MoodEntry` and `User` values, and the `App` class. `App` holds `users: map<string, User>` and
  the active user as an `Option<User>` copy of a directory record.
- `Storage` (`storage.dfy`): the validation rules on a fixed non-leap calendar, `GetUser` and
  `UpdateUser`.
- `Entries` (`entries.dfy`): the first-match lookup and the date-keyed upsert that `AddEntry` and
  `ViewEntry` perform, stated as reference functions. Lemmas cover the invariant "at most one entry
  per (month, day)".
- `Reports` (`reports.dfy`): the reference counts behind `GeneralReport` and `MoodReport`, and
  the lemmas relating them.
- `Handlers` (`handlers.dfy`): the `Response` kinds, the `Handler` class with one method per
  handler, and the directory invariant `Valid()`. `Valid()` requires non-empty names that match
  their records and well-formed entries with unique dates. It also requires that the active user
  equals its directory record. Every mutating handler keeps `Valid()`. A client method `Session`
  drives a short session through the contracts alone.

Each loop of the source stays a loop. The search in `IsValidMood`, the upsert loop with its
`found` flag and `break`, the lookup loop and the two counting loops are each proved against a
reference function. The properties are proved about those functions.

In these points the model follows the code:

- Every username request body carries gin's `binding:"required"`, and an empty string fails that
  rule. `Register`, `Login` and `SwitchUser` therefore answer an empty name with
  `BadRequest(MalformedRequest)`. The explicit empty-name branch of `Register` cannot be reached.
- The general report is a plain map from mood to count. The source sorts the moods and then
  rebuilds a Go map, which holds no order. The client still receives the counts sorted by mood
  label, because Go's JSON encoder writes map keys in sorted byte order, the same order
  `sort.Strings` gives. The sort step has no effect of its own, and a Dafny `map` loses nothing
  that the response shows.
- The active user is held as a copy of the directory record, as the pointer to a copied struct
  does in the source. It is not held as a reference by name. `Valid()` states that the copy equals
  the record.
- A failed snapshot write is reported as `SaveFailed` after the in-memory change. Nothing is
  rolled back.

## Model

| member | source | states |
|---|---|---|
| `Models.ValidMoodsAreTheFiveLabels` | mood-tracker-api/models/models.go:4-12 | `ValidMoods` has five pairwise distinct labels, and a string is in it iff it is one of the five mood constants |
| `Models.MonthsAreTwelve` | mood-tracker-api/models/models.go:15-18 | `Months` has exactly twelve pairwise distinct names |
| `Models.App.constructor` | mood-tracker-api/models/models.go:34-37 | a fresh state holds the loaded directory and has no active user |
| `Storage.DaysInMonth` | mood-tracker-api/storage/storage.go:43-52 | result is 28, 30 or 31. It is 28 iff the month is 2 and 30 iff the month is 4, 6, 9 or 11, so every other int, out-of-range ones included, gets 31 |
| `Storage.YearHas365Days` | mood-tracker-api/storage/storage.go:43-52 | the twelve month lengths add up to a 365-day non-leap year |
| `Storage.IsValidMonth` | mood-tracker-api/storage/storage.go:55-57 | a month is valid iff it indexes the twelve-entry `Months` table (1 ≤ m ≤ 12) |
| `Storage.IsValidDay` | mood-tracker-api/storage/storage.go:60-63 | valid iff 1 ≤ day ≤ `DaysInMonth(month)`, and a valid day is always within 1..31 whatever the month |
| `Storage.IsValidDayExamples` | mood-tracker-api/storage/storage.go:43-63 | 29 February and 31 April are invalid, 30 April is valid, 31 is accepted for an out-of-range month and day 0 is rejected |
| `Storage.IsValidMood` | mood-tracker-api/storage/storage.go:66-73 | the search loop answers true iff the mood exactly equals an element of `ValidMoods`, i.e. one of the five labels |
| `Storage.GetUser` | mood-tracker-api/storage/storage.go:76-79 | `exists` iff the name is a key; when it exists the copy equals the stored record, otherwise it is the zero user |
| `Storage.UpdateUser` | mood-tracker-api/storage/storage.go:82-84 | the directory maps the user's name to the given record afterwards; every other key reads as before; the active user is not touched |
| `Entries.IndexOf` | mood-tracker-api/handlers/handlers.go:116-122 | the result is the position of an entry on (month, day) with no such entry before it, and it is absent iff no entry has that date |
| `Entries.Find` | mood-tracker-api/handlers/handlers.go:174-185 | a found entry is the one at `IndexOf`'s first-match position, so it is in the sequence and on the requested date; nothing is found iff no entry has that date |
| `Entries.FindUnique` | mood-tracker-api/handlers/handlers.go:174-185 | with unique dates, lookup returns `e` iff `e` is an entry of the sequence on the requested date |
| `Entries.Upsert` | mood-tracker-api/handlers/handlers.go:114-129 | reports an update iff some entry already has the date; the length is kept on update and grows by one otherwise |
| `Entries.UpsertSpec` | mood-tracker-api/handlers/handlers.go:114-129 | when a date match exists, only the first match changes and only its mood, so length and order are kept. Otherwise exactly one entry is appended at the end |
| `Entries.UpsertThenFind` | mood-tracker-api/handlers/handlers.go:114-129 | after the upsert, looking up the date yields the entry with the new mood |
| `Entries.UpsertKeepsOtherDates` | mood-tracker-api/handlers/handlers.go:114-129 | lookups of every other date give the same answer before and after the upsert |
| `Entries.UpsertAddsOnly` | mood-tracker-api/handlers/handlers.go:114-129 | every entry after the upsert was already present or is the requested (day, month, mood) entry |
| `Entries.UpsertKeepsUniqueDates` | mood-tracker-api/handlers/handlers.go:114-129 | the upsert preserves "no two entries share (month, day)" |
| `Entries.UpsertKeepsWellFormed` | mood-tracker-api/handlers/handlers.go:104-129 | validated input keeps every entry a real date with a known mood and keeps dates unique |
| `Entries.UpsertTwice` | mood-tracker-api/handlers/handlers.go:114-129 | upserting the same (day, month, mood) a second time changes nothing and reports an update |
| `Reports.CountMonth` | mood-tracker-api/handlers/handlers.go:207-212 | the number of entries in a month never exceeds the number of entries |
| `Reports.CountMonthMood` | mood-tracker-api/handlers/handlers.go:266-271 | the count for one mood in a month never exceeds the month's entry count |
| `Reports.MoodsInMonth` | mood-tracker-api/handlers/handlers.go:207-212 | every mood of an entry dated in the month is in the set; with `CountPositive` the set holds exactly the moods counted at least once, the key set of `counts` |
| `Reports.MonthCounts` | mood-tracker-api/handlers/handlers.go:207-212 | the reference value of `counts`: its keys are the moods that occur in the month, and every value is at least 1 and at most the month's entry count |
| `Reports.CountPositive` | mood-tracker-api/handlers/handlers.go:207-212 | a mood's count is positive iff the mood occurs in that month |
| `Reports.MonthCountsSpec` | mood-tracker-api/handlers/handlers.go:207-212 | the general report has a key iff that mood's count is positive, and each value equals the mood report's count |
| `Reports.MonthCountsEmpty` | mood-tracker-api/handlers/handlers.go:207-220 | the report is empty iff the month's entry count is zero iff no entry is dated in the month |
| `Reports.MonthCountsMeaning` | mood-tracker-api/handlers/handlers.go:207-220 | the report is empty iff no entry is dated in the month, and every mood reads as its count in that month (absent keys as zero) |
| `Reports.MonthCountsAppend` | mood-tracker-api/handlers/handlers.go:208-211 | one more entry in the month adds one to its mood's count, creating the key at one; an entry of another month changes nothing |
| `Reports.ReportTotal` | mood-tracker-api/handlers/handlers.go:207-212 | when every mood is among the listed distinct labels, the report's counts over them sum to the month's entry count |
| `Reports.JuneReportExample` | mood-tracker-api/handlers/handlers.go:207-232 | entries (1,6,sad), (2,6,sad), (3,6,happy) give exactly {sad: 2, happy: 1} for June |
| `Handlers.EntryBinds` | mood-tracker-api/handlers/handlers.go:94-101 | a body that passes the binding tags always has a valid month, and every real date with a known mood passes them |
| `Handlers.Directory` | mood-tracker-api/storage/storage.go:76-84 | the directory invariant: no record is stored under the empty name, and an active user has a non-empty name and well-formed entries with one entry per date |
| `Handlers.EmptyDirectoryValid` | mood-tracker-api/storage/storage.go:12-17 | the state after loading finds no snapshot (no users, no active user) satisfies the directory invariant |
| `Handlers.ActiveReportTotal` | mood-tracker-api/handlers/handlers.go:207-212 | in a state that keeps the invariant, the active user's general-report counts over the five labels add up to the month's entry count |
| `Handlers.Handler.constructor` | mood-tracker-api/handlers/handlers.go:18-20 | the handler works on the given application state, and over the empty loaded state it starts out satisfying `Valid()` |
| `Handlers.Handler.Valid` | mood-tracker-api/storage/storage.go:76-79 | under the invariant, no record is stored under the empty name, and the active user is exactly what `GetUser` returns for its name |
| `Handlers.Handler.Register` | mood-tracker-api/handlers/handlers.go:23-61 | an empty name gives BadRequest and an existing name gives Conflict, and neither changes anything. Otherwise exactly one key is added, mapped to a user with no entries, who becomes active. Existing records are untouched. Created, or SaveFailed after the change. `Valid()` is kept |
| `Handlers.Handler.Login` | mood-tracker-api/handlers/handlers.go:64-84 | the directory is never written. A stored name becomes active with its stored record. An absent name gives NotFound and an empty one BadRequest, and neither changes the active user. `Valid()` is kept |
| `Handlers.Handler.SwitchUser` | mood-tracker-api/handlers/handlers.go:294-313 | the same transition as Login, with its own success response |
| `Handlers.Handler.AddEntry` | mood-tracker-api/handlers/handlers.go:87-144 | the checks run in order: no active user gives Unauthorized, then the binding limits, then the day in its month, then the mood. Each rejection changes nothing. On success the active user's entries are the upsert of the old ones, and the directory record equals the new active user. The response is Updated or Created by the upsert's flag, or SaveFailed. `Valid()` is kept |
| `Handlers.Handler.ViewEntry` | mood-tracker-api/handlers/handlers.go:147-186 | Unauthorized, then month check, then day check; on valid input the first entry on the date, or NotFound; a found entry is on that date and, under `Valid()`, belongs to the directory record |
| `Handlers.Handler.GeneralReport` | mood-tracker-api/handlers/handlers.go:189-238 | Unauthorized, then the month check. NoEntries iff no entry of the active user is in the month, otherwise the reference counts. Each mood's reported value is its count in that month. Under `Valid()` the counts of the five labels add up to the month's entry count |
| `Handlers.Handler.MoodReport` | mood-tracker-api/handlers/handlers.go:241-278 | Unauthorized, then an empty mood, then an unknown mood, then the month. The mood is checked before the month. The result is the count of entries with that month and mood, 0 when there are none, and it agrees with the general report |
| `Handlers.Handler.GetAllEntries` | mood-tracker-api/handlers/handlers.go:281-291 | Unauthorized without an active user, otherwise its name and entries, which under `Valid()` are the directory record's |
| `Handlers.Handler.GetCurrentUser` | mood-tracker-api/handlers/handlers.go:316-326 | Unauthorized without an active user, otherwise its name and entry count, which under `Valid()` is the directory record's |

## Left out

- `storage.Load` and `storage.Save` (mood-tracker-api/storage/storage.go:12-40) read and write a
  JSON file. The loaded directory is the argument of `App`'s constructor. Each write's outcome is
  the `saveOk` argument of `Register` and `AddEntry`. The file's contents and the save/load round
  trip are not modelled.
- JSON body decoding beyond the binding rules, query-string presence, and `strconv.Atoi` parsing
  are left out. The handlers receive integers and strings, so a missing or non-numeric month or day
  cannot be expressed. `MoodReport`'s empty-mood check is kept.
- HTTP status codes and the message texts are left out. Only the response kind and the bad-request
  reason are kept.
- The sort-and-rebuild step of `GeneralReport` (mood-tracker-api/handlers/handlers.go:223-232)
  and the JSON encoder's key order are not modelled. The model reports the counts map directly.
- The `Test` endpoint and `main.go` are not modelled. They return fixed data and contain no logic.
- Concurrency is not modelled. The source shares one unsynchronised `App` across requests, and
  the model runs one handler at a time.
- Go slice aliasing is not modelled. The active-user copy and the directory record share one
  backing array, and `AddEntry` writes into it in place. The model works on sequence values. When
  every key equals its record's username, which `Valid()` requires, both copies end with the same
  contents because the handler writes the user back under that name.
- Handlers.Handler.AddEntry: does not model aliasing through a mismatched key. A loaded snapshot
  may store a record under a key other than its username (`Load` accepts any map). After `Login` by
  that key, `AddEntry`'s in-place mood change also reaches the record under
  the login key, because the record shares its backing array with the active copy. The model does
  not show this: `AddEntry` leaves the record under the login key as it was and writes only the
  record under the username.
- Go's 64-bit `int` is modelled as an unbounded integer. No handler does arithmetic that could
  wrap, except a count above 2^63 entries.
