# pacific-div schedule and storage core, in Dafny

This project models the server-side data layer and the schedule page of the
Pacificon conference-companion app:

- **Retry and error classification** (`server/dbUtils.ts`).
  - Which thrown values count as database connection errors.
  - The `withRetry` loop with linear backoff.
  - `handleDatabaseError`, which wraps any failure in a `DatabaseError`.
  - A database operation is modelled by what each of its calls does (module
    `DbUtils`). The loop records the calls it made and the delays it asked
    for; it does not sleep.
- **The storage façade** (`server/storage.ts`).
  - `DatabaseStorage` is a class whose fields are the tables, held as
    sequences of rows.
  - Its getters are functions of those fields; its writers are methods that
    append to, patch or delete from them.
  - Every accessor takes a fault script: the values its first calls throw.
    Its result is what the retry loop and the catch block make of that script
    (module `Queries`).
  - `seedDatabase` is modelled with its two guarded phases and the sample
    rows it inserts (module `DatabaseSeed`).
- **The schedule seeder** (`server/seedScheduleData.ts`).
  - `parseTimeRange` is modelled on top of JavaScript's `split` and `trim`
    (module `Text`).
  - The nested loops that flatten the per-day forum and event tables into
    session rows, the guard that makes the seeder run once, and the single
    insert (module `SeedSchedule`).
- **The schedule page** (`client/src/pages/SchedulePage.tsx`).
  - The day lookup and the case-insensitive search filters behind its three
    tabs.
  - Whether a session is drawn as bookmarked.
  - The action a click on a bookmark button chooses (module `SchedulePage`).

Modules `Wrappers`, `Text`, `Seqs` and `Schema` hold the shared vocabulary:
`Option`/`Result`, JavaScript's string operations and array methods, and the
table records. Generated primary keys are the decimal rendering of a counter
(`Schema.KeyOf`). Timestamps are integers, in milliseconds.

## Model

| member | source | states |
|---|---|---|
| `DbUtils.DefaultIsNotConnection` | server/dbUtils.ts:3-12 | a DatabaseError built without a flag is not a connection error and keeps the given cause |
| `DbUtils.IsDatabaseConnectionError` | server/dbUtils.ts:14-30 | only a thrown `Error` can be a connection error, and only one whose message is at least as long as the shortest marker, "socket" |
| `DbUtils.ConnectionErrorIffMarker` | server/dbUtils.ts:14-30 | a thrown value is a connection error exactly when it is an Error whose lower-cased message contains one of the nine markers |
| `DbUtils.NonErrorIsNotConnection` | server/dbUtils.ts:14-29 | a thrown value that is not an Error is never a connection error, whatever its text |
| `DbUtils.ClassificationIgnoresCase` | server/dbUtils.ts:16 | two messages that agree after lower-casing are classified alike |
| `DbUtils.TerminatedMarkerRedundant` | server/dbUtils.ts:18-26 | a message containing "connection terminated" already contains "connection", so the last marker never changes the verdict |
| `DbUtils.RetryFrom` | server/dbUtils.ts:44-77 | from a given attempt on, no call is made exactly when the attempts are already used up, and a returned value is what the last call made returned |
| `DbUtils.Retry` | server/dbUtils.ts:44-77 | the operation is never called exactly when maxRetries is below 1, and a value is returned only as the result of the last call made |
| `DbUtils.GiveUp` | server/dbUtils.ts:72-76 | once the attempts run out, the flagged DatabaseError carrying the last error is what the retry policy prescribes |
| `DbUtils.WithRetry` | server/dbUtils.ts:44-77 | the loop over attempts returns the result, the number of calls and the requested delays that the retry policy `Retry` prescribes for the same operation |
| `DbUtils.Attempt` | server/dbUtils.ts:52-69 | one pass of the loop body either ends the run with the operation's value or non-connection error, or records the connection error and the delay `delayMs * attempt` (none after the last attempt) before the remaining attempts |
| `DbUtils.Backoff` | server/dbUtils.ts:66-68 | the waits requested before attempt k+1 are `delayMs * 1 .. delayMs * k`: linear backoff |
| `DbUtils.RetryStep` | server/dbUtils.ts:55-68 | a connection failure on attempt k is recorded as the last error and followed by the wait `delayMs * k` unless k is the last attempt, then the next attempt |
| `DbUtils.RetryStops` | server/dbUtils.ts:53-59 | a success, or a failure that is not a connection error, ends the run after exactly that call with no wait |
| `DbUtils.RetryAfterFailures` | server/dbUtils.ts:51-68 | after k < maxRetries connection failures the loop has made k calls and waited `delayMs * 1 .. delayMs * k`, and continues with attempt k+1 carrying the k-th failure |
| `DbUtils.RetryReturnsFirstSuccess` | server/dbUtils.ts:51-53 | the first success is returned after exactly the calls before it, and no further call is made |
| `DbUtils.RetryImmediateSuccess` | server/dbUtils.ts:53 | a first call that succeeds is the only call, with no delay |
| `DbUtils.RetryRethrowsPermanentError` | server/dbUtils.ts:55-59 | a non-connection error is rethrown unchanged, with no further call and no further wait |
| `DbUtils.RetryExhausted` | server/dbUtils.ts:51-76 | when every attempt fails with a connection error, the operation is called exactly maxRetries times, waits `delayMs * 1 .. delayMs * (maxRetries - 1)`, and a DatabaseError flagged as a connection error carrying the last failure is thrown |
| `DbUtils.RetryNoAttempts` | server/dbUtils.ts:51-76 | with maxRetries <= 0 the operation is never called and the flagged DatabaseError has no cause |
| `DbUtils.RetryBounds` | server/dbUtils.ts:51-70 | every run makes at most maxRetries calls and requests one delay fewer than it makes calls |
| `DbUtils.HandleDatabaseError` | server/dbUtils.ts:79-90 | the thrown DatabaseError carries its cause, is flagged exactly when the cause is a connection error, and its message is "Database temporarily unavailable during <op>" or "Database error during <op>" accordingly |
| `DbUtils.HandledConnectionErrorStaysConnection` | server/dbUtils.ts:24-85 | the DatabaseError thrown for a connection error is itself classified as a connection error (its message says "unavailable") |
| `Queries.FlakyReturnsValue` | server/dbUtils.ts:51-53 | under the retry loop, a query can only return the value it computes |
| `Queries.FlakyFailureIgnoresValue` | server/dbUtils.ts:51-76 | whether and how the retry loop fails depends only on what the failing calls throw, not on the value the query computes |
| `Queries.Settle` | server/storage.ts:75-78 | the catch block keeps a success as it is and a failure as a failure; a DatabaseError reaches the caller unchanged; any other thrown value becomes a DatabaseError that carries it and is flagged exactly when it is a connection error |
| `Queries.Access` | server/storage.ts:70-79 | an accessor call returns exactly the query's value when the retries get through; otherwise it throws a DatabaseError, passed through unchanged when the failure already was one and classified by handleDatabaseError otherwise |
| `Queries.NoFaultsGoThrough` | server/storage.ts:72-74 | a query that does not fail goes through on its first call |
| `Queries.AccessRecovers` | server/storage.ts:72-74 | up to two connection failures in a row are retried away and the query's value is returned |
| `Queries.AccessExhausted` | server/storage.ts:72-78 | three connection failures exhaust the default policy: the caller gets "Database operation failed after 3 attempts", flagged, carrying the third failure |
| `Queries.AccessPassesDatabaseError` | server/storage.ts:75-76 | a DatabaseError that is not a connection error reaches the caller unchanged and is not wrapped twice |
| `Queries.AccessWrapsPermanentError` | server/storage.ts:75-78 | any other non-connection failure ends the retries at once and surfaces as an unflagged "Database error during <op>" that carries it |
| `Queries.Scoped` | server/storage.ts:151-158 | with a non-empty conferenceId exactly the rows of that conference are kept, each as often as the table holds it; an absent or empty conferenceId keeps the whole table |
| `Queries.ByKey` | server/storage.ts:165-170 | the lookup by key finds a row with that key, or nothing exactly when no row has it |
| `Queries.PrizesNewestFirst` | server/storage.ts:203-210 | the door prizes in scope, each as often as the table holds it, ordered by timestamp descending |
| `Queries.WinnersByRank` | server/storage.ts:243-250 | the T-hunt winners in scope, each as often as the table holds it, ordered by rank ascending |
| `Storage.DatabaseStorage.constructor` | server/storage.ts:69 | a storage object over the given tables, whose keys all came from its counter |
| `Storage.DatabaseStorage.GetConferences` | server/storage.ts:70-79 | only active conferences, each as often as the table holds it, or the accessor's DatabaseError |
| `Storage.DatabaseStorage.GetConferenceBySlug` | server/storage.ts:81-91 | a conference with the slug, or nothing exactly when no conference has it |
| `Storage.DatabaseStorage.CreateConference` | server/storage.ts:93-103 | on success the conference is appended and returned under the next key, which no conference held before; on failure the table is unchanged; every key stays issued and unique |
| `Storage.DatabaseStorage.UpdateConferenceBySlug` | server/storage.ts:105-115 | on success every conference with the slug is patched in place and the first of them is returned as updated (nothing when none has the slug); on failure the table is unchanged |
| `Storage.DatabaseStorage.GetUser` | server/storage.ts:117-127 | a user with the key, or nothing exactly when there is none |
| `Storage.DatabaseStorage.GetUserProfile` | server/storage.ts:379-405 | the profile of a user with the key, or the default "Unknown User" profile when there is none; the name is never empty |
| `Storage.DatabaseStorage.GetSessions` | server/storage.ts:151-163 | the sessions of the conference, or every session when the conferenceId is absent or empty |
| `Storage.DatabaseStorage.GetSessionById` | server/storage.ts:165-175 | a session with the key, or nothing exactly when there is none |
| `Storage.DatabaseStorage.GetVendors` | server/storage.ts:177-189 | the vendors of the conference, or every vendor when the conferenceId is absent or empty |
| `Storage.DatabaseStorage.GetVendorById` | server/storage.ts:191-201 | a vendor with the key, or nothing exactly when there is none |
| `Storage.DatabaseStorage.GetDoorPrizes` | server/storage.ts:203-215 | the door prizes in scope, newest first, with and without a conferenceId |
| `Storage.DatabaseStorage.AddDoorPrize` | server/storage.ts:217-227 | on success the prize is appended and returned under the next key, which no prize held before; on failure the table is unchanged; every key stays issued and unique |
| `Storage.DatabaseStorage.GetTHuntingSchedule` | server/storage.ts:229-241 | the T-hunts of the conference, or all of them when the conferenceId is absent or empty |
| `Storage.DatabaseStorage.GetTHuntingWinners` | server/storage.ts:243-255 | the T-hunt winners in scope, by ascending rank, with and without a conferenceId |
| `Storage.DatabaseStorage.AddTHuntingWinner` | server/storage.ts:257-267 | on success the winner is appended and returned under the next key, which no winner held before; on failure the table is unchanged; every key stays issued and unique |
| `Storage.DatabaseStorage.GetRadioContacts` | server/storage.ts:269-281 | the radio contacts of the conference, or all of them when the conferenceId is absent or empty |
| `Storage.DatabaseStorage.GetVenueInfo` | server/storage.ts:283-295 | the venue information of the conference, or all of it when the conferenceId is absent or empty |
| `Storage.DatabaseStorage.GetUserBookmarks` | server/storage.ts:297-311 | the session ids of the user's bookmark rows, in the conference when a non-empty one is given: one entry per such row, in table order, and no other; or the accessor's DatabaseError |
| `Storage.DatabaseStorage.AddBookmark` | server/storage.ts:313-327 | on success the triple is inserted under the next key exactly when no row holds it; the key counter moves only when a row is inserted; a table without duplicate triples keeps none |
| `Storage.DatabaseStorage.RemoveBookmark` | server/storage.ts:329-340 | on success every row holding the triple is deleted and nothing else; a table without duplicate triples keeps none |
| `Storage.DatabaseStorage.GetUserSurveyResponses` | server/storage.ts:342-351 | exactly the user's survey responses, each as often as the table holds it |
| `Storage.DatabaseStorage.SubmitSurvey` | server/storage.ts:353-363 | on success the response is appended and returned under the next key, which no response held before; on failure the table is unchanged; every key stays issued and unique |
| `Storage.DatabaseStorage.GetSurveyResponse` | server/storage.ts:365-377 | a response of the user to the survey type, or nothing exactly when there is none |
| `Storage.DatabaseStorage.SeedDatabase` | server/storage.ts:407-699 | the database afterwards is what the two guarded phases make of it, given whether each phase's query got through; no failure reaches the caller |
| `Storage.DatabaseStorage.SeedPhasesWith` | server/storage.ts:408-698 | phase 2 runs only after phase 1 got through |
| `Storage.DatabaseStorage.SeedConferencePhase` | server/storage.ts:410-433 | phase 1 reports whether its query got through and, when it did, inserts Pacificon into an empty conference table only |
| `Storage.DatabaseStorage.SeedDataPhase` | server/storage.ts:436-696 | phase 2, when its query gets through, inserts the reference data only when there are no sessions and the Pacificon conference exists |
| `Bookmarks.WithBookmark` | server/storage.ts:315-322 | after adding, the triple is in the table and every earlier row is kept in place |
| `Bookmarks.WithBookmarkInsertsWhenAbsent` | server/storage.ts:316-321 | adding inserts one row exactly when no row held the triple, and otherwise changes nothing |
| `Bookmarks.AddBookmarkCounts` | server/storage.ts:313-322 | after adding, the triple is held once if it was absent and as often as before if present; every other triple keeps its count |
| `Bookmarks.AddBookmarkTwice` | server/storage.ts:313-322 | a second add of the same triple changes nothing |
| `Bookmarks.WithoutBookmark` | server/storage.ts:331-334 | after removing, no row holds the triple |
| `Bookmarks.WithoutBookmarkValues` | server/storage.ts:331-334 | removing deletes exactly the rows holding the triple and keeps the others in order |
| `Bookmarks.RemoveBookmarkCounts` | server/storage.ts:329-335 | removing deletes every copy of the triple and keeps the count of every other triple |
| `Bookmarks.RemoveMissingBookmark` | server/storage.ts:329-335 | removing a triple no row holds leaves the table exactly as it was |
| `Bookmarks.RemoveUndoesAdd` | server/storage.ts:313-335 | adding then removing a triple is the same as only removing it |
| `Bookmarks.BookmarkUpdatesKeepTriplesUnique` | server/storage.ts:313-335 | adding and removing keep a table in which no triple is held twice free of duplicates |
| `Bookmarks.BookmarkedSessions` | server/storage.ts:299-305 | the select and the map give one session id per bookmark row of the user (in the conference when a non-empty one is given), in table order; a session id is listed exactly when such a row holds it |
| `Bookmarks.SelectedSessions` | server/storage.ts:299-305 | filtering the rows by user and conference and mapping them to their session ids gives one entry per listed row, in table order |
| `Bookmarks.SelectedMembers` | server/storage.ts:299-305 | a session id is selected exactly when a listed row holds it |
| `Bookmarks.ListedSessionsCount` | server/storage.ts:299-305 | for one conference, a session is listed as often as the table holds the user's triple for it |
| `Bookmarks.BookmarkedSessionsOnce` | server/storage.ts:297-322 | in a table without duplicate triples, a conference's listing names each session at most once |
| `Bookmarks.AddedBookmarkIsListed` | server/storage.ts:297-322 | once added, the session is listed among the user's bookmarks, with and without the conference |
| `Bookmarks.RemovedBookmarkIsNotListed` | server/storage.ts:297-335 | once removed, the session is no longer listed for that conference |
| `Bookmarks.RemoveKeepsOtherSessions` | server/storage.ts:297-335 | removing one triple leaves whether every other session is listed as it was |
| `Conferences.EmptyPatchChangesNothing` | server/storage.ts:108 | a patch that names no field changes nothing |
| `Conferences.PatchIdempotent` | server/storage.ts:108 | applying the same patch twice is applying it once |
| `Conferences.PatchesCompose` | server/storage.ts:108 | two successive patches amount to one in which the later one wins |
| `Conferences.ApplyPatch` | server/storage.ts:108 | a patch that names a slug moves the row to that slug, one that does not keeps the row's slug, and a patch naming no field changes nothing |
| `Conferences.PatchBySlug` | server/storage.ts:108 | the update patches the rows with the slug in place under their keys and leaves every other row unchanged |
| `Conferences.UpdateMissingSlug` | server/storage.ts:108 | updating a slug no row has leaves the table as it was |
| `Conferences.UpdateTwice` | server/storage.ts:105-115 | repeating an update that keeps the slug changes nothing more |
| `Conferences.FirstUpdated` | server/storage.ts:108-109 | the returned row is the first row with the slug, as patched and under its key, and is in the updated table; nothing exactly when no row has the slug |
| `Profiles.DisplayName` | server/storage.ts:384 | the display name is never empty |
| `Profiles.DisplayNameCases` | server/storage.ts:384 | the name is the non-empty parts of first and last name joined by one space, or "Unknown User" when both are missing or empty |
| `Profiles.TruthyParts` | server/storage.ts:384 | `filter(Boolean)` keeps the non-empty names in order |
| `Profiles.TextOr` | server/storage.ts:386-389 | `field \|\| ""`: the text when present, and empty exactly when the field is missing or empty |
| `Profiles.ProfileOf` | server/storage.ts:383-399 | a found user's missing fields default to "" or false; no user gives the all-default "Unknown User" profile |
| `Profiles.EmptyUserLooksUnknown` | server/storage.ts:383-399 | a user row with every field missing yields the same profile as no user at all |
| `DatabaseSeed.PrizesForNewestFirst` | server/storage.ts:608-633 | the sample door prizes are drawn one, two and three hours before now, newest first |
| `DatabaseSeed.WinnersForRanked` | server/storage.ts:635-668 | the sample T-hunt winners hold ranks 1 to 4 in that order |
| `DatabaseSeed.SampleSizes` | server/storage.ts:451-695 | the sample holds 6 sessions, 3 vendors, 4 radio contacts, 4 venue entries, 3 door prizes, 4 winners and 3 T-hunts |
| `DatabaseSeed.SeedConferences` | server/storage.ts:410-432 | after phase 1 the table holds at least one conference; at most one row is appended, and no other table changes |
| `DatabaseSeed.SeedTarget` | server/storage.ts:443-447 | the conference phase 2 links to has the Pacificon slug and is in the table; there is none exactly when no conference has that slug |
| `DatabaseSeed.SeedReferenceData` | server/storage.ts:436-696 | phase 2 changes nothing when sessions exist or Pacificon is missing; it never touches conferences, users, bookmarks or surveys and only appends sessions |
| `DatabaseSeed.SeedPhases` | server/storage.ts:407-699 | a failed phase 1 leaves the database as it was; a phase 1 that got through leaves at least one conference; a failed phase 2 adds no session |
| `DatabaseSeed.Seeded` | server/storage.ts:407-699 | seedDatabase changes nothing when its first query keeps failing, leaves at least one conference when it gets through, and never touches users, bookmarks or surveys |
| `Schema.Stamp` | server/storage.ts:451 | a multi-row insert gives the records consecutive fresh keys, in order |
| `DatabaseSeed.SeedOnlyAppends` | server/storage.ts:407-699 | seeding never changes or deletes a row and never touches users, bookmarks or surveys |
| `DatabaseSeed.SeedSkipsPopulatedDatabase` | server/storage.ts:412-440 | a database that has a conference and a session is left exactly as it is |
| `DatabaseSeed.SeedIdempotent` | server/storage.ts:407-699 | after a run whose phases both got through, a later run changes nothing, whichever of its phases get through |
| `DatabaseSeed.SeedTwice` | server/storage.ts:407-699 | seedDatabase twice: the second run changes nothing when the first run's phases both got through |
| `DatabaseSeed.SeedEmptyDatabase` | server/storage.ts:410-695 | seeding an empty database creates the one Pacificon conference and links the 27 sample rows to it under consecutive keys |
| `DatabaseSeed.SeedCompletesPartialSeed` | server/storage.ts:436-451 | when the conference exists but sessions are missing, a run fills in the sessions linked to the first Pacificon conference without adding a conference |
| `DatabaseSeed.SampleDataLinked` | server/storage.ts:448-695 | every sample row is linked to the conference it was seeded for |
| `DatabaseSeed.SeedWithoutPacificon` | server/storage.ts:412-447 | with conferences present but none of them Pacificon, nothing is inserted |
| `DatabaseSeed.SeededPrizesNewestFirst` | server/storage.ts:608-633 | the seeded door prizes are already newest first, so getDoorPrizes lists them in insertion order |
| `DatabaseSeed.SeededWinnersByRank` | server/storage.ts:635-668 | the seeded winners are already in rank order 1 to 4 |
| `Text.Lower` | server/dbUtils.ts:16 | lower-casing keeps the length and maps each character on its own |
| `Text.Contains` | server/dbUtils.ts:18-26 | `includes` holds exactly when some window of the text equals the substring |
| `Text.ContainsTransitive` | client/src/pages/SchedulePage.tsx:374-392 | a text that contains a string contains every substring of it |
| `Text.Trim` | server/seedScheduleData.ts:201-203 | the trimmed text has no white space or line terminator at either end |
| `Text.TrimIsInfix` | server/seedScheduleData.ts:201-203 | trimming only drops white space from the two ends |
| `Text.TrimIdempotent` | server/seedScheduleData.ts:201-203 | trimming twice is trimming once |
| `Text.IndexOf` | server/seedScheduleData.ts:199 | the first position of the separator, or -1 exactly when it does not occur |
| `Text.Split` | server/seedScheduleData.ts:199 | the pieces joined with the separator give back the text, no piece contains the separator, and every cut is at the leftmost occurrence: no piece but the last, followed by the separator, shows an earlier one |
| `Text.SplitOverlapping` | server/seedScheduleData.ts:199 | overlapping separators are cut leftmost first: " - - " splits on " - " into "" and "- " |
| `Text.SplitWithout` | server/seedScheduleData.ts:199 | text without the separator splits into itself alone |
| `Text.SplitOnce` | server/seedScheduleData.ts:199-201 | text with exactly one separator, not overlapping either side, splits into those two sides |
| `Text.SplitTwoSeparators` | server/seedScheduleData.ts:199-200 | text with two non-overlapping separators splits into more than two pieces |
| `Text.IntToDecimal` | server/dbUtils.ts:73 | the number in the exhausted-retries message is rendered with at least one character, led by a minus sign exactly when it is negative; the digits read back as its absolute value, with no leading zero after a minus sign |
| `Text.IntToDecimalDigits` | server/dbUtils.ts:73 | the rendering is canonical: after the optional minus sign it holds decimal digits only, and a non-negative number starts with 0 exactly when it is zero |
| `Text.NatToDecimal` | server/dbUtils.ts:73 | a natural number is rendered as a non-empty string whose digits read back as that number |
| `Text.NatToDecimalDigits` | server/dbUtils.ts:73 | the rendering holds decimal digits only, and starts with 0 only for zero |
| `Text.NatToDecimalInjective` | server/dbUtils.ts:73 | two numbers with the same rendering are equal |
| `Schema.KeyOfInjective` | shared/schema.ts:7 | two counter values that give the same key are equal: generated keys never collide |
| `Schema.IssuedIsNotFresh` | shared/schema.ts:7 | a key handed out before the counter reached a bound is none of the keys handed out from then on |
| `Schema.WellKeyedRaise` | shared/schema.ts:7 | keys handed out before a bound were handed out before any later bound |
| `Schema.WellKeyedStamp` | server/storage.ts:451 | a multi-row insert under the next keys keeps a table's keys issued and distinct |
| `Schema.WellKeyedInsert` | server/storage.ts:451 | an insert under keys from the counter's current value on keeps a table's keys issued and distinct, below any later counter value |
| `Schema.WellKeyedAppend` | server/storage.ts:96 | a single-row insert keeps a table's keys issued and distinct, and its key is held by no earlier row |
| `Schema.WellKeyedSameKeys` | server/storage.ts:108 | an update that keeps every row's key keeps the table well keyed |
| `Schema.WellKeyedSnoc` | server/storage.ts:96 | appending a row whose key is issued and unused keeps the table well keyed |
| `Schema.WellKeyedPrefix` | server/storage.ts:332 | dropping the last rows keeps a table well keyed |
| `Schema.LastKeyUnused` | server/storage.ts:332 | the last row's key is issued and held by no earlier row |
| `Schema.WellKeyedFilter` | server/storage.ts:332 | a delete keeps the remaining keys issued and distinct |
| `Schema.KeysIssuedRaise` | shared/schema.ts:7 | moving the counter forward keeps every table's keys issued |
| `Schema.KeysIssuedAddSessions` | server/seedScheduleData.ts:272-273 | inserting sessions under the next keys keeps every table well keyed |
| `Schema.EmptyTablesKeysIssued` | shared/schema.ts:7 | the empty database holds no key, so its keys are trivially issued and distinct |
| `Queries.ByKeyFindsTheRow` | server/storage.ts:165-170 | in a table whose keys are distinct, the lookup by a row's key returns that very row |
| `Queries.InsertedRowIsFound` | server/storage.ts:93-103 | a row inserted under the next key is what the lookup by that key returns |
| `DatabaseSeed.SeedConferencesKeysIssued` | server/storage.ts:410-433 | phase 1 keeps every key issued and unique |
| `DatabaseSeed.InsertReferenceDataKeysIssued` | server/storage.ts:451-695 | the seven inserts of phase 2 take fresh keys, one after another, and keep every key unique |
| `DatabaseSeed.SeedKeysIssued` | server/storage.ts:407-699 | seeding keeps every key issued by the counter and unique within its table |
| `SeedSchedule.ScheduleSeededKeysIssued` | server/seedScheduleData.ts:206-276 | seeding the schedule keeps every key issued and unique |
| `SeedSchedule.ScheduleSeeded` | server/seedScheduleData.ts:206-276 | seeding the schedule changes nothing without a Pacificon conference, and otherwise only appends session rows and advances the key counter |
| `SeedSchedule.ForumRow` | server/seedScheduleData.ts:239-250 | a forum session's row belongs to the conference and the day, is tagged "forum", has no bio and no abstract, and has an empty speaker when the session names none |
| `SeedSchedule.EventRow` | server/seedScheduleData.ts:256-268 | an event's row belongs to the conference and the day, is tagged "event", has an empty speaker and no bio, and never an empty abstract |
| `SeedSchedule.ParseTimeRange` | server/seedScheduleData.ts:198-204 | both sides come back trimmed; unless the text splits into exactly two pieces, the start is the whole text trimmed and the end is empty |
| `SeedSchedule.ParseOneSeparator` | server/seedScheduleData.ts:199-201 | a range with one separator parses into its two sides, trimmed |
| `SeedSchedule.ParseNoSeparator` | server/seedScheduleData.ts:199-203 | text without the separator is a start time alone, trimmed, with an empty end |
| `SeedSchedule.ParseTwoSeparators` | server/seedScheduleData.ts:199-203 | text with two separators is a start time alone, the whole text trimmed, with an empty end |
| `SeedSchedule.ParseDashFree` | server/seedScheduleData.ts:199-201 | two dash-free times around the separator parse into the two times, trimmed |
| `SeedSchedule.ParseForumSlotTime` | server/seedScheduleData.ts:198-204 | "09:00 am - 05:00 pm" parses into "09:00 am" and "05:00 pm" |
| `SeedSchedule.ParseMultiDayTime` | server/seedScheduleData.ts:198-204 | "12:00 pm Fri - 12:00 pm Sun" parses into its two sides |
| `SeedSchedule.ParseRelativeTime` | server/seedScheduleData.ts:194-203 | "After ARRL Forum" becomes the start time, with an empty end |
| `SeedSchedule.NoteOrNothing` | server/seedScheduleData.ts:267 | an event's abstract is its note when the note is present and non-empty, and unset otherwise |
| `SeedSchedule.SlotRows` | server/seedScheduleData.ts:240-251 | one row per session of the slot, in order, each with the slot's parsed times |
| `SeedSchedule.DayForumRows` | server/seedScheduleData.ts:238-252 | a day yields as many rows as its slots hold sessions |
| `SeedSchedule.ForumRows` | server/seedScheduleData.ts:237-253 | the forum table yields as many rows as it holds sessions over all days and slots |
| `SeedSchedule.DayEventRows` | server/seedScheduleData.ts:256-269 | one row per event of the day, in order |
| `SeedSchedule.EventRows` | server/seedScheduleData.ts:255-270 | the event table yields one row per event over all days |
| `SeedSchedule.ScheduleRows` | server/seedScheduleData.ts:237-270 | the rows to insert number the forum sessions plus the events |
| `SeedSchedule.DayForumRowListed` | server/seedScheduleData.ts:238-251 | every session of every slot of a day yields its row |
| `SeedSchedule.DayForumRowSource` | server/seedScheduleData.ts:238-251 | every row of a day comes from some session of some slot of that day |
| `SeedSchedule.ForumRowListed` | server/seedScheduleData.ts:237-253 | every row of a day is among the forum rows |
| `SeedSchedule.ForumRowSource` | server/seedScheduleData.ts:237-253 | every forum row comes from some day |
| `SeedSchedule.ForumRowsFrom` | server/seedScheduleData.ts:237-253 | a row is among the forum rows exactly when it is the row of some session of some slot of some day |
| `SeedSchedule.EventRowListed` | server/seedScheduleData.ts:255-270 | every event of every day yields its row |
| `SeedSchedule.EventRowSource` | server/seedScheduleData.ts:255-270 | every event row comes from some event of some day |
| `SeedSchedule.EventRowsFrom` | server/seedScheduleData.ts:255-270 | a row is among the event rows exactly when it is the row of some event of some day |
| `SeedSchedule.ScheduleRowsShape` | server/seedScheduleData.ts:237-270 | every row belongs to the conference and has no speaker bio; forum rows come first, tagged "forum" with no abstract; event rows follow, tagged "event" with an empty speaker and never an empty abstract |
| `SeedSchedule.ScheduleSeedIdempotent` | server/seedScheduleData.ts:217-223 | seeding the schedule twice inserts nothing the second time |
| `SeedSchedule.ScheduleSeedGuarded` | server/seedScheduleData.ts:217-223 | when the conference already has a forum or event session, nothing changes |
| `SeedSchedule.ScheduleSeedInserts` | server/seedScheduleData.ts:237-275 | otherwise every forum session and every event becomes exactly one new session row under fresh keys, after the existing rows, and no other table changes |
| `SeedSchedule.CollectForumRows` | server/seedScheduleData.ts:237-253 | the loop over days pushes exactly the forum rows |
| `SeedSchedule.CollectDayForumRows` | server/seedScheduleData.ts:238-252 | the loop over a day's slots pushes exactly that day's rows |
| `SeedSchedule.CollectSlotRows` | server/seedScheduleData.ts:240-251 | the loop over a slot's sessions pushes exactly that slot's rows |
| `SeedSchedule.CollectEventRows` | server/seedScheduleData.ts:255-270 | the loop over days pushes exactly the event rows |
| `SeedSchedule.CollectDayEventRows` | server/seedScheduleData.ts:256-269 | the loop over a day's events pushes exactly that day's rows |
| `SeedSchedule.SeedScheduleData` | server/seedScheduleData.ts:206-276 | the storage afterwards is the database the seeder specification prescribes: unchanged without the Pacificon conference, when it already has schedule rows, or when there is nothing to insert; otherwise the rows appended under fresh keys; every key stays issued and unique |
| `ScheduleData.DayList` | client/src/pages/SchedulePage.tsx:367-369 | `data[day] \|\| []`: the entries of the day, or none when the record has no such key |
| `SchedulePage.FilterSlots` | client/src/pages/SchedulePage.tsx:380-387 | an empty query keeps every slot; otherwise a slot is kept exactly when one of its sessions matches; order is kept and nothing is added |
| `SchedulePage.FilterEvents` | client/src/pages/SchedulePage.tsx:389-394 | an empty query keeps every event; otherwise an event is kept exactly when its title or location matches; order is kept and nothing is added |
| `SchedulePage.FilteredAll` | client/src/pages/SchedulePage.tsx:367-378 | the All tab lists only forum slots of the selected day |
| `SchedulePage.FilteredForums` | client/src/pages/SchedulePage.tsx:368-387 | the Forums tab lists only forum slots of the selected day |
| `SchedulePage.FilteredEvents` | client/src/pages/SchedulePage.tsx:369-394 | the Events tab lists only events of the selected day |
| `SchedulePage.AllTabIsForumTab` | client/src/pages/SchedulePage.tsx:367-387 | the All tab always shows exactly the Forums tab |
| `SchedulePage.ForumTabShows` | client/src/pages/SchedulePage.tsx:368-387 | on a day of the record, a slot is shown exactly when it belongs to the day and the query is empty or matches a session's title or non-empty speaker |
| `SchedulePage.EventTabShows` | client/src/pages/SchedulePage.tsx:369-394 | on a day of the record, an event is shown exactly when it belongs to the day and the query is empty or matches its title or location |
| `SchedulePage.MentionsIgnoresQueryCase` | client/src/pages/SchedulePage.tsx:374 | lower-casing the query changes no match |
| `SchedulePage.Mentions` | client/src/pages/SchedulePage.tsx:374 | the case-insensitive substring test accepts an empty query and never a query longer than the text |
| `SchedulePage.ItemMatches` | client/src/pages/SchedulePage.tsx:383-385 | an empty query matches every session; a missing or empty speaker is not searched, so only the title decides |
| `SchedulePage.EventMatches` | client/src/pages/SchedulePage.tsx:390-392 | an empty query matches every event; a match needs a title or location at least as long as the query |
| `SchedulePage.SearchIgnoresCase` | client/src/pages/SchedulePage.tsx:380-394 | both tabs show the same entries for a query and for its lower-cased form |
| `SchedulePage.SearchNarrows` | client/src/pages/SchedulePage.tsx:380-394 | typing more of a query never brings back an entry a shorter part of it hid |
| `SchedulePage.IsBookmarked` | client/src/pages/SchedulePage.tsx:266 | a session is drawn bookmarked exactly when its id is in the bookmark list |
| `SchedulePage.HandleBookmark` | client/src/pages/SchedulePage.tsx:350-365 | a click does exactly one thing: a login prompt when signed out, otherwise remove when the id is bookmarked and add when it is not, for that id |
| `SchedulePage.ClickFlipsBookmark` | client/src/pages/SchedulePage.tsx:350-365 | a signed-in click flips whether the session is listed among the user's bookmarks once the request succeeds |
| `SchedulePage.SignedOutClickChangesNothing` | client/src/pages/SchedulePage.tsx:351-357 | a signed-out click changes no bookmark |
| `SchedulePage.InitialDayShowsNothing` | client/src/pages/SchedulePage.tsx:306-369 | the page starts on day "all": for any day records without an "all" key, every tab starts empty whatever the entries and the query |
| `SchedulePage.SampleDaysLackInitialDay` | client/src/pages/SchedulePage.tsx:306 | the source's day records have no "all" key, and their first day has entries the empty tabs hide |
| `SchedulePage.AllDays` | client/src/pages/SchedulePage.tsx:306 | every entry of every day, and nothing else |
| `SchedulePage.SelectDay` | client/src/pages/SchedulePage.tsx:306-369 | "all" gathers every day; any other day is looked up as before |
| `SchedulePage.FilteredForumsByDay` | client/src/pages/SchedulePage.tsx:368-387 | with the corrected day selection, the Forums tab agrees with the original on every day but "all" |
| `SchedulePage.FilteredEventsByDay` | client/src/pages/SchedulePage.tsx:369-394 | with the corrected day selection, the Events tab agrees with the original on every day but "all" |
| `SchedulePage.InitialDayShowsEverything` | client/src/pages/SchedulePage.tsx:306-394 | with the corrected day selection, the initial view lists every matching slot and event of every day |

## Left out

- `checkDatabaseConnection` (server/dbUtils.ts:32-42) is not modelled: it opens a pool connection and runs a query, which is pure I/O.
- Sleeping and logging are not modelled. The retry loop records the delays it asks for instead of waiting, and `console.warn`, `console.error` and `console.log` are dropped.
- `DatabaseError.name` is not modelled. The constant "DatabaseError" tells no two errors apart.
- `upsertUser` (server/storage.ts:129-149) is not modelled. Its conflict handling is Postgres's `ON CONFLICT` clause, and it stamps `new Date()`.
- SQL itself is replaced by sequences of rows, as are Drizzle's `.returning()` and the database's choice of row order. Getters state which rows come back and how often; they return rows in table order, but the database does not promise that order, except where an `ORDER BY` fixes it. Ties under an `ORDER BY` are left unspecified.
- Random UUID keys are replaced by the decimal rendering of a counter. The model keeps what matters about them: every write keeps each key issued by the counter and unique within its table (`Storage.DatabaseStorage.Valid`, `Schema.KeysIssued`), so each new key is fresh. Keys are not unique across tables, as UUIDs would be; no query compares keys of different tables.
- The wall clock is a parameter. `Date.now()` in the seeded door-prize timestamps is `now`, and ISO timestamps are integers in milliseconds.
- Failures in the middle of an attempt are not modelled. A query's writes happen on the call that returns. A `seedDatabase` phase-2 attempt that fails after some of its seven inserts leaves those rows in the source; here it leaves nothing.
- Database failures inside `seedScheduleData` are not modelled: it has no retry loop or catch block, so they would propagate to its caller.
- Concurrency is not modelled, including the race between the check and the insert of two simultaneous `addBookmark` calls. The model is sequential.
- Drizzle's error for an update with an empty patch is not modelled; an empty patch changes nothing here.
- `server/routes.ts` is not part of this model. It is HTTP dispatch with a hard-coded user.
- The `users` table declared in `shared/schema.ts` has id, username and password columns. It lacks the name and badge fields `getUserProfile` reads. The model uses the fields the code reads.
- `getUserProfile` follows the code: a database failure surfaces as a DatabaseError. There is no fallback to the signed-in session's claims.
- The literal `forumsData` and `eventsData` tables are not reproduced; the model works over any such tables. A few of their entries appear as samples.
- Text.Lower: lower-cases ASCII letters only, not full Unicode `toLowerCase`.
- DbUtils.WithRetry: `maxRetries` and `delayMs` are integers here. JavaScript numbers may be fractional: with `maxRetries` 2.5 the loop runs attempts 1 and 2, waits after both because `attempt < maxRetries`, and reports "failed after 2.5 attempts" (server/dbUtils.ts:51, 66, 73); fractional delays are likewise not modelled.
- The page's rendering, toasts, React state, query caching and the resolution of the conference slug to its key are not modelled. The selected day and the search query are plain inputs, and a click is modelled by the action it chooses.
- The rest of the client is not modelled: other pages, components, hooks and date formatting.

## Findings

| source | as written | input that shows it | evidently intended | confidence | as-written member | corrected member |
|---|---|---|---|---|---|---|
| client/src/pages/SchedulePage.tsx:306, 367-369 | the page starts with `selectedDay` set to `'all'` and looks the day up with `forumsData[selectedDay] \|\| []`, but the records have only the keys friday, saturday and sunday, and the day selector offers only those three | the first render, with any search query: `forumsData['all']` and `eventsData['all']` are undefined, so all three tabs show their empty state | "all" lists the entries of every day | medium, not executed | `SchedulePage.InitialDayShowsNothing` | `SchedulePage.InitialDayShowsEverything` |
