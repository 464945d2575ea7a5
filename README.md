# Sparkify ETL load step, modelled in Dafny

This project models the load step of a small music-streaming ETL script (`etl.py`). The script reads two families of newline-delimited JSON files:

- **Song-data files** hold catalog records: one song and its artist.
- **Log-data files** hold user-activity events.

It writes the following tables through a database cursor:

- song and artist rows, from the first record of each song-data file;
- time rows (a timestamp split into hour, day, ISO week, month, year and weekday) and songplay rows, one of each per `NextSong` event of a log file;
- one user upsert per event of a log file, whatever the event's page.

For each songplay, a song lookup finds the catalog song whose title, artist name and duration match the event, and records that song's ids. The batch driver processes every discovered file in order, commits after each one, and reports "i of N processed".

The model has six modules:

- `Records` (records.dfy): the parsed records and the rows written.
- `Calendar` (calendar.dfy): proleptic Gregorian calendar arithmetic on day numbers counted from 1970-01-01. It covers civil-from-days and its inverse, the weekday with Monday = 0, and the ISO week number of the week date in section 4.1.4 of ISO 8601:2004 (week 1 is the week holding the year's first Thursday).
- `Transform` (transform.dfy): the pure row construction. This covers the `NextSong` filter and the time row of a timestamp, read as a naive UTC instant.
- `Store` (store.dfy): the database, seen as the ordered log of operations issued to it, with its projections onto each table. It holds the users table (latest upsert wins) and the song lookup, which returns the first matching song. The class `Store` is the cursor and connection. Its methods append to the log and update the users map, and keep the invariant that the map is the fold of the upserts in the log.
- `Etl` (etl.dfy): the per-file operations as specification functions (`SongFileOps`, `LogFileOps`, `FileOps`) and the batch driver `RunBatch`, with lemmas about them. It also has the imperative methods (`ProcessSongFile`, `ProcessLogFile` with its three loops, `ProcessData`), each proved to issue exactly the operations the specification functions describe.
- `Scenarios` (scenarios.dfy): concrete runs. One song file, then a log file of three events of one user of which one is a play of that song; and a play with no catalog counterpart.

Two behaviours of the code that the model keeps as written:

- Time rows are emitted per `NextSong` event, not per event: the frame is filtered at etl.py:41 before the time rows are built.
- A log file with no records fails, like an empty song file. Its frame has no `page` column to select.

## Model

| member | source | states |
|---|---|---|
| Etl.SongFileOps | etl.py:17-23 | Definition of a song file's writes: an unreadable file is `MalformedFile`; a file with no record is `EmptyFile` (the `[0]` index fails); otherwise the song row, then the artist row, of the first record. Its properties are stated by `Etl.SongFileWrites`. |
| Etl.SongFileWrites | etl.py:17-23 | A song-data file fails exactly when it is unreadable (`MalformedFile`) or has no record (`EmptyFile`). Otherwise it writes exactly one song row (song id, title, artist id, year, duration) and one artist row (artist id, name, location, latitude, longitude), both from the first record, and no time, user, songplay or commit. |
| Etl.SongFileThenLookup | etl.py:19-23 | After a song file loads, a lookup by its record's title, artist name and duration finds a song. It finds this record's own song and artist ids unless a song written earlier already matches. |
| Etl.ProcessSongFile | etl.py:8-23 | The method issues exactly `SongFileOps`: the song row, then the artist row, or nothing on an error, which it returns. It keeps the store invariant. |
| Etl.LogFileOps | etl.py:39-70 | Definition of a log file's writes against the store so far: errors in source order, then the time writes of the NextSong events, the user upserts of all events and the songplay writes with their looked-up keys. Its properties are stated by `Etl.LogFileWrites`, `Etl.LogFileErrors`, `Etl.SongplayOfEvent` and the user lemmas below. |
| Etl.TimeRows | etl.py:47-49 | Definition: the time row of each NextSong event's timestamp, in order; see `Etl.LogFileWrites` and `Etl.StartTimesAgree`. |
| Etl.UserRows | etl.py:54 | Definition: the user row of every event of the file, in order; see `Etl.LogFileUserUpserts`. |
| Etl.SongplayRows | etl.py:59-70 | Definition: the songplay row of each NextSong event with the key the lookup finds; see `Etl.SongplayOfEvent`. |
| Etl.LogFileWrites | etl.py:39-70 | A loaded log file writes one time row per NextSong event (the time row of its timestamp), one user upsert per event of any page, and one songplay per NextSong event, each with the key the lookup finds. Each group is in file order; no song, artist or commit is written. |
| Etl.LogFileErrors | etl.py:39-43 | A log file fails exactly when it is unreadable, empty, or has a NextSong timestamp outside the range of a nanosecond instant. It reports the first of these, in that order, and writes nothing. |
| Etl.StartTimesAgree | etl.py:43-70 | There are as many time rows as songplays as NextSong events. The i-th time row and the i-th songplay both start at the i-th NextSong event's timestamp. |
| Etl.SongplayOfEvent | etl.py:59-70 | The i-th songplay copies timestamp, user id, level, session id, location and user agent from the i-th NextSong event. Its song and artist ids are null together exactly when no catalog song matches. Otherwise they are the ids of the first matching song. |
| Etl.LogFileUserUpserts | etl.py:54-57 | A log file's user upserts are the user rows of all its events, in file order, after the upserts already in the log. |
| Etl.LogFileLastUserWins | etl.py:54-57 | After a log file, the user id of its i-th event holds that event's user row whenever no later event of the file has the same id, whatever the page. |
| Etl.LogFileOtherUsersKept | etl.py:54-57 | A user id that no event of the file carries keeps its row, or stays absent. |
| Etl.LogFileRerun | etl.py:51-70 | Loading the same log file again issues the same operations, and the users table ends as the first load left it. |
| Etl.InsertTimes | etl.py:51-52 | The loop appends one time write per row, in order, and keeps the store invariant. |
| Etl.UpsertUsers | etl.py:54-57 | The loop appends one user upsert per row, in order, and keeps the store invariant. |
| Etl.InsertSongplays | etl.py:59-70 | The loop appends, per NextSong event in order, the songplay row with the key looked up against the songs and artists present before the loop. Songplay writes do not change what the lookups see. |
| Etl.CatalogAfterTimesAndUsers | etl.py:51-61 | The time and user writes leave the songs and artists that the later lookups see unchanged. |
| Etl.ProcessLogFile | etl.py:26-70 | The method issues exactly `LogFileOps`: time rows, then user upserts, then songplays. On an error it issues nothing and returns the error. |
| Etl.ProcessFile | etl.py:94 | The per-file function chosen by the file's kind issues exactly `FileOps` of that file. |
| Etl.FileOps | etl.py:94 | Definition: the song-file or log-file operations, as the file's kind selects the function `func`; see `Etl.FileOpsCommitNothing` and `Etl.ProcessFile`. |
| Etl.RunBatch | etl.py:93-95 | Definition of the batch: each file's operations followed by a commit, stopping at the first failing file; its properties are stated by `Etl.RunBatchProgress`, `Etl.RunBatchCommits`, `Etl.RunBatchStep` and `Etl.RunBatchStops`. |
| Etl.CommitAfterFile | etl.py:94-95 | A processed file followed by its commit adds exactly one commit, and the log ends with it. |
| Etl.RunBatchProgress | etl.py:93-95 | Files are processed in order. The batch stops at the first failing file and reports that file's error, with every earlier file processed; with no failure every file is processed. |
| Etl.RunBatchCommits | etl.py:93-95 | The commit count grows by the number of files processed. No file processed means the log is unchanged (zero files: no writes, no commits). Otherwise the log ends with a commit. |
| Etl.RunBatchStep | etl.py:93-95 | One more file after a failure-free prefix either appends its operations and a commit, or stops the batch with its error. |
| Etl.RunBatchStops | etl.py:93-95 | After a failure the remaining files change nothing. |
| Etl.Reports | etl.py:93-96 | The progress reports after k files are exactly "1 of N", "2 of N", …, "k of N". |
| Etl.ProcessData | etl.py:73-96 | The driver reports the number of files found. Its store log, error and progress reports are exactly those of `RunBatch` on the files in discovery order. |
| Transform.NextSongEvents | etl.py:41 | The filter keeps only NextSong events and never lengthens the sequence. |
| Transform.NextSongEventsMembers | etl.py:41 | An event is kept exactly when it is in the file and its page is NextSong. |
| Transform.NextSongEventsAppend | etl.py:41 | Filtering preserves order: the filter of a concatenation is the concatenation of the filters. |
| Transform.TimestampsConvertible | etl.py:43 | Definition: every NextSong timestamp lies in the range of a nanosecond instant; its failure is the `TimestampOutOfRange` case of `Etl.LogFileErrors`. |
| Transform.TimeRowOf | etl.py:43-47 | The time row starts at the timestamp, with hour 0..23, month 1..12, week 1..53 and weekday 0..6, forming a valid date. The date and hour locate the instant (that hour of that day contains it). The weekday (Monday = 0) and ISO week are those of the same date. |
| Transform.TimeRowFieldsUnique | etl.py:47 | Any valid date and hour that locate the instant are the time row's year, month, day and hour, so those fields are fixed by the timestamp alone. |
| Transform.SongRowOf | etl.py:19 | Definition: song id, title, artist id, year and duration of the record; see `Etl.SongFileWrites`. |
| Transform.ArtistRowOf | etl.py:22 | Definition: artist id, name, location, latitude and longitude of the record; see `Etl.SongFileWrites`. |
| Transform.UserRowOf | etl.py:54 | Definition: user id, first name, last name, gender and level of the event; see `Etl.LogFileLastUserWins`. |
| Transform.SongplayRowOf | etl.py:64-69 | Definition: timestamp, user id, level, the key's song and artist ids or two nulls, session id, location and user agent; see `Etl.SongplayOfEvent`. |
| Calendar.CivilFromDays | etl.py:47 | The date of a day number is a valid date whose day number is that number. |
| Calendar.CivilRoundTrip | etl.py:47 | Every valid date is the date of its own day number. |
| Calendar.DaysFromCivilInjective | etl.py:47 | Distinct valid dates have distinct day numbers. |
| Calendar.YearOf | etl.py:47 | The year of a day number is the one whose days contain it. |
| Calendar.YearOfUnique | etl.py:47 | Only one year contains a given day. |
| Calendar.DaysBeforeYearStep | etl.py:43 | The closed-form day count is 0 at 1970 and grows by each year's length, 366 in leap years. |
| Calendar.FindMonth | etl.py:47 | The month found is the one whose days contain the day of the year. |
| Calendar.Weekday | etl.py:47 | The weekday, (day number + 3) mod 7, lies in 0..6. |
| Calendar.WeekdayNext | etl.py:47 | Weekdays advance by one each day, modulo seven, and repeat every seven days. |
| Calendar.EpochWeekday | etl.py:47 | 1970-01-01 has weekday 3, a Thursday. |
| Calendar.WeekdayBack | etl.py:47 | Going back k days within a Monday-to-Sunday week lowers the weekday by k. |
| Calendar.IsoWeek | etl.py:47 | The ISO week number lies in 1..53. |
| Calendar.IsoWeekSameWeek | etl.py:47 | All seven days from Monday to Sunday share their ISO week and week year. |
| Calendar.IsoWeekOfJanuary4 | etl.py:47 | January 4 always lies in week 1 of its own year. |
| Calendar.IsoWeekNext | etl.py:47 | A week later the week number grows by one in the same week year, or the next week year starts at week 1. |
| Calendar.IsoWeekFromOrdinal | etl.py:47 | The textbook rule (day of year − weekday + 10) / 7 gives the ISO week. A result of 0 means the last week of the previous year, and a week whose Thursday lies in the next year is week 1. |
| Calendar.HourOfDay | etl.py:47 | The hour of day lies in 0..23. |
| Calendar.HourOfDayLocates | etl.py:43-47 | The whole-day part and the hour locate the timestamp: it lies in that hour of that day, with floor semantics for instants before 1970. |
| Store.Matches | etl.py:61 | Definition of a lookup hit: title and duration equal the song's, and the artist name is that of an artist row with the song's artist id; see `Store.FindSong`. |
| Store.FirstMatch | etl.py:61-62 | The position returned is that of a matching song, with no earlier song matching, or the end when none matches. |
| Store.FindSong | etl.py:61-67 | The lookup is null exactly when no song matches title, artist name and duration. Otherwise it is the ids of a matching song with no earlier match. |
| Store.FindSongFirst | etl.py:61-67 | A matching song with no earlier match is the one the lookup returns. |
| Store.Latest | etl.py:56-57 | Definition of the users table: each upsert overwrites the row of its user id; see `Store.LatestDomain` and `Store.LatestIsLastWrite`. |
| Store.LatestDomain | etl.py:56-57 | A user id is in the users table exactly when some upsert wrote it. |
| Store.LatestIsLastWrite | etl.py:56-57 | A user id holds the row of its last upsert. |
| Store.LatestLastWrite | etl.py:56-57 | After a batch of upserts, the id of a batch row with no later row for the same id holds that row. |
| Store.LatestUntouched | etl.py:56-57 | An id that no batch row has keeps its row, or stays absent. |
| Store.UpsertIdempotent | etl.py:56-57 | Repeating a batch of upserts leaves the users table as one pass left it. |
| Store.Store.InsertSong | etl.py:20 | The song insert appends its operation and leaves the users table unchanged. |
| Store.Store.InsertArtist | etl.py:23 | The artist insert appends its operation and leaves the users table unchanged. |
| Store.Store.InsertTime | etl.py:52 | The time insert appends its operation and leaves the users table unchanged. |
| Store.Store.UpsertUser | etl.py:57 | The user upsert appends its operation and overwrites, or creates, the row of its user id. The table stays the fold of all upserts. |
| Store.Store.InsertSongplay | etl.py:70 | The songplay insert appends its operation and leaves the users table unchanged. |
| Store.Store.Commit | etl.py:95 | A commit appends a commit marker and leaves the users table unchanged. |
| Store.Store.SelectSong | etl.py:61-62 | The fetched lookup result is the song lookup over the songs and artists written so far. |
| Scenarios.PlaysOfTheLog | etl.py:41 | Of the events Home, NextSong and Logout, only the NextSong one is a play. |
| Scenarios.CatalogFileRows | etl.py:17-23 | The catalog file of song SOSZMXF12A8C133DF5 ("In The Dark", year 0, duration 152.92036) by artist ARXR32B1187FB57099 ("Gene Krupa") loads and commits, writing exactly that song row and that artist row. |
| Scenarios.OneSongOnePlay | etl.py:93-96 | That catalog file, then a three-event log file of one user, both load and commit (two commits). The run writes one time row and three user upserts, which leave one user row (the last event's). It writes one songplay carrying song id SOSZMXF12A8C133DF5 and artist id ARXR32B1187FB57099. |
| Scenarios.OneNetUser | etl.py:54-57 | Three upserts of user id 10 leave exactly one row, that of the last event. |
| Scenarios.UnmatchedPlay | etl.py:64-67 | A play with no catalog counterpart still loads, with null song and artist ids. |

## Left out

- SQL statement texts and their conflict clauses: `sql_queries` is not part of this model.
  - The user upsert is modelled as an overwrite of the whole row for its user id.
  - Song, artist, time and songplay writes are appended to the log as issued. No table but users is keyed by id, so a repeated song, artist or time key is neither ignored, nor overwritten, nor rejected.
- The database connection: connecting, the cursor object, `conn.close()`, and the database's own transaction and rollback behaviour. The store is the log of issued operations plus the users table.
- Database errors raised while a file is being written. Every modelled error (unreadable file, empty file, timestamp out of range) is raised before the file's first write.
- JSON decoding and pandas type inference: `read_json` is a foreign library. Records arrive already parsed, and a file that does not decode is `Malformed`. Records with a missing field, and the `KeyError` a missing column would raise, are not modelled, except for an empty file, which has no columns at all.
- The directory walk, the glob and `abspath`: the discovered files are an input sequence in discovery order. `process_data`'s `func` argument is modelled by tagging each file as a song-data or a log-data file.
- `print` formatting: the "files found" count and each "i/N files processed" report are returned as values (`found`, `Progress(i, N)`).
- `main` and its hard-coded connection string and paths: it is two `ProcessData` runs on the same store, one per directory, the second only when the first reports no failure (a failure raises out of `main` before the log pass).
- IEEE 754 semantics of durations and coordinates: a `Float` is its 64-bit pattern and compares bitwise, so NaN and negative zero behave as the database's equality may not.
- Timestamp conversion: a timestamp converts when its magnitude is at most 9223372036854 ms (the range of a nanosecond instant in a signed 64-bit integer). Otherwise the file fails with `TimestampOutOfRange`. The exact pandas bounds, including the one-value `NaT` edge at the most negative integer, are not modelled.
- Store.FindSong: searches every song row and artist row ever written, as if the songs and artists tables had no key. A song id or artist id written twice with different values matches a lookup through any of its rows. For example, one artist id written under two names by two song files answers lookups by either name. A database whose tables are keyed by id keeps only one of those rows, or rejects the second insert and stops the run.
- Store.FindSong: takes the first matching song in insertion order. The database may return matching rows in any order, so the model fixes one tie-break where the source leaves it to the store.
- The deprecation of pandas' `weekofyear` accessor: the model uses the ISO week it returns.
