/**
  The load step: the operations each data file issues against the store,
  the methods that issue them one by one, and the batch driver that runs
  every discovered file in turn and commits after each.
 */
module Etl {
  import opened Records
  import opened Calendar
  import opened Transform
  import opened Store

  /** Why a file stops the run. */
  datatype Error =
    | MalformedFile         // a line of the file is not valid JSON
    | EmptyFile             // a file with no record has no columns to select
    | TimestampOutOfRange   // a NextSong timestamp has no nanosecond instant

  /** The operations one file issues, or the error that stops it before any write. */
  datatype FileResult = Done(ops: seq<Op>) | Failed(error: Error)

  /** A song-data file writes the song and the artist of its first record. */
  function SongFileOps(file: Parsed<SongRecord>): FileResult {
    match file
    case Malformed => Failed(MalformedFile)
    case Parsed(records) =>
      if records == [] then Failed(EmptyFile)
      else Done([WriteSong(SongRowOf(records[0])), WriteArtist(ArtistRowOf(records[0]))])
  }

  /** The time rows of the NextSong events, one per event. */
  function TimeRows(plays: seq<LogEvent>): seq<TimeRow> {
    seq(|plays|, i requires 0 <= i < |plays| => TimeRowOf(plays[i].ts))
  }

  /** The user rows of all events of a file, one per event. */
  function UserRows(events: seq<LogEvent>): seq<UserRow> {
    seq(|events|, i requires 0 <= i < |events| => UserRowOf(events[i]))
  }

  /** The songplay rows of the NextSong events, each with the key the song
      lookup finds among the given songs and artists. */
  function SongplayRows(songs: seq<SongRow>, artists: seq<ArtistRow>, plays: seq<LogEvent>): seq<SongplayRow> {
    seq(|plays|, i requires 0 <= i < |plays| =>
      SongplayRowOf(plays[i], FindSong(songs, artists, plays[i].song, plays[i].artist, plays[i].length)))
  }

  function TimeWrites(rows: seq<TimeRow>): seq<Op> {
    seq(|rows|, i requires 0 <= i < |rows| => WriteTime(rows[i]))
  }

  function UserWrites(rows: seq<UserRow>): seq<Op> {
    seq(|rows|, i requires 0 <= i < |rows| => WriteUser(rows[i]))
  }

  function SongplayWrites(rows: seq<SongplayRow>): seq<Op> {
    seq(|rows|, i requires 0 <= i < |rows| => WriteSongplay(rows[i]))
  }

  /** A log-data file, processed against a store that has already seen log:
      a time row per NextSong event, then a user upsert per event of the
      file, then a songplay per NextSong event, each group in file order. */
  function LogFileOps(log: seq<Op>, file: Parsed<LogEvent>): FileResult {
    match file
    case Malformed => Failed(MalformedFile)
    case Parsed(events) =>
      var plays := NextSongEvents(events);
      if events == [] then Failed(EmptyFile)
      else if !TimestampsConvertible(plays) then Failed(TimestampOutOfRange)
      else Done(TimeWrites(TimeRows(plays)) + UserWrites(UserRows(events)) +
                SongplayWrites(SongplayRows(Songs(log), Artists(log), plays)))
  }

  function FileOps(log: seq<Op>, f: DataFile): FileResult {
    match f
    case SongFile(_, songs) => SongFileOps(songs)
    case LogFile(_, events) => LogFileOps(log, events)
  }

  /** How far a batch got: the log after it, the files processed and committed,
      and the error of the file that stopped it, if any. */
  datatype BatchResult = BatchResult(log: seq<Op>, processed: nat, failure: Option<Error>)

  /** The batch driver on the files in discovery order: each file's operations
      followed by a commit, stopping at the first file that fails. */
  function RunBatch(log: seq<Op>, files: seq<DataFile>): BatchResult
    decreases |files|
  {
    if files == [] then BatchResult(log, 0, None)
    else
      var before := RunBatch(log, files[..|files| - 1]);
      if before.failure.Some? then before
      else match FileOps(before.log, files[|files| - 1])
        case Failed(e) => BatchResult(before.log, before.processed, Some(e))
        case Done(ops) => BatchResult(before.log + ops + [Committed], before.processed + 1, None)
  }

  // ---------------------------------------------------------------------
  // Song-data files

  /** A song-data file fails exactly when it is unreadable or empty; otherwise
      it writes one song row and one artist row, both from its first record,
      and nothing else. */
  lemma SongFileWrites(file: Parsed<SongRecord>)
    ensures SongFileOps(file).Failed? <==> file.Malformed? || file.records == []
    ensures file.Malformed? ==> SongFileOps(file) == Failed(MalformedFile)
    ensures file.Parsed? && file.records == [] ==> SongFileOps(file) == Failed(EmptyFile)
    ensures SongFileOps(file).Done? ==>
      var r := file.records[0];
      var ops := SongFileOps(file).ops;
      && Songs(ops) == [SongRow(r.songId, r.title, r.artistId, r.year, r.duration)]
      && Artists(ops) == [ArtistRow(r.artistId, r.artistName, r.artistLocation, r.artistLatitude, r.artistLongitude)]
      && Times(ops) == [] && UserUpserts(ops) == [] && Songplays(ops) == [] && CommitCount(ops) == 0
  {
    if file.Parsed? && file.records != [] {
      var ops := SongFileOps(file).ops;
      assert ops == [ops[0]] + [ops[1]];
      ProjectAppend([ops[0]], [ops[1]], SongOf);
      ProjectAppend([ops[0]], [ops[1]], ArtistOf);
      ProjectAppend([ops[0]], [ops[1]], TimeOf);
      ProjectAppend([ops[0]], [ops[1]], UserOf);
      ProjectAppend([ops[0]], [ops[1]], SongplayOf);
      ProjectAppend([ops[0]], [ops[1]], CommitOf);
    }
  }

  /** Once a song-data file is loaded, a lookup by its record's title, artist
      name and duration finds a song; it is this record's song unless a song
      written earlier already matches. */
  lemma SongFileThenLookup(log: seq<Op>, file: Parsed<SongRecord>)
    requires SongFileOps(file).Done?
    ensures var r := file.records[0];
            var log' := log + SongFileOps(file).ops;
            var key := FindSong(Songs(log'), Artists(log'), Some(r.title), Some(r.artistName), Some(r.duration));
            && key.Some?
            && ((forall j :: 0 <= j < |Songs(log)| ==>
                   !Matches(Songs(log)[j], Artists(log'), Some(r.title), Some(r.artistName), Some(r.duration)))
                ==> key == Some(SongKey(r.songId, r.artistId)))
  {
    var r := file.records[0];
    var ops := SongFileOps(file).ops;
    var log' := log + ops;
    SongFileWrites(file);
    ProjectAppend(log, ops, SongOf);
    ProjectAppend(log, ops, ArtistOf);
    var songs, artists := Songs(log'), Artists(log');
    var k := |Songs(log)|;
    assert songs == Songs(log) + [SongRowOf(r)];
    assert ArtistRowOf(r) in artists;
    assert Matches(songs[k], artists, Some(r.title), Some(r.artistName), Some(r.duration));
    if forall j :: 0 <= j < k ==> !Matches(Songs(log)[j], artists, Some(r.title), Some(r.artistName), Some(r.duration)) {
      FindSongFirst(songs, artists, Some(r.title), Some(r.artistName), Some(r.duration), k);
    }
  }

  // ---------------------------------------------------------------------
  // Log-data files

  lemma TimeWritesProject(rows: seq<TimeRow>)
    ensures var t := TimeWrites(rows);
            && Times(t) == rows
            && UserUpserts(t) == [] && Songplays(t) == [] && Songs(t) == [] && Artists(t) == []
            && CommitCount(t) == 0
  {
    var t := TimeWrites(rows);
    ProjectAll(t, TimeOf);
    ProjectNone(t, UserOf);
    ProjectNone(t, SongplayOf);
    ProjectNone(t, SongOf);
    ProjectNone(t, ArtistOf);
    ProjectNone(t, CommitOf);
  }

  lemma UserWritesProject(rows: seq<UserRow>)
    ensures var u := UserWrites(rows);
            && UserUpserts(u) == rows
            && Times(u) == [] && Songplays(u) == [] && Songs(u) == [] && Artists(u) == []
            && CommitCount(u) == 0
  {
    var u := UserWrites(rows);
    ProjectAll(u, UserOf);
    ProjectNone(u, TimeOf);
    ProjectNone(u, SongplayOf);
    ProjectNone(u, SongOf);
    ProjectNone(u, ArtistOf);
    ProjectNone(u, CommitOf);
  }

  lemma SongplayWritesProject(rows: seq<SongplayRow>)
    ensures var s := SongplayWrites(rows);
            && Songplays(s) == rows
            && Times(s) == [] && UserUpserts(s) == [] && Songs(s) == [] && Artists(s) == []
            && CommitCount(s) == 0
  {
    var s := SongplayWrites(rows);
    ProjectAll(s, SongplayOf);
    ProjectNone(s, TimeOf);
    ProjectNone(s, UserOf);
    ProjectNone(s, SongOf);
    ProjectNone(s, ArtistOf);
    ProjectNone(s, CommitOf);
  }

  /** Time writes, then user upserts, then songplay writes: each table of the
      whole sees only its own group. */
  lemma GroupsProject(t: seq<Op>, u: seq<Op>, s: seq<Op>)
    requires UserUpserts(t) == [] && Songplays(t) == [] && Songs(t) == [] && Artists(t) == [] && CommitCount(t) == 0
    requires Times(u) == [] && Songplays(u) == [] && Songs(u) == [] && Artists(u) == [] && CommitCount(u) == 0
    requires Times(s) == [] && UserUpserts(s) == [] && Songs(s) == [] && Artists(s) == [] && CommitCount(s) == 0
    ensures var o := t + u + s;
            && Times(o) == Times(t) && UserUpserts(o) == UserUpserts(u) && Songplays(o) == Songplays(s)
            && Songs(o) == [] && Artists(o) == [] && CommitCount(o) == 0
  {
    ProjectAppend3(t, u, s, TimeOf);
    ProjectAppend3(t, u, s, UserOf);
    ProjectAppend3(t, u, s, SongplayOf);
    ProjectAppend3(t, u, s, SongOf);
    ProjectAppend3(t, u, s, ArtistOf);
    ProjectAppend3(t, u, s, CommitOf);
  }

  /** A log-data file that loads writes one time row and one songplay per
      NextSong event and one user upsert per event of any page, each group in
      file order, and no song, artist or commit. */
  lemma LogFileWrites(log: seq<Op>, file: Parsed<LogEvent>)
    ensures LogFileOps(log, file).Done? ==>
      var ops := LogFileOps(log, file).ops;
      var events := file.records;
      var plays := NextSongEvents(events);
      && Times(ops) == TimeRows(plays)
      && UserUpserts(ops) == UserRows(events)
      && Songplays(ops) == SongplayRows(Songs(log), Artists(log), plays)
      && Songs(ops) == [] && Artists(ops) == [] && CommitCount(ops) == 0
  {
    if LogFileOps(log, file).Done? {
      var events := file.records;
      var plays := NextSongEvents(events);
      var t, u := TimeWrites(TimeRows(plays)), UserWrites(UserRows(events));
      var s := SongplayWrites(SongplayRows(Songs(log), Artists(log), plays));
      TimeWritesProject(TimeRows(plays));
      UserWritesProject(UserRows(events));
      SongplayWritesProject(SongplayRows(Songs(log), Artists(log), plays));
      GroupsProject(t, u, s);
    }
  }

  /** A log-data file reports the first of its errors: unreadable, then empty,
      then a NextSong timestamp out of range. */
  lemma LogFileErrors(log: seq<Op>, file: Parsed<LogEvent>)
    ensures LogFileOps(log, file).Failed? <==>
            file.Malformed? || file.records == [] || !TimestampsConvertible(NextSongEvents(file.records))
    ensures file.Malformed? ==> LogFileOps(log, file) == Failed(MalformedFile)
    ensures file.Parsed? && file.records == [] ==> LogFileOps(log, file) == Failed(EmptyFile)
    ensures file.Parsed? && file.records != [] && !TimestampsConvertible(NextSongEvents(file.records)) ==>
            LogFileOps(log, file) == Failed(TimestampOutOfRange)
  {
  }

  /** The i-th time row and the i-th songplay carry the same start time: the
      timestamp of the i-th NextSong event. */
  lemma StartTimesAgree(log: seq<Op>, file: Parsed<LogEvent>, i: int)
    requires LogFileOps(log, file).Done?
    requires 0 <= i < |NextSongEvents(file.records)|
    ensures var ops := LogFileOps(log, file).ops;
            |Times(ops)| == |Songplays(ops)| == |NextSongEvents(file.records)| &&
            Times(ops)[i].startTime == Songplays(ops)[i].startTime == NextSongEvents(file.records)[i].ts
  {
    LogFileWrites(log, file);
  }

  /** The i-th songplay copies the i-th NextSong event's timestamp, user id,
      level, session id, location and user agent; its song and artist ids are
      both null when no catalog song matches the event's song, artist and
      length, and otherwise those of the first song that does. */
  lemma SongplayOfEvent(log: seq<Op>, file: Parsed<LogEvent>, i: int)
    requires LogFileOps(log, file).Done?
    requires 0 <= i < |NextSongEvents(file.records)|
    ensures var ops := LogFileOps(log, file).ops;
            var e := NextSongEvents(file.records)[i];
            var songs, artists := Songs(log), Artists(log);
            i < |Songplays(ops)| &&
            var p := Songplays(ops)[i];
            && p.startTime == e.ts && p.userId == e.userId && p.level == e.level
            && p.sessionId == e.sessionId && p.location == e.location && p.userAgent == e.userAgent
            && (p.songId.None? <==> p.artistId.None?)
            && (p.songId.None? <==>
                  forall j :: 0 <= j < |songs| ==> !Matches(songs[j], artists, e.song, e.artist, e.length))
            && (p.songId.Some? ==>
                  exists j :: 0 <= j < |songs| && Matches(songs[j], artists, e.song, e.artist, e.length) &&
                    p.songId == Some(songs[j].songId) && p.artistId == Some(songs[j].artistId) &&
                    forall k :: 0 <= k < j ==> !Matches(songs[k], artists, e.song, e.artist, e.length))
  {
    LogFileWrites(log, file);
  }

  /** The user upserts of a log-data file follow those already in the log. */
  lemma LogFileUserUpserts(log: seq<Op>, file: Parsed<LogEvent>)
    requires LogFileOps(log, file).Done?
    ensures UserUpserts(log + LogFileOps(log, file).ops) == UserUpserts(log) + UserRows(file.records)
  {
    LogFileWrites(log, file);
    ProjectAppend(log, LogFileOps(log, file).ops, UserOf);
  }

  /** After a log-data file, the user id of its i-th event, when no later
      event of the file has that id, holds that event's user row, whatever
      the event's page. */
  lemma LogFileLastUserWins(log: seq<Op>, file: Parsed<LogEvent>, i: int)
    requires LogFileOps(log, file).Done?
    requires 0 <= i < |file.records|
    requires forall j :: i < j < |file.records| ==> file.records[j].userId != file.records[i].userId
    ensures var e := file.records[i];
            var after := Latest(UserUpserts(log + LogFileOps(log, file).ops));
            e.userId in after && after[e.userId] == UserRowOf(e)
  {
    var events := file.records;
    var rows := UserRows(events);
    LogFileUserUpserts(log, file);
    assert rows[i] == UserRowOf(events[i]);
    assert forall j :: i < j < |rows| ==> rows[j].userId != rows[i].userId;
    LatestLastWrite(UserUpserts(log), rows, i);
  }

  /** A user id that no event of a log-data file has keeps its row in the
      users table, or stays absent. */
  lemma LogFileOtherUsersKept(log: seq<Op>, file: Parsed<LogEvent>, id: string)
    requires LogFileOps(log, file).Done?
    requires forall i :: 0 <= i < |file.records| ==> file.records[i].userId != id
    ensures var before := Latest(UserUpserts(log));
            var after := Latest(UserUpserts(log + LogFileOps(log, file).ops));
            && (id in after <==> id in before)
            && (id in before ==> after[id] == before[id])
  {
    var rows := UserRows(file.records);
    LogFileUserUpserts(log, file);
    assert forall i :: 0 <= i < |rows| ==> rows[i].userId != id;
    LatestUntouched(UserUpserts(log), rows, id);
  }

  /** Loading the same log-data file again issues the same operations, and
      the users table ends as after the first load. */
  lemma LogFileRerun(log: seq<Op>, file: Parsed<LogEvent>)
    requires LogFileOps(log, file).Done?
    ensures var ops := LogFileOps(log, file).ops;
            && LogFileOps(log + ops, file) == Done(ops)
            && Latest(UserUpserts(log + ops + ops)) == Latest(UserUpserts(log + ops))
  {
    var ops := LogFileOps(log, file).ops;
    LogFileWrites(log, file);
    ProjectAppend(log, ops, SongOf);
    ProjectAppend(log, ops, ArtistOf);
    assert Songs(log + ops) == Songs(log) && Artists(log + ops) == Artists(log);
    ProjectAppend(log + ops, ops, UserOf);
    ProjectAppend(log, ops, UserOf);
    UpsertIdempotent(UserUpserts(log), UserUpserts(ops));
  }

  // ---------------------------------------------------------------------
  // The batch driver

  lemma FileOpsCommitNothing(log: seq<Op>, f: DataFile)
    requires FileOps(log, f).Done?
    ensures CommitCount(FileOps(log, f).ops) == 0
  {
    match f
    case SongFile(_, songs) => SongFileWrites(songs);
    case LogFile(_, events) => LogFileWrites(log, events);
  }

  /** A processed file followed by its commit adds exactly one commit, which ends the log. */
  lemma CommitAfterFile(log: seq<Op>, f: DataFile)
    requires FileOps(log, f).Done?
    ensures var log' := log + FileOps(log, f).ops + [Committed];
            CommitCount(log') == CommitCount(log) + 1 && log'[|log'| - 1] == Committed
  {
    var ops := FileOps(log, f).ops;
    FileOpsCommitNothing(log, f);
    ProjectAppend(log, ops, CommitOf);
    ProjectSnoc(log + ops, Committed, CommitOf);
  }

  /** Files are processed in order and the batch stops at its first failing
      file, whose error it reports, with every earlier file processed; with
      no failure every file is processed. */
  lemma {:induction false} RunBatchProgress(log: seq<Op>, files: seq<DataFile>)
    ensures var r := RunBatch(log, files);
      && r.processed <= |files|
      && (r.failure.None? ==> r.processed == |files|)
      && (r.failure.Some? ==>
            r.processed < |files| && FileOps(r.log, files[r.processed]) == Failed(r.failure.value))
      && RunBatch(log, files[..r.processed]) == BatchResult(r.log, r.processed, None)
    decreases |files|
  {
    if files == [] {
      assert files[..0] == files;
    } else {
      var n := |files|;
      var front := files[..n - 1];
      var before := RunBatch(log, front);
      RunBatchProgress(log, front);
      if before.failure.Some? {
        assert front[..before.processed] == files[..before.processed];
        assert front[before.processed] == files[before.processed];
      } else {
        assert front[..before.processed] == front;
        assert files[..n] == files;
      }
    }
  }

  /** Each processed file is followed by exactly one commit and nothing is
      written after the last commit. */
  lemma {:induction false} RunBatchCommits(log: seq<Op>, files: seq<DataFile>)
    ensures var r := RunBatch(log, files);
      && CommitCount(r.log) == CommitCount(log) + r.processed
      && (r.processed == 0 ==> r.log == log)
      && (r.processed > 0 ==> |r.log| > 0 && r.log[|r.log| - 1] == Committed)
    decreases |files|
  {
    if files != [] {
      var n := |files|;
      var front := files[..n - 1];
      var before := RunBatch(log, front);
      RunBatchCommits(log, front);
      assert files[..n - 1] == front;
      if before.failure.None? {
        var res := FileOps(before.log, files[n - 1]);
        if res.Done? {
          assert RunBatch(log, files) == BatchResult(before.log + res.ops + [Committed], before.processed + 1, None);
          CommitAfterFile(before.log, files[n - 1]);
        } else {
          assert RunBatch(log, files) == BatchResult(before.log, before.processed, Some(res.error));
        }
      } else {
        assert RunBatch(log, files) == before;
      }
    }
  }

  /** One more file after a prefix that ran without failure. */
  lemma RunBatchStep(log: seq<Op>, files: seq<DataFile>, i: nat, current: seq<Op>)
    requires i < |files|
    requires RunBatch(log, files[..i]) == BatchResult(current, i, None)
    ensures match FileOps(current, files[i])
      case Done(ops) => RunBatch(log, files[..i + 1]) == BatchResult(current + ops + [Committed], i + 1, None)
      case Failed(e) => RunBatch(log, files[..i + 1]) == BatchResult(current, i, Some(e))
  {
    assert files[..i + 1][..i] == files[..i];
  }

  /** A batch that has failed on a prefix of the files ignores the rest. */
  lemma {:induction false} RunBatchStops(log: seq<Op>, files: seq<DataFile>, k: nat)
    requires k <= |files|
    requires RunBatch(log, files[..k]).failure.Some?
    ensures RunBatch(log, files) == RunBatch(log, files[..k])
    decreases |files| - k
  {
    if k == |files| {
      assert files[..k] == files;
    } else {
      var front := files[..|files| - 1];
      assert front[..k] == files[..k];
      RunBatchStops(log, front, k);
    }
  }

  /** Extending a prefix of s, appended to a, by one element. */
  lemma PrefixSnoc<T>(a: seq<T>, s: seq<T>, i: int)
    requires 0 <= i < |s|
    ensures a + s[..i + 1] == a + s[..i] + [s[i]]
  {
    assert s[..i + 1] == s[..i] + [s[i]];
  }

  lemma AppendAssoc<T>(a: seq<T>, b: seq<T>, c: seq<T>, d: seq<T>)
    ensures a + b + c + d == a + (b + c + d)
  {
  }

  /** One progress report: done of total files processed. */
  datatype Progress = Progress(done: nat, total: nat)

  /** The reports after done of total files: 1 of total, 2 of total, and so on. */
  function Reports(done: nat, total: nat): (r: seq<Progress>)
    ensures |r| == done
    ensures forall k :: 0 <= k < done ==> r[k] == Progress(k + 1, total)
  {
    if done == 0 then [] else Reports(done - 1, total) + [Progress(done, total)]
  }

  /** Loads one song-data file: the song row, then the artist row, of its first record. */
  method ProcessSongFile(store: Store, file: Parsed<SongRecord>) returns (failure: Option<Error>)
    requires store.Valid()
    modifies store
    ensures store.Valid()
    ensures match SongFileOps(file)
      case Done(ops) => failure.None? && store.log == old(store.log) + ops
      case Failed(e) => failure == Some(e) && store.log == old(store.log)
  {
    if file.Malformed? {
      return Some(MalformedFile);
    }
    var records := file.records;
    if |records| == 0 {
      return Some(EmptyFile);
    }
    store.InsertSong(SongRowOf(records[0]));
    store.InsertArtist(ArtistRowOf(records[0]));
    failure := None;
  }

  /** Inserts the time rows, in order. */
  method InsertTimes(store: Store, rows: seq<TimeRow>)
    requires store.Valid()
    modifies store
    ensures store.Valid() && store.log == old(store.log) + TimeWrites(rows)
  {
    ghost var log0, t := store.log, TimeWrites(rows);
    for i := 0 to |rows|
      invariant store.Valid()
      invariant store.log == log0 + t[..i]
    {
      store.InsertTime(rows[i]);
      PrefixSnoc(log0, t, i);
    }
    assert t[..|rows|] == t;
  }

  /** Upserts the user rows, in order. */
  method UpsertUsers(store: Store, rows: seq<UserRow>)
    requires store.Valid()
    modifies store
    ensures store.Valid() && store.log == old(store.log) + UserWrites(rows)
  {
    ghost var log0, u := store.log, UserWrites(rows);
    for j := 0 to |rows|
      invariant store.Valid()
      invariant store.log == log0 + u[..j]
    {
      store.UpsertUser(rows[j]);
      PrefixSnoc(log0, u, j);
    }
    assert u[..|rows|] == u;
  }

  lemma SongplayKeepsCatalog(log: seq<Op>, row: SongplayRow)
    ensures Songs(log + [WriteSongplay(row)]) == Songs(log)
    ensures Artists(log + [WriteSongplay(row)]) == Artists(log)
  {
    ProjectSnoc(log, WriteSongplay(row), SongOf);
    ProjectSnoc(log, WriteSongplay(row), ArtistOf);
  }

  /** Looks up the song key of each NextSong event and inserts its songplay,
      in order; the lookups see the songs and artists already in the store. */
  method InsertSongplays(store: Store, plays: seq<LogEvent>)
    requires store.Valid()
    modifies store
    ensures store.Valid()
    ensures store.log == old(store.log) + SongplayWrites(SongplayRows(Songs(old(store.log)), Artists(old(store.log)), plays))
  {
    ghost var log0 := store.log;
    ghost var songs0, artists0 := Songs(log0), Artists(log0);
    ghost var rows := SongplayRows(songs0, artists0, plays);
    ghost var s := SongplayWrites(rows);
    for k := 0 to |plays|
      invariant store.Valid()
      invariant store.log == log0 + s[..k]
      invariant Songs(store.log) == songs0 && Artists(store.log) == artists0
    {
      var key := store.SelectSong(plays[k].song, plays[k].artist, plays[k].length);
      var row := SongplayRowOf(plays[k], key);
      assert rows[k] == row;
      SongplayKeepsCatalog(store.log, row);
      store.InsertSongplay(row);
      PrefixSnoc(log0, s, k);
    }
    assert s[..|plays|] == s;
  }

  /** The time rows and user upserts of a log-data file leave the songs and
      artists that its lookups see as they were. */
  lemma CatalogAfterTimesAndUsers(log: seq<Op>, times: seq<TimeRow>, users: seq<UserRow>)
    ensures var log' := log + TimeWrites(times) + UserWrites(users);
            Songs(log') == Songs(log) && Artists(log') == Artists(log)
  {
    var t, u := TimeWrites(times), UserWrites(users);
    ProjectNone(t, SongOf);
    ProjectNone(t, ArtistOf);
    ProjectNone(u, SongOf);
    ProjectNone(u, ArtistOf);
    ProjectAppend3(log, t, u, SongOf);
    ProjectAppend3(log, t, u, ArtistOf);
  }

  /** Loads one log-data file: the time rows of its NextSong events, then a
      user upsert per event, then a songplay per NextSong event with the song
      key looked up in the store. */
  method ProcessLogFile(store: Store, file: Parsed<LogEvent>) returns (failure: Option<Error>)
    requires store.Valid()
    modifies store
    ensures store.Valid()
    ensures match LogFileOps(old(store.log), file)
      case Done(ops) => failure.None? && store.log == old(store.log) + ops
      case Failed(e) => failure == Some(e) && store.log == old(store.log)
  {
    if file.Malformed? {
      return Some(MalformedFile);
    }
    var events := file.records;
    if |events| == 0 {
      return Some(EmptyFile);
    }
    var plays := NextSongEvents(events);
    if !TimestampsConvertible(plays) {
      return Some(TimestampOutOfRange);
    }
    ghost var log0 := store.log;
    var timeRows := TimeRows(plays);
    InsertTimes(store, timeRows);
    var userRows := UserRows(events);
    UpsertUsers(store, userRows);
    CatalogAfterTimesAndUsers(log0, timeRows, userRows);
    InsertSongplays(store, plays);
    AppendAssoc(log0, TimeWrites(timeRows), UserWrites(userRows),
                SongplayWrites(SongplayRows(Songs(log0), Artists(log0), plays)));
    failure := None;
  }

  /** Applies the per-file function that the file's kind calls for. */
  method ProcessFile(store: Store, f: DataFile) returns (failure: Option<Error>)
    requires store.Valid()
    modifies store
    ensures store.Valid()
    ensures match FileOps(old(store.log), f)
      case Done(ops) => failure.None? && store.log == old(store.log) + ops
      case Failed(e) => failure == Some(e) && store.log == old(store.log)
  {
    match f
    case SongFile(_, songs) =>
      failure := ProcessSongFile(store, songs);
    case LogFile(_, events) =>
      failure := ProcessLogFile(store, events);
  }

  /** The batch driver: reports how many files were found, then processes
      them in order, committing after each and reporting i of N processed,
      until a file fails. */
  method ProcessData(store: Store, files: seq<DataFile>)
    returns (found: nat, progress: seq<Progress>, failure: Option<Error>)
    requires store.Valid()
    modifies store
    ensures store.Valid()
    ensures found == |files|
    ensures var r := RunBatch(old(store.log), files);
            && store.log == r.log && failure == r.failure
            && progress == Reports(r.processed, |files|)
  {
    found := |files|;
    progress := [];
    failure := None;
    ghost var log0 := store.log;
    var i := 0;
    while i < |files|
      invariant 0 <= i <= |files|
      invariant store.Valid()
      invariant RunBatch(log0, files[..i]) == BatchResult(store.log, i, None) && failure.None?
      invariant progress == Reports(i, |files|)
    {
      ghost var current := store.log;
      ghost var result := FileOps(current, files[i]);
      RunBatchStep(log0, files, i, current);
      failure := ProcessFile(store, files[i]);
      if failure.Some? {
        assert result.Failed? && failure == Some(result.error) && store.log == current;
        RunBatchStops(log0, files, i + 1);
        return;
      }
      assert result.Done? && store.log == current + result.ops;
      store.Commit();
      progress := progress + [Progress(i + 1, |files|)];
      i := i + 1;
    }
    assert files[..|files|] == files;
  }
}
