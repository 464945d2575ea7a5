/**
  A small end-to-end run: one song-data file, then one log-data file of
  three events of one user, of which only the middle one is a NextSong play
  of that song; and a play of a song the catalog does not hold.
 */
module Scenarios {
  import opened Records
  import opened Store
  import opened Transform
  import opened Etl

  const Duration: Float := Float(0x4063_1D73_96D0_917D)  // 152.92036

  const Catalog: SongRecord :=
    SongRecord("SOSZMXF12A8C133DF5", "In The Dark", "ARXR32B1187FB57099", 0, Duration,
               "Gene Krupa", None, None, None)

  function Event(ts: int, page: string, song: Text, artist: Text, length: Option<Float>): LogEvent {
    LogEvent(ts, "10", Some("Sylvie"), Some("Cruz"), Some("F"), "free", page,
             song, artist, length, 9, Some("Washington-Arlington-Alexandria, DC-VA-MD-WV"), None)
  }

  const Home: LogEvent := Event(1541903636796, "Home", None, None, None)
  const Play: LogEvent := Event(1541903770796, "NextSong", Some("In The Dark"), Some("Gene Krupa"), Some(Duration))
  /** The user upgrades before logging out, so the last event's level is paid. */
  const Logout: LogEvent := Event(1541903800796, "Logout", None, None, None).(level := "paid")

  const Files: seq<DataFile> := [
    SongFile("song_data/A/TRAAAAW128F429D538.json", Parsed([Catalog])),
    LogFile("log_data/2018/11/2018-11-11-events.json", Parsed([Home, Play, Logout]))
  ]

  /** Only the middle event is a NextSong play. */
  lemma PlaysOfTheLog()
    ensures NextSongEvents([Home, Play, Logout]) == [Play]
  {
    assert !IsNextSong(Home) && IsNextSong(Play) && !IsNextSong(Logout);
    assert NextSongEvents([]) == [];
    assert [Home][..0] == [];
    assert NextSongEvents([Home]) == [];
    assert [Home, Play][..1] == [Home];
    assert NextSongEvents([Home, Play]) == [Play];
    assert [Home, Play, Logout][..2] == [Home, Play];
  }

  /** The log after the song-data file and its commit. */
  const SongLog: seq<Op> := [WriteSong(SongRowOf(Catalog)), WriteArtist(ArtistRowOf(Catalog)), Committed]

  const Key: SongKey := SongKey("SOSZMXF12A8C133DF5", "ARXR32B1187FB57099")

  /** The song-data file commits its song and artist, and the play's lookup then finds them. */
  lemma SongStage()
    ensures RunBatch([], Files[..1]) == BatchResult(SongLog, 1, None)
    ensures FindSong(Songs(SongLog), Artists(SongLog), Play.song, Play.artist, Play.length) == Some(Key)
  {
    assert Files[..1][..0] == [];
    var ops1 := SongFileOps(Files[0].songs).ops;
    assert [] + ops1 + [Committed] == SongLog;
    SongFileThenLookup([], Files[0].songs);
    assert [] + ops1 == ops1;
    ProjectAppend(ops1, [Committed], SongOf);
    ProjectAppend(ops1, [Committed], ArtistOf);
  }

  /** The song-data file wrote no time, user or songplay rows. */
  lemma SongLogRows()
    ensures Times(SongLog) == [] && UserUpserts(SongLog) == [] && Songplays(SongLog) == []
  {
    ProjectNone(SongLog, TimeOf);
    ProjectNone(SongLog, UserOf);
    ProjectNone(SongLog, SongplayOf);
  }

  /** Against that log, the log-data file writes one time row, three user
      upserts and one songplay carrying the catalog record's ids. */
  lemma LogStage()
    ensures LogFileOps(SongLog, Files[1].events).Done?
    ensures var ops := LogFileOps(SongLog, Files[1].events).ops;
            && |Times(ops)| == 1 && UserUpserts(ops) == UserRows([Home, Play, Logout])
            && Songplays(ops) == [SongplayRowOf(Play, Some(Key))]
            && CommitCount(ops) == 0
  {
    PlaysOfTheLog();
    SongStage();
    LogFileWrites(SongLog, Files[1].events);
  }

  /** Both files load and each is followed by its commit. */
  lemma BatchStage()
    ensures LogFileOps(SongLog, Files[1].events).Done?
    ensures var log := SongLog + LogFileOps(SongLog, Files[1].events).ops + [Committed];
            RunBatch([], Files) == BatchResult(log, 2, None) && CommitCount(log) == 2
  {
    SongStage();
    LogStage();
    RunBatchStep([], Files, 1, SongLog);
    assert Files[..2] == Files;
    CommitAfterFile(SongLog, Files[1]);
    var writes := SongLog[..2];
    assert SongLog == writes + [Committed];
    ProjectNone(writes, CommitOf);
    ProjectSnoc(writes, Committed, CommitOf);
  }

  /** A committed file's rows are the only time, user and songplay rows of a
      log that had none before it. */
  lemma FirstFileRows(before: seq<Op>, ops: seq<Op>)
    requires Times(before) == [] && UserUpserts(before) == [] && Songplays(before) == []
    ensures var log := before + ops + [Committed];
            && Times(log) == Times(ops)
            && UserUpserts(log) == UserUpserts(ops)
            && Songplays(log) == Songplays(ops)
  {
    ProjectNone([Committed], TimeOf);
    ProjectNone([Committed], UserOf);
    ProjectNone([Committed], SongplayOf);
    ProjectAppend3(before, ops, [Committed], TimeOf);
    ProjectAppend3(before, ops, [Committed], UserOf);
    ProjectAppend3(before, ops, [Committed], SongplayOf);
  }

  /** The three upserts share user id 10, so one row remains: the last event's. */
  lemma OneNetUser()
    ensures Latest(UserRows([Home, Play, Logout])) == map["10" := UserRowOf(Logout)]
  {
    var rows := UserRows([Home, Play, Logout]);
    assert rows == [UserRowOf(Home)] + [UserRowOf(Play)] + [UserRowOf(Logout)];
    LatestSnoc([], UserRowOf(Home));
    LatestSnoc([UserRowOf(Home)], UserRowOf(Play));
    LatestSnoc([UserRowOf(Home)] + [UserRowOf(Play)], UserRowOf(Logout));
  }

  /** Both files load and commit; the run writes one time row, three user
      upserts that leave one user row, and one songplay, whose song and
      artist ids are those of the catalog record. */
  lemma OneSongOnePlay()
    ensures var r := RunBatch([], Files);
            && r.processed == 2 && r.failure == None && CommitCount(r.log) == 2
            && |Times(r.log)| == 1 && |UserUpserts(r.log)| == 3
            && Latest(UserUpserts(r.log)) == map["10" := UserRowOf(Logout)]
            && Songplays(r.log) == [SongplayRowOf(Play, Some(Key))]
            && Songplays(r.log)[0].songId == Some("SOSZMXF12A8C133DF5")
            && Songplays(r.log)[0].artistId == Some("ARXR32B1187FB57099")
  {
    BatchStage();
    LogStage();
    SongLogRows();
    var ops := LogFileOps(SongLog, Files[1].events).ops;
    FirstFileRows(SongLog, ops);
    OneNetUser();
    var k := SongplayRowOf(Play, Some(Key));
    assert Songplays(RunBatch([], Files).log) == [k];
  }

  /** A NextSong event of a song the catalog does not hold. */
  const Unknown: LogEvent := Event(1541903900796, "NextSong", Some("Outro"), Some("Gene Krupa"), Some(Duration))

  /** The song log's catalog: the one song and the one artist of the record. */
  lemma SongLogCatalog()
    ensures Songs(SongLog) == [SongRowOf(Catalog)] && Artists(SongLog) == [ArtistRowOf(Catalog)]
  {
    var w0, w1 := WriteSong(SongRowOf(Catalog)), WriteArtist(ArtistRowOf(Catalog));
    assert [w0][..0] == [];
    assert [w0, w1][..1] == [w0];
    assert SongLog[..2] == [w0, w1];
    ProjectSnoc([], w0, SongOf);
    ProjectSnoc([w0], w1, SongOf);
    ProjectSnoc([w0, w1], Committed, SongOf);
    ProjectSnoc([], w0, ArtistOf);
    ProjectSnoc([w0], w1, ArtistOf);
    ProjectSnoc([w0, w1], Committed, ArtistOf);
  }

  /** No catalog song has the unknown event's title. */
  lemma UnknownNotFound()
    ensures FindSong(Songs(SongLog), Artists(SongLog), Unknown.song, Unknown.artist, Unknown.length) == None
  {
    SongLogCatalog();
    assert !Matches(SongRowOf(Catalog), Artists(SongLog), Unknown.song, Unknown.artist, Unknown.length);
  }

  /** A play with no catalog counterpart is still loaded, with null song and artist ids. */
  lemma UnmatchedPlay()
    ensures LogFileOps(SongLog, Parsed([Unknown])).Done?
    ensures Songplays(LogFileOps(SongLog, Parsed([Unknown])).ops) == [SongplayRowOf(Unknown, None)]
  {
    assert [Unknown][..0] == [];
    assert NextSongEvents([Unknown]) == [Unknown];
    UnknownNotFound();
    LogFileWrites(SongLog, Parsed([Unknown]));
  }

  /** The catalog file alone gives one song row and one artist row with the record's values. */
  lemma CatalogFileRows()
    ensures var r := RunBatch([], Files[..1]);
            && r.processed == 1 && r.failure == None && CommitCount(r.log) == 1
            && Songs(r.log) == [SongRow("SOSZMXF12A8C133DF5", "In The Dark", "ARXR32B1187FB57099", 0, Duration)]
            && Artists(r.log) == [ArtistRow("ARXR32B1187FB57099", "Gene Krupa", None, None, None)]
  {
    SongStage();
    SongLogCatalog();
    var writes := SongLog[..2];
    assert SongLog == writes + [Committed];
    ProjectNone(writes, CommitOf);
    ProjectSnoc(writes, Committed, CommitOf);
  }
}
