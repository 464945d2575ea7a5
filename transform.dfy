/**
  The pure part of the transform: the rows built from one song-data record,
  the NextSong filter, the time row of a timestamp, the user row of an event
  and the songplay row of an event with its looked-up song key.
 */
module Transform {
  import opened Records
  import opened Calendar

  /** The song row: song id, title, artist id, year and duration of the record. */
  function SongRowOf(r: SongRecord): SongRow {
    SongRow(r.songId, r.title, r.artistId, r.year, r.duration)
  }

  /** The artist row: artist id, name, location, latitude and longitude of the record. */
  function ArtistRowOf(r: SongRecord): ArtistRow {
    ArtistRow(r.artistId, r.artistName, r.artistLocation, r.artistLatitude, r.artistLongitude)
  }

  const NextSongPage: string := "NextSong"

  predicate IsNextSong(e: LogEvent) {
    e.page == NextSongPage
  }

  /** The events whose page is NextSong, in their original order. */
  function NextSongEvents(events: seq<LogEvent>): (plays: seq<LogEvent>)
    ensures |plays| <= |events|
    ensures forall i :: 0 <= i < |plays| ==> IsNextSong(plays[i])
  {
    if events == [] then []
    else
      var last := events[|events| - 1];
      NextSongEvents(events[..|events| - 1]) + if IsNextSong(last) then [last] else []
  }

  /** The plays are exactly the NextSong events: every event whose page is
      NextSong is kept, and nothing else is. */
  lemma {:induction false} NextSongEventsMembers(events: seq<LogEvent>)
    ensures forall e :: e in NextSongEvents(events) <==> e in events && IsNextSong(e)
  {
    if events != [] {
      var front, last := events[..|events| - 1], events[|events| - 1];
      NextSongEventsMembers(front);
      assert events == front + [last];
    }
  }

  /** Filtering keeps order: the filter of a concatenation is the concatenation of the filters. */
  lemma {:induction false} NextSongEventsAppend(a: seq<LogEvent>, b: seq<LogEvent>)
    ensures NextSongEvents(a + b) == NextSongEvents(a) + NextSongEvents(b)
    decreases |b|
  {
    if b == [] {
      assert a + b == a;
    } else {
      var b' := b[..|b| - 1];
      assert b == b' + [b[|b| - 1]];
      assert (a + b)[..|a + b| - 1] == a + b';
      NextSongEventsAppend(a, b');
    }
  }

  /** The largest magnitude, in milliseconds, that converts to a nanosecond
      instant held in a signed 64-bit integer (about 1677-09-21 to 2262-04-11). */
  const MaxTimestampMs: int := 9223372036854

  predicate InTimestampRange(ts: int) {
    -MaxTimestampMs <= ts <= MaxTimestampMs
  }

  predicate TimestampsConvertible(plays: seq<LogEvent>) {
    forall i :: 0 <= i < |plays| ==> InTimestampRange(plays[i].ts)
  }

  /** The time row of a millisecond timestamp read as a naive UTC instant.
      The date and hour fields locate the instant, the week is the ISO 8601
      week and the weekday counts Monday as 0, both of the same date. */
  function TimeRowOf(ts: int): (r: TimeRow)
    ensures r.startTime == ts
    ensures 0 <= r.hour <= 23 && 1 <= r.month <= 12 && 1 <= r.week <= 53 && 0 <= r.weekday <= 6
    ensures ValidDate(Date(r.year, r.month, r.day))
    ensures var n := DaysFromCivil(Date(r.year, r.month, r.day));
            && n * MsPerDay + r.hour * MsPerHour <= ts < n * MsPerDay + (r.hour + 1) * MsPerHour
            && r.weekday == Weekday(n)
            && r.week == IsoWeek(n)
  {
    var n := ts / MsPerDay;
    var d := CivilFromDays(n);
    HourOfDayLocates(ts);
    TimeRow(ts, HourOfDay(ts), d.day, IsoWeek(n), d.month, d.year, Weekday(n))
  }

  /** Only one date and hour locate a given instant, so the contract of
      TimeRowOf fixes its calendar fields. */
  lemma TimeRowFieldsUnique(ts: int, y: int, m: int, d: int, h: int)
    requires ValidDate(Date(y, m, d)) && 0 <= h <= 23
    requires var n := DaysFromCivil(Date(y, m, d));
             n * MsPerDay + h * MsPerHour <= ts < n * MsPerDay + (h + 1) * MsPerHour
    ensures var r := TimeRowOf(ts);
            r.year == y && r.month == m && r.day == d && r.hour == h
  {
    var r := TimeRowOf(ts);
    var n := DaysFromCivil(Date(y, m, d));
    var n' := DaysFromCivil(Date(r.year, r.month, r.day));
    assert n == n' by {
      assert n * MsPerDay <= ts < (n + 1) * MsPerDay;
      assert n' * MsPerDay <= ts < (n' + 1) * MsPerDay;
    }
    DaysFromCivilInjective(Date(y, m, d), Date(r.year, r.month, r.day));
  }

  /** The user row: user id, first and last name, gender and level of the event. */
  function UserRowOf(e: LogEvent): UserRow {
    UserRow(e.userId, e.firstName, e.lastName, e.gender, e.level)
  }

  /** The songplay row of an event, with the song and artist ids found for it or nulls. */
  function SongplayRowOf(e: LogEvent, key: Option<SongKey>): SongplayRow {
    SongplayRow(
      e.ts, e.userId, e.level,
      if key.Some? then Some(key.value.songId) else None,
      if key.Some? then Some(key.value.artistId) else None,
      e.sessionId, e.location, e.userAgent)
  }
}
