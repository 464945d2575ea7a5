/**
  The database the pipeline writes to, seen through what is written to it:
  an ordered log of the insert, upsert and commit operations the pipeline
  issues, and the users table kept by user id with the latest upsert winning.
  The songs and artists written so far answer the song lookup.
 */
module Store {
  import opened Records

  /** One write issued through the cursor, or a commit on the connection. */
  datatype Op =
    | WriteSong(song: SongRow)
    | WriteArtist(artist: ArtistRow)
    | WriteTime(time: TimeRow)
    | WriteUser(user: UserRow)
    | WriteSongplay(songplay: SongplayRow)
    | Committed

  /** The items that pick selects from the log, in log order. */
  function Project<T>(log: seq<Op>, pick: Op -> Option<T>): seq<T>
  {
    if log == [] then []
    else
      Project(log[..|log| - 1], pick) +
      match pick(log[|log| - 1]) case Some(x) => [x] case None => []
  }

  lemma ProjectSnoc<T>(log: seq<Op>, op: Op, pick: Op -> Option<T>)
    ensures pick(op).None? ==> Project(log + [op], pick) == Project(log, pick)
    ensures pick(op).Some? ==> Project(log + [op], pick) == Project(log, pick) + [pick(op).value]
  {
    assert (log + [op])[..|log|] == log;
  }

  /** Projection distributes over concatenation of logs. */
  lemma {:induction false} ProjectAppend<T>(a: seq<Op>, b: seq<Op>, pick: Op -> Option<T>)
    ensures Project(a + b, pick) == Project(a, pick) + Project(b, pick)
    decreases |b|
  {
    if b == [] {
      assert a + b == a;
    } else {
      var b' := b[..|b| - 1];
      var op := b[|b| - 1];
      assert b == b' + [op];
      assert a + b == (a + b') + [op];
      ProjectAppend(a, b', pick);
      ProjectSnoc(a + b', op, pick);
      ProjectSnoc(b', op, pick);
    }
  }

  lemma ProjectAppend3<T>(a: seq<Op>, b: seq<Op>, c: seq<Op>, pick: Op -> Option<T>)
    ensures Project(a + b + c, pick) == Project(a, pick) + Project(b, pick) + Project(c, pick)
  {
    ProjectAppend(a + b, c, pick);
    ProjectAppend(a, b, pick);
  }

  /** A log none of whose operations pick selects projects to nothing. */
  lemma {:induction false} ProjectNone<T>(s: seq<Op>, pick: Op -> Option<T>)
    requires forall i :: 0 <= i < |s| ==> pick(s[i]).None?
    ensures Project(s, pick) == []
    decreases |s|
  {
    if s != [] {
      ProjectNone(s[..|s| - 1], pick);
    }
  }

  /** A log all of whose operations pick selects projects element by element. */
  lemma {:induction false} ProjectAll<T>(s: seq<Op>, pick: Op -> Option<T>)
    requires forall i :: 0 <= i < |s| ==> pick(s[i]).Some?
    ensures |Project(s, pick)| == |s|
    ensures forall i :: 0 <= i < |s| ==> Project(s, pick)[i] == pick(s[i]).value
    decreases |s|
  {
    if s != [] {
      ProjectAll(s[..|s| - 1], pick);
    }
  }

  function SongOf(op: Op): Option<SongRow> {
    if op.WriteSong? then Some(op.song) else None
  }

  function ArtistOf(op: Op): Option<ArtistRow> {
    if op.WriteArtist? then Some(op.artist) else None
  }

  function TimeOf(op: Op): Option<TimeRow> {
    if op.WriteTime? then Some(op.time) else None
  }

  function UserOf(op: Op): Option<UserRow> {
    if op.WriteUser? then Some(op.user) else None
  }

  function SongplayOf(op: Op): Option<SongplayRow> {
    if op.WriteSongplay? then Some(op.songplay) else None
  }

  function CommitOf(op: Op): Option<Op> {
    if op.Committed? then Some(op) else None
  }

  function Songs(log: seq<Op>): seq<SongRow> { Project(log, SongOf) }
  function Artists(log: seq<Op>): seq<ArtistRow> { Project(log, ArtistOf) }
  function Times(log: seq<Op>): seq<TimeRow> { Project(log, TimeOf) }
  function UserUpserts(log: seq<Op>): seq<UserRow> { Project(log, UserOf) }
  function Songplays(log: seq<Op>): seq<SongplayRow> { Project(log, SongplayOf) }
  function CommitCount(log: seq<Op>): nat { |Project(log, CommitOf)| }

  /** The users table after a sequence of upserts: each user id holds the last row written for it. */
  function Latest(rows: seq<UserRow>): map<string, UserRow>
  {
    if rows == [] then map[]
    else Latest(rows[..|rows| - 1])[rows[|rows| - 1].userId := rows[|rows| - 1]]
  }

  lemma LatestSnoc(rows: seq<UserRow>, u: UserRow)
    ensures Latest(rows + [u]) == Latest(rows)[u.userId := u]
  {
    assert (rows + [u])[..|rows|] == rows;
  }

  /** Upserting a batch after a table overrides the table key by key. */
  lemma {:induction false} LatestAppend(a: seq<UserRow>, b: seq<UserRow>)
    ensures Latest(a + b) == Latest(a) + Latest(b)
    decreases |b|
  {
    if b == [] {
      assert a + b == a;
    } else {
      var b' := b[..|b| - 1];
      var u := b[|b| - 1];
      assert b == b' + [u];
      assert a + b == (a + b') + [u];
      LatestAppend(a, b');
      LatestSnoc(a + b', u);
      LatestSnoc(b', u);
    }
  }

  /** A user id is in the table exactly when some upsert wrote it. */
  lemma {:induction false} LatestDomain(rows: seq<UserRow>, id: string)
    ensures id in Latest(rows) <==> exists i :: 0 <= i < |rows| && rows[i].userId == id
    decreases |rows|
  {
    if rows != [] {
      var r' := rows[..|rows| - 1];
      LatestDomain(r', id);
      if rows[|rows| - 1].userId != id {
        forall i | 0 <= i < |rows| && rows[i].userId == id
          ensures i < |r'| && r'[i].userId == id
        {
        }
        forall i | 0 <= i < |r'| && r'[i].userId == id
          ensures rows[i].userId == id
        {
        }
      }
    }
  }

  /** The row a user id holds is the one from the last upsert for that id. */
  lemma {:induction false} LatestIsLastWrite(rows: seq<UserRow>, id: string)
    ensures forall i :: 0 <= i < |rows| && rows[i].userId == id &&
                        (forall j :: i < j < |rows| ==> rows[j].userId != id) ==>
                        id in Latest(rows) && Latest(rows)[id] == rows[i]
    decreases |rows|
  {
    if rows != [] {
      var r' := rows[..|rows| - 1];
      var u := rows[|rows| - 1];
      LatestIsLastWrite(r', id);
      forall i | 0 <= i < |rows| && rows[i].userId == id &&
                 (forall j :: i < j < |rows| ==> rows[j].userId != id)
        ensures id in Latest(rows) && Latest(rows)[id] == rows[i]
      {
        if u.userId == id {
          assert i == |rows| - 1;
        } else {
          assert i < |r'| && r'[i] == rows[i];
          assert forall j :: i < j < |r'| ==> r'[j].userId != id;
        }
      }
    }
  }

  /** After a batch of upserts on a table, the id of the batch's i-th row,
      when no later row of the batch has that id, holds that row. */
  lemma LatestLastWrite(table: seq<UserRow>, batch: seq<UserRow>, i: int)
    requires 0 <= i < |batch|
    requires forall j :: i < j < |batch| ==> batch[j].userId != batch[i].userId
    ensures batch[i].userId in Latest(table + batch)
    ensures Latest(table + batch)[batch[i].userId] == batch[i]
  {
    LatestAppend(table, batch);
    LatestIsLastWrite(batch, batch[i].userId);
  }

  /** An id that no row of the batch has keeps its previous row, or stays absent. */
  lemma LatestUntouched(table: seq<UserRow>, batch: seq<UserRow>, id: string)
    requires forall i :: 0 <= i < |batch| ==> batch[i].userId != id
    ensures id in Latest(table + batch) <==> id in Latest(table)
    ensures id in Latest(table) ==> Latest(table + batch)[id] == Latest(table)[id]
  {
    LatestAppend(table, batch);
    LatestDomain(batch, id);
  }

  /** Repeating the same batch of upserts leaves the table as one pass left it. */
  lemma UpsertIdempotent(table: seq<UserRow>, batch: seq<UserRow>)
    ensures Latest(table + batch + batch) == Latest(table + batch)
  {
    LatestAppend(table + batch, batch);
    LatestAppend(table, batch);
    var t, b := Latest(table), Latest(batch);
    assert (t + b) + b == t + b;
  }

  /** A catalog song answers a lookup by title, artist name and duration when
      all three are non-null and equal to its own, the artist name being that
      of some artist row with the song's artist id. */
  predicate Matches(s: SongRow, artists: seq<ArtistRow>, title: Text, artist: Text, length: Option<Float>)
  {
    title == Some(s.title) && length == Some(s.duration) &&
    exists a :: a in artists && a.artistId == s.artistId && artist == Some(a.name)
  }

  /** The position of the first song that matches, or |songs| when none does. */
  function FirstMatch(songs: seq<SongRow>, artists: seq<ArtistRow>, title: Text, artist: Text, length: Option<Float>): (i: nat)
    ensures i <= |songs|
    ensures i < |songs| ==> Matches(songs[i], artists, title, artist, length)
    ensures forall j :: 0 <= j < i ==> !Matches(songs[j], artists, title, artist, length)
    decreases |songs|
  {
    if songs == [] then 0
    else if Matches(songs[0], artists, title, artist, length) then 0
    else 1 + FirstMatch(songs[1..], artists, title, artist, length)
  }

  /** The song lookup: the ids of the first matching song, or none. */
  function FindSong(songs: seq<SongRow>, artists: seq<ArtistRow>, title: Text, artist: Text, length: Option<Float>): (r: Option<SongKey>)
    ensures r.None? <==> forall i :: 0 <= i < |songs| ==> !Matches(songs[i], artists, title, artist, length)
    ensures r.Some? ==>
      exists i :: 0 <= i < |songs| && Matches(songs[i], artists, title, artist, length) &&
        r.value == SongKey(songs[i].songId, songs[i].artistId) &&
        forall j :: 0 <= j < i ==> !Matches(songs[j], artists, title, artist, length)
  {
    var i := FirstMatch(songs, artists, title, artist, length);
    if i < |songs| then Some(SongKey(songs[i].songId, songs[i].artistId)) else None
  }

  /** The lookup returns the ids of the song at k when that song matches and
      no earlier one does. */
  lemma FindSongFirst(songs: seq<SongRow>, artists: seq<ArtistRow>, title: Text, artist: Text, length: Option<Float>, k: int)
    requires 0 <= k < |songs| && Matches(songs[k], artists, title, artist, length)
    requires forall j :: 0 <= j < k ==> !Matches(songs[j], artists, title, artist, length)
    ensures FindSong(songs, artists, title, artist, length) == Some(SongKey(songs[k].songId, songs[k].artistId))
  {
    var i := FirstMatch(songs, artists, title, artist, length);
    assert i == k;
  }

  /** The store a cursor writes to. */
  class Store {
    /** Every operation issued so far, in order. */
    var log: seq<Op>
    /** The users table, keyed by user id. */
    var users: map<string, UserRow>

    ghost predicate Valid()
      reads this
    {
      users == Latest(UserUpserts(log))
    }

    constructor ()
      ensures Valid() && log == [] && users == map[]
    {
      log := [];
      users := map[];
    }

    method InsertSong(row: SongRow)
      requires Valid()
      modifies this
      ensures Valid() && log == old(log) + [WriteSong(row)] && users == old(users)
    {
      ProjectSnoc(log, WriteSong(row), UserOf);
      log := log + [WriteSong(row)];
    }

    method InsertArtist(row: ArtistRow)
      requires Valid()
      modifies this
      ensures Valid() && log == old(log) + [WriteArtist(row)] && users == old(users)
    {
      ProjectSnoc(log, WriteArtist(row), UserOf);
      log := log + [WriteArtist(row)];
    }

    method InsertTime(row: TimeRow)
      requires Valid()
      modifies this
      ensures Valid() && log == old(log) + [WriteTime(row)] && users == old(users)
    {
      ProjectSnoc(log, WriteTime(row), UserOf);
      log := log + [WriteTime(row)];
    }

    /** Inserts a user row, or overwrites the row already held for its user id. */
    method UpsertUser(row: UserRow)
      requires Valid()
      modifies this
      ensures Valid() && log == old(log) + [WriteUser(row)]
      ensures users == old(users)[row.userId := row]
    {
      ProjectSnoc(log, WriteUser(row), UserOf);
      LatestSnoc(UserUpserts(log), row);
      log := log + [WriteUser(row)];
      users := users[row.userId := row];
    }

    method InsertSongplay(row: SongplayRow)
      requires Valid()
      modifies this
      ensures Valid() && log == old(log) + [WriteSongplay(row)] && users == old(users)
    {
      ProjectSnoc(log, WriteSongplay(row), UserOf);
      log := log + [WriteSongplay(row)];
    }

    method Commit()
      requires Valid()
      modifies this
      ensures Valid() && log == old(log) + [Committed] && users == old(users)
    {
      ProjectSnoc(log, Committed, UserOf);
      log := log + [Committed];
    }

    /** Runs the song lookup against the songs and artists written so far
        and fetches its first result row, if any. */
    method SelectSong(title: Text, artist: Text, length: Option<Float>) returns (key: Option<SongKey>)
      ensures key == FindSong(Songs(log), Artists(log), title, artist, length)
    {
      key := FindSong(Songs(log), Artists(log), title, artist, length);
    }
  }
}
