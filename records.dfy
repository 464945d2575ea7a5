/**
  Parsed input records and the rows written to the store.

  Records arrive already parsed from newline-delimited JSON: a song-data file
  holds catalog records, a log-data file holds user-activity events.
 */
module Records {

  datatype Option<T> = None | Some(value: T)

  /** A double-precision number carried as its IEEE 754 bit pattern; the model
      only copies such values and compares them for equality. */
  datatype Float = Float(bits: bv64)

  /** A text field that may be null. */
  type Text = Option<string>

  /** One song-data record: a song and the artist who performs it. */
  datatype SongRecord = SongRecord(
    songId: string,
    title: string,
    artistId: string,
    year: int,
    duration: Float,
    artistName: string,
    artistLocation: Text,
    artistLatitude: Option<Float>,
    artistLongitude: Option<Float>)

  /** One user-activity event; ts is in milliseconds since 1970-01-01 UTC. */
  datatype LogEvent = LogEvent(
    ts: int,
    userId: string,
    firstName: Text,
    lastName: Text,
    gender: Text,
    level: string,
    page: string,
    song: Text,
    artist: Text,
    length: Option<Float>,
    sessionId: int,
    location: Text,
    userAgent: Text)

  /** The result of reading one JSON-lines file: its records in file order,
      or a read failure (a line that is not valid JSON). */
  datatype Parsed<T> = Parsed(records: seq<T>) | Malformed

  /** A discovered data file, read as the kind its directory holds. */
  datatype DataFile =
    | SongFile(path: string, songs: Parsed<SongRecord>)
    | LogFile(path: string, events: Parsed<LogEvent>)

  datatype SongRow = SongRow(songId: string, title: string, artistId: string, year: int, duration: Float)

  datatype ArtistRow = ArtistRow(
    artistId: string,
    name: string,
    location: Text,
    latitude: Option<Float>,
    longitude: Option<Float>)

  /** A time-dimension row; startTime is the instant in milliseconds since the epoch. */
  datatype TimeRow = TimeRow(startTime: int, hour: int, day: int, week: int, month: int, year: int, weekday: int)

  datatype UserRow = UserRow(userId: string, firstName: Text, lastName: Text, gender: Text, level: string)

  /** A songplay fact; songId and artistId are null when no catalog entry matched. */
  datatype SongplayRow = SongplayRow(
    startTime: int,
    userId: string,
    level: string,
    songId: Text,
    artistId: Text,
    sessionId: int,
    location: Text,
    userAgent: Text)

  /** The pair the song lookup returns. */
  datatype SongKey = SongKey(songId: string, artistId: string)
}
