/** The two kinds of record the scraper produces and the errors that end a
    scraping run. */
module Records {
  import opened Wrappers

  /** A parsed announcement time. `instant` is an opaque, ordered point in
      time; NaT is what date parsing yields for text it cannot read. */
  datatype Date = NaT | At(instant: int)

  /** One row of a detail page's shelter table, after shaping. Its fields
      are in the order of the output columns `ColumnNames`; latitude and
      longitude are the digit strings the coordinate pattern captured, None
      when the map link held no coordinates. */
  datatype Snapshot = Snapshot(
    date: Date,
    name: string,
    openStatus: string,
    capacity: int,
    households: int,
    occupants: int,
    latitude: Option<string>,
    longitude: Option<string>,
    address: string,
    phone: string)

  /** The ten output column names, in output order: date, shelter name, open
      status, capacity, households, occupants, latitude, longitude, address,
      phone. */
  const ColumnNames: seq<string> :=
    ["日付", "避難所名", "開設状況", "収容人数", "避難世帯数", "避難人数", "緯度", "経度", "所在地", "電話番号"]

  /** One detail page's shelter table: its column names and its rows. */
  datatype Table = Table(columns: seq<string>, rows: seq<Snapshot>)

  /** One qualifying index entry, with the supplementary note of its detail
      page. */
  datatype Announcement = Announcement(
    title: string,
    status: string,
    date: Date,
    link: string,
    information: string)

  /** The exceptions that stop a run.
      MalformedEntry: an index entry without exactly two body paragraphs
        (the two-name unpacking fails).
      NoMapLink: the map cell of an 8-cell row holds no anchor.
      NoMapAction: that anchor has neither a non-empty onclick nor an href.
      ColumnCountMismatch: the table has rows but none of them carries
        coordinates, so ten column names meet eight values per row.
      CapacityNotInteger: the strict integer cast of a capacity cell fails.
      CoordinateNotFloat: a captured coordinate is not a float literal. */
  datatype ScrapeError =
    | MalformedEntry
    | NoMapLink
    | NoMapAction
    | ColumnCountMismatch
    | CapacityNotInteger
    | CoordinateNotFloat
}
