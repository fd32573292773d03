# Imabari shelter scraper and occupancy views, modelled in Dafny

The system scrapes the shelter announcements that Imabari City published
during the Nagasawa wildfire and shows them on a dashboard. The modelled core
has three layers.

- **The index loop** (`scraping.py`, module `Listing`):
  - It walks the entries of the index page oldest first.
  - It keeps an entry when its title, with the site name removed, names the
    wildfire.
  - For each kept entry it builds an announcement record: title, status
    label without whitespace, parsed date, resolved link and the
    supplementary note. It also builds the entry's shelter table.
  - A table is kept only when it has rows.
- **The detail-page parser** (`fetch_hinanjo`, modules `DetailPage`,
  `Coordinates`, `Numerals` and `Text`):
  - It finds and reflows the supplementary note.
  - It reads the table rows that have exactly eight cells.
  - It extracts `lat=…&lng=…` from each row's map link, as `re.search` does.
  - It casts the capacity strictly and coerces household and evacuee counts
    leniently.
  - It lays the result out in the ten output columns, stamped with the
    announcement's date.
- **The dashboard's derived views** (`main.py`, module `Occupancy`):
  - the date-by-shelter matrix of evacuee counts, reindexed to the
    announcement dates, with its total column;
  - the matrix of changes between consecutive announcements, with its total;
  - the marker colour of every snapshot.

Python exceptions are modelled as `Err` values of a `Result`. The first
error ends the run, as an uncaught exception does. Operations that leave
the model are passed in as function-valued fields of `Listing.Site`:
date parsing, link resolution and fetching a page. The two loops of the
scraper (the index loop and the table-row loop) are methods, each proved
equal to the recursive function that specifies it. The pandas block of the
dashboard is modelled as functions on sequences.

Where the code and its documentation differ, the model follows the code:

- **Duplicate (date, shelter) pairs.** `pivot` raises on a pair that occurs
  twice among the snapshots that have evacuees. It does not keep the last
  value. This is `Err(DuplicateEntries)`.
- **Negative counts.** A cell such as `-3` is an integer to both casts and
  is kept.
- **The date attached to the snapshots.** `fetch_hinanjo` stamps them with
  the module-level `ts_date` of the loop (scraping.py:88), not with its
  `ts_data` parameter. The two are always the same value, so `Detail` takes
  one date.
- **Tables where no row has coordinates.** When rows were read but none of
  them had coordinates appended, the frame constructor receives ten column
  names and eight values per row and raises. This is
  `Err(ColumnCountMismatch)`.

## Model

| member | source | states |
|---|---|---|
| Text.Strip | scraping.py:24 | the result has no whitespace at either end, and it is empty exactly when the text is all whitespace |
| Text.StripKeepsCount | scraping.py:24 | stripping keeps every occurrence of a non-whitespace character |
| Text.Words | scraping.py:112 | `split()` yields only non-empty words without whitespace |
| Text.JoinedWordsDropSpaces | scraping.py:112 | joining the words of `split()` with "" is the text with every whitespace character removed |
| Text.ReplaceAbsent | scraping.py:109 | replacing a pattern that does not occur leaves the text unchanged |
| Text.ReplaceCharCount | scraping.py:24 | replacing a character by a text holding it once keeps its number of occurrences |
| Text.LessIrreflexive | main.py:25 | code-point string order is irreflexive |
| Text.LessTransitive | main.py:25 | code-point string order is transitive |
| Text.LessTotal | main.py:25 | any two different strings are ordered one way or the other |
| Numerals.Lenient | scraping.py:85-86 | coercion gives the integer value of the text, or 0 when it is not an integer |
| Numerals.ParseDecimal | scraping.py:83-86 | the decimal text of every integer reads back as that integer, under the strict and the lenient cast |
| Numerals.LenientNoDigit | scraping.py:85-86 | text without a digit (empty, a dash) is refused by the strict cast and coerced to 0 |
| Coordinates.ActionText | scraping.py:50 | the onclick text when present and non-empty, otherwise the href, which may be missing |
| Coordinates.Run | scraping.py:52 | the greedy class run is the longest prefix of characters in [0-9.] |
| Coordinates.SearchFrom | scraping.py:52-53 | a found match is at the leftmost position where the pattern matches; None only when it matches nowhere |
| Coordinates.MatchAtIsLiteral | scraping.py:52 | a match at a position reads literally "lat=" a "&lng=" b with a, b non-empty runs of [0-9.] and b maximal |
| Coordinates.LiteralIsMatchAt | scraping.py:52 | conversely, such a literal reading at a position is a match with groups a and b |
| Coordinates.SearchFindsFirst | scraping.py:52-57 | when the literal reading holds at p and nowhere before, the search returns exactly that match and its groups |
| DetailPage.FindNote | scraping.py:22 | the first text node starting with the note marker, or None when no node does |
| DetailPage.ReplaceIsExpand | scraping.py:24 | replacing every 。 by 。, two spaces and a line break, as str.replace scans, is the character-wise expansion |
| DetailPage.Reflow | scraping.py:24 | the note is the stripped expansion in which every 。 is followed by two spaces and a line break; it has no surrounding whitespace and as many 。 as the original |
| DetailPage.Information | scraping.py:22-25 | "" without a note; otherwise the reflowed text of the marker node's parent |
| DetailPage.EightWide | scraping.py:42-45 | every row read has exactly eight cells |
| DetailPage.EightWideMembers | scraping.py:45 | a row is read exactly when it has eight cells; other rows are skipped without error |
| DetailPage.RowData | scraping.py:46-64 | a missing anchor or action text raises, and a row with both succeeds; its data is the eight cell texts, followed by both groups exactly when the pattern is found |
| DetailPage.AllRowDataRows | scraping.py:42-64 | a successful scan keeps one entry per eight-cell row, each that row's data |
| DetailPage.AllRowDataErrorStays | scraping.py:48-53 | once a row has raised, the whole scan fails with that error |
| DetailPage.CollectRows | scraping.py:42-64 | the row loop computes exactly the scan of the eight-cell rows |
| DetailPage.ToSnapshots | scraping.py:83-90 | one snapshot per row, in row order |
| DetailPage.Shape | scraping.py:83-88 | a non-integer capacity fails the table, then a non-float coordinate does; it succeeds exactly when every capacity is an integer and every coordinate a float, and then each row becomes its snapshot without the map column, with strict capacity, lenient counts and the announcement's date |
| DetailPage.ParseDetail | scraping.py:22-95 | the parser's result is the page's specified table and note |
| DetailPage.DetailTable | scraping.py:22-95 | a parsed table has the ten output columns, one row per eight-cell row, every row dated with the announcement; the note returned beside it is the page's note |
| DetailPage.NoEightWideRows | scraping.py:92-93 | a page without eight-cell rows gives an empty table with the ten columns and its note |
| DetailPage.UnchartedRows | scraping.py:55-64 | among cleanly scanned rows, none has coordinates appended exactly when every row's action text lacks the pattern |
| DetailPage.ColumnMismatch | scraping.py:66-81 | after a clean scan, the table fails to build exactly when it has rows and none of them carries coordinates |
| Listing.ScrubWithoutMarker | scraping.py:109 | a title without the site name is kept as it is |
| Listing.ScrubLeadingMarker | scraping.py:109 | a site name in front of the title is removed |
| Listing.Status | scraping.py:112 | the status label holds no whitespace |
| Listing.StatusIdempotent | scraping.py:112 | the status is the label with whitespace removed, and computing it again changes nothing |
| Listing.Qualifying | scraping.py:107-111 | an entry is kept exactly when it is well formed and its scrubbed title names the wildfire |
| Listing.KeptTables | scraping.py:125-126 | the tables kept from a list of entries all have rows |
| Listing.Reversed | scraping.py:105 | entries are visited last first: position i holds entry n-1-i |
| Listing.CollectErrorStays | scraping.py:105-119 | once an entry has raised, the run fails with that error |
| Listing.VisitOutcome | scraping.py:107-123 | a skipped entry does not qualify; a kept one gives its own record, including its page's note, and its page's table, in the ten columns with rows carrying the record's date |
| Listing.VisitTable | scraping.py:111-119 | an entry that does not raise yields a result exactly when it qualifies, and that result's table is its page's table |
| Listing.CollectRecords | scraping.py:119-123 | exactly one record per qualifying entry, in visiting order, with its scrubbed title, status, date, link and its page's note; every title names the wildfire, and every qualifying page parsed |
| Listing.CollectKeptTables | scraping.py:119-126 | the kept tables are exactly the qualifying entries' page tables that have rows, in visiting order |
| Listing.CollectTables | scraping.py:125-126 | only non-empty tables are kept, each with the ten columns, and every snapshot's date is the date of some record |
| Listing.CollectAppendOnly | scraping.py:123-126 | both accumulators only grow: the results after a prefix are prefixes of the final ones |
| Listing.VisitEntry | scraping.py:106-126 | one loop body computes the specified outcome of its entry |
| Listing.Run | scraping.py:105-126 | the loop over the reversed entries computes the specified accumulators or the first error |
| Occupancy.TallyIsTheSnapshot | main.py:23-25 | without duplicates, a pair's count is that of its one snapshot with evacuees, else 0 |
| Occupancy.InsertSpec | main.py:25 | inserting a name keeps the column list sorted and adds exactly that name |
| Occupancy.NamesSpec | main.py:23-25 | the columns are sorted without repetition and are exactly the shelters with a snapshot that has evacuees |
| Occupancy.Row | main.py:25 | one cell per shelter column, each that pair's count |
| Occupancy.Pivot | main.py:25 | a successful pivot has one row per announcement date, in order, each as wide as the columns |
| Occupancy.PivotCells | main.py:23-25 | duplicates are refused; otherwise dates without snapshots are zero rows, each cell is the count of its matching snapshot with evacuees or 0, never negative |
| Occupancy.WithTotal | main.py:26 | the total column is appended after the shelters and holds the sum of the row |
| Occupancy.RowCountsEveryone | main.py:26 | summed over columns that cover every shelter with evacuees, a row's counts are all evacuees at that date |
| Occupancy.CumulativeTotal | main.py:23-26 | the cumulative total of each announcement date is the number of evacuees at that date |
| Occupancy.Diff | main.py:28 | the change view keeps row 0 and makes every later row the difference from the row before |
| Occupancy.TotalOfChanges | main.py:28-29 | the total of the changes equals the change of the total |
| Occupancy.ChangesAddUp | main.py:28 | adding up the change rows 0..i gives back row i |
| Occupancy.ChangeViewRoundTrip | main.py:25-29 | the running sum of the change view with its total is the cumulative view with its total |
| Occupancy.Colour | main.py:32-33 | a shelter with evacuees is in-use green; otherwise open is blue, closed is grey, any other status is kept; in-use exactly when occupied |
| Occupancy.Colours | main.py:31-33 | one colour per snapshot, each that snapshot's colour |
| Occupancy.MarkersMatchPivot | main.py:23-33 | a snapshot marked in use has a matrix cell holding its count, and every non-zero cell comes from a snapshot marked in use |

## Left out

- HTTP fetching and `raise_for_status` (scraping.py:10-16) are left out. So is the request behind each detail link. `Site.fetch` stands for them as a total function, so a failed request is not modelled.
- HTML parsing by BeautifulSoup and html5lib is left out. A page is modelled as its text nodes with their parents' text, and its table body rows as stripped cell texts with each cell's first anchor.
- `urljoin` and `pd.to_datetime` are left out and become `Site.resolve` and `Site.parseDate`. `Date` is an opaque point in time or NaT.
- NaT is compared as a plain value. pandas does not match NaT labels in a reindex the same way.
- Unicode NFKC normalisation of the note (scraping.py:24) is left out; the note text is taken as already normalised.
- The "No match found" message (scraping.py:62) is console output and is left out.
- Coordinates stay the matched digit strings; their float values are not modelled. `IsFloatText` models only whether the float cast accepts them.
- Numerals.ParseInt does not accept what Python's int() also takes: underscores between digits, non-ASCII digits and surrounding whitespace. Table cells are stripped first, so the whitespace case does not arise.
- DetailPage.Shape does not model 64-bit integers. `astype(int)` on the capacity raises OverflowError outside the int64 range. The lenient counts may pass through float64, exact only up to 2^53, or fail to fit int64 when very large. The model's integers are unbounded and keep every value.
- Numerals.Lenient does not model what to_numeric also coerces: decimal and exponent notation ("3.0", "1e2") and "inf".
- Occupancy.WithTotal always appends a new column. If a shelter were itself named 合計, `assign` would overwrite that column instead.
- Concatenating the kept tables and reading and writing CSV (scraping.py:128-132, main.py:13-18) are left out. `pd.concat` of no tables raises; this is not modelled. The occupancy views take the concatenated snapshots and the announcement dates as inputs.
- The Streamlit tabs, selector and map, and the Plotly charts (main.py:8-10, 35 onwards) are user interface and are left out.
