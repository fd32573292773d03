/** The detail-page parser (fetch_hinanjo in scraping.py): the supplementary
    note and the shelter table of one announcement, with the page already
    reduced to its text nodes and its table rows. */
module DetailPage {
  import opened Wrappers
  import opened Text
  import opened Numerals
  import opened Records
  import Coordinates

  /** A table cell: its stripped text, and the first anchor inside it. */
  datatype Cell = Cell(text: string, anchor: Option<Coordinates.Anchor>)

  /** A text node of the page and the text of the element enclosing it. */
  datatype TextNode = TextNode(text: string, parentText: string)

  /** A detail page: its text nodes in document order and the rows of the
      shelter table body. */
  datatype Page = Page(texts: seq<TextNode>, rows: seq<seq<Cell>>)

  const NoteMarker: string := "補足情報"
  const SentenceEnd: char := '。'
  const SentenceBreak: string := "。  \n"

  // ---------------------------------------------------------------------
  // the supplementary note

  /** The first text node that starts with the note marker. */
  function FindNote(texts: seq<TextNode>): (r: Option<nat>)
    ensures r.Some? ==> r.value < |texts| && StartsWith(texts[r.value].text, NoteMarker)
    ensures r.Some? ==> forall k :: 0 <= k < r.value ==> !StartsWith(texts[k].text, NoteMarker)
    ensures r.None? ==> forall k :: 0 <= k < |texts| ==> !StartsWith(texts[k].text, NoteMarker)
  {
    if texts == [] then None
    else if StartsWith(texts[0].text, NoteMarker) then Some(0)
    else match FindNote(texts[1..])
      case None => None
      case Some(k) => Some(k + 1)
  }

  /** The text with a Markdown line break written after every sentence
      end, one character at a time. */
  function Expand(text: string): string {
    if text == [] then []
    else (if text[0] == SentenceEnd then SentenceBreak else [text[0]]) + Expand(text[1..])
  }

  /** Replacing the sentence end by the sentence break, as str.replace
      scans for it, is the character-wise expansion. */
  lemma {:induction false} ReplaceIsExpand(text: string)
    ensures ReplaceAll(text, [SentenceEnd], SentenceBreak) == Expand(text)
  {
    if text != [] {
      ReplaceIsExpand(text[1..]);
      if text[0] == SentenceEnd {
        assert StartsWith(text, [SentenceEnd]);
      } else {
        assert !StartsWith(text, [SentenceEnd]);
      }
    }
  }

  /** Every sentence end becomes a sentence end plus a Markdown line break,
      then surrounding whitespace is stripped. */
  function Reflow(text: string): (r: string)
    ensures r == Strip(Expand(text))
    ensures r == [] || (!IsSpace(r[0]) && !IsSpace(r[|r| - 1]))
    ensures Count(r, SentenceEnd) == Count(text, SentenceEnd)
  {
    var expanded := ReplaceAll(text, [SentenceEnd], SentenceBreak);
    ReflowCount(text);
    ReplaceIsExpand(text);
    Strip(expanded)
  }

  lemma ReflowCount(text: string)
    ensures Count(Strip(ReplaceAll(text, [SentenceEnd], SentenceBreak)), SentenceEnd) == Count(text, SentenceEnd)
  {
    var expanded := ReplaceAll(text, [SentenceEnd], SentenceBreak);
    BreakHoldsOneEnd();
    ReplaceCharCount(text, SentenceEnd, SentenceBreak);
    StripKeepsCount(expanded, SentenceEnd);
  }

  lemma BreakHoldsOneEnd()
    ensures Count(SentenceBreak, SentenceEnd) == 1 && !IsSpace(SentenceEnd)
  {
    var tail := SentenceBreak[1..];
    assert SentenceBreak == [SentenceEnd] + tail;
    CountAbsent(tail, SentenceEnd);
  }

  /** The note of a page: the reflowed text around the first marker node,
      or "" when no text node starts with the marker. */
  function Information(texts: seq<TextNode>): (r: string)
    ensures FindNote(texts).None? ==> r == ""
    ensures FindNote(texts).Some? ==> r == Reflow(texts[FindNote(texts).value].parentText)
    ensures FindNote(texts).Some? ==>
      Count(r, SentenceEnd) == Count(texts[FindNote(texts).value].parentText, SentenceEnd)
    ensures r == [] || (!IsSpace(r[0]) && !IsSpace(r[|r| - 1]))
  {
    match FindNote(texts)
    case None => ""
    case Some(k) => Reflow(texts[k].parentText)
  }

  // ---------------------------------------------------------------------
  // the shelter table rows

  /** The rows that are read: those with exactly eight cells, in order. */
  function EightWide(rows: seq<seq<Cell>>): (r: seq<seq<Cell>>)
    ensures forall k :: 0 <= k < |r| ==> |r[k]| == 8
  {
    if rows == [] then []
    else (if |rows[0]| == 8 then [rows[0]] else []) + EightWide(rows[1..])
  }

  /** A row is read exactly when it has eight cells: any other cell count
      is skipped without an error. */
  lemma {:induction false} EightWideMembers(rows: seq<seq<Cell>>)
    ensures forall row :: row in EightWide(rows) <==> row in rows && |row| == 8
  {
    if rows != [] {
      EightWideMembers(rows[1..]);
      assert rows == [rows[0]] + rows[1..];
    }
  }

  lemma {:induction false} EightWideAppend(a: seq<seq<Cell>>, b: seq<seq<Cell>>)
    ensures EightWide(a + b) == EightWide(a) + EightWide(b)
  {
    if a == [] {
      assert a + b == b;
    } else {
      assert (a + b)[1..] == a[1..] + b;
      EightWideAppend(a[1..], b);
    }
  }

  function Texts(cells: seq<Cell>): (r: seq<string>)
    ensures |r| == |cells| && forall i :: 0 <= i < |cells| ==> r[i] == cells[i].text
  {
    if cells == [] then [] else [cells[0].text] + Texts(cells[1..])
  }

  /** One eight-cell row as a list of strings: the eight cell texts, followed
      by the two coordinate groups when the map link's action text matches.
      A missing anchor or a missing action text raises. */
  function RowData(cells: seq<Cell>): (r: Result<seq<string>, ScrapeError>)
    requires |cells| == 8
    ensures cells[3].anchor.None? ==> r == Err(NoMapLink)
    ensures cells[3].anchor.Some? && Coordinates.ActionText(cells[3].anchor.value).None? ==> r == Err(NoMapAction)
    ensures r.Ok? <==> cells[3].anchor.Some? && Coordinates.ActionText(cells[3].anchor.value).Some?
    ensures r.Ok? ==> |r.value| in {8, 10} && r.value[..8] == Texts(cells)
    ensures r.Ok? ==> var m := Coordinates.Search(Coordinates.ActionText(cells[3].anchor.value).value);
      (|r.value| == 10 <==> m.Some?) && (m.Some? ==> r.value[8] == m.value.lat && r.value[9] == m.value.lng)
  {
    var link := cells[3].anchor;
    if link.None? then Err(NoMapLink)
    else
      var action := Coordinates.ActionText(link.value);
      if action.None? then Err(NoMapAction)
      else
        var td := Texts(cells);
        match Coordinates.Search(action.value)
        case None => Ok(td)
        case Some(m) => Ok(td + [m.lat, m.lng])
  }

  /** RowData over every row, in order; the first error ends the scan. */
  function AllRowData(rows: seq<seq<Cell>>): (r: Result<seq<seq<string>>, ScrapeError>)
    requires forall k :: 0 <= k < |rows| ==> |rows[k]| == 8
  {
    if rows == [] then Ok([])
    else match RowData(rows[0])
      case Err(e) => Err(e)
      case Ok(td) =>
        match AllRowData(rows[1..])
        case Err(e) => Err(e)
        case Ok(rest) => Ok([td] + rest)
  }

  /** A successful scan keeps one list per row, each RowData of its row. */
  lemma {:induction false} AllRowDataRows(rows: seq<seq<Cell>>)
    requires forall k :: 0 <= k < |rows| ==> |rows[k]| == 8
    requires AllRowData(rows).Ok?
    ensures |AllRowData(rows).value| == |rows|
    ensures forall k :: 0 <= k < |rows| ==> RowData(rows[k]) == Ok(AllRowData(rows).value[k])
  {
    if rows != [] {
      AllRowDataRows(rows[1..]);
    }
  }

  lemma {:induction false} AllRowDataAppend(a: seq<seq<Cell>>, b: seq<seq<Cell>>)
    requires forall k :: 0 <= k < |a| ==> |a[k]| == 8
    requires forall k :: 0 <= k < |b| ==> |b[k]| == 8
    ensures AllRowData(a + b) ==
      match AllRowData(a)
      case Err(e) => Err(e)
      case Ok(x) =>
        match AllRowData(b)
        case Err(e) => Err(e)
        case Ok(y) => Ok(x + y)
  {
    if a == [] {
      assert a + b == b;
      match AllRowData(b)
      case Err(e) =>
      case Ok(y) => assert [] + y == y;
    } else {
      assert (a + b)[1..] == a[1..] + b;
      AllRowDataAppend(a[1..], b);
      match AllRowData(a[1..])
      case Err(e) =>
      case Ok(x) =>
        match AllRowData(b)
        case Err(e) =>
        case Ok(y) =>
          if RowData(a[0]).Ok? {
            assert [RowData(a[0]).value] + (x + y) == ([RowData(a[0]).value] + x) + y;
          }
    }
  }

  /** Scanning one more row: an eight-cell row adds its RowData (or its
      error), any other row changes nothing. */
  lemma {:induction false} AllRowDataStep(rows: seq<seq<Cell>>, i: nat)
    requires i < |rows|
    ensures AllRowData(EightWide(rows[..i + 1])) ==
      if |rows[i]| != 8 then AllRowData(EightWide(rows[..i]))
      else match AllRowData(EightWide(rows[..i]))
        case Err(e) => Err(e)
        case Ok(x) =>
          match RowData(rows[i])
          case Err(e) => Err(e)
          case Ok(td) => Ok(x + [td])
  {
    assert rows[..i + 1] == rows[..i] + [rows[i]];
    EightWideAppend(rows[..i], [rows[i]]);
    if |rows[i]| == 8 {
      assert EightWide([rows[i]]) == [rows[i]];
      AllRowDataAppend(EightWide(rows[..i]), [rows[i]]);
      assert [rows[i]][1..] == [];
      if RowData(rows[i]).Ok? {
        var td := RowData(rows[i]).value;
        assert [rows[i]][0] == rows[i];
        assert AllRowData([]) == Ok([]);
        assert [td] + [] == [td];
        assert AllRowData([rows[i]]) == Ok([td]);
      }
    } else {
      assert EightWide([rows[i]]) == [];
      assert EightWide(rows[..i]) + [] == EightWide(rows[..i]);
    }
  }

  /** Once the scan of a prefix has failed, the scan of the whole table fails
      with the same error. */
  lemma {:induction false} AllRowDataErrorStays(rows: seq<seq<Cell>>, i: nat)
    requires i <= |rows| && AllRowData(EightWide(rows[..i])).Err?
    ensures AllRowData(EightWide(rows)) == AllRowData(EightWide(rows[..i]))
  {
    assert rows == rows[..i] + rows[i..];
    EightWideAppend(rows[..i], rows[i..]);
    AllRowDataAppend(EightWide(rows[..i]), EightWide(rows[i..]));
  }

  /** The row loop: keep the eight-cell rows, append the coordinate groups
      to a row's texts when the action text matches, and collect the rows. */
  method CollectRows(rows: seq<seq<Cell>>) returns (r: Result<seq<seq<string>>, ScrapeError>)
    ensures r == AllRowData(EightWide(rows))
  {
    var data: seq<seq<string>> := [];
    var i := 0;
    while i < |rows|
      invariant 0 <= i <= |rows|
      invariant AllRowData(EightWide(rows[..i])) == Ok(data)
    {
      var tds := rows[i];
      AllRowDataStep(rows, i);
      if |tds| == 8 {
        var td := Texts(tds);
        var link := tds[3].anchor;
        if link.None? {
          AllRowDataErrorStays(rows, i + 1);
          return Err(NoMapLink);
        }
        var text := Coordinates.ActionText(link.value);
        if text.None? {
          AllRowDataErrorStays(rows, i + 1);
          return Err(NoMapAction);
        }
        var found := Coordinates.Search(text.value);
        if found.Some? {
          ghost var texts := td;
          td := td + [found.value.lat];
          td := td + [found.value.lng];
          assert td == texts + [found.value.lat, found.value.lng];
        }
        assert RowData(tds) == Ok(td);
        data := data + [td];
      }
      i := i + 1;
    }
    assert rows[..i] == rows;
    return Ok(data);
  }

  // ---------------------------------------------------------------------
  // shaping the collected rows into snapshots

  /** Rows were collected but none had its coordinates appended: the frame
      constructor is given ten column names and eight values per row. */
  predicate NoCoordinates(data: seq<seq<string>>) {
    data != [] && forall k :: 0 <= k < |data| ==> |data[k]| == 8
  }

  predicate RowShape(td: seq<string>) {
    |td| == 8 || |td| == 10
  }

  predicate CapacityOk(td: seq<string>)
    requires RowShape(td)
  {
    ParseInt(td[5]).Some?
  }

  predicate CoordinatesOk(td: seq<string>)
    requires RowShape(td)
  {
    |td| == 10 ==> Coordinates.IsFloatText(td[8]) && Coordinates.IsFloatText(td[9])
  }

  /** `s` is row `td` with the map column (index 3) dropped, the capacity
      cast strictly, households and occupants coerced leniently, the
      coordinate groups (when there are any) as latitude and longitude, and
      the announcement's date attached. */
  predicate Shaped(s: Snapshot, td: seq<string>, date: Date)
    requires RowShape(td)
  {
    && s.date == date
    && s.name == td[0] && s.openStatus == td[1] && s.address == td[2] && s.phone == td[4]
    && ParseInt(td[5]) == Some(s.capacity)
    && s.households == Lenient(td[6]) && s.occupants == Lenient(td[7])
    && (|td| == 10 ==> s.latitude == Some(td[8]) && s.longitude == Some(td[9]))
    && (|td| == 8 ==> s.latitude.None? && s.longitude.None?)
  }

  /** One row, with the map column (index 3) dropped and the rest put in
      output column order. */
  function ToSnapshot(td: seq<string>, date: Date): Snapshot
    requires RowShape(td) && CapacityOk(td)
  {
    Snapshot(
      date := date,
      name := td[0],
      openStatus := td[1],
      capacity := ParseInt(td[5]).value,
      households := Lenient(td[6]),
      occupants := Lenient(td[7]),
      latitude := if |td| == 10 then Some(td[8]) else None,
      longitude := if |td| == 10 then Some(td[9]) else None,
      address := td[2],
      phone := td[4])
  }

  function ToSnapshots(data: seq<seq<string>>, date: Date): (r: seq<Snapshot>)
    requires forall k :: 0 <= k < |data| ==> RowShape(data[k]) && CapacityOk(data[k])
    ensures |r| == |data| && forall k :: 0 <= k < |data| ==> r[k] == ToSnapshot(data[k], date)
  {
    seq(|data|, k requires 0 <= k < |data| => ToSnapshot(data[k], date))
  }

  /** The table step after the row loop: the strict capacity cast fails the
      whole table first, then the float cast of the coordinates; otherwise
      every row becomes a snapshot stamped with the announcement's date. */
  function Shape(data: seq<seq<string>>, date: Date): (r: Result<seq<Snapshot>, ScrapeError>)
    requires forall k :: 0 <= k < |data| ==> RowShape(data[k])
    ensures r == Err(CapacityNotInteger) <==> exists k :: 0 <= k < |data| && !CapacityOk(data[k])
    ensures r == Err(CoordinateNotFloat) <==>
      (forall k :: 0 <= k < |data| ==> CapacityOk(data[k])) &&
      (exists k :: 0 <= k < |data| && !CoordinatesOk(data[k]))
    ensures r.Ok? <==> forall k :: 0 <= k < |data| ==> CapacityOk(data[k]) && CoordinatesOk(data[k])
    ensures r.Ok? ==> |r.value| == |data|
    ensures r.Ok? ==> forall k :: 0 <= k < |data| ==> Shaped(r.value[k], data[k], date)
  {
    if exists k :: 0 <= k < |data| && !CapacityOk(data[k]) then Err(CapacityNotInteger)
    else if exists k :: 0 <= k < |data| && !CoordinatesOk(data[k]) then Err(CoordinateNotFloat)
    else Ok(ToSnapshots(data, date))
  }

  // ---------------------------------------------------------------------
  // the whole page

  /** What fetch_hinanjo returns for a page: the table with the ten output
      columns, and the note. */
  function Detail(page: Page, date: Date): Result<(Table, string), ScrapeError> {
    var information := Information(page.texts);
    var wide := EightWide(page.rows);
    match AllRowData(wide)
    case Err(e) => Err(e)
    case Ok(data) =>
      AllRowDataRows(wide);
      if NoCoordinates(data) then Err(ColumnCountMismatch)
      else match Shape(data, date)
      case Err(e) => Err(e)
      case Ok(snaps) => Ok((Table(ColumnNames, snaps), information))
  }

  method ParseDetail(page: Page, date: Date) returns (r: Result<(Table, string), ScrapeError>)
    ensures r == Detail(page, date)
  {
    var information := Information(page.texts);
    var data := CollectRows(page.rows);
    if data.Err? {
      return Err(data.error);
    }
    AllRowDataRows(EightWide(page.rows));
    if NoCoordinates(data.value) {
      return Err(ColumnCountMismatch);
    }
    var snaps := Shape(data.value, date);
    if snaps.Err? {
      return Err(snaps.error);
    }
    return Ok((Table(ColumnNames, snaps.value), information));
  }

  /** A page's table has one snapshot per eight-cell row, all stamped with
      the announcement's date and laid out in the ten output columns; a
      page without eight-cell rows gives an empty table with those columns. */
  lemma DetailTable(page: Page, date: Date)
    requires Detail(page, date).Ok?
    ensures var t := Detail(page, date).value.0;
      && t.columns == ColumnNames
      && |t.rows| == |EightWide(page.rows)|
      && (forall s :: s in t.rows ==> s.date == date)
    ensures Detail(page, date).value.1 == Information(page.texts)
  {
    AllRowDataRows(EightWide(page.rows));
  }

  lemma NoEightWideRows(page: Page, date: Date)
    requires forall k :: 0 <= k < |page.rows| ==> |page.rows[k]| != 8
    ensures Detail(page, date) == Ok((Table(ColumnNames, []), Information(page.texts)))
  {
    assert EightWide(page.rows) == [] by {
      EightWideMembers(page.rows);
      if EightWide(page.rows) != [] {
        assert EightWide(page.rows)[0] in EightWide(page.rows);
      }
    }
  }

  /** The eight-cell row's map link has an action text in which the
      coordinate pattern finds nothing. */
  predicate Uncharted(row: seq<Cell>) {
    && |row| == 8 && row[3].anchor.Some?
    && Coordinates.ActionText(row[3].anchor.value).Some?
    && Coordinates.Search(Coordinates.ActionText(row[3].anchor.value).value).None?
  }

  /** Of cleanly scanned rows, none has coordinates appended exactly when
      every one of them is uncharted. */
  lemma UnchartedRows(wide: seq<seq<Cell>>)
    requires forall k :: 0 <= k < |wide| ==> |wide[k]| == 8
    requires AllRowData(wide).Ok?
    ensures NoCoordinates(AllRowData(wide).value) <==>
      wide != [] && forall row :: row in wide ==> Uncharted(row)
  {
    AllRowDataRows(wide);
    var data := AllRowData(wide).value;
    assert forall k :: 0 <= k < |wide| ==> (|data[k]| == 8 <==> Uncharted(wide[k]));
  }

  /** Once every eight-cell row has been read, the table fails to build
      exactly when there is at least one such row and none of them has
      coordinates; a single row with coordinates is enough. */
  lemma ColumnMismatch(page: Page, date: Date)
    requires AllRowData(EightWide(page.rows)).Ok?
    ensures Detail(page, date) == Err(ColumnCountMismatch) <==>
      EightWide(page.rows) != [] && forall row :: row in EightWide(page.rows) ==> Uncharted(row)
  {
    UnchartedRows(EightWide(page.rows));
  }
}
