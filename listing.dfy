/** The top-level loop of scraping.py: walk the index page's entries oldest
    first, keep those whose title names the wildfire, fetch and parse each
    one's detail page, and accumulate the announcement records and the
    non-empty shelter tables. */
module Listing {
  import opened Wrappers
  import opened Text
  import opened Records
  import DetailPage

  /** The site name that prefixes every index title. */
  const SiteMarker: string := "今治市 避難所情報 :"

  /** The disaster an entry must name to be kept. */
  const Keyword: string := "今治市長沢林野火災"

  /** One definition-list block of the index page: the text of its status
      label, the texts of its body paragraphs (date, then title), and the
      href of its link. */
  datatype Entry = Entry(statusText: string, paragraphs: seq<string>, href: string)

  /** What the run takes from outside the model: date parsing (NaT for text
      it cannot read), resolution of a link against the index page's URL,
      and the fetched detail page behind a link. */
  datatype Site = Site(
    parseDate: string -> Date,
    resolve: string -> string,
    fetch: string -> DetailPage.Page)

  /** The two accumulators: announcement records and shelter tables. */
  datatype Collected = Collected(announcements: seq<Announcement>, tables: seq<Table>)

  function ScrubTitle(title: string): string {
    ReplaceAll(title, SiteMarker, "")
  }

  /** A title without the site name is left as it is. */
  lemma ScrubWithoutMarker(title: string)
    requires !Contains(title, SiteMarker)
    ensures ScrubTitle(title) == title
  {
    ReplaceAbsent(title, SiteMarker, "");
  }

  /** A site name in front of the title is removed. */
  lemma ScrubLeadingMarker(title: string)
    ensures ScrubTitle(SiteMarker + title) == ScrubTitle(title)
  {
    var s := SiteMarker + title;
    assert StartsWith(s, SiteMarker);
    assert s[|SiteMarker|..] == title;
  }

  /** The status label with every whitespace character removed, computed
      as the words of the label joined with "". */
  function Status(statusText: string): (r: string)
    ensures NoSpace(r)
  {
    JoinedWordsDropSpaces(statusText);
    DropSpacesNoSpace(statusText);
    Concat(Words(statusText))
  }

  /** The status keeps every other character of the label, in order, so
      computing it again changes nothing. */
  lemma StatusIdempotent(statusText: string)
    ensures Status(statusText) == DropSpaces(statusText)
    ensures Status(Status(statusText)) == Status(statusText)
  {
    JoinedWordsDropSpaces(statusText);
    var r := Status(statusText);
    JoinedWordsDropSpaces(r);
    DropSpacesOfNoSpace(r);
  }

  /** An entry is kept when it is well formed and its scrubbed title
      contains the keyword. */
  predicate Qualifies(e: Entry) {
    |e.paragraphs| == 2 && Contains(ScrubTitle(e.paragraphs[1]), Keyword)
  }

  /** Processing one entry: a malformed entry raises, an entry without the
      keyword is passed over, and a qualifying one yields its record and
      its detail page's table (or the detail page's error). */
  function Visit(e: Entry, site: Site): Result<Option<(Announcement, Table)>, ScrapeError> {
    if |e.paragraphs| != 2 then Err(MalformedEntry)
    else
      var title := ScrubTitle(e.paragraphs[1]);
      if !Contains(title, Keyword) then Ok(None)
      else
        var status := Status(e.statusText);
        var link := site.resolve(e.href);
        var date := site.parseDate(e.paragraphs[0]);
        match DetailPage.Detail(site.fetch(link), date)
        case Err(err) => Err(err)
        case Ok((table, information)) =>
          Ok(Some((Announcement(title, status, date, link, information), table)))
  }

  /** Appending one qualifying entry's results: its record always, its table
      only when it has rows. */
  function Record(c: Collected, a: Announcement, t: Table): Collected {
    Collected(c.announcements + [a], if t.rows == [] then c.tables else c.tables + [t])
  }

  /** The accumulators after visiting `visit` in order; the first exception
      ends the run. */
  function Collect(visit: seq<Entry>, site: Site): Result<Collected, ScrapeError> {
    if visit == [] then Ok(Collected([], []))
    else
      match Collect(visit[..|visit| - 1], site)
      case Err(e) => Err(e)
      case Ok(c) =>
        match Visit(visit[|visit| - 1], site)
        case Err(e) => Err(e)
        case Ok(None) => Ok(c)
        case Ok(Some((a, t))) => Ok(Record(c, a, t))
  }

  function Reversed<T>(s: seq<T>): (r: seq<T>)
    ensures |r| == |s| && forall i :: 0 <= i < |s| ==> r[i] == s[|s| - 1 - i]
  {
    seq(|s|, i requires 0 <= i < |s| => s[|s| - 1 - i])
  }

  lemma CollectStep(visit: seq<Entry>, i: nat, site: Site)
    requires i < |visit|
    ensures Collect(visit[..i + 1], site) ==
      match Collect(visit[..i], site)
      case Err(e) => Err(e)
      case Ok(c) =>
        match Visit(visit[i], site)
        case Err(e) => Err(e)
        case Ok(None) => Ok(c)
        case Ok(Some((a, t))) => Ok(Record(c, a, t))
  {
    assert visit[..i + 1][..i] == visit[..i];
  }

  lemma {:induction false} CollectErrorStays(visit: seq<Entry>, i: nat, site: Site)
    requires i <= |visit| && Collect(visit[..i], site).Err?
    ensures Collect(visit, site) == Collect(visit[..i], site)
    decreases |visit|
  {
    if i < |visit| {
      var init := visit[..|visit| - 1];
      assert init[..i] == visit[..i];
      CollectErrorStays(init, i, site);
    } else {
      assert visit[..i] == visit;
    }
  }

  // ---------------------------------------------------------------------
  // what a run produces

  /** The entries that qualify, in visiting order. */
  function Qualifying(visit: seq<Entry>): (r: seq<Entry>)
    ensures forall k :: 0 <= k < |r| ==> Qualifies(r[k])
    ensures forall e :: e in r <==> e in visit && Qualifies(e)
  {
    if visit == [] then []
    else
      var last := visit[|visit| - 1];
      assert visit == visit[..|visit| - 1] + [last];
      Qualifying(visit[..|visit| - 1]) + (if Qualifies(last) then [last] else [])
  }

  /** The detail page behind an entry's link. */
  function PageOf(e: Entry, site: Site): DetailPage.Page {
    site.fetch(site.resolve(e.href))
  }

  /** The parsed detail page of a well-formed entry, dated by its first
      paragraph. */
  function DetailOf(e: Entry, site: Site): Result<(Table, string), ScrapeError>
    requires |e.paragraphs| == 2
  {
    DetailPage.Detail(PageOf(e, site), site.parseDate(e.paragraphs[0]))
  }

  /** The table of an entry's detail page; the empty table when the entry
      is malformed or its page does not parse. */
  function TableOf(e: Entry, site: Site): Table {
    if |e.paragraphs| == 2 && DetailOf(e, site).Ok? then DetailOf(e, site).value.0
    else Table(ColumnNames, [])
  }

  /** The tables of the entries `qs`, in order, leaving out those without
      rows. */
  function KeptTables(qs: seq<Entry>, site: Site): (r: seq<Table>)
    ensures forall t :: t in r ==> t.rows != []
  {
    if qs == [] then []
    else
      var t := TableOf(qs[|qs| - 1], site);
      KeptTables(qs[..|qs| - 1], site) + (if t.rows != [] then [t] else [])
  }

  /** `a` is the record of entry `e`: its scrubbed title, its status, its
      parsed date, its resolved link and the note of the page behind it. */
  predicate Announces(a: Announcement, e: Entry, site: Site)
    requires |e.paragraphs| == 2
  {
    && a.title == ScrubTitle(e.paragraphs[1])
    && a.status == Status(e.statusText)
    && a.date == site.parseDate(e.paragraphs[0])
    && a.link == site.resolve(e.href)
    && a.information == DetailPage.Information(PageOf(e, site).texts)
  }

  /** The date column of the announcement table: the time axis. */
  function Dates(announcements: seq<Announcement>): (r: seq<Date>)
    ensures |r| == |announcements|
    ensures forall k :: 0 <= k < |r| ==> r[k] == announcements[k].date
  {
    seq(|announcements|, k requires 0 <= k < |announcements| => announcements[k].date)
  }

  /** One entry's outcome: a non-qualifying entry is passed over, and a
      qualifying one gives its own record and the table of its page, in the
      ten output columns, whose rows all carry the record's date. */
  lemma VisitOutcome(e: Entry, site: Site)
    ensures Visit(e, site) == Ok(None) ==> !Qualifies(e)
    ensures Visit(e, site).Ok? && Visit(e, site).value.Some? ==>
      var (a, t) := Visit(e, site).value.value;
      && Qualifies(e) && Announces(a, e, site)
      && DetailOf(e, site).Ok? && t == TableOf(e, site)
      && t.columns == ColumnNames
      && (forall s :: s in t.rows ==> s.date == a.date)
  {
    if |e.paragraphs| == 2 && Contains(ScrubTitle(e.paragraphs[1]), Keyword) {
      var date := site.parseDate(e.paragraphs[0]);
      var page := site.fetch(site.resolve(e.href));
      if DetailPage.Detail(page, date).Ok? {
        DetailPage.DetailTable(page, date);
      }
    }
  }

  /** Exactly one record per qualifying entry, in visiting order, whether or
      not its table has rows. Every record's title names the disaster and
      every status is free of whitespace. */
  lemma {:induction false} CollectRecords(visit: seq<Entry>, site: Site)
    requires Collect(visit, site).Ok?
    ensures var c := Collect(visit, site).value;
      && |c.announcements| == |Qualifying(visit)|
      && (forall k :: 0 <= k < |c.announcements| ==>
            Announces(c.announcements[k], Qualifying(visit)[k], site))
      && (forall k :: 0 <= k < |c.announcements| ==>
            Contains(c.announcements[k].title, Keyword) && NoSpace(c.announcements[k].status))
      && (forall k :: 0 <= k < |Qualifying(visit)| ==> DetailOf(Qualifying(visit)[k], site).Ok?)
  {
    if visit != [] {
      var init := visit[..|visit| - 1];
      CollectRecords(init, site);
      VisitOutcome(visit[|visit| - 1], site);
    }
  }

  /** The kept tables are the tables of the qualifying entries' pages, in
      visiting order, without those that have no rows. */
  lemma {:induction false} CollectKeptTables(visit: seq<Entry>, site: Site)
    requires Collect(visit, site).Ok?
    ensures Collect(visit, site).value.tables == KeptTables(Qualifying(visit), site)
  {
    if visit != [] {
      var init := visit[..|visit| - 1];
      var e := visit[|visit| - 1];
      CollectKeptTables(init, site);
      var q0 := Qualifying(init);
      var t0 := Collect(init, site).value.tables;
      var t := Collect(visit, site).value.tables;
      if Qualifies(e) {
        VisitTable(e, site);
        KeptTablesSnoc(q0, e, site);
        assert Qualifying(visit) == q0 + [e];
        assert t == t0 + (if TableOf(e, site).rows != [] then [TableOf(e, site)] else []);
      } else {
        VisitTable(e, site);
        assert Qualifying(visit) == q0 + [];
        assert q0 + [] == q0;
        assert t == t0;
      }
    }
  }

  /** The visit of a qualifying entry yields the table of its page; any
      other entry that does not raise is passed over. */
  lemma VisitTable(e: Entry, site: Site)
    requires Visit(e, site).Ok?
    ensures Qualifies(e) <==> Visit(e, site).value.Some?
    ensures Qualifies(e) ==> Visit(e, site).value.value.1 == TableOf(e, site)
  {
  }

  lemma KeptTablesSnoc(qs: seq<Entry>, e: Entry, site: Site)
    ensures KeptTables(qs + [e], site) ==
      KeptTables(qs, site) + (if TableOf(e, site).rows != [] then [TableOf(e, site)] else [])
  {
    assert (qs + [e])[..|qs|] == qs;
  }

  /** Only tables with rows are kept; each has the ten output columns, and
      every snapshot's date is the date of some record, so it has a row on
      the time axis. */
  lemma {:induction false} CollectTables(visit: seq<Entry>, site: Site)
    requires Collect(visit, site).Ok?
    ensures var c := Collect(visit, site).value;
      forall t :: t in c.tables ==>
        && t.rows != []
        && t.columns == ColumnNames
        && (forall s :: s in t.rows ==> s.date in Dates(c.announcements))
  {
    if visit != [] {
      var init := visit[..|visit| - 1];
      CollectTables(init, site);
      VisitOutcome(visit[|visit| - 1], site);
      var c0 := Collect(init, site).value;
      var c := Collect(visit, site).value;
      assert forall d :: d in Dates(c0.announcements) ==> d in Dates(c.announcements) by {
        forall d | d in Dates(c0.announcements)
          ensures d in Dates(c.announcements)
        {
          var k :| 0 <= k < |c0.announcements| && Dates(c0.announcements)[k] == d;
          assert Dates(c.announcements)[k] == d;
        }
      }
      if |c.announcements| > |c0.announcements| {
        assert Dates(c.announcements)[|c0.announcements|] == c.announcements[|c0.announcements|].date;
      }
    }
  }

  /** The accumulators are only appended to: the results after any prefix
      of the entries are prefixes of the results after all of them. */
  lemma {:induction false} CollectAppendOnly(visit: seq<Entry>, i: nat, site: Site)
    requires i <= |visit| && Collect(visit, site).Ok?
    ensures Collect(visit[..i], site).Ok?
    ensures var early, late := Collect(visit[..i], site).value, Collect(visit, site).value;
      && early.announcements <= late.announcements
      && early.tables <= late.tables
    decreases |visit|
  {
    if i == |visit| {
      assert visit[..i] == visit;
    } else {
      var init := visit[..|visit| - 1];
      assert init[..i] == visit[..i];
      CollectAppendOnly(init, i, site);
    }
  }

  /** The body of the loop for one entry. */
  method VisitEntry(e: Entry, site: Site) returns (r: Result<Option<(Announcement, Table)>, ScrapeError>)
    ensures r == Visit(e, site)
  {
    if |e.paragraphs| != 2 {
      return Err(MalformedEntry);
    }
    var date, title := e.paragraphs[0], e.paragraphs[1];
    title := ScrubTitle(title);
    if !Contains(title, Keyword) {
      return Ok(None);
    }
    var status := Status(e.statusText);
    var link := site.resolve(e.href);
    var stamp := site.parseDate(date);
    var detail := DetailPage.ParseDetail(site.fetch(link), stamp);
    if detail.Err? {
      return Err(detail.error);
    }
    var (table, information) := detail.value;
    return Ok(Some((Announcement(title, status, stamp, link, information), table)));
  }

  /** The run: entries in the reverse of page order, one record per
      qualifying entry, its table kept only when non-empty. */
  method Run(entries: seq<Entry>, site: Site) returns (r: Result<Collected, ScrapeError>)
    ensures r == Collect(Reversed(entries), site)
  {
    var visit := Reversed(entries);
    var announcements: seq<Announcement> := [];
    var tables: seq<Table> := [];
    var i := 0;
    while i < |visit|
      invariant 0 <= i <= |visit|
      invariant Collect(visit[..i], site) == Ok(Collected(announcements, tables))
    {
      CollectStep(visit, i, site);
      var found := VisitEntry(visit[i], site);
      match found {
        case Err(err) =>
          CollectErrorStays(visit, i + 1, site);
          return Err(err);
        case Ok(None) =>
        case Ok(Some((a, table))) =>
          announcements := announcements + [a];
          if table.rows != [] {
            tables := tables + [table];
          }
      }
      i := i + 1;
    }
    assert visit[..i] == visit;
    return Ok(Collected(announcements, tables));
  }
}
