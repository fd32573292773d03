/** The occupancy views the dashboard derives from the scraped snapshots:
    the date-by-shelter matrix of evacuee counts with its total column, the
    matrix of changes between consecutive announcements, and the marker
    colour of each snapshot. */
module Occupancy {
  import opened Wrappers
  import opened Text
  import opened Records

  /** The name of the appended total column. */
  const TotalColumn: string := "合計"

  /** Marker colours: in use, open, closed. */
  const InUse: string := "#228B22"
  const Open: string := "#0000CD"
  const Closed: string := "#A9A9A9"
  const OpenStatus: string := "開設"
  const ClosedStatus: string := "閉鎖"

  /** A pivoted frame: one row per index date, one column per shelter. */
  datatype Frame = Frame(index: seq<Date>, columns: seq<string>, cells: seq<seq<int>>)

  /** The pivot refuses a (date, shelter) pair that occurs twice. */
  datatype PivotError = DuplicateEntries

  /** Every row has width `w`. */
  predicate Rectangular(cells: seq<seq<int>>, w: nat) {
    forall i :: 0 <= i < |cells| ==> |cells[i]| == w
  }

  /** One row per index date and one cell per column. */
  predicate WellFormed(f: Frame) {
    |f.cells| == |f.index| && Rectangular(f.cells, |f.columns|)
  }

  // ---------------------------------------------------------------------
  // which snapshots enter the pivot

  /** `s` has evacuees and belongs to the pair (`d`, `n`). */
  predicate Counted(s: Snapshot, d: Date, n: string) {
    s.occupants > 0 && s.date == d && s.name == n
  }

  /** Two snapshots with evacuees share a date and a shelter. */
  predicate Duplicated(data: seq<Snapshot>) {
    exists i, j :: 0 <= i < j < |data| && data[i].occupants > 0 && data[j].occupants > 0
      && data[i].date == data[j].date && data[i].name == data[j].name
  }

  /** The evacuee count the snapshots give the pair (`d`, `n`). Snapshots
      without evacuees are filtered out before the pivot; of the rest, a
      successful pivot has at most one per pair (see `TallyIsTheSnapshot`). */
  function Tally(data: seq<Snapshot>, d: Date, n: string): nat {
    if data == [] then 0
    else
      var s := data[|data| - 1];
      Tally(data[..|data| - 1], d, n) + (if Counted(s, d, n) then s.occupants else 0)
  }

  /** Without duplicates, the count of a pair is that of its one snapshot
      with evacuees, and 0 when it has none. */
  lemma {:induction false} TallyIsTheSnapshot(data: seq<Snapshot>, d: Date, n: string)
    requires !Duplicated(data)
    ensures forall k :: 0 <= k < |data| && Counted(data[k], d, n) ==> Tally(data, d, n) == data[k].occupants
    ensures (forall k :: 0 <= k < |data| ==> !Counted(data[k], d, n)) ==> Tally(data, d, n) == 0
  {
    if data != [] {
      var init := data[..|data| - 1];
      var s := data[|data| - 1];
      assert !Duplicated(init);
      TallyIsTheSnapshot(init, d, n);
      if Counted(s, d, n) {
        forall k | 0 <= k < |init| ensures !Counted(init[k], d, n) {
          assert data[k] == init[k];
        }
      }
      forall k | 0 <= k < |data| - 1 && Counted(data[k], d, n)
        ensures !Counted(s, d, n)
      {
        assert init[k] == data[k];
      }
    }
  }

  // ---------------------------------------------------------------------
  // the shelter columns: sorted, without repetition

  predicate Sorted(names: seq<string>) {
    forall i, j :: 0 <= i < j < |names| ==> Less(names[i], names[j])
  }

  /** `n` added to a sorted list in its place, unless already there. */
  function Insert(names: seq<string>, n: string): seq<string> {
    if names == [] then [n]
    else if n == names[0] then names
    else if Less(n, names[0]) then [n] + names
    else [names[0]] + Insert(names[1..], n)
  }

  lemma {:induction false} InsertSpec(names: seq<string>, n: string)
    requires Sorted(names)
    ensures Sorted(Insert(names, n))
    ensures forall x :: x in Insert(names, n) <==> x in names || x == n
  {
    if names == [] || n == names[0] {
    } else if Less(n, names[0]) {
      var r := [n] + names;
      forall i, j | 0 <= i < j < |r| ensures Less(r[i], r[j]) {
        if i == 0 && j > 1 {
          LessTransitive(n, names[0], names[j - 1]);
        }
      }
    } else {
      var rest := names[1..];
      assert Sorted(rest) by {
        forall i, j | 0 <= i < j < |rest| ensures Less(rest[i], rest[j]) {
          assert rest[i] == names[i + 1] && rest[j] == names[j + 1];
        }
      }
      InsertSpec(rest, n);
      LessTotal(n, names[0]);
      var t := Insert(rest, n);
      var r := [names[0]] + t;
      forall i, j | 0 <= i < j < |r| ensures Less(r[i], r[j]) {
        if i == 0 {
          assert r[j] == t[j - 1];
          assert r[j] in t;
          if r[j] != n {
            var m :| 0 <= m < |rest| && rest[m] == r[j];
            assert names[m + 1] == r[j];
          }
        } else {
          assert r[i] == t[i - 1] && r[j] == t[j - 1];
        }
      }
      assert names == [names[0]] + rest;
    }
  }

  /** The shelter columns: the names of the snapshots with evacuees, sorted
      by code point, each once. */
  function Names(data: seq<Snapshot>): seq<string> {
    if data == [] then []
    else
      var s := data[|data| - 1];
      var before := Names(data[..|data| - 1]);
      if s.occupants > 0 then Insert(before, s.name) else before
  }

  /** The columns are sorted without repetition, and a shelter has a column
      exactly when one of its snapshots has evacuees. */
  lemma {:induction false} NamesSpec(data: seq<Snapshot>)
    ensures Sorted(Names(data))
    ensures forall n :: n in Names(data) <==>
      exists k :: 0 <= k < |data| && data[k].occupants > 0 && data[k].name == n
  {
    if data != [] {
      var init := data[..|data| - 1];
      var s := data[|data| - 1];
      NamesSpec(init);
      if s.occupants > 0 {
        InsertSpec(Names(init), s.name);
      }
      forall n | (exists k :: 0 <= k < |data| && data[k].occupants > 0 && data[k].name == n)
        ensures n in Names(data)
      {
        var k :| 0 <= k < |data| && data[k].occupants > 0 && data[k].name == n;
        if k < |init| {
          assert init[k] == data[k];
        }
      }
      forall n | n in Names(data)
        ensures exists k :: 0 <= k < |data| && data[k].occupants > 0 && data[k].name == n
      {
        if n in Names(init) {
          var k :| 0 <= k < |init| && init[k].occupants > 0 && init[k].name == n;
          assert data[k] == init[k];
        } else {
          assert data[|data| - 1].name == n;
        }
      }
    }
  }

  // ---------------------------------------------------------------------
  // pivot, total and change views

  /** The matrix row of date `d`. */
  function Row(data: seq<Snapshot>, d: Date, names: seq<string>): (r: seq<int>)
    ensures |r| == |names|
    ensures forall j :: 0 <= j < |r| ==> r[j] == Tally(data, d, names[j])
  {
    seq(|names|, j requires 0 <= j < |names| => Tally(data, d, names[j]) as int)
  }

  /** The snapshots with evacuees pivoted to dates by shelters, then
      reindexed to the announcement dates `axis` with absent pairs as 0. */
  function Pivot(data: seq<Snapshot>, axis: seq<Date>): (r: Result<Frame, PivotError>)
    ensures r.Ok? ==> WellFormed(r.value) && r.value.index == axis
  {
    if Duplicated(data) then Err(DuplicateEntries)
    else
      var names := Names(data);
      Ok(Frame(axis, names, seq(|axis|, i requires 0 <= i < |axis| => Row(data, axis[i], names))))
  }

  /** The cells of a successful pivot: rows follow the announcement dates,
      including dates without snapshots; the columns are the sorted names
      with evacuees; each cell is the count of the one matching snapshot with
      evacuees, or 0, never negative. A duplicate pair is refused. */
  lemma PivotCells(data: seq<Snapshot>, axis: seq<Date>)
    ensures Pivot(data, axis).Err? <==> Duplicated(data)
    ensures Pivot(data, axis).Ok? ==>
      var f := Pivot(data, axis).value;
      && f.index == axis && WellFormed(f) && Sorted(f.columns)
      && (forall n :: n in f.columns <==>
            exists k :: 0 <= k < |data| && data[k].occupants > 0 && data[k].name == n)
      && (forall i, j :: 0 <= i < |axis| && 0 <= j < |f.columns| ==>
            && f.cells[i][j] >= 0
            && (forall k :: 0 <= k < |data| && Counted(data[k], axis[i], f.columns[j]) ==>
                  f.cells[i][j] == data[k].occupants)
            && ((forall k :: 0 <= k < |data| ==> !Counted(data[k], axis[i], f.columns[j])) ==>
                  f.cells[i][j] == 0))
  {
    NamesSpec(data);
    if !Duplicated(data) {
      var f := Pivot(data, axis).value;
      forall i, j | 0 <= i < |axis| && 0 <= j < |f.columns|
        ensures forall k :: 0 <= k < |data| && Counted(data[k], axis[i], f.columns[j]) ==>
                  f.cells[i][j] == data[k].occupants
        ensures (forall k :: 0 <= k < |data| ==> !Counted(data[k], axis[i], f.columns[j])) ==>
                  f.cells[i][j] == 0
      {
        TallyIsTheSnapshot(data, axis[i], f.columns[j]);
      }
    }
  }

  function Sum(row: seq<int>): int {
    if row == [] then 0 else Sum(row[..|row| - 1]) + row[|row| - 1]
  }

  /** Each row extended by its sum under the total column. */
  function WithTotal(f: Frame): (r: Frame)
    requires WellFormed(f)
    ensures WellFormed(r) && r.index == f.index && r.columns == f.columns + [TotalColumn]
    ensures forall i :: 0 <= i < |r.cells| ==>
      r.cells[i][..|f.columns|] == f.cells[i] && r.cells[i][|f.columns|] == Sum(f.cells[i])
  {
    Frame(f.index, f.columns + [TotalColumn],
      seq(|f.cells|, i requires 0 <= i < |f.cells| => f.cells[i] + [Sum(f.cells[i])]))
  }

  /** The element-wise difference of two rows of the same width. */
  function Minus(a: seq<int>, b: seq<int>): (r: seq<int>)
    requires |a| == |b|
    ensures |r| == |a|
    ensures forall j :: 0 <= j < |r| ==> r[j] == a[j] - b[j]
  {
    seq(|a|, j requires 0 <= j < |a| => a[j] - b[j])
  }

  /** The change view: the first row as it is, every later row minus the
      row before it. */
  function Diff(f: Frame): (r: Frame)
    requires WellFormed(f)
    ensures WellFormed(r) && r.index == f.index && r.columns == f.columns
    ensures |r.cells| > 0 ==> r.cells[0] == f.cells[0]
    ensures forall i :: 0 < i < |r.cells| ==> r.cells[i] == Minus(f.cells[i], f.cells[i - 1])
  {
    Frame(f.index, f.columns,
      seq(|f.cells|, i requires 0 <= i < |f.cells| =>
        if i == 0 then f.cells[0] else Minus(f.cells[i], f.cells[i - 1])))
  }

  // ---------------------------------------------------------------------
  // what the views mean

  /** The evacuees of all snapshots with evacuees at date `d`. */
  function OccupantsAt(data: seq<Snapshot>, d: Date): int {
    if data == [] then 0
    else
      var s := data[|data| - 1];
      OccupantsAt(data[..|data| - 1], d) + (if s.occupants > 0 && s.date == d then s.occupants else 0)
  }

  lemma {:induction false} SumOfPointwise(a: seq<int>, b: seq<int>, c: seq<int>)
    requires |a| == |b| == |c|
    requires forall j :: 0 <= j < |a| ==> a[j] == b[j] + c[j]
    ensures Sum(a) == Sum(b) + Sum(c)
  {
    if a != [] {
      var m := |a| - 1;
      SumOfPointwise(a[..m], b[..m], c[..m]);
    }
  }

  /** A row holding `v` at the one place whose name is `n`, 0 elsewhere. */
  function Spike(names: seq<string>, n: string, v: int): (r: seq<int>)
    ensures |r| == |names|
    ensures forall j :: 0 <= j < |r| ==> r[j] == (if names[j] == n then v else 0)
  {
    seq(|names|, j requires 0 <= j < |names| => if names[j] == n then v else 0)
  }

  lemma {:induction false} SumOfSpike(names: seq<string>, n: string, v: int)
    requires Sorted(names)
    ensures Sum(Spike(names, n, v)) == if n in names then v else 0
  {
    if names != [] {
      var m := |names| - 1;
      assert Sorted(names[..m]);
      assert Spike(names, n, v)[..m] == Spike(names[..m], n, v);
      SumOfSpike(names[..m], n, v);
      if names[m] == n {
        forall j | 0 <= j < m ensures names[j] != n {
          LessIrreflexive(n);
        }
      }
      assert names == names[..m] + [names[m]];
    }
  }

  /** Summed over any sorted list of names that covers every shelter with
      evacuees, the counts at date `d` give all evacuees at `d`. */
  lemma {:induction false} RowCountsEveryone(data: seq<Snapshot>, d: Date, names: seq<string>)
    requires Sorted(names)
    requires forall k :: 0 <= k < |data| && data[k].occupants > 0 ==> data[k].name in names
    ensures Sum(Row(data, d, names)) == OccupantsAt(data, d)
  {
    if data == [] {
      // an all-zero row is its own double, so its sum is 0
      SumOfPointwise(Row(data, d, names), Row(data, d, names), Row(data, d, names));
    } else {
      var init := data[..|data| - 1];
      var s := data[|data| - 1];
      forall k | 0 <= k < |init| && init[k].occupants > 0 ensures init[k].name in names {
        assert init[k] == data[k];
      }
      RowCountsEveryone(init, d, names);
      var v := if s.occupants > 0 && s.date == d then s.occupants else 0;
      if s.occupants > 0 {
        assert s.name in names;
      }
      forall j | 0 <= j < |names|
        ensures Row(data, d, names)[j] == Row(init, d, names)[j] + Spike(names, s.name, v)[j]
      {
      }
      SumOfPointwise(Row(data, d, names), Row(init, d, names), Spike(names, s.name, v));
      SumOfSpike(names, s.name, v);
    }
  }

  /** The cumulative total of a date is the number of evacuees at that
      date over all snapshots with evacuees. */
  lemma CumulativeTotal(data: seq<Snapshot>, axis: seq<Date>)
    requires Pivot(data, axis).Ok?
    ensures var t := WithTotal(Pivot(data, axis).value);
      forall i :: 0 <= i < |axis| ==> t.cells[i][|t.columns| - 1] == OccupantsAt(data, axis[i])
  {
    NamesSpec(data);
    forall i | 0 <= i < |axis|
      ensures Sum(Pivot(data, axis).value.cells[i]) == OccupantsAt(data, axis[i])
    {
      RowCountsEveryone(data, axis[i], Names(data));
    }
  }

  /** One later row of both views: its changes followed by their sum. */
  lemma ChangesWithTotal(a: seq<int>, b: seq<int>)
    requires |a| == |b|
    ensures Minus(a, b) + [Sum(Minus(a, b))] == Minus(a + [Sum(a)], b + [Sum(b)])
  {
    SumOfPointwise(a, Minus(a, b), b);
  }

  /** The total of the changes is the change of the total: totalling the
      change view gives the change view of the totalled frame. */
  lemma TotalOfChanges(f: Frame)
    requires WellFormed(f)
    ensures WithTotal(Diff(f)) == Diff(WithTotal(f))
  {
    var left, right := WithTotal(Diff(f)), Diff(WithTotal(f));
    forall i | 0 < i < |f.cells| ensures left.cells[i] == right.cells[i] {
      ChangesWithTotal(f.cells[i], f.cells[i - 1]);
    }
    assert left.cells == right.cells;
  }

  /** Column `j` of rows 0..`i` added up. */
  function RunningSum(cells: seq<seq<int>>, i: nat, j: nat): int
    requires i < |cells| && Rectangular(cells, |cells[0]|) && j < |cells[0]|
  {
    if i == 0 then cells[0][j] else RunningSum(cells, i - 1, j) + cells[i][j]
  }

  /** The change view loses nothing: adding up its rows 0..`i` gives back
      row `i` of the frame it came from, in every column. */
  lemma {:induction false} ChangesAddUp(f: Frame, i: nat, j: nat)
    requires WellFormed(f) && i < |f.cells| && j < |f.columns|
    ensures RunningSum(Diff(f).cells, i, j) == f.cells[i][j]
  {
    if i > 0 {
      ChangesAddUp(f, i - 1, j);
    }
  }

  /** The round trip for the dashboard's two views: the running sum of the
      change view, with its total, is the cumulative view with its total. */
  lemma ChangeViewRoundTrip(data: seq<Snapshot>, axis: seq<Date>, i: nat, j: nat)
    requires Pivot(data, axis).Ok?
    requires i < |axis| && j <= |Pivot(data, axis).value.columns|
    ensures var pv := Pivot(data, axis).value;
      var changes := WithTotal(Diff(pv));
      RunningSum(changes.cells, i, j) == WithTotal(pv).cells[i][j]
  {
    var pv := Pivot(data, axis).value;
    TotalOfChanges(pv);
    ChangesAddUp(WithTotal(pv), i, j);
  }

  // ---------------------------------------------------------------------
  // marker colours

  /** The colour of a snapshot: the open and closed statuses become their
      colours and any other status text is kept, and a shelter with
      evacuees is marked in use whatever its status. */
  function Colour(status: string, occupants: int): (r: string)
    ensures occupants > 0 ==> r == InUse
    ensures occupants <= 0 ==> r == (if status == OpenStatus then Open
                                     else if status == ClosedStatus then Closed
                                     else status)
    // unless a status text is literally the in-use colour, a marker shows
    // in-use exactly when the shelter has evacuees
    ensures status != InUse ==> (r == InUse <==> occupants > 0)
  {
    var replaced := if status == OpenStatus then Open else if status == ClosedStatus then Closed else status;
    if occupants > 0 then InUse else replaced
  }

  /** The colour column, one entry per snapshot. */
  function Colours(data: seq<Snapshot>): (r: seq<string>)
    ensures |r| == |data|
    ensures forall k :: 0 <= k < |r| ==> r[k] == Colour(data[k].openStatus, data[k].occupants)
  {
    seq(|data|, k requires 0 <= k < |data| => Colour(data[k].openStatus, data[k].occupants))
  }

  /** The map and the matrix agree: a snapshot marked in use at an
      announcement date has a cell holding its count, and every non-zero
      cell comes from a snapshot marked in use at that date. */
  lemma MarkersMatchPivot(data: seq<Snapshot>, axis: seq<Date>, i: nat)
    requires Pivot(data, axis).Ok? && i < |axis|
    ensures var f := Pivot(data, axis).value;
      && (forall k ::
            (0 <= k < |data| && data[k].date == axis[i] && Colours(data)[k] == InUse
             && data[k].openStatus != InUse) ==>
            exists j :: (0 <= j < |f.columns| && f.columns[j] == data[k].name
              && f.cells[i][j] == data[k].occupants))
      && (forall j :: 0 <= j < |f.columns| && f.cells[i][j] != 0 ==>
            exists k :: (0 <= k < |data| && data[k].date == axis[i] && data[k].name == f.columns[j]
              && Colours(data)[k] == InUse))
  {
    PivotCells(data, axis);
    var f := Pivot(data, axis).value;
    forall k | 0 <= k < |data| && data[k].date == axis[i] && Colours(data)[k] == InUse
      && data[k].openStatus != InUse
      ensures exists j :: (0 <= j < |f.columns| && f.columns[j] == data[k].name
        && f.cells[i][j] == data[k].occupants)
    {
      assert data[k].name in f.columns;
      var j :| 0 <= j < |f.columns| && f.columns[j] == data[k].name;
      assert Counted(data[k], axis[i], f.columns[j]);
    }
    forall j | 0 <= j < |f.columns| && f.cells[i][j] != 0
      ensures exists k :: (0 <= k < |data| && data[k].date == axis[i] && data[k].name == f.columns[j]
        && Colours(data)[k] == InUse)
    {
      var k :| 0 <= k < |data| && Counted(data[k], axis[i], f.columns[j]);
      assert Colours(data)[k] == InUse;
    }
  }
}
