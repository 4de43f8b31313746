/** The daily count series with a trailing moving average built from the
    publication dates of a table of propositions. */
module DailySeries {
  import opened Wrappers
  import opened Calendar

  /** A table cell: a text, or None for a missing value (NaN). */
  type Cell = Option<string>

  /** A table, by column: the column name and the cells under it. */
  type Frame = map<string, seq<Cell>>

  /** What the aggregation can raise. */
  datatype Error =
    | KeyError(column: string)      // the date column is not in the table
    | DateParseError(text: string)  // a cell does not match `%d/%m/%Y` or names no day
    | WindowError(window: int)      // the rolling window is smaller than its minimum of one row

  /** A day that occurs in the dated records, and how many records it has. */
  datatype Bucket = Bucket(date: Date, count: nat)

  /** One row of the series: the day, its number of records and the moving average. */
  datatype Row = Row(date: Date, total: nat, movingAvg: real)

  const DefaultDateColumn: string := "DataPublicacao"
  const DefaultWindow: int := 5

  /** Texts the date converter reads as "no date" rather than as an error. */
  const NaTexts: set<string> := {"NaT", "nat", "NAT", "nan", "NaN", "NAN"}

  // ---------------------------------------------------------------------
  // Step 1: converting the date column (all or nothing)
  // ---------------------------------------------------------------------

  /** The date of one cell: missing cells and "not a date" texts give no
      date; any other text must parse. */
  function ParseCell(c: Cell): (r: Result<Option<Date>, Error>)
    ensures c.None? ==> r == Success(None)
    ensures c.Some? && (c.value == "" || c.value in NaTexts) ==> r == Success(None)
    ensures c.Some? && ParseDate(c.value).Some? ==> r == Success(ParseDate(c.value))
    ensures c.Some? && c.value != "" && c.value !in NaTexts && ParseDate(c.value).None? ==>
      r == Failure(DateParseError(c.value))
    ensures r.Failure? ==> c.Some? && r.error == DateParseError(c.value) && ParseDate(c.value).None?
    ensures r.Success? && r.value.Some? ==> c.Some? && ParseDate(c.value) == r.value && ValidDate(r.value.value)
  {
    match c
    case None => Success(None)
    case Some(s) =>
      if |s| == 0 || s in NaTexts then Success(None)
      else match ParseDate(s)
        case None => Failure(DateParseError(s))
        case Some(d) => Success(Some(d))
  }

  /** Cell `i` is the first cell that does not convert. */
  predicate FirstFailure(cells: seq<Cell>, i: int)
    requires 0 <= i < |cells|
  {
    ParseCell(cells[i]).Failure? && forall k :: 0 <= k < i ==> ParseCell(cells[k]).Success?
  }

  /** Converts a whole column: succeeds exactly when every cell does, then
      cell by cell; otherwise fails with the error of the first bad cell. */
  function ToDatetime(cells: seq<Cell>): (r: Result<seq<Option<Date>>, Error>)
    ensures r.Success? <==> forall i :: 0 <= i < |cells| ==> ParseCell(cells[i]).Success?
    ensures r.Success? ==> |r.value| == |cells|
    ensures r.Success? ==> forall i :: 0 <= i < |cells| ==> r.value[i] == ParseCell(cells[i]).value
    ensures r.Failure? ==>
      exists i :: 0 <= i < |cells| && ParseCell(cells[i]) == Failure(r.error) && FirstFailure(cells, i)
  {
    if cells == [] then Success([])
    else match ParseCell(cells[0])
      case Failure(e) => Failure(e)
      case Success(x) =>
        match ToDatetime(cells[1..])
        case Failure(e) =>
          var i :| 0 <= i < |cells[1..]| && ParseCell(cells[1..][i]) == Failure(e) && FirstFailure(cells[1..], i);
          assert ParseCell(cells[i + 1]) == Failure(e);
          assert FirstFailure(cells, i + 1) by {
            forall k | 0 <= k < i + 1 ensures ParseCell(cells[k]).Success? {
              if k > 0 { assert cells[k] == cells[1..][k - 1]; }
            }
          }
          Failure(e)
        case Success(xs) => Success([x] + xs)
  }

  /** The number of cells whose date is `x`. */
  function RecordsOn(cells: seq<Cell>, x: Date): nat {
    if cells == [] then 0
    else (if ParseCell(cells[0]) == Success(Some(x)) then 1 else 0) + RecordsOn(cells[1..], x)
  }

  predicate HasDate(c: Cell) {
    ParseCell(c).Success? && ParseCell(c).value.Some?
  }

  /** The number of cells that hold a date. */
  function DatedRecords(cells: seq<Cell>): nat {
    if cells == [] then 0 else (if HasDate(cells[0]) then 1 else 0) + DatedRecords(cells[1..])
  }

  // ---------------------------------------------------------------------
  // Step 2: grouping by calendar day and counting, in date order
  // ---------------------------------------------------------------------

  function Occurrences(ds: seq<Option<Date>>, x: Date): nat {
    if ds == [] then 0 else (if ds[0] == Some(x) then 1 else 0) + Occurrences(ds[1..], x)
  }

  function DatedCount(ds: seq<Option<Date>>): nat {
    if ds == [] then 0 else (if ds[0].Some? then 1 else 0) + DatedCount(ds[1..])
  }

  /** The count that the buckets give day `x` (0 when there is no bucket for it). */
  function Tally(bs: seq<Bucket>, x: Date): nat {
    if bs == [] then 0 else (if bs[0].date == x then bs[0].count else 0) + Tally(bs[1..], x)
  }

  function TotalCount(bs: seq<Bucket>): nat {
    if bs == [] then 0 else bs[0].count + TotalCount(bs[1..])
  }

  predicate StrictlyAscending(bs: seq<Bucket>) {
    forall i, j :: 0 <= i < j < |bs| ==> Before(bs[i].date, bs[j].date)
  }

  /** Buckets as grouping produces them: strictly ascending by day, none empty. */
  predicate WellFormed(bs: seq<Bucket>) {
    StrictlyAscending(bs) && forall i :: 0 <= i < |bs| ==> bs[i].count >= 1
  }

  /** Puts a bucket in front of buckets of later days. */
  lemma PrependBucket(b: Bucket, bs: seq<Bucket>)
    requires WellFormed(bs) && b.count >= 1
    requires forall i :: 0 <= i < |bs| ==> Before(b.date, bs[i].date)
    ensures WellFormed([b] + bs)
  {
    var r := [b] + bs;
    assert forall i :: 1 <= i < |r| ==> r[i] == bs[i - 1];
  }

  /** Buckets whose days are `d` or days of `bs` come after a day that
      precedes `d` and all of `bs`. */
  lemma LaterDays(x: Date, d: Date, bs: seq<Bucket>, r: seq<Bucket>)
    requires Before(x, d) && forall j :: 0 <= j < |bs| ==> Before(x, bs[j].date)
    requires forall i :: 0 <= i < |r| ==> r[i].date == d || exists j :: 0 <= j < |bs| && bs[j].date == r[i].date
    ensures forall i :: 0 <= i < |r| ==> Before(x, r[i].date)
  {
  }

  /** Counts one more record on day `d`. */
  function AddRecord(bs: seq<Bucket>, d: Date): (r: seq<Bucket>)
    requires WellFormed(bs)
    ensures WellFormed(r)
    ensures forall i :: 0 <= i < |r| ==> r[i].date == d || exists j :: 0 <= j < |bs| && bs[j].date == r[i].date
  {
    if bs == [] then [Bucket(d, 1)]
    else if bs[0].date == d then
      var r := [Bucket(d, bs[0].count + 1)] + bs[1..];
      assert WellFormed(bs[1..]);
      PrependBucket(Bucket(d, bs[0].count + 1), bs[1..]);
      assert forall i :: 1 <= i < |r| ==> r[i] == bs[i];
      r
    else if Before(d, bs[0].date) then
      PrependBucket(Bucket(d, 1), bs);
      var r := [Bucket(d, 1)] + bs;
      assert forall i :: 1 <= i < |r| ==> r[i] == bs[i - 1];
      r
    else
      var tail := bs[1..];
      assert WellFormed(tail);
      var rest := AddRecord(tail, d);
      LaterDays(bs[0].date, d, tail, rest);
      PrependBucket(bs[0], rest);
      var r := [bs[0]] + rest;
      assert forall i :: 1 <= i < |r| ==> r[i] == rest[i - 1];
      assert forall j :: 0 <= j < |tail| ==> tail[j] == bs[j + 1];
      r
  }

  /** Adding a record counts it on its day and nowhere else. */
  lemma {:induction false} AddRecordCounts(bs: seq<Bucket>, d: Date)
    requires WellFormed(bs)
    ensures forall x :: Tally(AddRecord(bs, d), x) == Tally(bs, x) + (if x == d then 1 else 0)
    ensures TotalCount(AddRecord(bs, d)) == TotalCount(bs) + 1
  {
    if bs == [] {
      assert [Bucket(d, 1)][1..] == [];
    } else if bs[0].date == d {
      assert ([Bucket(d, bs[0].count + 1)] + bs[1..])[1..] == bs[1..];
    } else if Before(d, bs[0].date) {
      assert ([Bucket(d, 1)] + bs)[1..] == bs;
    } else {
      AddRecordCounts(bs[1..], d);
      assert ([bs[0]] + AddRecord(bs[1..], d))[1..] == AddRecord(bs[1..], d);
    }
  }

  /** Groups the dated records by day (missing dates are dropped) and counts
      each day, in ascending order of day. */
  function GroupByDay(ds: seq<Option<Date>>): (bs: seq<Bucket>)
    ensures WellFormed(bs)
    ensures forall x :: Tally(bs, x) == Occurrences(ds, x)
    ensures TotalCount(bs) == DatedCount(ds)
  {
    if ds == [] then []
    else
      var rest := GroupByDay(ds[1..]);
      match ds[0]
      case None => rest
      case Some(d) =>
        AddRecordCounts(rest, d);
        AddRecord(rest, d)
  }

  /** In well-formed buckets, the bucket of a day is the only one that counts for it. */
  lemma {:induction false} TallyOfBucket(bs: seq<Bucket>, i: nat)
    requires WellFormed(bs) && i < |bs|
    ensures Tally(bs, bs[i].date) == bs[i].count
  {
    if i == 0 {
      TallyOfLaterDays(bs[1..], bs[0].date);
    } else {
      assert WellFormed(bs[1..]) && bs[1..][i - 1] == bs[i];
      TallyOfBucket(bs[1..], i - 1);
    }
  }

  lemma {:induction false} TallyOfLaterDays(bs: seq<Bucket>, x: Date)
    requires forall i :: 0 <= i < |bs| ==> Before(x, bs[i].date)
    ensures Tally(bs, x) == 0
  {
    if bs != [] {
      TallyOfLaterDays(bs[1..], x);
    }
  }

  /** A day the buckets count at all has a bucket. */
  lemma {:induction false} TallyHasBucket(bs: seq<Bucket>, x: Date)
    requires Tally(bs, x) > 0
    ensures exists i :: 0 <= i < |bs| && bs[i].date == x
  {
    if bs[0].date != x {
      TallyHasBucket(bs[1..], x);
      var i :| 0 <= i < |bs[1..]| && bs[1..][i].date == x;
      assert bs[i + 1].date == x;
    }
  }

  /** Well-formed buckets are determined by the count they give each day:
      grouping has exactly one possible result. */
  lemma {:induction false} GroupingIsCanonical(a: seq<Bucket>, b: seq<Bucket>)
    requires WellFormed(a) && WellFormed(b)
    requires forall x :: Tally(a, x) == Tally(b, x)
    ensures a == b
  {
    if a != [] && b != [] {
      TallyOfBucket(a, 0);
      TallyOfBucket(b, 0);
      if Before(a[0].date, b[0].date) {
        TallyOfLaterDays(b, a[0].date);
      } else if Before(b[0].date, a[0].date) {
        TallyOfLaterDays(a, b[0].date);
      } else {
        assert a[0] == b[0];
        assert WellFormed(a[1..]) && WellFormed(b[1..]);
        forall x ensures Tally(a[1..], x) == Tally(b[1..], x) {
          assert Tally(a, x) == (if a[0].date == x then a[0].count else 0) + Tally(a[1..], x);
        }
        GroupingIsCanonical(a[1..], b[1..]);
        assert a == [a[0]] + a[1..];
      }
    } else {
      FirstBucketCounted(a);
      FirstBucketCounted(b);
    }
  }

  /** Non-empty well-formed buckets give their first day a positive count. */
  lemma FirstBucketCounted(bs: seq<Bucket>)
    requires WellFormed(bs)
    ensures bs != [] ==> Tally(bs, bs[0].date) >= 1
  {
    if bs != [] {
      TallyOfBucket(bs, 0);
    }
  }

  /** The dates that a successful conversion yields are the cells' dates. */
  lemma {:induction false} ConvertedCounts(cells: seq<Cell>)
    requires ToDatetime(cells).Success?
    ensures forall x :: Occurrences(ToDatetime(cells).value, x) == RecordsOn(cells, x)
    ensures DatedCount(ToDatetime(cells).value) == DatedRecords(cells)
  {
    if cells != [] {
      ConvertedCounts(cells[1..]);
      assert ToDatetime(cells).value == [ParseCell(cells[0]).value] + ToDatetime(cells[1..]).value;
    }
  }

  // ---------------------------------------------------------------------
  // Step 3: the trailing moving average (rolling mean, at least one row)
  // ---------------------------------------------------------------------

  function Sum(xs: seq<nat>): nat {
    if xs == [] then 0 else xs[0] + Sum(xs[1..])
  }

  lemma {:induction false} SumAppend(xs: seq<nat>, x: nat)
    ensures Sum(xs + [x]) == Sum(xs) + x
  {
    if xs != [] {
      assert (xs + [x])[1..] == xs[1..] + [x];
      SumAppend(xs[1..], x);
    }
  }

  /** A sum divided by the number of its terms. */
  function Average(sum: nat, size: nat): real
    requires size > 0
  {
    sum as real / size as real
  }

  function Mean(xs: seq<nat>): real
    requires xs != []
  {
    Average(Sum(xs), |xs|)
  }

  /** Where the window that ends just before position `i` starts. */
  function WindowStart(i: int, w: int): nat {
    if i - w > 0 then i - w else 0
  }

  /** The window of positions `max(0, i - w + 1) .. i` that ends at position `i`. */
  function TrailingWindow(xs: seq<nat>, w: int, i: int): (r: seq<nat>)
    requires w >= 1 && 0 <= i < |xs|
    ensures r != []
  {
    xs[WindowStart(i + 1, w)..i + 1]
  }

  /** Moving the window one position on: the sum gains the new count and,
      once the window is full, loses the one that falls out. */
  lemma SlideWindow(xs: seq<nat>, w: int, i: nat)
    requires w >= 1 && i < |xs|
    ensures var lo := if i - w > 0 then i - w else 0;
      Sum(TrailingWindow(xs, w, i)) + (if i >= w then xs[i - w] else 0) == Sum(xs[lo..i]) + xs[i]
  {
    var lo := if i - w > 0 then i - w else 0;
    var lo' := if i - w + 1 > 0 then i - w + 1 else 0;
    assert xs[lo'..i + 1] == xs[lo'..i] + [xs[i]];
    SumAppend(xs[lo'..i], xs[i]);
    if i >= w {
      assert xs[lo..i][1..] == xs[lo'..i];
    }
  }

  /** How many counts the window ending at position `i` holds. */
  function WindowLength(i: nat, w: int): (n: nat)
    requires w >= 1
    ensures 1 <= n <= i + 1
  {
    if i + 1 < w then i + 1 else w
  }

  /** One step of the running sum: adding the new count and dropping the
      one that leaves the window gives the sum of the window ending at `i`,
      and that sum over the window's length is its mean. */
  function SlideSum(xs: seq<nat>, w: int, i: nat, acc: nat): (next: nat)
    requires w >= 1 && i < |xs|
    requires acc == Sum(xs[WindowStart(i, w)..i])
    ensures next == Sum(xs[WindowStart(i + 1, w)..i + 1])
    ensures Average(next, WindowLength(i, w)) == Mean(TrailingWindow(xs, w, i))
  {
    SlideWindow(xs, w, i);
    assert |TrailingWindow(xs, w, i)| == WindowLength(i, w);
    acc + xs[i] - (if i >= w then xs[i - w] else 0)
  }

  /** The rolling mean from position `i` on, carrying the running sum of the
      window that ends just before `i`, as the rolling computation does. */
  function RollingFrom(xs: seq<nat>, w: int, i: nat, acc: nat): (r: seq<real>)
    requires w >= 1 && i <= |xs|
    requires acc == Sum(xs[WindowStart(i, w)..i])
    ensures |r| == |xs| - i
    ensures forall k :: 0 <= k < |r| ==> r[k] == Mean(TrailingWindow(xs, w, i + k))
    decreases |xs| - i
  {
    if i == |xs| then []
    else
      var next := SlideSum(xs, w, i, acc);
      var rest := RollingFrom(xs, w, i + 1, next);
      PrependMean(xs, w, i, Average(next, WindowLength(i, w)), rest);
      [Average(next, WindowLength(i, w))] + rest
  }

  /** Putting the mean of the window ending at `i` in front of the means
      from `i + 1` on gives the means from `i` on. */
  lemma PrependMean(xs: seq<nat>, w: int, i: nat, m: real, rest: seq<real>)
    requires w >= 1 && i < |xs| && |rest| == |xs| - i - 1
    requires m == Mean(TrailingWindow(xs, w, i))
    requires forall k :: 0 <= k < |rest| ==> rest[k] == Mean(TrailingWindow(xs, w, i + 1 + k))
    ensures forall k :: 0 <= k < |rest| + 1 ==> ([m] + rest)[k] == Mean(TrailingWindow(xs, w, i + k))
  {
    forall k | 1 <= k < |rest| + 1
      ensures ([m] + rest)[k] == Mean(TrailingWindow(xs, w, i + k))
    {
      assert ([m] + rest)[k] == rest[k - 1];
      assert i + 1 + (k - 1) == i + k;
    }
  }

  /** The rolling mean with at least one row: position `i` holds the mean of
      the counts at positions `max(0, i - w + 1) .. i`. */
  function RollingMean(xs: seq<nat>, w: int): (r: seq<real>)
    requires w >= 1
    ensures |r| == |xs|
    ensures forall i :: 0 <= i < |xs| ==> r[i] == Mean(TrailingWindow(xs, w, i))
  {
    assert xs[0..0] == [];
    RollingFrom(xs, w, 0, 0)
  }

  function Counts(bs: seq<Bucket>): (r: seq<nat>)
    ensures |r| == |bs| && forall i :: 0 <= i < |bs| ==> r[i] == bs[i].count
  {
    seq(|bs|, i requires 0 <= i < |bs| => bs[i].count)
  }

  function Totals(rows: seq<Row>): (r: seq<nat>)
    ensures |r| == |rows| && forall i :: 0 <= i < |rows| ==> r[i] == rows[i].total
  {
    seq(|rows|, i requires 0 <= i < |rows| => rows[i].total)
  }

  // ---------------------------------------------------------------------
  // The whole aggregation
  // ---------------------------------------------------------------------

  /** Every bucket holds the count the buckets give its day. */
  lemma BucketTallies(bs: seq<Bucket>)
    requires WellFormed(bs)
    ensures forall i :: 0 <= i < |bs| ==> Tally(bs, bs[i].date) == bs[i].count
  {
    forall i | 0 <= i < |bs| ensures Tally(bs, bs[i].date) == bs[i].count {
      TallyOfBucket(bs, i);
    }
  }

  /** The series of the buckets of the converted dates, with the rolling
      mean: one row per day, strictly ascending by day, each counting the
      records of its day and averaging the window that ends at it. */
  function SeriesOf(ds: seq<Option<Date>>, window: int): (rows: seq<Row>)
    requires window >= 1
    ensures forall i, j :: 0 <= i < j < |rows| ==> Before(rows[i].date, rows[j].date)
    ensures forall i :: 0 <= i < |rows| ==> rows[i].total == Occurrences(ds, rows[i].date) && rows[i].total >= 1
    ensures forall i :: 0 <= i < |rows| ==> rows[i].movingAvg == Mean(TrailingWindow(Totals(rows), window, i))
  {
    var bs := GroupByDay(ds);
    var ma := RollingMean(Counts(bs), window);
    var rows := seq(|bs|, i requires 0 <= i < |bs| => Row(bs[i].date, bs[i].count, ma[i]));
    RowsOfBuckets(ds, window, bs, ma, rows);
    rows
  }

  /** The rows built from the buckets of `ds` and their rolling mean. */
  lemma RowsOfBuckets(ds: seq<Option<Date>>, window: int, bs: seq<Bucket>, ma: seq<real>, rows: seq<Row>)
    requires window >= 1 && bs == GroupByDay(ds) && ma == RollingMean(Counts(bs), window)
    requires |rows| == |bs|
    requires forall i :: 0 <= i < |rows| ==> rows[i] == Row(bs[i].date, bs[i].count, ma[i])
    ensures forall i, j :: 0 <= i < j < |rows| ==> Before(rows[i].date, rows[j].date)
    ensures forall i :: 0 <= i < |rows| ==> rows[i].total == Occurrences(ds, rows[i].date) && rows[i].total >= 1
    ensures forall i :: 0 <= i < |rows| ==> rows[i].movingAvg == Mean(TrailingWindow(Totals(rows), window, i))
  {
    BucketTallies(bs);
    assert Totals(rows) == Counts(bs);
  }

  /** Daily counts of the records in `df[dateCol]` with a trailing moving
      average over `window` rows. Fails, with no partial series, when the
      column is missing, when some cell is not a date, or when the window is
      below one. */
  function Preprocess(df: Frame, dateCol: string, window: int): (r: Result<seq<Row>, Error>)
    ensures dateCol !in df ==> r == Failure(KeyError(dateCol))
    ensures dateCol in df && (exists i :: 0 <= i < |df[dateCol]| && ParseCell(df[dateCol][i]).Failure?) ==>
      r.Failure? && r.error.DateParseError?
    ensures dateCol in df && (forall i :: 0 <= i < |df[dateCol]| ==> ParseCell(df[dateCol][i]).Success?) ==>
      (window >= 1 <==> r.Success?) && (window < 1 ==> r == Failure(WindowError(window)))
    ensures r.Failure? && r.error.DateParseError? ==>
      && dateCol in df
      && exists i :: 0 <= i < |df[dateCol]| && df[dateCol][i] == Some(r.error.text) && FirstFailure(df[dateCol], i)
  {
    if dateCol !in df then Failure(KeyError(dateCol))
    else match ToDatetime(df[dateCol])
      case Failure(e) => Failure(e)
      case Success(ds) =>
        if window < 1 then Failure(WindowError(window))
        else Success(SeriesOf(ds, window))
  }

  lemma {:induction false} SumOfCounts(bs: seq<Bucket>)
    ensures Sum(Counts(bs)) == TotalCount(bs)
  {
    if bs != [] {
      assert Counts(bs)[1..] == Counts(bs[1..]);
      SumOfCounts(bs[1..]);
    }
  }

  /** The days of a successful aggregation: strictly ascending, so each day
      at most once, and exactly the days that have records. */
  lemma SeriesDays(df: Frame, dateCol: string, window: int)
    requires Preprocess(df, dateCol, window).Success?
    ensures dateCol in df
    ensures var rows := Preprocess(df, dateCol, window).value;
      forall i, j :: 0 <= i < j < |rows| ==> Before(rows[i].date, rows[j].date)
    ensures var rows := Preprocess(df, dateCol, window).value;
      forall x :: RecordsOn(df[dateCol], x) > 0 <==> exists i :: 0 <= i < |rows| && rows[i].date == x
  {
    var ds := ToDatetime(df[dateCol]).value;
    ConvertedCounts(df[dateCol]);
    SeriesOfDays(ds, window);
  }

  /** The days of the series of some converted dates are ascending and are
      exactly the days that occur among them. */
  lemma SeriesOfDays(ds: seq<Option<Date>>, window: int)
    requires window >= 1
    ensures var rows := SeriesOf(ds, window);
      forall i, j :: 0 <= i < j < |rows| ==> Before(rows[i].date, rows[j].date)
    ensures var rows := SeriesOf(ds, window);
      forall x :: Occurrences(ds, x) > 0 <==> exists i :: 0 <= i < |rows| && rows[i].date == x
  {
    var bs := GroupByDay(ds);
    var rows := SeriesOf(ds, window);
    forall x | Occurrences(ds, x) > 0
      ensures exists i :: 0 <= i < |rows| && rows[i].date == x
    {
      TallyHasBucket(bs, x);
      var i :| 0 <= i < |bs| && bs[i].date == x;
      assert rows[i].date == x;
    }
  }

  /** Each row counts exactly the records of its day, at least one; the rows
      together count every record that has a date. */
  lemma SeriesCounts(df: Frame, dateCol: string, window: int)
    requires Preprocess(df, dateCol, window).Success?
    ensures dateCol in df
    ensures var rows := Preprocess(df, dateCol, window).value;
      forall i :: 0 <= i < |rows| ==> rows[i].total == RecordsOn(df[dateCol], rows[i].date) && rows[i].total >= 1
    ensures Sum(Totals(Preprocess(df, dateCol, window).value)) == DatedRecords(df[dateCol])
  {
    var ds := ToDatetime(df[dateCol]).value;
    var bs := GroupByDay(ds);
    var rows := Preprocess(df, dateCol, window).value;
    ConvertedCounts(df[dateCol]);
    assert Totals(rows) == Counts(bs);
    SumOfCounts(bs);
  }

  /** Row `i` carries the mean of the counts at positions `max(0, i - w + 1) .. i`. */
  lemma SeriesMovingAverage(df: Frame, dateCol: string, window: int)
    requires Preprocess(df, dateCol, window).Success?
    ensures window >= 1
    ensures var rows := Preprocess(df, dateCol, window).value;
      forall i :: 0 <= i < |rows| ==> rows[i].movingAvg == Mean(TrailingWindow(Totals(rows), window, i))
  {
    var bs := GroupByDay(ToDatetime(df[dateCol]).value);
    var rows := Preprocess(df, dateCol, window).value;
    assert Totals(rows) == Counts(bs);
  }

  /** With a window of one row the moving average is the day's own count. */
  lemma MovingAverageOfWindowOne(df: Frame, dateCol: string)
    requires Preprocess(df, dateCol, 1).Success?
    ensures var rows := Preprocess(df, dateCol, 1).value;
      forall i :: 0 <= i < |rows| ==> rows[i].movingAvg == rows[i].total as real
  {
    SeriesMovingAverage(df, dateCol, 1);
    var rows := Preprocess(df, dateCol, 1).value;
    forall i | 0 <= i < |rows|
      ensures rows[i].movingAvg == rows[i].total as real
    {
      MeanOfOne(Totals(rows), i);
    }
  }

  /** A window of one count averages to that count. */
  lemma MeanOfOne(xs: seq<nat>, i: nat)
    requires i < |xs|
    ensures Mean(TrailingWindow(xs, 1, i)) == xs[i] as real
  {
    assert TrailingWindow(xs, 1, i) == [xs[i]];
    assert Sum([xs[i]]) == xs[i] + Sum([]);
  }

  /** Before the window has filled, a row averages the whole prefix up to it. */
  lemma MovingAverageWarmUp(df: Frame, dateCol: string, window: int, i: nat)
    requires Preprocess(df, dateCol, window).Success?
    requires i < |Preprocess(df, dateCol, window).value| && i < window
    ensures var rows := Preprocess(df, dateCol, window).value;
      rows[i].movingAvg == Mean(Totals(rows)[..i + 1])
  {
    SeriesMovingAverage(df, dateCol, window);
  }

  lemma {:induction false} NoDatesNoBuckets(ds: seq<Option<Date>>)
    requires forall i :: 0 <= i < |ds| ==> ds[i].None?
    ensures GroupByDay(ds) == []
  {
    if ds != [] {
      NoDatesNoBuckets(ds[1..]);
    }
  }

  /** A column without dates (empty, or only missing values) gives an empty series. */
  lemma EmptySeries(df: Frame, dateCol: string, window: int)
    requires dateCol in df && window >= 1
    requires forall i :: 0 <= i < |df[dateCol]| ==> df[dateCol][i].None?
    ensures Preprocess(df, dateCol, window) == Success([])
  {
    var cells := df[dateCol];
    assert forall i :: 0 <= i < |cells| ==> ParseCell(cells[i]) == Success(None);
    var ds := ToDatetime(cells).value;
    NoDatesNoBuckets(ds);
    assert SeriesOf(ds, window) == [];
  }

  /** The zero-padded `DD/MM/YYYY` text of any day converts to that day. */
  lemma FormattedCellParses(text: string, d: Date)
    requires ValidDate(d) && text == FormatDate(d)
    ensures ParseCell(Some(text)) == Success(Some(d))
  {
    ParseFormatRoundTrip(d);
    assert |text| == 10;
    assert forall n :: n in NaTexts ==> |n| == 3;
  }

  /** Three records on one day, one on a later day and two on a still later
      day, listed out of order, with a window of five rows. */
  lemma ScenarioThreeDays(t1: string, t2: string, t5: string, d1: Date, d2: Date, d5: Date)
    requires ParseCell(Some(t1)) == Success(Some(d1))
    requires ParseCell(Some(t2)) == Success(Some(d2))
    requires ParseCell(Some(t5)) == Success(Some(d5))
    requires Before(d1, d2) && Before(d2, d5)
    ensures Preprocess(map[DefaultDateColumn := [Some(t5), Some(t1), Some(t2), Some(t1), Some(t5), Some(t1)]],
                       DefaultDateColumn, DefaultWindow)
      == Success([Row(d1, 3, 3.0), Row(d2, 1, 2.0), Row(d5, 2, 2.0)])
  {
    ThreeDaysConverted(t1, t2, t5, d1, d2, d5);
    ThreeDaysSeries(d1, d2, d5);
    var df := map[DefaultDateColumn := [Some(t5), Some(t1), Some(t2), Some(t1), Some(t5), Some(t1)]];
    assert df[DefaultDateColumn] == [Some(t5), Some(t1), Some(t2), Some(t1), Some(t5), Some(t1)];
  }

  /** The scenario above on the texts `01/01/2020`, `02/01/2020` and `05/01/2020`. */
  lemma ScenarioJanuary2020(t1: string, t2: string, t5: string)
    requires t1 == "01/01/2020" && t2 == "02/01/2020" && t5 == "05/01/2020"
    ensures Preprocess(map[DefaultDateColumn := [Some(t5), Some(t1), Some(t2), Some(t1), Some(t5), Some(t1)]],
                       DefaultDateColumn, DefaultWindow)
      == Success([Row(Date(2020, 1, 1), 3, 3.0), Row(Date(2020, 1, 2), 1, 2.0), Row(Date(2020, 1, 5), 2, 2.0)])
  {
    JanuaryFirst(t1);
    JanuarySecond(t2);
    JanuaryFifth(t5);
    ScenarioThreeDays(t1, t2, t5, Date(2020, 1, 1), Date(2020, 1, 2), Date(2020, 1, 5));
  }

  lemma JanuaryFirst(t: string)
    requires t == "01/01/2020"
    ensures ParseCell(Some(t)) == Success(Some(Date(2020, 1, 1)))
  {
    FormattedCellParses(t, Date(2020, 1, 1));
  }

  lemma JanuarySecond(t: string)
    requires t == "02/01/2020"
    ensures ParseCell(Some(t)) == Success(Some(Date(2020, 1, 2)))
  {
    FormattedCellParses(t, Date(2020, 1, 2));
  }

  lemma JanuaryFifth(t: string)
    requires t == "05/01/2020"
    ensures ParseCell(Some(t)) == Success(Some(Date(2020, 1, 5)))
  {
    FormattedCellParses(t, Date(2020, 1, 5));
  }

  lemma ConvertStep(c: Cell, x: Option<Date>, cells: seq<Cell>, ds: seq<Option<Date>>)
    requires ParseCell(c) == Success(x) && ToDatetime(cells) == Success(ds)
    ensures ToDatetime([c] + cells) == Success([x] + ds)
  {
    assert ([c] + cells)[1..] == cells;
  }

  lemma ThreeDaysConverted(t1: string, t2: string, t5: string, d1: Date, d2: Date, d5: Date)
    requires ParseCell(Some(t1)) == Success(Some(d1))
    requires ParseCell(Some(t2)) == Success(Some(d2))
    requires ParseCell(Some(t5)) == Success(Some(d5))
    ensures ToDatetime([Some(t5), Some(t1), Some(t2), Some(t1), Some(t5), Some(t1)])
      == Success([Some(d5), Some(d1), Some(d2), Some(d1), Some(d5), Some(d1)])
  {
    var c1, c2, c5 := Some(t1), Some(t2), Some(t5);
    var x1, x2, x5 := Some(d1), Some(d2), Some(d5);
    ConvertStep(c1, x1, [], []);
    assert [c1] + [] == [c1] && [x1] + [] == [x1];
    ConvertStep(c5, x5, [c1], [x1]);
    ConvertStep(c1, x1, [c5] + [c1], [x5] + [x1]);
    ConvertStep(c2, x2, [c1] + ([c5] + [c1]), [x1] + ([x5] + [x1]));
    ConvertStep(c1, x1, [c2] + ([c1] + ([c5] + [c1])), [x2] + ([x1] + ([x5] + [x1])));
    ConvertStep(c5, x5, [c1] + ([c2] + ([c1] + ([c5] + [c1]))), [x1] + ([x2] + ([x1] + ([x5] + [x1]))));
    SixCells(c5, c1, c2, c1, c5, c1);
    SixCells(x5, x1, x2, x1, x5, x1);
  }

  lemma SixCells<T>(a: T, b: T, c: T, d: T, e: T, f: T)
    ensures [a] + ([b] + ([c] + ([d] + ([e] + [f])))) == [a, b, c, d, e, f]
  {
  }

  lemma ThreeDaysTally(d1: Date, d2: Date, d5: Date, x: Date)
    ensures Tally([Bucket(d1, 3), Bucket(d2, 1), Bucket(d5, 2)], x)
      == (if x == d1 then 3 else 0) + (if x == d2 then 1 else 0) + (if x == d5 then 2 else 0)
  {
    var b3 := [Bucket(d5, 2)];
    assert b3[1..] == [];
    assert Tally(b3, x) == (if x == d5 then 2 else 0);
    var b2 := [Bucket(d2, 1)] + b3;
    assert b2[1..] == b3;
    assert Tally(b2, x) == (if x == d2 then 1 else 0) + Tally(b3, x);
    var b1 := [Bucket(d1, 3)] + b2;
    assert b1[1..] == b2;
    assert Tally(b1, x) == (if x == d1 then 3 else 0) + Tally(b2, x);
    assert [Bucket(d1, 3), Bucket(d2, 1), Bucket(d5, 2)] == b1;
  }

  lemma ThreeDaysOccurrences(d1: Date, d2: Date, d5: Date, x: Date)
    ensures Occurrences([Some(d5), Some(d1), Some(d2), Some(d1), Some(d5), Some(d1)], x)
      == (if x == d1 then 3 else 0) + (if x == d2 then 1 else 0) + (if x == d5 then 2 else 0)
  {
    var o1 := [Some(d1)];
    assert o1[1..] == [];
    assert Occurrences(o1, x) == (if x == d1 then 1 else 0);
    var o2 := [Some(d5)] + o1;
    assert o2[1..] == o1;
    assert Occurrences(o2, x) == (if x == d5 then 1 else 0) + Occurrences(o1, x);
    var o3 := [Some(d1)] + o2;
    assert o3[1..] == o2;
    assert Occurrences(o3, x) == (if x == d1 then 1 else 0) + Occurrences(o2, x);
    var o4 := [Some(d2)] + o3;
    assert o4[1..] == o3;
    assert Occurrences(o4, x) == (if x == d2 then 1 else 0) + Occurrences(o3, x);
    var o5 := [Some(d1)] + o4;
    assert o5[1..] == o4;
    assert Occurrences(o5, x) == (if x == d1 then 1 else 0) + Occurrences(o4, x);
    var o6 := [Some(d5)] + o5;
    assert o6[1..] == o5;
    assert Occurrences(o6, x) == (if x == d5 then 1 else 0) + Occurrences(o5, x);
    assert [Some(d5), Some(d1), Some(d2), Some(d1), Some(d5), Some(d1)] == o6;
  }

  lemma ThreeDaysTallies(d1: Date, d2: Date, d5: Date)
    ensures forall x ::
      Tally([Bucket(d1, 3), Bucket(d2, 1), Bucket(d5, 2)], x)
        == Occurrences([Some(d5), Some(d1), Some(d2), Some(d1), Some(d5), Some(d1)], x)
  {
    forall x
      ensures Tally([Bucket(d1, 3), Bucket(d2, 1), Bucket(d5, 2)], x)
        == Occurrences([Some(d5), Some(d1), Some(d2), Some(d1), Some(d5), Some(d1)], x)
    {
      ThreeDaysTally(d1, d2, d5, x);
      ThreeDaysOccurrences(d1, d2, d5, x);
    }
  }

  lemma ThreeBucketsWellFormed(d1: Date, d2: Date, d5: Date)
    requires Before(d1, d2) && Before(d2, d5)
    ensures WellFormed([Bucket(d1, 3), Bucket(d2, 1), Bucket(d5, 2)])
  {
    var bs := [Bucket(d1, 3), Bucket(d2, 1), Bucket(d5, 2)];
    assert Before(d1, d5);
    forall i, j | 0 <= i < j < |bs| ensures Before(bs[i].date, bs[j].date) {
      assert i == 0 || i == 1;
      assert j == 1 || j == 2;
    }
  }

  lemma ThreeDaysGrouped(d1: Date, d2: Date, d5: Date)
    requires Before(d1, d2) && Before(d2, d5)
    ensures GroupByDay([Some(d5), Some(d1), Some(d2), Some(d1), Some(d5), Some(d1)])
      == [Bucket(d1, 3), Bucket(d2, 1), Bucket(d5, 2)]
  {
    ThreeDaysTallies(d1, d2, d5);
    ThreeBucketsWellFormed(d1, d2, d5);
    GroupingIsCanonical(GroupByDay([Some(d5), Some(d1), Some(d2), Some(d1), Some(d5), Some(d1)]),
                        [Bucket(d1, 3), Bucket(d2, 1), Bucket(d5, 2)]);
  }

  lemma ThreeDaysSeries(d1: Date, d2: Date, d5: Date)
    requires Before(d1, d2) && Before(d2, d5)
    ensures SeriesOf([Some(d5), Some(d1), Some(d2), Some(d1), Some(d5), Some(d1)], 5)
      == [Row(d1, 3, 3.0), Row(d2, 1, 2.0), Row(d5, 2, 2.0)]
  {
    ThreeDaysGrouped(d1, d2, d5);
    ThreeDaysAveraged(d1, d2, d5);
  }

  lemma ThreeDaysAveraged(d1: Date, d2: Date, d5: Date)
    ensures RollingMean(Counts([Bucket(d1, 3), Bucket(d2, 1), Bucket(d5, 2)]), 5) == [3.0, 2.0, 2.0]
  {
    var xs := Counts([Bucket(d1, 3), Bucket(d2, 1), Bucket(d5, 2)]);
    assert xs == [3, 1, 2];
    assert TrailingWindow(xs, 5, 0) == [3];
    assert TrailingWindow(xs, 5, 1) == [3, 1];
    assert TrailingWindow(xs, 5, 2) == [3, 1, 2];
    assert Sum([3]) == 3 && Sum([3, 1]) == 4 && Sum([3, 1, 2]) == 6;
  }

  /** A column whose first cell converts and whose second does not fails
      with the second cell's error. */
  lemma SecondCellFails(cells: seq<Cell>)
    requires |cells| >= 2 && ParseCell(cells[0]).Success? && ParseCell(cells[1]).Failure?
    ensures ToDatetime(cells) == Failure(ParseCell(cells[1]).error)
  {
  }

  lemma MonthThirteenCell(t: string)
    requires t == "31/13/2020"
    ensures ParseCell(Some(t)) == Failure(DateParseError(t))
  {
    RejectsMonthThirteen(t);
  }

  /** A record dated with month 13 makes the whole aggregation fail. */
  lemma ScenarioBadMonth(t1: string, bad: string, t2: string)
    requires t1 == "01/01/2020" && bad == "31/13/2020" && t2 == "02/01/2020"
    ensures Preprocess(map[DefaultDateColumn := [Some(t1), Some(bad), Some(t2)]], DefaultDateColumn, DefaultWindow)
      == Failure(DateParseError(bad))
  {
    JanuaryFirst(t1);
    MonthThirteenCell(bad);
    var cells := [Some(t1), Some(bad), Some(t2)];
    SecondCellFails(cells);
    assert map[DefaultDateColumn := cells][DefaultDateColumn] == cells;
  }
}
