/**
 * The two per-month aggregates of the cleaned table: the mean rating of each
 * month, and the number of rows of each (month, sentiment) pair with the
 * missing pairs filled with 0.
 *
 * Means are exact rationals (`real`), so no rounding is involved.
 */
module Aggregates {
  import opened Seqs
  import opened Sentiments
  import opened Reviews

  /** The month column of the table. */
  function MonthColumn(rows: seq<Row>): seq<YearMonth> {
    seq(|rows|, i requires 0 <= i < |rows| => rows[i].month)
  }

  /** The sentiment column of the table. */
  function SentimentColumn(rows: seq<Row>): seq<Sentiment> {
    seq(|rows|, i requires 0 <= i < |rows| => rows[i].sentiment)
  }

  function Sum(xs: seq<int>): int {
    if xs == [] then 0 else Sum(xs[..|xs| - 1]) + xs[|xs| - 1]
  }

  /** The ratings of the rows of month `m`, in row order: one group of the by-month grouping. */
  function MonthRatings(rows: seq<Row>, m: YearMonth): (g: seq<int>)
    ensures |g| <= |rows|
    ensures g != [] <==> m in MonthColumn(rows)
  {
    if rows == [] then []
    else
      var init, last := rows[..|rows| - 1], rows[|rows| - 1];
      assert MonthColumn(rows) == MonthColumn(init) + [last.month];
      MonthRatings(init, m) + (if last.month == m then [last.review.rating] else [])
  }

  /** The arithmetic mean: multiplied by the number of values it gives their sum. */
  function Mean(xs: seq<int>): (r: real)
    requires xs != []
    ensures r * |xs| as real == Sum(xs) as real
  {
    Sum(xs) as real / |xs| as real
  }

  /**
   * The mean rating per month. Its keys are exactly the months some row
   * falls in, and each value is the mean of that month's ratings.
   */
  function MonthlyMeanRating(rows: seq<Row>): (means: map<YearMonth, real>)
    ensures forall m :: m in means <==> m in MonthColumn(rows)
    ensures forall m :: m in means ==>
      MonthRatings(rows, m) != [] && means[m] == Mean(MonthRatings(rows, m))
  {
    map m | m in MonthColumn(rows) :: Mean(MonthRatings(rows, m))
  }

  /** A month's ratings are ratings of the table, so they share any bounds of the table's ratings. */
  lemma {:induction false} MonthRatingsBounded(rows: seq<Row>, m: YearMonth, lo: int, hi: int)
    requires forall i :: 0 <= i < |rows| ==> lo <= rows[i].review.rating <= hi
    ensures forall j :: 0 <= j < |MonthRatings(rows, m)| ==> lo <= MonthRatings(rows, m)[j] <= hi
  {
    if rows != [] {
      var init := rows[..|rows| - 1];
      MonthRatingsBounded(init, m, lo, hi);
    }
  }

  /** A sum of values in [lo, hi] lies between `lo` and `hi` times their number. */
  lemma {:induction false} SumBounds(xs: seq<int>, lo: int, hi: int)
    requires forall j :: 0 <= j < |xs| ==> lo <= xs[j] <= hi
    ensures lo * |xs| <= Sum(xs) <= hi * |xs|
  {
    if xs != [] {
      var k := |xs| - 1;
      SumBounds(xs[..k], lo, hi);
      assert lo * (k + 1) == lo * k + lo;
      assert hi * (k + 1) == hi * k + hi;
    }
  }

  /** A quotient `q` of `s` by a positive `n` lies in [lo, hi] when `s` lies between `lo` and `hi` times `n`. */
  lemma QuotientBounds(s: int, n: int, q: real, lo: int, hi: int)
    requires n > 0 && q * n as real == s as real
    requires lo * n <= s <= hi * n
    ensures lo as real <= q <= hi as real
  {
  }

  /** When every rating lies in [lo, hi], so does every monthly mean (on the 1-5 star scale, each mean is between 1 and 5). */
  lemma MeanWithinRatingRange(rows: seq<Row>, m: YearMonth, lo: int, hi: int)
    requires forall i :: 0 <= i < |rows| ==> lo <= rows[i].review.rating <= hi
    requires m in MonthColumn(rows)
    ensures m in MonthlyMeanRating(rows)
    ensures lo as real <= MonthlyMeanRating(rows)[m] <= hi as real
  {
    var g := MonthRatings(rows, m);
    MonthRatingsBounded(rows, m, lo, hi);
    SumBounds(g, lo, hi);
    QuotientBounds(Sum(g), |g|, Mean(g), lo, hi);
  }

  /** Three rows of one month rated 4, 5 and 3 form one group holding those ratings in that order. */
  lemma ExampleGroup(rows: seq<Row>, m: YearMonth)
    requires |rows| == 3
    requires rows[0].month == m && rows[1].month == m && rows[2].month == m
    requires rows[0].review.rating == 4 && rows[1].review.rating == 5 && rows[2].review.rating == 3
    ensures MonthColumn(rows) == [m, m, m]
    ensures MonthRatings(rows, m) == [4, 5, 3]
  {
    assert rows[..1][..0] == [];
    assert rows[..2][..1] == rows[..1];
    assert rows[..|rows| - 1] == rows[..2];
    assert MonthRatings(rows[..1], m) == [4];
    assert MonthRatings(rows[..2], m) == [4, 5];
  }

  lemma ExampleMean()
    ensures Mean([4, 5, 3]) == 4.0
  {
    assert [4, 5, 3][..2] == [4, 5] && [4, 5][..1] == [4] && [4][..0] == [];
  }

  /** Three rows of one month rated 4, 5 and 3 have a mean of 4. */
  lemma MeanExample(rows: seq<Row>, m: YearMonth)
    requires |rows| == 3
    requires rows[0].month == m && rows[1].month == m && rows[2].month == m
    requires rows[0].review.rating == 4 && rows[1].review.rating == 5 && rows[2].review.rating == 3
    ensures MonthlyMeanRating(rows) == map[m := 4.0]
  {
    ExampleGroup(rows, m);
    ExampleMean();
  }

  /** The number of rows of month `m` with sentiment `s`. */
  function CountIn(rows: seq<Row>, m: YearMonth, s: Sentiment): nat {
    if rows == [] then 0
    else
      var init, last := rows[..|rows| - 1], rows[|rows| - 1];
      CountIn(init, m, s) + (if last.month == m && last.sentiment == s then 1 else 0)
  }

  /**
   * The (month, sentiment) count table: an entry for every month that occurs
   * paired with every sentiment that occurs, holding the number of rows with
   * that month and sentiment (0 where none has both).
   */
  function MonthlySentimentCounts(rows: seq<Row>): (table: map<(YearMonth, Sentiment), nat>)
    ensures forall m, s :: (m, s) in table <==> m in MonthColumn(rows) && s in SentimentColumn(rows)
    ensures forall m, s :: (m, s) in table ==> table[(m, s)] == CountIn(rows, m, s)
  {
    var cells := set m, s | m in MonthColumn(rows) && s in SentimentColumn(rows) :: (m, s);
    map k | k in cells :: CountIn(rows, k.0, k.1)
  }

  /** A pair counts zero rows exactly when no row has both its month and its sentiment. */
  lemma {:induction false} CountInZero(rows: seq<Row>, m: YearMonth, s: Sentiment)
    ensures CountIn(rows, m, s) == 0 <==>
      forall i :: 0 <= i < |rows| ==> !(rows[i].month == m && rows[i].sentiment == s)
  {
    if rows != [] {
      var init, last := rows[..|rows| - 1], rows[|rows| - 1];
      CountInZero(init, m, s);
      assert forall i :: 0 <= i < |init| ==> init[i] == rows[i];
    }
  }

  /** The three sentiment counts of a month add up to the number of rows in that month. */
  lemma {:induction false} MonthPartition(rows: seq<Row>, m: YearMonth)
    ensures CountIn(rows, m, Positive) + CountIn(rows, m, Negative) + CountIn(rows, m, Neutral)
      == |MonthRatings(rows, m)|
  {
    if rows != [] {
      var init := rows[..|rows| - 1];
      MonthPartition(init, m);
    }
  }

  /** Per-pair counts of two positive rows in one month and a negative one in the next. */
  lemma ExampleCountIn(rows: seq<Row>, m1: YearMonth, m2: YearMonth)
    requires m1 != m2 && |rows| == 3
    requires rows[0].month == m1 && rows[0].sentiment == Positive
    requires rows[1].month == m1 && rows[1].sentiment == Positive
    requires rows[2].month == m2 && rows[2].sentiment == Negative
    ensures forall m, s ::
      CountIn(rows, m, s) == (if m == m1 && s == Positive then 2 else 0) + (if m == m2 && s == Negative then 1 else 0)
  {
    assert rows[..1][..0] == [];
    assert rows[..2][..1] == rows[..1];
    assert rows[..|rows| - 1] == rows[..2];
    forall m, s
      ensures CountIn(rows, m, s) ==
        (if m == m1 && s == Positive then 2 else 0) + (if m == m2 && s == Negative then 1 else 0)
    {
      assert CountIn(rows[..1], m, s) == (if m == m1 && s == Positive then 1 else 0);
      assert CountIn(rows[..2], m, s) == (if m == m1 && s == Positive then 2 else 0);
    }
  }

  /**
   * Two positive rows in one month and a negative one in the next: every
   * occurring month gets both occurring labels, and the two pairs no row has
   * are filled with 0.
   */
  lemma FilledTableExample(rows: seq<Row>, m1: YearMonth, m2: YearMonth)
    requires m1 != m2 && |rows| == 3
    requires rows[0].month == m1 && rows[0].sentiment == Positive
    requires rows[1].month == m1 && rows[1].sentiment == Positive
    requires rows[2].month == m2 && rows[2].sentiment == Negative
    ensures MonthlySentimentCounts(rows) ==
      map[(m1, Positive) := 2, (m1, Negative) := 0, (m2, Positive) := 0, (m2, Negative) := 1]
  {
    var ms, ss := MonthColumn(rows), SentimentColumn(rows);
    assert ms == [m1, m1, m2] && ss == [Positive, Positive, Negative];
    assert forall m :: m in ms <==> m == m1 || m == m2;
    assert forall s :: s in ss <==> s == Positive || s == Negative;
    ExampleCountIn(rows, m1, m2);
  }

  /** The value of a table cell, 0 when the table has no such cell. */
  function Cell(table: map<(YearMonth, Sentiment), nat>, m: YearMonth, s: Sentiment): nat {
    if (m, s) in table then table[(m, s)] else 0
  }

  /** The sum of the table's cells over the months `ms`. */
  function TableTotal(table: map<(YearMonth, Sentiment), nat>, ms: seq<YearMonth>): nat {
    if ms == [] then 0
    else
      var m := ms[|ms| - 1];
      TableTotal(table, ms[..|ms| - 1]) + Cell(table, m, Positive) + Cell(table, m, Negative) + Cell(table, m, Neutral)
  }

  /** The number of rows in the months `ms`, group by group. */
  function GroupTotal(rows: seq<Row>, ms: seq<YearMonth>): nat {
    if ms == [] then 0
    else GroupTotal(rows, ms[..|ms| - 1]) + |MonthRatings(rows, ms[|ms| - 1])|
  }

  /** An occurring month's row of the count table adds up to the size of its group. */
  lemma MonthRowTotal(rows: seq<Row>, m: YearMonth)
    requires m in MonthColumn(rows)
    ensures var table := MonthlySentimentCounts(rows);
      Cell(table, m, Positive) + Cell(table, m, Negative) + Cell(table, m, Neutral)
        == |MonthRatings(rows, m)|
  {
    var table := MonthlySentimentCounts(rows);
    forall s: Sentiment
      ensures Cell(table, m, s) == CountIn(rows, m, s)
    {
      if s !in SentimentColumn(rows) {
        CountInZero(rows, m, s);
        assert forall i :: 0 <= i < |rows| ==> rows[i].sentiment == SentimentColumn(rows)[i];
      }
    }
    MonthPartition(rows, m);
  }

  lemma {:induction false} TableTotalIsGroupTotal(rows: seq<Row>, ms: seq<YearMonth>)
    requires forall i :: 0 <= i < |ms| ==> ms[i] in MonthColumn(rows)
    ensures TableTotal(MonthlySentimentCounts(rows), ms) == GroupTotal(rows, ms)
  {
    if ms != [] {
      TableTotalIsGroupTotal(rows, ms[..|ms| - 1]);
      MonthRowTotal(rows, ms[|ms| - 1]);
    }
  }

  /** Adding a row adds one to the total of the months `ms` exactly when its month is one of them. */
  lemma {:induction false} GroupTotalSnoc(rows: seq<Row>, r: Row, ms: seq<YearMonth>)
    requires NoDuplicates(ms)
    ensures GroupTotal(rows + [r], ms) == GroupTotal(rows, ms) + (if r.month in ms then 1 else 0)
  {
    if ms != [] {
      var init, x := ms[..|ms| - 1], ms[|ms| - 1];
      assert ms == init + [x];
      GroupTotalSnoc(rows, r, init);
      assert (rows + [r])[..|rows|] == rows;
      assert |MonthRatings(rows + [r], x)| == |MonthRatings(rows, x)| + (if r.month == x then 1 else 0);
    }
  }

  /** The month groups partition the table: their sizes add up to the number of rows. */
  lemma {:induction false} GroupsCoverRows(rows: seq<Row>)
    ensures GroupTotal(rows, Distinct(MonthColumn(rows))) == |rows|
  {
    if rows != [] {
      var init, last := rows[..|rows| - 1], rows[|rows| - 1];
      assert rows == init + [last];
      GroupsCoverRows(init);
      var d := Distinct(MonthColumn(init));
      assert MonthColumn(rows) == MonthColumn(init) + [last.month];
      DistinctSnoc(MonthColumn(init), last.month);
      GroupTotalSnoc(init, last, d);
      if last.month !in MonthColumn(init) {
        assert Distinct(MonthColumn(rows)) == d + [last.month];
        assert (d + [last.month])[..|d|] == d;
        assert MonthRatings(init, last.month) == [];
      }
    }
  }

  /** Every row of the table is counted exactly once in the (month, sentiment) table. */
  lemma SentimentCountsTotal(rows: seq<Row>)
    ensures TableTotal(MonthlySentimentCounts(rows), Distinct(MonthColumn(rows))) == |rows|
  {
    TableTotalIsGroupTotal(rows, Distinct(MonthColumn(rows)));
    GroupsCoverRows(rows);
  }
}
