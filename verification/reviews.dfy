/**
 * The review table and its cleaning stage: exact duplicate rows are dropped
 * (keeping the first), then the month bucket, the text length and the
 * sentiment label are added as columns.
 *
 * A review as loaded is an already-typed record; its date is kept as a
 * (year, month, day) triple and the month bucket is its (year, month) pair.
 */
module Reviews {
  import opened Seqs
  import opened Sentiments

  datatype Date = Date(year: int, month: int, day: int)

  /** A calendar month, the bucket the table groups by. */
  datatype YearMonth = YearMonth(year: int, month: int)

  /** One loaded row: every column of the input file. */
  datatype Review = Review(date: Date, text: string, rating: int, helpfulVotes: int, category: string)

  /** One row of the cleaned table: the loaded columns plus the three derived ones. */
  datatype Row = Row(review: Review, month: YearMonth, reviewLength: nat, sentiment: Sentiment)

  /** The month bucket a date falls in. */
  function MonthOf(d: Date): YearMonth {
    YearMonth(d.year, d.month)
  }

  /** Two dates fall in the same bucket exactly when they share year and month; the day plays no part. */
  lemma SameMonthIff(d1: Date, d2: Date)
    ensures MonthOf(d1) == MonthOf(d2) <==> d1.year == d2.year && d1.month == d2.month
  {
  }

  /**
   * The cleaned table the pipeline should produce from the loaded rows:
   * one row per kept review, in the kept order, with its derived columns.
   * `score` is the external polarity scorer.
   */
  function EnrichAll(reviews: seq<Review>, score: string -> real): (rows: seq<Row>)
    ensures |rows| == |reviews|
    ensures forall i :: 0 <= i < |rows| ==>
      rows[i].review == reviews[i] &&
      rows[i].month == MonthOf(reviews[i].date) &&
      rows[i].reviewLength == |reviews[i].text| &&
      rows[i].sentiment == GetSentiment(score(reviews[i].text))
  {
    seq(|reviews|, i requires 0 <= i < |reviews| =>
      Row(reviews[i], MonthOf(reviews[i].date), |reviews[i].text|, GetSentiment(score(reviews[i].text))))
  }

  /**
   * The cleaned table has no two equal rows, and every loaded review is the
   * review of exactly one of its rows; rows appear in the order in which their
   * review first occurs among the loaded rows.
   */
  lemma CleanedRows(loaded: seq<Review>, score: string -> real)
    ensures var rows := EnrichAll(Distinct(loaded), score);
      NoDuplicates(rows) &&
      (forall i :: 0 <= i < |rows| ==> rows[i].review in loaded) &&
      (forall k :: 0 <= k < |loaded| ==>
        exists i :: 0 <= i < |rows| && rows[i].review == loaded[k]) &&
      (forall i, j :: 0 <= i < j < |rows| ==>
        FirstIndex(loaded, rows[i].review) < FirstIndex(loaded, rows[j].review))
  {
    var kept := Distinct(loaded);
    var rows := EnrichAll(kept, score);
    DistinctOrder(loaded);
    forall k | 0 <= k < |loaded|
      ensures exists i :: 0 <= i < |rows| && rows[i].review == loaded[k]
    {
      var i := FirstIndex(kept, loaded[k]);
      assert rows[i].review == loaded[k];
    }
  }

  /**
   * The review table. The pipeline replaces it by its de-duplicated copy and
   * then adds the derived columns to it in place, one column at a time; a
   * column not yet added is empty.
   */
  class ReviewFrame {
    var reviews: seq<Review>
    var months: seq<YearMonth>
    var lengths: seq<nat>
    var sentiments: seq<Sentiment>

    /** Every derived column has been added: each has one entry per row. */
    predicate Enriched()
      reads this
    {
      |months| == |reviews| && |lengths| == |reviews| && |sentiments| == |reviews|
    }

    /** The table row by row. */
    function Rows(): (rows: seq<Row>)
      requires Enriched()
      reads this
      ensures |rows| == |reviews|
      ensures forall i :: 0 <= i < |rows| ==>
        rows[i] == Row(reviews[i], months[i], lengths[i], sentiments[i])
    {
      var rs, ms, ls, ss := reviews, months, lengths, sentiments;
      seq(|rs|, i requires 0 <= i < |rs| && |ms| == |ls| == |ss| == |rs| =>
        Row(rs[i], ms[i], ls[i], ss[i]))
    }

    /** A table holding the given rows and no derived column yet. */
    constructor (loaded: seq<Review>)
      ensures reviews == loaded && months == [] && lengths == [] && sentiments == []
    {
      reviews := loaded;
      months := [];
      lengths := [];
      sentiments := [];
    }

    /** Adds the month column: the (year, month) bucket of each row's date. */
    method AddMonthColumn()
      modifies this
      ensures |months| == |reviews|
      ensures forall i :: 0 <= i < |reviews| ==> months[i] == MonthOf(reviews[i].date)
      ensures reviews == old(reviews) && lengths == old(lengths) && sentiments == old(sentiments)
    {
      var rs := reviews;
      months := seq(|rs|, i requires 0 <= i < |rs| => MonthOf(rs[i].date));
    }

    /** Adds the review-length column: the number of characters of each row's text. */
    method AddLengthColumn()
      modifies this
      ensures |lengths| == |reviews|
      ensures forall i :: 0 <= i < |reviews| ==> lengths[i] == |reviews[i].text|
      ensures reviews == old(reviews) && months == old(months) && sentiments == old(sentiments)
    {
      var rs := reviews;
      lengths := seq(|rs|, i requires 0 <= i < |rs| => |rs[i].text|);
    }

    /** Adds the sentiment column: the label of each row's text under `score`. */
    method AddSentimentColumn(score: string -> real)
      modifies this
      ensures |sentiments| == |reviews|
      ensures forall i :: 0 <= i < |reviews| ==>
        sentiments[i] == GetSentiment(score(reviews[i].text))
      ensures reviews == old(reviews) && months == old(months) && lengths == old(lengths)
    {
      var rs := reviews;
      sentiments := seq(|rs|, i requires 0 <= i < |rs| => GetSentiment(score(rs[i].text)));
    }
  }

  /**
   * The cleaning stage: drop exact duplicate rows, then add the month,
   * length and sentiment columns. The result is the table EnrichAll
   * describes for the de-duplicated rows.
   */
  method Clean(loaded: seq<Review>, score: string -> real) returns (frame: ReviewFrame)
    ensures fresh(frame)
    ensures frame.reviews == Distinct(loaded)
    ensures frame.Enriched() && frame.Rows() == EnrichAll(Distinct(loaded), score)
  {
    frame := new ReviewFrame(Distinct(loaded));
    frame.AddMonthColumn();
    frame.AddLengthColumn();
    frame.AddSentimentColumn(score);
  }
}
