/**
  The general averages and the review-versus-average comparison of the
  bar-chart dashboard: `json_normalize` of all parsed ratings, per-column
  `to_numeric(errors='coerce')`, `mean()` skipping non-numbers, and the
  `dropna()` join with one review's numeric scores.
 */
module Averages {
  import opened Wrappers
  import opened Ratings

  /** What one rating map contributes to the column of attribute `a`. */
  function Contribution(m: RatingMap, a: string, parse: NumberParser): (xs: seq<real>) {
    if a in m && Coerce(m[a], parse).Some? then [Coerce(m[a], parse).value] else []
  }

  /** The numeric values of attribute `a`, one per review that has one, in row order. */
  function Column(rows: seq<RatingMap>, a: string, parse: NumberParser): (col: seq<real>)
    decreases |rows|
  {
    if rows == [] then []
    else Column(rows[..|rows| - 1], a, parse) + Contribution(rows[|rows| - 1], a, parse)
  }

  function Sum(xs: seq<real>): (total: real)
    decreases |xs|
  {
    if xs == [] then 0.0 else Sum(xs[..|xs| - 1]) + xs[|xs| - 1]
  }

  function Mean(xs: seq<real>): (mean: real)
    requires |xs| > 0
  {
    Sum(xs) / (|xs| as real)
  }

  /** The dataframe's columns: every key of every rating map. */
  function AllKeys(rows: seq<RatingMap>): (keys: set<string>)
    decreases |rows|
  {
    if rows == [] then {} else AllKeys(rows[..|rows| - 1]) + rows[|rows| - 1].Keys
  }

  /**
    `average_ratings`: for every attribute with at least one numeric value,
    the mean of exactly those values. An attribute without numeric values
    is absent (its NaN mean never survives the comparison's `dropna`).
   */
  function GeneralAverages(rows: seq<RatingMap>, parse: NumberParser): (avg: map<string, real>)
    ensures forall a :: a in avg <==> |Column(rows, a, parse)| > 0
    ensures forall a :: a in avg ==> avg[a] == Mean(Column(rows, a, parse))
  {
    NumericColumnsAreKeys(rows, parse);
    map a | a in AllKeys(rows) && |Column(rows, a, parse)| > 0 :: Mean(Column(rows, a, parse))
  }

  /** The rating maps of the whole dataset, as `parse_ratings` leaves them. */
  function ParsedRatings(cells: seq<Cell>, decode: LiteralDecoder): (rows: seq<RatingMap>)
    ensures |rows| == |cells|
    ensures forall i :: 0 <= i < |cells| ==> rows[i] == AsRatingMap(ParseRatings(cells[i], decode))
  {
    seq(|cells|, i requires 0 <= i < |cells| => AsRatingMap(ParseRatings(cells[i], decode)))
  }

  lemma ColumnSnoc(rows: seq<RatingMap>, m: RatingMap, a: string, parse: NumberParser)
    ensures Column(rows + [m], a, parse) == Column(rows, a, parse) + Contribution(m, a, parse)
  {
    assert (rows + [m])[..|rows|] == rows;
  }

  lemma SumSnoc(xs: seq<real>, x: real)
    ensures Sum(xs + [x]) == Sum(xs) + x
  {
    assert (xs + [x])[..|xs|] == xs;
  }

  lemma {:induction false} ColumnHasKey(rows: seq<RatingMap>, a: string, parse: NumberParser)
    requires |Column(rows, a, parse)| > 0
    ensures a in AllKeys(rows)
    decreases |rows|
  {
    var init := rows[..|rows| - 1];
    if |Column(init, a, parse)| > 0 {
      ColumnHasKey(init, a, parse);
    }
  }

  /** A review with a numeric value for `a` puts that value into `a`'s column. */
  lemma {:induction false} ColumnIncludesReview(rows: seq<RatingMap>, i: nat, a: string, parse: NumberParser)
    requires i < |rows|
    requires a in rows[i] && Coerce(rows[i][a], parse).Some?
    ensures |Column(rows, a, parse)| > 0
    decreases |rows|
  {
    if i < |rows| - 1 {
      ColumnIncludesReview(rows[..|rows| - 1], i, a, parse);
    }
  }

  /** Every attribute with a numeric value is a column of the dataframe. */
  lemma NumericColumnsAreKeys(rows: seq<RatingMap>, parse: NumberParser)
    ensures forall a :: |Column(rows, a, parse)| > 0 ==> a in AllKeys(rows)
  {
    forall a | |Column(rows, a, parse)| > 0
      ensures a in AllKeys(rows)
    {
      ColumnHasKey(rows, a, parse);
    }
  }

  /** A running sum and count of one attribute's numeric values. */
  datatype Tally = Tally(sum: real, count: nat)

  function AddScores(acc: map<string, Tally>, scores: map<string, real>): (next: map<string, Tally>) {
    map a | a in acc.Keys + scores.Keys ::
      var t := if a in acc then acc[a] else Tally(0.0, 0);
      if a in scores then Tally(t.sum + scores[a], t.count + 1) else t
  }

  /** `acc` holds, for every attribute with numeric values in `rows`, their sum and count. */
  ghost predicate TalliesColumns(acc: map<string, Tally>, rows: seq<RatingMap>, parse: NumberParser) {
    forall a ::
      && (a in acc <==> |Column(rows, a, parse)| > 0)
      && (a in acc ==> acc[a] == Tally(Sum(Column(rows, a, parse)), |Column(rows, a, parse)|))
  }

  lemma AddScoresStep(acc: map<string, Tally>, rows: seq<RatingMap>, m: RatingMap, parse: NumberParser)
    requires TalliesColumns(acc, rows, parse)
    ensures TalliesColumns(AddScores(acc, NumericScores(m, parse)), rows + [m], parse)
  {
    var scores := NumericScores(m, parse);
    var next := AddScores(acc, scores);
    forall a
      ensures a in next <==> |Column(rows + [m], a, parse)| > 0
      ensures a in next ==> next[a] == Tally(Sum(Column(rows + [m], a, parse)), |Column(rows + [m], a, parse)|)
    {
      ColumnSnoc(rows, m, a, parse);
      var col := Column(rows, a, parse);
      if a in scores {
        assert Contribution(m, a, parse) == [scores[a]];
        SumSnoc(col, scores[a]);
        if a !in acc {
          assert col == [];
        }
      } else {
        assert Contribution(m, a, parse) == [];
        assert col + [] == col;
      }
    }
  }

  lemma TalliesGiveAverages(acc: map<string, Tally>, rows: seq<RatingMap>, parse: NumberParser)
    requires TalliesColumns(acc, rows, parse)
    ensures (map a | a in acc :: acc[a].sum / (acc[a].count as real)) == GeneralAverages(rows, parse)
  {
  }

  /**
    The one-pass tally: running sums and counts per attribute, divided at the
    end, computes exactly the column-wise means over the numeric values.
   */
  method ColumnMeans(rows: seq<RatingMap>, parse: NumberParser) returns (avg: map<string, real>)
    ensures forall a :: a in avg <==> |Column(rows, a, parse)| > 0
    ensures forall a :: a in avg ==> avg[a] == Mean(Column(rows, a, parse))
    ensures avg == GeneralAverages(rows, parse)
  {
    var acc: map<string, Tally> := map[];
    var i := 0;
    while i < |rows|
      invariant 0 <= i <= |rows|
      invariant TalliesColumns(acc, rows[..i], parse)
    {
      var scores := CollectScores(rows[i], parse);
      AddScoresStep(acc, rows[..i], rows[i], parse);
      assert rows[..i + 1] == rows[..i] + [rows[i]];
      acc := AddScores(acc, scores);
      i := i + 1;
    }
    assert rows[..i] == rows;
    avg := map a | a in acc :: acc[a].sum / (acc[a].count as real);
    TalliesGiveAverages(acc, rows, parse);
  }

  /**
    A review without a numeric value for `a` (missing, text that does not
    parse, or None) leaves `a`'s average exactly as it was.
   */
  lemma NonNumericReviewKeepsAverage(rows: seq<RatingMap>, m: RatingMap, a: string, parse: NumberParser)
    requires a !in m || Coerce(m[a], parse).None?
    ensures a in GeneralAverages(rows + [m], parse) <==> a in GeneralAverages(rows, parse)
    ensures a in GeneralAverages(rows, parse) ==>
      GeneralAverages(rows + [m], parse)[a] == GeneralAverages(rows, parse)[a]
  {
    ColumnSnoc(rows, m, a, parse);
    assert Column(rows + [m], a, parse) == Column(rows, a, parse);
  }

  lemma {:induction false} NoNumericValueEmptyColumn(rows: seq<RatingMap>, a: string, parse: NumberParser)
    requires forall i :: 0 <= i < |rows| ==> a !in rows[i] || Coerce(rows[i][a], parse).None?
    ensures Column(rows, a, parse) == []
    decreases |rows|
  {
    if rows != [] {
      var init := rows[..|rows| - 1];
      assert forall i :: 0 <= i < |init| ==> init[i] == rows[i];
      NoNumericValueEmptyColumn(init, a, parse);
    }
  }

  /** An attribute no review gives a number for has no average (it is not averaged as zero). */
  lemma NoNumericValueNoAverage(rows: seq<RatingMap>, a: string, parse: NumberParser)
    requires forall i :: 0 <= i < |rows| ==> a !in rows[i] || Coerce(rows[i][a], parse).None?
    ensures a !in GeneralAverages(rows, parse)
  {
    NoNumericValueEmptyColumn(rows, a, parse);
  }

  /**
    A review whose cell is not a string, or does not decode, contributes
    nothing to any average.
   */
  lemma UnparsedReviewContributesNothing(cells: seq<Cell>, c: Cell, decode: LiteralDecoder, parse: NumberParser)
    requires !c.StrCell? || decode(c.s).Failure?
    ensures GeneralAverages(ParsedRatings(cells + [c], decode), parse) == GeneralAverages(ParsedRatings(cells, decode), parse)
  {
    var before := ParsedRatings(cells, decode);
    var after := ParsedRatings(cells + [c], decode);
    assert after == before + [map[]];
    assert AllKeys(after) == AllKeys(before);
    forall a
      ensures Column(after, a, parse) == Column(before, a, parse)
    {
      ColumnSnoc(before, map[], a, parse);
    }
  }

  lemma {:induction false} SumBounds(xs: seq<real>, lo: real, hi: real)
    requires forall k :: 0 <= k < |xs| ==> lo <= xs[k] <= hi
    ensures lo * (|xs| as real) <= Sum(xs) <= hi * (|xs| as real)
    decreases |xs|
  {
    if xs != [] {
      SumBounds(xs[..|xs| - 1], lo, hi);
    }
  }

  lemma {:induction false} ColumnBounds(rows: seq<RatingMap>, a: string, parse: NumberParser, lo: real, hi: real)
    requires forall i :: 0 <= i < |rows| && a in rows[i] && Coerce(rows[i][a], parse).Some? ==>
      lo <= Coerce(rows[i][a], parse).value <= hi
    ensures forall k :: 0 <= k < |Column(rows, a, parse)| ==> lo <= Column(rows, a, parse)[k] <= hi
    decreases |rows|
  {
    if rows != [] {
      ColumnBounds(rows[..|rows| - 1], a, parse, lo, hi);
    }
  }

  lemma MeanBounds(xs: seq<real>, lo: real, hi: real)
    requires |xs| > 0
    requires lo * (|xs| as real) <= Sum(xs) <= hi * (|xs| as real)
    ensures lo <= Mean(xs) <= hi
  {
    var n := |xs| as real;
    var q := Sum(xs) / n;
    assert q * n == Sum(xs);
    assert (q - lo) * n >= 0.0;
    assert (hi - q) * n >= 0.0;
  }

  /** When every numeric value of `a` lies in [lo, hi] (ratings are 0 to 5), so does its average. */
  lemma AverageWithinBounds(rows: seq<RatingMap>, a: string, parse: NumberParser, lo: real, hi: real)
    requires forall i :: 0 <= i < |rows| && a in rows[i] && Coerce(rows[i][a], parse).Some? ==>
      lo <= Coerce(rows[i][a], parse).value <= hi
    requires a in GeneralAverages(rows, parse)
    ensures lo <= GeneralAverages(rows, parse)[a] <= hi
  {
    var col := Column(rows, a, parse);
    ColumnBounds(rows, a, parse, lo, hi);
    SumBounds(col, lo, hi);
    MeanBounds(col, lo, hi);
  }

  /** A worked case: two reviews rating overall 4 and 5 average to 4.5. */
  lemma TwoReviewsExample(parse: NumberParser)
    ensures var rows := [map["overall" := Num(4.0)], map["overall" := Num(5.0)]];
      GeneralAverages(rows, parse) == map["overall" := 4.5]
  {
    var rows := [map["overall" := Num(4.0)], map["overall" := Num(5.0)]];
    assert rows[..1] == [map["overall" := Num(4.0)]];
    assert rows[..1][..0] == [];
    assert Column(rows, "overall", parse) == [4.0, 5.0];
    assert [4.0, 5.0][..1] == [4.0];
    assert [4.0][..0] == [];
    assert AllKeys(rows) == {"overall"};
  }

  /** One bar of the comparison chart: the review's score next to the general average. */
  datatype Bar = Bar(review: real, average: real)

  /** The chart column of one review card. */
  datatype ChartPanel =
    | NoRatings                       // "No hay ratings disponibles."
    | NoNumericRatings                // "No hay ratings numéricos para graficar."
    | BarChart(bars: map<string, Bar>)

  /**
    The comparison column: no ratings at all, ratings of which none is
    numeric, or the bars for the attributes that have both a numeric score
    in this review and a general average.
   */
  function ComparisonPanel(ratings: RatingMap, avg: map<string, real>, parse: NumberParser): (p: ChartPanel)
    ensures p.NoRatings? <==> ratings == map[]
    ensures p.NoNumericRatings? <==>
      ratings != map[] && forall k :: k in ratings ==> Coerce(ratings[k], parse).None?
    ensures p.BarChart? ==> forall k :: k in p.bars <==>
      k in ratings && Coerce(ratings[k], parse).Some? && k in avg
    ensures p.BarChart? ==> forall k :: k in p.bars ==>
      p.bars[k] == Bar(Coerce(ratings[k], parse).value, avg[k])
  {
    if ratings == map[] then NoRatings
    else
      var scores := NumericScores(ratings, parse);
      if scores == map[] then
        assert forall k :: k in ratings ==> k !in scores;
        NoNumericRatings
      else
        BarChart(map k | k in scores && k in avg :: Bar(scores[k], avg[k]))
  }

  /**
    For a review that belongs to the dataset, the join drops nothing: every
    numeric score of the review has a general average to stand beside. The
    review's scores come from `float` (`floatParse`) and the averages from
    `pd.to_numeric` (`toNumeric`); this needs every string `float` reads to
    be read by `pd.to_numeric` as well.
   */
  lemma ReviewScoresAllCharted(rows: seq<RatingMap>, i: nat, floatParse: NumberParser, toNumeric: NumberParser)
    requires i < |rows|
    requires forall s :: floatParse(s).Some? ==> toNumeric(s).Some?
    ensures var p := ComparisonPanel(rows[i], GeneralAverages(rows, toNumeric), floatParse);
      p.BarChart? ==> p.bars.Keys == NumericScores(rows[i], floatParse).Keys
  {
    forall a | a in rows[i] && Coerce(rows[i][a], floatParse).Some?
      ensures a in GeneralAverages(rows, toNumeric)
    {
      ColumnIncludesReview(rows, i, a, toNumeric);
    }
  }

  /**
    Without that agreement a bar can go missing: a string that `float` reads
    but `pd.to_numeric` does not is a numeric score of the review with no
    average, so `dropna` removes its bar.
   */
  lemma ParsersDisagreeDropBar(floatParse: NumberParser, toNumeric: NumberParser)
    requires floatParse("1_000") == Some(1000.0) && toNumeric("1_000") == None
    ensures var review := map["service" := Text("1_000")];
      var p := ComparisonPanel(review, GeneralAverages([review], toNumeric), floatParse);
      p == BarChart(map[]) && "service" in NumericScores(review, floatParse)
  {
    var review := map["service" := Text("1_000")];
    assert Column([review], "service", toNumeric) == [];
    assert "service" !in GeneralAverages([review], toNumeric);
  }
}
