/** The arithmetic of `ReportGenerator.display_SIA_results`: the total of the counters and the shares
    of positive, negative and neutral reviews. */
module ReportGenerator {
  import opened Options
  import opened Seqs
  import opened SentimentAnalyzer

  /** The figures the report prints: the total, and each share as a fraction of it. */
  datatype SiaFigures = SiaFigures(totalReviews: nat, positiveShare: real, negativeShare: real, neutralShare: real)

  /** Python raises ZeroDivisionError when no review was scored. */
  datatype ReportError = DivisionByZero

  /** The total is the sum of the five counters; positive groups the very-positive and positive
      counters, negative the very-negative and negative ones. With no scored review the division
      fails; otherwise each share is its counters' fraction of the total and the three shares add up
      to one. */
  function SiaSummary(counts: Tally): (r: Result<SiaFigures, ReportError>)
    ensures r.Failure? <==> counts.Total() == 0
    ensures r.Success? ==>
      var f := r.value;
      var total := counts.Total() as real;
      && f.totalReviews == counts.Total()
      && f.positiveShare * total == (counts.veryPositive + counts.positive) as real
      && f.negativeShare * total == (counts.veryNegative + counts.negative) as real
      && f.neutralShare * total == counts.neutral as real
      && 0.0 <= f.positiveShare <= 1.0 && 0.0 <= f.negativeShare <= 1.0 && 0.0 <= f.neutralShare <= 1.0
      && f.positiveShare + f.negativeShare + f.neutralShare == 1.0
  {
    var totalReviews := counts.Total();
    if totalReviews == 0 then Failure(DivisionByZero)
    else
      var total := totalReviews as real;
      var positive := (counts.veryPositive + counts.positive) as real;
      var negative := (counts.veryNegative + counts.negative) as real;
      var neutral := counts.neutral as real;
      SharesAddUp(positive, negative, neutral, total);
      Success(SiaFigures(totalReviews, positive / total, negative / total, neutral / total))
  }

  lemma SharesAddUp(a: real, b: real, c: real, total: real)
    requires 0.0 <= a && 0.0 <= b && 0.0 <= c && a + b + c == total && total > 0.0
    ensures a / total + b / total + c / total == 1.0
    ensures (a / total) * total == a && (b / total) * total == b && (c / total) * total == c
    ensures a / total <= 1.0 && b / total <= 1.0 && c / total <= 1.0
    ensures 0.0 <= a / total && 0.0 <= b / total && 0.0 <= c / total
  {
    assert a / total + b / total + c / total == (a + b + c) / total;
  }

  /** Over the labels of `analyze_sentiment`: the report fails exactly when every token list is empty,
      and otherwise its total is the number of non-empty token lists. */
  lemma FiguresOfAnalysis(polarity: string -> real, reviews: seq<seq<string>>)
    ensures SiaSummary(Analysis(polarity, reviews).0).Failure? <==> forall k :: 0 <= k < |reviews| ==> reviews[k] == []
    ensures SiaSummary(Analysis(polarity, reviews).0).Success? ==>
      SiaSummary(Analysis(polarity, reviews).0).value.totalReviews == |Filter(IsScored, reviews)|
  {
    AnalysisTotal(polarity, reviews);
    NothingScored(reviews);
  }
}
