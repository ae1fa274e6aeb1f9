/** `SentimentAnalyzer`: the token pipeline that turns review texts into token lists, the vocabulary
    filter, and the lexicon classifier that labels and tallies the reviews. */
module SentimentAnalyzer {
  import opened Seqs

  // ---------------------------------------------------------------------------------------------
  // Token pipeline

  /** The collaborators of the token pipeline: NLTK's word tokenizer, WordNet lemmatizer and English
      stop-word list, and Python's `str.lower` and `str.isalpha`. */
  datatype Toolkit = Toolkit(
    tokenize: string -> seq<string>,
    lemmatize: string -> string,
    lower: string -> string,
    isAlpha: string -> bool,
    stopWords: set<string>)

  /** Python's `string.punctuation`: the 32 ASCII punctuation characters. */
  const Punctuation: string := "!\"#$%&'()*+,-./:;<=>?@[\\]^_`{|}~"

  predicate NotPunctuation(c: char) {
    c !in Punctuation
  }

  /** `review.translate(str.maketrans('', '', string.punctuation))`: the review with every punctuation
      character deleted and the other characters kept, in order. */
  function StripPunctuation(review: string): (r: string)
    ensures forall c :: c in r ==> c in review && c !in Punctuation
    ensures forall c :: c in review && c !in Punctuation ==> c in r
    ensures var idx := KeptIndices(NotPunctuation, review);
      |r| == |idx| && forall j :: 0 <= j < |r| ==> r[j] == review[idx[j]]
  {
    FilterMembers(NotPunctuation, review);
    FilterSelectsKept(NotPunctuation, review);
    Filter(NotPunctuation, review)
  }

  lemma StripPunctuationIdempotent(review: string)
    ensures StripPunctuation(StripPunctuation(review)) == StripPunctuation(review)
  {
    FilterFilter(NotPunctuation, NotPunctuation, NotPunctuation, review);
  }

  /** A token survives when it is alphabetic and its lower-case form is not a stop word. */
  predicate Keep(nlp: Toolkit, token: string) {
    nlp.isAlpha(token) && nlp.lower(token) !in nlp.stopWords
  }

  function Keeper(nlp: Toolkit): string -> bool {
    token => Keep(nlp, token)
  }

  /** A surviving token is lower-cased, then lemmatized. */
  function Normalize(nlp: Toolkit, token: string): string {
    nlp.lemmatize(nlp.lower(token))
  }

  /** The inner comprehension of `preprocess_reviews` over the tokens of one review: output token `j`
      is the normalized form of the `j`-th surviving source token, the surviving tokens being exactly
      those at `KeptIndices(Keeper(nlp), tokens)`, in source order. */
  function CleanTokens(nlp: Toolkit, tokens: seq<string>): (r: seq<string>)
    ensures var idx := KeptIndices(Keeper(nlp), tokens);
      && |r| == |idx|
      && forall j :: 0 <= j < |r| ==> Keep(nlp, tokens[idx[j]]) && r[j] == Normalize(nlp, tokens[idx[j]])
  {
    FilterSelectsKept(Keeper(nlp), tokens);
    MapSeq(token => Normalize(nlp, token), Filter(Keeper(nlp), tokens))
  }

  /** `preprocess_reviews`: strip punctuation, tokenize, keep and normalize tokens, review by review. */
  function PreprocessReviews(nlp: Toolkit, reviews: seq<string>): (r: seq<seq<string>>)
    ensures |r| == |reviews|
  {
    seq(|reviews|, k requires 0 <= k < |reviews| => CleanTokens(nlp, nlp.tokenize(StripPunctuation(reviews[k]))))
  }

  /** One token list per review, in input order; token `j` of review `k` is the lemma of the lower-cased
      `j`-th surviving token of the punctuation-free review's tokenization, no surviving token is
      dropped, and source order is kept. */
  lemma PreprocessedToken(nlp: Toolkit, reviews: seq<string>, k: nat)
    requires k < |reviews|
    ensures
      var tokens := nlp.tokenize(StripPunctuation(reviews[k]));
      var idx := KeptIndices(Keeper(nlp), tokens);
      && |PreprocessReviews(nlp, reviews)| == |reviews|
      && |PreprocessReviews(nlp, reviews)[k]| == |idx|
      && (forall j :: 0 <= j < |idx| ==>
            && nlp.isAlpha(tokens[idx[j]])
            && nlp.lower(tokens[idx[j]]) !in nlp.stopWords
            && PreprocessReviews(nlp, reviews)[k][j] == nlp.lemmatize(nlp.lower(tokens[idx[j]])))
      && (forall i :: 0 <= i < |tokens| && nlp.isAlpha(tokens[i]) && nlp.lower(tokens[i]) !in nlp.stopWords ==> i in idx)
      && (forall j, j' :: 0 <= j < j' < |idx| ==> idx[j] < idx[j'])
  {
    var tokens := nlp.tokenize(StripPunctuation(reviews[k]));
    var idx := KeptIndices(Keeper(nlp), tokens);
    forall i | 0 <= i < |tokens| && nlp.isAlpha(tokens[i]) && nlp.lower(tokens[i]) !in nlp.stopWords
      ensures i in idx
    {
      assert Keeper(nlp)(tokens[i]);
    }
  }

  // ---------------------------------------------------------------------------------------------
  // Vocabulary filter

  function InVocab(vocab: set<string>): string -> bool {
    token => token in vocab
  }

  /** `validate_reviews`: each review keeps the tokens that are in `vocab`. */
  function ValidateReviews(reviews: seq<seq<string>>, vocab: set<string>): (r: seq<seq<string>>)
    ensures |r| == |reviews|
    ensures forall k :: 0 <= k < |r| ==> |r[k]| <= |reviews[k]|
    ensures forall k, t :: 0 <= k < |r| ==> (t in r[k] <==> t in reviews[k] && t in vocab)
  {
    var r := seq(|reviews|, k requires 0 <= k < |reviews| => Filter(InVocab(vocab), reviews[k]));
    assert forall k :: 0 <= k < |r| ==> r[k] == Filter(InVocab(vocab), reviews[k]);
    forall k | 0 <= k < |r| {
      FilterMembers(InVocab(vocab), reviews[k]);
    }
    r
  }

  /** Review `k` after the filter is the in-order subsequence of its tokens that are in `vocab`. */
  lemma ValidatedTokens(reviews: seq<seq<string>>, vocab: set<string>, k: nat)
    requires k < |reviews|
    ensures
      var idx := KeptIndices(InVocab(vocab), reviews[k]);
      && |ValidateReviews(reviews, vocab)[k]| == |idx|
      && (forall j :: 0 <= j < |idx| ==> reviews[k][idx[j]] in vocab && ValidateReviews(reviews, vocab)[k][j] == reviews[k][idx[j]])
      && (forall i :: 0 <= i < |reviews[k]| && reviews[k][i] in vocab ==> i in idx)
      && (forall j, j' :: 0 <= j < j' < |idx| ==> idx[j] < idx[j'])
  {
    FilterSelectsKept(InVocab(vocab), reviews[k]);
    var idx := KeptIndices(InVocab(vocab), reviews[k]);
    forall i | 0 <= i < |reviews[k]| && reviews[k][i] in vocab
      ensures i in idx
    {
      assert InVocab(vocab)(reviews[k][i]);
    }
  }

  /** Filtering by one vocabulary and then another is filtering by their intersection; in particular
      the filter is idempotent. */
  lemma ValidateTwice(reviews: seq<seq<string>>, v1: set<string>, v2: set<string>)
    ensures ValidateReviews(ValidateReviews(reviews, v1), v2) == ValidateReviews(reviews, v1 * v2)
  {
    forall k | 0 <= k < |reviews|
      ensures ValidateReviews(ValidateReviews(reviews, v1), v2)[k] == ValidateReviews(reviews, v1 * v2)[k]
    {
      FilterFilter(InVocab(v2), InVocab(v1), InVocab(v1 * v2), reviews[k]);
    }
  }

  // ---------------------------------------------------------------------------------------------
  // Lexicon classification

  /** The five bands. `analyze_sentiment` appends "very positive", "positive", "negative",
      "very negative" or "neutral" to `review_sentiments` and bumps the counter of the same name. */
  datatype Label = VeryPositive | Positive | Negative | VeryNegative | Neutral

  /** `sentiment_counts`: one counter per label. */
  datatype Tally = Tally(veryPositive: nat, positive: nat, negative: nat, veryNegative: nat, neutral: nat) {
    function Of(l: Label): nat {
      match l
      case VeryPositive => veryPositive
      case Positive => positive
      case Negative => negative
      case VeryNegative => veryNegative
      case Neutral => neutral
    }

    /** `sum(sentiment_counts.values())`. */
    function Total(): nat {
      veryPositive + positive + negative + veryNegative + neutral
    }

    /** `sentiment_counts[...] += 1` for the band `l`: exactly the counter of `l` goes up by one. */
    function Bump(l: Label): (t: Tally)
      ensures t.Of(l) == Of(l) + 1
      ensures forall m :: m != l ==> t.Of(m) == Of(m)
      ensures t.Total() == Total() + 1
    {
      match l
      case VeryPositive => this.(veryPositive := veryPositive + 1)
      case Positive => this.(positive := positive + 1)
      case Negative => this.(negative := negative + 1)
      case VeryNegative => this.(veryNegative := veryNegative + 1)
      case Neutral => this.(neutral := neutral + 1)
    }
  }

  const NoCounts: Tally := Tally(0, 0, 0, 0, 0)

  /** The total of the per-word compound polarities. */
  function SumScores(polarity: string -> real, review: seq<string>): real
    decreases |review|
  {
    if review == [] then 0.0
    else SumScores(polarity, review[..|review| - 1]) + polarity(review[|review| - 1])
  }

  /** The mean compound polarity of a non-empty review. */
  function MeanScore(polarity: string -> real, review: seq<string>): real
    requires review != []
  {
    SumScores(polarity, review) / (|review| as real)
  }

  /** The threshold ladder, in its closed form: five disjoint bands that cover every score. */
  function Classify(score: real): (l: Label)
    ensures l == Positive <==> score > 0.05
    ensures l == VeryPositive <==> 0.0 < score <= 0.05
    ensures l == Negative <==> score < -0.05
    ensures l == VeryNegative <==> -0.05 <= score < 0.0
    ensures l == Neutral <==> score == 0.0
  {
    if score > 0.05 then Positive
    else if score > 0.0 then VeryPositive
    else if score < -0.05 then Negative
    else if score < 0.0 then VeryNegative
    else Neutral
  }

  /** Only reviews with at least one token are scored. */
  predicate IsScored(review: seq<string>) {
    review != []
  }

  /** How often `l` occurs in `labels`. */
  function Occurrences(labels: seq<Label>, l: Label): nat
    decreases |labels|
  {
    if labels == [] then 0
    else Occurrences(labels[..|labels| - 1], l) + (if labels[|labels| - 1] == l then 1 else 0)
  }

  /** What `analyze_sentiment` computes: the counters and the labels of the scored reviews. Every
      counter holds the number of its label among the labels; `AnalysisLabels` says which labels these
      are and `AnalysisTotal` what the counters sum to. */
  function Analysis(polarity: string -> real, reviews: seq<seq<string>>): (res: (Tally, seq<Label>))
    ensures forall l :: res.0.Of(l) == Occurrences(res.1, l)
    decreases |reviews|
  {
    if reviews == [] then (NoCounts, [])
    else
      var n := |reviews| - 1;
      var (counts, labels) := Analysis(polarity, reviews[..n]);
      var review := reviews[n];
      if review == [] then (counts, labels)
      else
        var l := Classify(MeanScore(polarity, review));
        assert (labels + [l])[..|labels|] == labels;
        (counts.Bump(l), labels + [l])
  }

  /** Analysing one more review. */
  lemma AnalysisSnoc(polarity: string -> real, reviews: seq<seq<string>>, review: seq<string>)
    ensures Analysis(polarity, reviews + [review]) ==
      if review == [] then Analysis(polarity, reviews)
      else
        var l := Classify(MeanScore(polarity, review));
        (Analysis(polarity, reviews).0.Bump(l), Analysis(polarity, reviews).1 + [l])
  {
    assert (reviews + [review])[..|reviews|] == reviews;
  }

  /** The labels are those of the non-empty reviews, one per review, in order, each the band of the
      review's mean score. */
  lemma {:induction false} AnalysisLabels(polarity: string -> real, reviews: seq<seq<string>>)
    ensures |Analysis(polarity, reviews).1| == |Filter(IsScored, reviews)|
    ensures forall j :: 0 <= j < |Analysis(polarity, reviews).1| ==>
      var review := Filter(IsScored, reviews)[j];
      review != [] && Analysis(polarity, reviews).1[j] == Classify(MeanScore(polarity, review))
    decreases |reviews|
  {
    if reviews != [] {
      var n := |reviews| - 1;
      var init, review := reviews[..n], reviews[n];
      assert reviews == init + [review];
      AnalysisLabels(polarity, init);
      AnalysisSnoc(polarity, init, review);
      FilterSnoc(IsScored, init, review);
    }
  }

  /** Every label is counted under exactly one of the five labels. */
  lemma {:induction false} OccurrencesPartition(labels: seq<Label>)
    ensures Occurrences(labels, VeryPositive) + Occurrences(labels, Positive) + Occurrences(labels, Negative)
      + Occurrences(labels, VeryNegative) + Occurrences(labels, Neutral) == |labels|
    decreases |labels|
  {
    if labels != [] {
      OccurrencesPartition(labels[..|labels| - 1]);
    }
  }

  /** The counters sum to the number of labels, which is the number of non-empty reviews. */
  lemma AnalysisTotal(polarity: string -> real, reviews: seq<seq<string>>)
    ensures Analysis(polarity, reviews).0.Total() == |Analysis(polarity, reviews).1| == |Filter(IsScored, reviews)|
  {
    OccurrencesPartition(Analysis(polarity, reviews).1);
    AnalysisLabels(polarity, reviews);
  }

  /** `analyze_sentiment`: the loop that skips empty reviews, scores the rest and bumps one counter. */
  method AnalyzeSentiment(polarity: string -> real, reviews: seq<seq<string>>)
    returns (sentimentCounts: Tally, reviewSentiments: seq<Label>)
    ensures (sentimentCounts, reviewSentiments) == Analysis(polarity, reviews)
  {
    sentimentCounts, reviewSentiments := NoCounts, [];
    for i := 0 to |reviews|
      invariant (sentimentCounts, reviewSentiments) == Analysis(polarity, reviews[..i])
    {
      var review := reviews[i];
      assert reviews[..i + 1] == reviews[..i] + [review];
      assert reviews[..i + 1][..i] == reviews[..i];
      if review != [] {
        var score := MeanScore(polarity, review);
        ghost var before := (sentimentCounts, reviewSentiments);
        if score > 0.05 {
          sentimentCounts := sentimentCounts.(positive := sentimentCounts.positive + 1);
          reviewSentiments := reviewSentiments + [Positive];
        } else if score > 0.0 {
          sentimentCounts := sentimentCounts.(veryPositive := sentimentCounts.veryPositive + 1);
          reviewSentiments := reviewSentiments + [VeryPositive];
        } else if score < -0.05 {
          sentimentCounts := sentimentCounts.(negative := sentimentCounts.negative + 1);
          reviewSentiments := reviewSentiments + [Negative];
        } else if score < 0.0 {
          sentimentCounts := sentimentCounts.(veryNegative := sentimentCounts.veryNegative + 1);
          reviewSentiments := reviewSentiments + [VeryNegative];
        } else {
          sentimentCounts := sentimentCounts.(neutral := sentimentCounts.neutral + 1);
          reviewSentiments := reviewSentiments + [Neutral];
        }
        assert (sentimentCounts, reviewSentiments) == (before.0.Bump(Classify(score)), before.1 + [Classify(score)]);
      }
    }
    assert reviews[..|reviews|] == reviews;
  }

  /** No review is scored exactly when every review is empty. */
  lemma NothingScored(reviews: seq<seq<string>>)
    ensures |Filter(IsScored, reviews)| == 0 <==> forall k :: 0 <= k < |reviews| ==> reviews[k] == []
  {
    FilterMembers(IsScored, reviews);
    if exists k :: 0 <= k < |reviews| && reviews[k] != [] {
      var k :| 0 <= k < |reviews| && reviews[k] != [];
      assert reviews[k] in Filter(IsScored, reviews);
    }
  }
}
