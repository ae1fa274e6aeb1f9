# Review scraping and lexicon sentiment analysis, in Dafny

A model of the deterministic core of `SentimentAnalysis.py`, a script that scrapes a product's review
pages concurrently and runs the reviews through a lexicon classifier. It covers three parts.

- **Merging page results** (`ReviewScraper`). Each page worker (`scrape_page`) returns
  `(page_num, titles, reviews, star_rating)`, returns `None` titles, reviews and rating when the fetch failed, or
  raises. `split('\n')[1]` on a title link without a newline raises IndexError. The merge loop of
  `scrape_reviews_concurrently` folds the outcomes in the order the workers complete. It re-keys
  local title `i` of page `n` to `i + (n - 1) * 10`. It extends the review list with each page's
  whole list. It skips pages that failed, raised, or came back with no titles or no reviews. It keeps
  a non-empty star rating from page 1 only. The completion order is an input sequence and is never
  assumed sorted.
- **Token pipeline** (`SentimentAnalyzer`). `preprocess_reviews` deletes `string.punctuation`,
  tokenizes, keeps alphabetic tokens whose lower-case form is not a stop word, and lower-cases and
  lemmatizes them. `validate_reviews` keeps the tokens found in a vocabulary.
- **Lexicon classification** (`SentimentAnalyzer`, `ReportGenerator`). `analyze_sentiment` skips
  empty token lists. It takes the mean per-token polarity and maps it through the ladder
  `> 0.05` positive, `(0, 0.05]` very positive, `< -0.05` negative, `[-0.05, 0)` very negative and
  `0` neutral. It bumps one counter per review. `display_SIA_results` derives a total and three
  shares from the counters.

The merge loop and `analyze_sentiment` are loops in the source. Here they are methods
(`MergeCompleted`, `AnalyzeSentiment`) proved equal to the folds `Merge` and `Analysis`. The lemmas
state the properties of those folds. The comprehensions (`preprocess_reviews`, `validate_reviews`)
and the report arithmetic are functions.

Foreign collaborators are parameters:

- the fetch and HTML extraction of a page: `ParsedPage`, or `None` for a failed fetch;
- NLTK's tokenizer, lemmatizer and stop-word list, and Python's `str.lower` and `str.isalpha`: the
  fields of `Toolkit`;
- the vocabulary: a `set<string>`;
- VADER's per-word compound score: a function `string -> real`.

Modules: `Options` (Option, Result), `Seqs` (the comprehension `[x for x in s if p(x)]` and its
index characterisation), `PyStr` (`str.split` on one character), `ReviewScraper`,
`SentimentAnalyzer`, `ReportGenerator`.

## Model

| member | source | states |
|---|---|---|
| `PyStr.Split` | SentimentAnalysis.py:67 | `str.split('\n')` gives at least one piece. No piece contains the separator. Joining the pieces with it gives the text back. There are two or more pieces exactly when the text contains the separator. |
| `ReviewScraper.TitleLine` | SentimentAnalysis.py:67 | `split('\n')[1]` exists exactly when the title text contains a newline, and it holds no newline. |
| `ReviewScraper.TitleLineIsSecondLine` | SentimentAnalysis.py:67 | `split('\n')[1]` is the text after the first newline, up to the next newline or the end. |
| `ReviewScraper.LocalTitles` | SentimentAnalysis.py:67 | The page's title map has exactly the keys 1..k for k title links. Key i holds the second line of the i-th link. |
| `ReviewScraper.ScrapePage` | SentimentAnalysis.py:49-71 | A failed fetch returns the page number and three `None`s. The worker raises exactly when some title text has no newline. Only page 1 carries a rating, and page 1 always does: the element's text, or "Not found" without the element. Otherwise every title text has a newline, the reviews are the body texts, and the titles are `LocalTitles` of the title texts. |
| `ReviewScraper.Rekey` | SentimentAnalysis.py:84 | Local title i is stored unchanged under `i + (n - 1) * 10`. Every re-keyed entry comes from some local title. |
| `ReviewScraper.KeptRating` | SentimentAnalysis.py:86-87 | Defines the guard `star_rating and page_num == 1`: an outcome contributes a rating exactly when it returned from page 1 with a non-empty rating, and then it is that rating. What the merge does with it is proved in `MergedRating` and `ScrapeReviews`. |
| `ReviewScraper.MergeCompleted` | SentimentAnalysis.py:77-92 | The loop over the outcomes in completion order returns exactly the fold `Merge` of that sequence. |
| `ReviewScraper.PageNumbers` | SentimentAnalysis.py:75 | `range(1, total_pages + 1)` has max(total_pages, 0) entries, and entry k is k + 1. |
| `ReviewScraper.ScrapeReviews` | SentimentAnalysis.py:44-92 | Runs `ScrapePage` for each page of a completion order of pages 1..N and folds the outcomes with `Merge`. For any such order, the scraped rating is page 1's kept rating when N >= 1, and is absent otherwise. It is absent if page 1 failed or raised, whatever later pages hold. The reviews are the accepted pages' lists in completion order. The titles follow from the `Merge` lemmas below (`TitleKeyOrigin`, `TitleAtGlobalKey`). |
| `ReviewScraper.CompletedRating` | SentimentAnalysis.py:75-87 | With one outcome per page of 1..N in any completion order, the merged rating is page 1's kept rating, or absent when N < 1. |
| `ReviewScraper.MergeReviews` | SentimentAnalysis.py:83-85 | The merged reviews are exactly the accepted pages' whole lists, concatenated in completion order, with nothing else added. |
| `ReviewScraper.MergeAppend` | SentimentAnalysis.py:83-85 | Merging two consecutive runs of outcomes gives the first run's reviews followed by the second's. The titles are the union, with later pages winning on a shared key. The rating is the later run's when it has one. |
| `ReviewScraper.SkippedOutcomeIsInvisible` | SentimentAnalysis.py:83-90 | An outcome that is not accepted and keeps no rating leaves the merged corpus unchanged wherever it completes. This covers a raised outcome, and a page other than 1 with an empty title map or review list. |
| `ReviewScraper.UnacceptedOutcomeAddsNoText` | SentimentAnalysis.py:83-85 | An outcome that is not accepted adds no title and no review wherever it completes. This includes page 1 with an empty title map or review list, whose rating alone is kept. |
| `ReviewScraper.FailedFetchIsInvisible` | SentimentAnalysis.py:53-54 | A failed fetch contributes nothing to the titles, reviews or rating. |
| `ReviewScraper.PageBlockIntact` | SentimentAnalysis.py:85 | The merged reviews are those of the earlier completions, then the accepted page's whole list, then those of the later completions. |
| `ReviewScraper.MergedRating` | SentimentAnalysis.py:86-87 | With one outcome per page, the rating is absent if no outcome keeps one. Otherwise it equals the rating kept by page 1, in whatever position page 1 completed. |
| `ReviewScraper.PageOneRatingKept` | SentimentAnalysis.py:83-87 | Page 1's non-empty rating is kept even when page 1 contributes no titles or reviews. |
| `ReviewScraper.TitleKeyOrigin` | SentimentAnalysis.py:84 | Every merged title key is the global index of a local title of some accepted page. No other keys appear. |
| `ReviewScraper.TitleAtGlobalKey` | SentimentAnalysis.py:84 | With one outcome per page and local indices in 1..10, the title at local index i of page n ends up unchanged under `i + (n - 1) * 10`, whatever the completion order. |
| `ReviewScraper.NoTitleFromOtherPages` | SentimentAnalysis.py:84 | When other pages' local indices stay within 1..10, none of them fills a key in page n's block of ten. |
| `ReviewScraper.ReviewsFollowCompletionOrder` | SentimentAnalysis.py:77-85 | With pages 1 and 2 both accepted, the merged reviews are page 1's then page 2's when page 1 completes first, and page 2's then page 1's otherwise. |
| `ReviewScraper.MergeInPageOrderIsOrderIndependent` | SentimentAnalysis.py:43-85 | Merging in ascending page order gives the same corpus for any two completion orders of the same outcomes. |
| `ReviewScraper.MergeInPageOrderAgrees` | SentimentAnalysis.py:77-85 | When the workers complete in ascending page order, the merge in page order equals the merge as written. |
| `SentimentAnalyzer.StripPunctuation` | SentimentAnalysis.py:124 | The result is the review's non-punctuation characters, all of them, in their original order: character j is the character at the j-th kept index. |
| `SentimentAnalyzer.StripPunctuationIdempotent` | SentimentAnalysis.py:124 | Deleting punctuation twice is deleting it once. |
| `SentimentAnalyzer.CleanTokens` | SentimentAnalysis.py:129-131 | Output token j is `lemmatize(lower(t))` for the j-th surviving source token t. A token survives when it is alphabetic and its lower-case form is not a stop word. The surviving positions are exactly the kept indices, in increasing order. |
| `SentimentAnalyzer.PreprocessReviews` | SentimentAnalysis.py:122-132 | One token list per input review. |
| `SentimentAnalyzer.PreprocessedToken` | SentimentAnalysis.py:122-132 | For review k, after deleting punctuation and tokenizing: each output token is the lemma of a lower-cased alphabetic non-stop-word source token. Every such source token is used, once, in source order. |
| `SentimentAnalyzer.ValidateReviews` | SentimentAnalysis.py:141-142 | The number of reviews is kept. A token is in output review k exactly when it is in input review k and in the vocabulary. |
| `SentimentAnalyzer.ValidatedTokens` | SentimentAnalysis.py:142 | Output review k is the in-order subsequence of input review k made of its vocabulary tokens, all of them, each once. |
| `SentimentAnalyzer.ValidateTwice` | SentimentAnalysis.py:142 | Filtering by one vocabulary and then by another is filtering by their intersection, so the filter is idempotent. |
| `SentimentAnalyzer.Tally.Bump` | SentimentAnalysis.py:152-166 | Exactly the chosen counter goes up by one. The others are unchanged. The total goes up by one. |
| `SentimentAnalyzer.Classify` | SentimentAnalysis.py:152-166 | Each of the five labels is given exactly on its band: positive `> 0.05`, very positive `(0, 0.05]`, negative `< -0.05`, very negative `[-0.05, 0)`, neutral `0`. |
| `SentimentAnalyzer.Analysis` | SentimentAnalysis.py:144-168 | Each counter equals the number of its label in the per-review label list. |
| `SentimentAnalyzer.AnalysisSnoc` | SentimentAnalysis.py:147-166 | One more review: an empty one changes nothing. Otherwise its label is appended and only that label's counter is bumped. |
| `SentimentAnalyzer.AnalysisLabels` | SentimentAnalysis.py:147-166 | The labels are one per non-empty review, in input order, each the band of that review's mean polarity. |
| `SentimentAnalyzer.OccurrencesPartition` | SentimentAnalysis.py:145-166 | The five per-label counts of a label list add up to its length. |
| `SentimentAnalyzer.AnalysisTotal` | SentimentAnalysis.py:145-168 | The counters sum to the number of labels, which is the number of non-empty reviews. |
| `SentimentAnalyzer.AnalyzeSentiment` | SentimentAnalysis.py:144-168 | The loop returns exactly the counters and labels of `Analysis`. |
| `SentimentAnalyzer.NothingScored` | SentimentAnalysis.py:147-149 | No review is scored exactly when every token list is empty. |
| `ReportGenerator.SiaSummary` | SentimentAnalysis.py:237-249 | With a zero total the divisions fail. Otherwise the total is the sum of the counters and each share times the total is its counters' sum. Each share is in [0, 1] and the three shares add up to 1. |
| `ReportGenerator.FiguresOfAnalysis` | SentimentAnalysis.py:237-249 | Over the counters of `analyze_sentiment`, the report fails exactly when every token list is empty. Otherwise its total is the number of non-empty token lists. |

## Left out

- Fetching through ScraperAPI and HTML parsing with BeautifulSoup (SentimentAnalysis.py:26-41, 58-69) are network I/O and a foreign library. A page arrives as a `ParsedPage` holding each element's stripped text, or as `None` for a non-200 response.
- ScrapePage: an exception raised by `requests.get` itself is not produced by `ScrapePage`. The merge takes such a worker as a `Raised` outcome, like any other exception.
- The `ThreadPoolExecutor` scheduling (SentimentAnalysis.py:74-77) is concurrency. The model takes the completion order as an input sequence.
- The progress and error `print`s, the `"{:.4%}"` formatting, and the repeated positive share (SentimentAnalysis.py:258-260) are printing only.
- The title/label listing loops (SentimentAnalysis.py:255-256, 272-273) are printing only. `zip` stops at the shorter sequence, so when empty token lists are skipped, labels pair with the wrong titles. `predictions[idx - 1]` can go out of range when title keys have gaps.
- The merged `titles` dict keeps insertion order in Python. That order follows completion order, and the `zip` at SentimentAnalysis.py:255 lists titles in it. `Corpus.titles` is a Dafny `map`, so the model does not capture that order, only which title sits under which key.
- JSON save and load (SentimentAnalysis.py:95-114) are file I/O.
- `load_adjective_vocab` (SentimentAnalysis.py:135-138) reads WordNet. The vocabulary is a parameter. A set stands for the Python list, since only membership is used.
- The NLTK tokenizer, lemmatizer, stop-word list and VADER scores are foreign calls. They are uninterpreted parameters, and so are Python's Unicode-aware `str.lower` and `str.isalpha`.
- Floating point is not modelled. Scores are `real`, so `0.05` is exact and the mean has no rounding.
- `BERTFineTuner` (SentimentAnalysis.py:172-226), `display_BERT_results` (SentimentAnalysis.py:265-274) and `main` (SentimentAnalysis.py:278-339) are model training and inference, printing, and interactive input.
- ReviewScraper.TitleAtGlobalKey: requires at most 10 titles per page. Past 10, a title's global key collides with the next page's keys, and which title survives depends on completion order.
- The merge follows the code. It folds in completion order, although the comments at SentimentAnalysis.py:43 and :82 speak of order (see "## Findings"). When every page fails, or `total_pages < 1`, the merge returns an empty corpus, and the code raises no error.

## Findings

| source | as written | input that shows it | evidently intended | confidence | as-written member | corrected member |
|---|---|---|---|---|---|---|
| SentimentAnalysis.py:77-85 | The reviews list is extended in `as_completed` order. The title keys are fixed by page number. | Pages 1 and 2 both succeed, and page 2's worker completes first. The reviews start with page 2's reviews, while page 1's titles still sit under keys 1..10. | Reviews in ascending page order. The comments at lines 43 and 82 say "returning the results in order" and "maintaining the order". | medium, not executed | `ReviewScraper.ReviewsFollowCompletionOrder` | `ReviewScraper.MergeInPageOrderIsOrderIndependent` |

The corrected merge, `MergeInPageOrder`, buffers the outcomes by page number and merges
pages 1..N in ascending order. It gives one corpus for every completion order. It agrees with the
as-written merge when the workers happen to complete in ascending order (`MergeInPageOrderAgrees`).
`MergeCompleted` keeps the as-written order, because it models the loop as the source runs it.
