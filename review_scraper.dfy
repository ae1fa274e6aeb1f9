/** The scraping side of `ReviewScraper`: what one page worker returns, and how the results of the
    page workers are folded into one corpus, in the order the workers complete. */
module ReviewScraper {
  import opened Options
  import opened Seqs
  import PyStr

  /** Titles are numbered in blocks of this many per page. */
  const PageSize: int := 10

  /** What the HTML of one fetched page yields, each element's text already stripped: the text of the
      rating element when the page has one, then the text of each review-title link and of each
      review-body span, in document order. */
  datatype ParsedPage = ParsedPage(ratingText: Option<string>, titleTexts: seq<string>, bodyTexts: seq<string>)

  /** One completed page worker: either the tuple it returned or the exception it raised. */
  datatype PageOutcome =
    | Returned(pageNum: int, titles: Option<map<int, string>>, reviews: Option<seq<string>>, starRating: Option<string>)
    | Raised(pageNum: int)

  /** The merged result: titles by global index, reviews, and the product's star rating. */
  datatype Corpus = Corpus(titles: map<int, string>, reviews: seq<string>, starRating: Option<string>)

  const Empty: Corpus := Corpus(map[], [], None)

  // ---------------------------------------------------------------------------------------------
  // One page worker

  /** `text.split('\n')[1]`: the second line of a review-title link, absent when the text has no
      newline (where Python raises IndexError). */
  function TitleLine(text: string): (line: Option<string>)
    ensures line.Some? <==> '\n' in text
    ensures line.Some? ==> '\n' !in line.value
  {
    var parts := PyStr.Split(text, '\n');
    if |parts| >= 2 then Some(parts[1]) else None
  }

  /** The second line is the text between the first newline and the next newline (or the end). */
  lemma TitleLineIsSecondLine(text: string)
    requires '\n' in text
    ensures exists a, b :: text == a + "\n" + TitleLine(text).value + b && '\n' !in a && (b == [] || "\n" <= b)
  {
    var parts := PyStr.Split(text, '\n');
    var line := TitleLine(text).value;
    assert line == parts[1];
    assert parts[0] in parts;
    PyStr.JoinSecond(parts, '\n');
    if |parts| == 2 {
      BetweenNewlines(text, parts[0], line, []);
    } else {
      BetweenNewlines(text, parts[0], line, "\n" + PyStr.Join(parts[2..], '\n'));
    }
  }

  lemma BetweenNewlines(text: string, a: string, line: string, b: string)
    requires text == a + "\n" + line + b && '\n' !in a && (b == [] || "\n" <= b)
    ensures exists a', b' :: text == a' + "\n" + line + b' && '\n' !in a' && (b' == [] || "\n" <= b')
  {
    assert text == a + "\n" + line + b && '\n' !in a && (b == [] || "\n" <= b);
  }

  /** The page's own title map: the k-th title link (counting from 1) under key k. */
  function LocalTitles(titleTexts: seq<string>): (m: map<int, string>)
    requires forall k :: 0 <= k < |titleTexts| ==> '\n' in titleTexts[k]
    ensures forall i :: i in m <==> 1 <= i <= |titleTexts|
    ensures forall i :: 1 <= i <= |titleTexts| ==> Some(m[i]) == TitleLine(titleTexts[i - 1])
    decreases |titleTexts|
  {
    if titleTexts == [] then map[]
    else
      var n := |titleTexts|;
      var init := titleTexts[..n - 1];
      assert forall k :: 0 <= k < n - 1 ==> init[k] == titleTexts[k];
      LocalTitles(init)[n := TitleLine(titleTexts[n - 1]).value]
  }

  /** The worker for page `pageNum`, given the parsed page or `None` when the fetch failed. */
  function ScrapePage(pageNum: int, page: Option<ParsedPage>): (r: PageOutcome)
    ensures r.pageNum == pageNum
    ensures page.None? ==> r == Returned(pageNum, None, None, None)
    ensures r.Raised? <==> page.Some? && exists k :: 0 <= k < |page.value.titleTexts| && '\n' !in page.value.titleTexts[k]
    ensures r.Returned? ==> (r.starRating.Some? <==> page.Some? && pageNum == 1)
    ensures r.Returned? && page.Some? && pageNum == 1 ==>
      r.starRating == if page.value.ratingText.Some? then page.value.ratingText else Some("Not found")
    ensures r.Returned? && page.Some? ==>
      && r.reviews == Some(page.value.bodyTexts)
      && (forall k :: 0 <= k < |page.value.titleTexts| ==> '\n' in page.value.titleTexts[k])
      && r.titles == Some(LocalTitles(page.value.titleTexts))
  {
    match page
    case None => Returned(pageNum, None, None, None)
    case Some(p) =>
      var starRating :=
        if pageNum == 1 then (if p.ratingText.Some? then p.ratingText else Some("Not found"))
        else None;
      if exists k :: 0 <= k < |p.titleTexts| && '\n' !in p.titleTexts[k] then Raised(pageNum)
      else
        var titles := LocalTitles(p.titleTexts);
        Returned(pageNum, Some(titles), Some(p.bodyTexts), starRating)
  }

  // ---------------------------------------------------------------------------------------------
  // The merge of completed workers

  /** A page's titles and reviews are merged only when both are present and non-empty. */
  predicate Accepted(o: PageOutcome) {
    o.Returned? && o.titles.Some? && o.titles.value != map[] && o.reviews.Some? && o.reviews.value != []
  }

  /** The global index of local title `i` of page `pageNum`. */
  function GlobalKey(pageNum: int, i: int): int {
    i + (pageNum - 1) * PageSize
  }

  /** A page's title map re-keyed to global indices. */
  function Rekey(m: map<int, string>, pageNum: int): (r: map<int, string>)
    ensures forall i :: i in m ==> GlobalKey(pageNum, i) in r && r[GlobalKey(pageNum, i)] == m[i]
    ensures forall k :: k in r ==> exists i :: i in m && k == GlobalKey(pageNum, i)
  {
    map i | i in m :: GlobalKey(pageNum, i) := m[i]
  }

  /** The star rating an outcome contributes: a non-empty rating returned by page 1. */
  function KeptRating(o: PageOutcome): (r: Option<string>)
    ensures r.Some? <==> o.Returned? && o.pageNum == 1 && o.starRating.Some? && o.starRating.value != ""
    ensures r.Some? ==> r == o.starRating
  {
    if o.Returned? && o.starRating.Some? && o.starRating.value != "" && o.pageNum == 1 then o.starRating else None
  }

  /** One iteration of the merge loop. */
  function Step(c: Corpus, o: PageOutcome): Corpus {
    var c' :=
      if Accepted(o) then Corpus(c.titles + Rekey(o.titles.value, o.pageNum), c.reviews + o.reviews.value, c.starRating)
      else c;
    if KeptRating(o).Some? then c'.(starRating := KeptRating(o)) else c'
  }

  /** The merge loop run over `completed`, the outcomes in the order the workers completed. */
  function Merge(completed: seq<PageOutcome>): Corpus
    decreases |completed|
  {
    if completed == [] then Empty
    else Step(Merge(completed[..|completed| - 1]), completed[|completed| - 1])
  }

  /** The merge loop of `scrape_reviews_concurrently`, over the outcomes in completion order. */
  method MergeCompleted(completed: seq<PageOutcome>)
    returns (titles: map<int, string>, reviews: seq<string>, productStarRating: Option<string>)
    ensures Corpus(titles, reviews, productStarRating) == Merge(completed)
  {
    titles, reviews, productStarRating := map[], [], None;
    var n := 0;
    while n < |completed|
      invariant 0 <= n <= |completed|
      invariant Corpus(titles, reviews, productStarRating) == Merge(completed[..n])
    {
      var o := completed[n];
      match o {
        case Raised(_) =>
        case Returned(pageNum, pageTitles, pageReviews, starRating) =>
          if pageTitles.Some? && pageTitles.value != map[] && pageReviews.Some? && pageReviews.value != [] {
            titles := titles + Rekey(pageTitles.value, pageNum);
            reviews := reviews + pageReviews.value;
          }
          if starRating.Some? && starRating.value != "" && pageNum == 1 {
            productStarRating := starRating;
          }
      }
      assert completed[..n + 1][..n] == completed[..n];
      n := n + 1;
    }
    assert completed[..|completed|] == completed;
  }

  /** Page `p` of `totalPages` was submitted and its outcome is listed exactly once: `order` is the
      order in which the workers for pages 1..totalPages completed. */
  ghost predicate IsCompletionOrder(order: seq<int>, totalPages: int) {
    && multiset(order) == multiset(PageNumbers(totalPages))
    && (forall j, k :: 0 <= j < k < |order| ==> order[j] != order[k])
  }

  /** `range(1, totalPages + 1)`. */
  function PageNumbers(totalPages: int): (pages: seq<int>)
    ensures |pages| == if totalPages < 0 then 0 else totalPages
    ensures forall k :: 0 <= k < |pages| ==> pages[k] == k + 1
  {
    if totalPages <= 0 then [] else PageNumbers(totalPages - 1) + [totalPages]
  }

  /** The outcomes of the page workers for pages `order`, in that order. */
  function Outcomes(fetch: int -> Option<ParsedPage>, order: seq<int>): (completed: seq<PageOutcome>)
    ensures |completed| == |order|
    ensures forall k :: 0 <= k < |order| ==> completed[k] == ScrapePage(order[k], fetch(order[k]))
  {
    seq(|order|, k requires 0 <= k < |order| => ScrapePage(order[k], fetch(order[k])))
  }

  /** `scrape_reviews_concurrently(totalPages)`, with the fetch of each page given by `fetch` and the
      order in which the workers completed given by `order`. The scraped star rating is the one page
      1's worker kept, wherever page 1 completed: absent when there is no page 1, when its fetch
      failed or raised, or when its rating text is empty; "Not found" when page 1 has no rating
      element. Ratings of other pages are never used. The reviews are the lists of the accepted
      pages, in completion order. */
  function ScrapeReviews(totalPages: int, fetch: int -> Option<ParsedPage>, order: seq<int>): (c: Corpus)
    requires IsCompletionOrder(order, totalPages)
    ensures c.starRating == if totalPages >= 1 then KeptRating(ScrapePage(1, fetch(1))) else None
    ensures c.reviews == AcceptedReviews(Outcomes(fetch, order))
  {
    CompletedRating(totalPages, fetch, order);
    MergeReviews(Outcomes(fetch, order));
    Merge(Outcomes(fetch, order))
  }

  /** The rating merged from the outcomes of a completion order of pages 1..`totalPages`. */
  lemma CompletedRating(totalPages: int, fetch: int -> Option<ParsedPage>, order: seq<int>)
    requires IsCompletionOrder(order, totalPages)
    ensures Merge(Outcomes(fetch, order)).starRating ==
      if totalPages >= 1 then KeptRating(ScrapePage(1, fetch(1))) else None
  {
    var completed := Outcomes(fetch, order);
    assert DistinctPages(completed);
    MergedRating(completed);
    if totalPages >= 1 {
      assert PageNumbers(totalPages)[0] == 1;
      assert 1 in multiset(order);
      var k :| 0 <= k < |order| && order[k] == 1;
      assert completed[k] == ScrapePage(1, fetch(1));
    } else {
      assert |order| == 0;
    }
  }

  /** The reviews of the accepted outcomes, each page's whole list, in the order of `completed`. */
  function AcceptedReviews(completed: seq<PageOutcome>): seq<string>
    decreases |completed|
  {
    if completed == [] then []
    else
      var o := completed[|completed| - 1];
      AcceptedReviews(completed[..|completed| - 1]) + (if Accepted(o) then o.reviews.value else [])
  }

  /** The merged reviews are exactly the accepted pages' lists in completion order; nothing else is
      added. */
  lemma {:induction false} MergeReviews(completed: seq<PageOutcome>)
    ensures Merge(completed).reviews == AcceptedReviews(completed)
    decreases |completed|
  {
    if completed != [] {
      MergeReviews(completed[..|completed| - 1]);
    }
  }

  // ---------------------------------------------------------------------------------------------
  // Properties of the merge

  /** Joins the merge of a prefix with the merge of the rest of the outcomes. */
  function Combine(x: Corpus, y: Corpus): Corpus {
    Corpus(x.titles + y.titles, x.reviews + y.reviews, if y.starRating.Some? then y.starRating else x.starRating)
  }

  lemma StepCombine(x: Corpus, y: Corpus, o: PageOutcome)
    ensures Step(Combine(x, y), o) == Combine(x, Step(y, o))
  {
    if Accepted(o) {
      var t := Rekey(o.titles.value, o.pageNum);
      assert (x.titles + y.titles) + t == x.titles + (y.titles + t);
      assert (x.reviews + y.reviews) + o.reviews.value == x.reviews + (y.reviews + o.reviews.value);
    }
  }

  /** Merging a concatenation of completion sequences merges each part and joins them: every accepted
      page's reviews are appended as one intact block, in completion order, and a later page's titles
      override an earlier page's titles under the same key. */
  lemma {:induction false} MergeAppend(a: seq<PageOutcome>, b: seq<PageOutcome>)
    ensures Merge(a + b) == Combine(Merge(a), Merge(b))
    decreases |b|
  {
    if b == [] {
      assert a + b == a;
      var m := Merge(a);
      assert m.titles + map[] == m.titles;
      assert m.reviews + [] == m.reviews;
    } else {
      var b' := b[..|b| - 1];
      var o := b[|b| - 1];
      assert (a + b)[..|a + b| - 1] == a + b';
      assert (a + b)[|a + b| - 1] == o;
      MergeAppend(a, b');
      StepCombine(Merge(a), Merge(b'), o);
    }
  }

  /** An outcome that is not accepted and carries no kept rating (a failed fetch, a raised exception,
      an empty titles map or reviews list on a page other than 1) leaves the merge unchanged,
      wherever it completes. */
  lemma SkippedOutcomeIsInvisible(a: seq<PageOutcome>, o: PageOutcome, b: seq<PageOutcome>)
    requires !Accepted(o) && KeptRating(o).None?
    ensures Merge(a + [o] + b) == Merge(a + b)
  {
    MergeAppend(a + [o], b);
    MergeAppend(a, [o]);
    MergeAppend(a, b);
    assert [o][..0] == [];
    var m := Merge(a);
    assert m.titles + map[] == m.titles;
    assert m.reviews + [] == m.reviews;
  }

  /** An outcome that is not accepted adds no title and no review, wherever it completes. This covers
      page 1 returning an empty title map or review list: only its rating is kept. */
  lemma UnacceptedOutcomeAddsNoText(a: seq<PageOutcome>, o: PageOutcome, b: seq<PageOutcome>)
    requires !Accepted(o)
    ensures Merge(a + [o] + b).titles == Merge(a + b).titles
    ensures Merge(a + [o] + b).reviews == Merge(a + b).reviews
  {
    MergeAppend(a + [o], b);
    MergeAppend(a, [o]);
    MergeAppend(a, b);
    assert [o][..0] == [];
    var m := Merge(a);
    assert m.titles + map[] == m.titles;
    assert m.reviews + [] == m.reviews;
  }

  /** A failed fetch contributes nothing to the titles, the reviews or the rating. */
  lemma FailedFetchIsInvisible(a: seq<PageOutcome>, pageNum: int, b: seq<PageOutcome>)
    ensures Merge(a + [ScrapePage(pageNum, None)] + b) == Merge(a + b)
  {
    SkippedOutcomeIsInvisible(a, ScrapePage(pageNum, None), b);
  }

  /** The reviews of the merge are the reviews of the outcomes before an accepted page, then that
      page's whole list, then the reviews of the outcomes after it. */
  lemma PageBlockIntact(completed: seq<PageOutcome>, k: nat)
    requires k < |completed| && Accepted(completed[k])
    ensures Merge(completed).reviews ==
      Merge(completed[..k]).reviews + completed[k].reviews.value + Merge(completed[k + 1..]).reviews
  {
    var o := completed[k];
    assert completed == completed[..k] + [o] + completed[k + 1..];
    MergeAppend(completed[..k] + [o], completed[k + 1..]);
    MergeAppend(completed[..k], [o]);
    assert [o][..0] == [];
  }

  /** No two outcomes are for the same page. */
  ghost predicate DistinctPages(completed: seq<PageOutcome>) {
    forall j, k :: 0 <= j < k < |completed| ==> completed[j].pageNum != completed[k].pageNum
  }

  /** The rating is absent unless some outcome carries a kept rating, and with one outcome per page it
      is page 1's rating whichever position page 1 completed in. */
  lemma {:induction false} MergedRating(completed: seq<PageOutcome>)
    requires DistinctPages(completed)
    ensures (forall k :: 0 <= k < |completed| ==> KeptRating(completed[k]).None?) ==> Merge(completed).starRating.None?
    ensures forall k :: 0 <= k < |completed| && KeptRating(completed[k]).Some? ==>
      Merge(completed).starRating == KeptRating(completed[k])
    decreases |completed|
  {
    if completed != [] {
      var n := |completed| - 1;
      var init := completed[..n];
      assert DistinctPages(init);
      MergedRating(init);
      assert forall k :: 0 <= k < n ==> init[k] == completed[k];
    }
  }

  /** Page 1's non-empty rating is kept even when page 1 contributes no titles or reviews. */
  lemma PageOneRatingKept(completed: seq<PageOutcome>, k: nat)
    requires DistinctPages(completed)
    requires k < |completed| && completed[k].Returned? && completed[k].pageNum == 1
    requires completed[k].starRating.Some? && completed[k].starRating.value != ""
    ensures Merge(completed).starRating == completed[k].starRating
  {
    MergedRating(completed);
  }

  /** Every title key of the merge is the global index of a title of some accepted page. */
  lemma {:induction false} TitleKeyOrigin(completed: seq<PageOutcome>, key: int)
    requires key in Merge(completed).titles
    ensures exists k :: (0 <= k < |completed| && Accepted(completed[k])
      && key - (completed[k].pageNum - 1) * PageSize in completed[k].titles.value)
    decreases |completed|
  {
    var n := |completed| - 1;
    var o := completed[n];
    var init := completed[..n];
    if Accepted(o) && key in Rekey(o.titles.value, o.pageNum) {
    } else {
      TitleKeyOrigin(init, key);
      var k :| 0 <= k < |init| && Accepted(init[k]) && key - (init[k].pageNum - 1) * PageSize in init[k].titles.value;
      assert init[k] == completed[k];
    }
  }

  /** Local title indices run from 1 to at most PageSize on every page. */
  ghost predicate LocalIndicesFit(completed: seq<PageOutcome>) {
    forall k, i :: 0 <= k < |completed| && Accepted(completed[k]) && i in completed[k].titles.value ==> 1 <= i <= PageSize
  }

  /** With one outcome per page and at most PageSize titles per page, the title at local index `i` of
      page `n` is stored unchanged under `i + (n - 1) * 10`, whatever the completion order. */
  lemma TitleAtGlobalKey(completed: seq<PageOutcome>, k: nat, i: int)
    requires DistinctPages(completed) && LocalIndicesFit(completed)
    requires k < |completed| && Accepted(completed[k]) && i in completed[k].titles.value
    ensures GlobalKey(completed[k].pageNum, i) in Merge(completed).titles
    ensures Merge(completed).titles[GlobalKey(completed[k].pageNum, i)] == completed[k].titles.value[i]
  {
    var o := completed[k];
    var before, after := completed[..k], completed[k + 1..];
    assert completed == (before + [o]) + after;
    assert 1 <= i <= PageSize;
    PageTitleStored(before, o, i);
    forall j | 0 <= j < |after|
      ensures after[j].pageNum != o.pageNum
      ensures Accepted(after[j]) ==> forall i' :: i' in after[j].titles.value ==> 1 <= i' <= PageSize
    {
      assert after[j] == completed[k + 1 + j];
      assert completed[k].pageNum != completed[k + 1 + j].pageNum;
    }
    NoTitleFromOtherPages(after, o.pageNum, i);
    TitleSurvivesLaterPages(before + [o], after, GlobalKey(o.pageNum, i));
  }

  /** Right after an accepted page is merged, its local title `i` sits under its global key. */
  lemma PageTitleStored(before: seq<PageOutcome>, o: PageOutcome, i: int)
    requires Accepted(o) && i in o.titles.value
    ensures GlobalKey(o.pageNum, i) in Merge(before + [o]).titles
    ensures Merge(before + [o]).titles[GlobalKey(o.pageNum, i)] == o.titles.value[i]
  {
    MergeAppend(before, [o]);
    assert [o][..0] == [];
    assert Merge([o]).titles == Rekey(o.titles.value, o.pageNum);
  }

  /** A title key that no later outcome fills keeps its value. */
  lemma TitleSurvivesLaterPages(earlier: seq<PageOutcome>, later: seq<PageOutcome>, key: int)
    requires key in Merge(earlier).titles && key !in Merge(later).titles
    ensures key in Merge(earlier + later).titles
    ensures Merge(earlier + later).titles[key] == Merge(earlier).titles[key]
  {
    MergeAppend(earlier, later);
  }

  /** Outcomes of other pages never fill a key of page `pageNum`'s block. */
  lemma NoTitleFromOtherPages(completed: seq<PageOutcome>, pageNum: int, i: int)
    requires 1 <= i <= PageSize
    requires forall j :: 0 <= j < |completed| ==> completed[j].pageNum != pageNum
    requires forall j :: 0 <= j < |completed| && Accepted(completed[j]) ==>
      forall i' :: i' in completed[j].titles.value ==> 1 <= i' <= PageSize
    ensures GlobalKey(pageNum, i) !in Merge(completed).titles
  {
    var key := GlobalKey(pageNum, i);
    if key in Merge(completed).titles {
      TitleKeyOrigin(completed, key);
    }
  }

  // ---------------------------------------------------------------------------------------------
  // Completion order against page order

  /** The merge as written follows completion order: when page 2's worker completes before page 1's,
      page 2's reviews come first, although both pages' titles land under the same keys either way. */
  lemma ReviewsFollowCompletionOrder(p1: PageOutcome, p2: PageOutcome)
    requires Accepted(p1) && Accepted(p2) && p1.pageNum == 1 && p2.pageNum == 2
    ensures Merge([p1, p2]).reviews == p1.reviews.value + p2.reviews.value
    ensures Merge([p2, p1]).reviews == p2.reviews.value + p1.reviews.value
    ensures Merge([p2, p1]).reviews[0] == p2.reviews.value[0]
  {
    SingleReviews(p1);
    SingleReviews(p2);
    assert [p1, p2] == [p1] + [p2];
    MergeAppend([p1], [p2]);
    assert [p2, p1] == [p2] + [p1];
    MergeAppend([p2], [p1]);
  }

  lemma SingleReviews(o: PageOutcome)
    requires Accepted(o)
    ensures Merge([o]).reviews == o.reviews.value
  {
    assert [o][..0] == [];
  }

  /** The outcome of page `p`, if it completed: the lookup the corrected page-order merge buffers by. */
  function SlotOf(completed: seq<PageOutcome>, p: int): (r: Option<PageOutcome>)
    ensures r.Some? ==> r.value in completed && r.value.pageNum == p
    ensures r.None? ==> forall o :: o in completed ==> o.pageNum != p
  {
    if completed == [] then None
    else if completed[0].pageNum == p then Some(completed[0])
    else SlotOf(completed[1..], p)
  }

  lemma {:induction false} SlotOfUnique(completed: seq<PageOutcome>, o: PageOutcome)
    requires DistinctPages(completed) && o in completed
    ensures SlotOf(completed, o.pageNum) == Some(o)
    decreases |completed|
  {
    if completed[0] != o {
      assert DistinctPages(completed[1..]);
      SlotOfUnique(completed[1..], o);
    }
  }

  /** The completed outcomes of pages 1..p, buffered by page number and listed in ascending order. */
  function InPageOrder(completed: seq<PageOutcome>, p: nat): seq<PageOutcome> {
    if p == 0 then []
    else
      var slot := SlotOf(completed, p);
      InPageOrder(completed, p - 1) + if slot.Some? then [slot.value] else []
  }

  /** The merge in ascending page order, as the comments of `scrape_reviews_concurrently` describe. */
  function MergeInPageOrder(completed: seq<PageOutcome>, totalPages: nat): Corpus {
    Merge(InPageOrder(completed, totalPages))
  }

  /** Merging in page order gives the same corpus for any two completion orders of the same outcomes. */
  lemma {:induction false} MergeInPageOrderIsOrderIndependent(a: seq<PageOutcome>, b: seq<PageOutcome>, totalPages: nat)
    requires DistinctPages(a) && DistinctPages(b) && multiset(a) == multiset(b)
    ensures MergeInPageOrder(a, totalPages) == MergeInPageOrder(b, totalPages)
  {
    SameSlots(a, b, totalPages);
  }

  lemma {:induction false} SameSlots(a: seq<PageOutcome>, b: seq<PageOutcome>, p: nat)
    requires DistinctPages(a) && DistinctPages(b) && multiset(a) == multiset(b)
    ensures InPageOrder(a, p) == InPageOrder(b, p)
  {
    if p > 0 {
      SameSlots(a, b, p - 1);
      var sa := SlotOf(a, p);
      if sa.Some? {
        assert sa.value in multiset(b);
        SlotOfUnique(b, sa.value);
      } else {
        forall o | o in b
          ensures o in a
        {
          assert o in multiset(b);
        }
      }
    }
  }

  /** When the workers happen to complete in ascending page order, the merge as written and the merge
      in page order agree. */
  lemma MergeInPageOrderAgrees(completed: seq<PageOutcome>)
    requires forall k :: 0 <= k < |completed| ==> completed[k].pageNum == k + 1
    ensures MergeInPageOrder(completed, |completed|) == Merge(completed)
  {
    AscendingSlots(completed, |completed|);
    assert completed[..|completed|] == completed;
  }

  lemma {:induction false} AscendingSlots(completed: seq<PageOutcome>, p: nat)
    requires forall k :: 0 <= k < |completed| ==> completed[k].pageNum == k + 1
    requires p <= |completed|
    ensures InPageOrder(completed, p) == completed[..p]
  {
    if p > 0 {
      AscendingSlots(completed, p - 1);
      assert DistinctPages(completed);
      SlotOfUnique(completed, completed[p - 1]);
      assert completed[..p] == completed[..p - 1] + [completed[p - 1]];
    }
  }
}
