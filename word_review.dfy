/** Reviews of vocabulary words by calendar day. The two repositories the
    service uses become a store value: the ids of the known words, the
    review rows in insertion order, and the next generated review id. Days
    are integers (LocalDate as a day number). */
module WordReviews {
  import opened JavaLang
  import opened Collections

  /** WordReview; `word` is kept as the word's id. */
  datatype WordReview = WordReview(
    id: int,
    wordId: int,
    reviewDate: int,
    reviewType: Option<string>,
    notes: Option<string>)

  datatype ReviewStore = ReviewStore(wordIds: set<int>, reviews: seq<WordReview>, nextId: int)

  datatype ReviewError = WordNotFound | AlreadyReviewed

  datatype AddResult = Added(review: WordReview) | Failed(error: ReviewError)

  function ReviewId(r: WordReview): int { r.id }

  /** The (word, day) pair a review is filed under. */
  function Slot(r: WordReview): (int, int) { (r.wordId, r.reviewDate) }

  function DateOf(r: WordReview): int { r.reviewDate }

  /** The store as the service keeps it: review ids are distinct and below
      the next id, and there is at most one review per word and day. */
  ghost predicate StoreOk(s: ReviewStore) {
    DistinctKeys(s.reviews, ReviewId) && DistinctKeys(s.reviews, Slot)
    && forall i :: 0 <= i < |s.reviews| ==> s.reviews[i].id < s.nextId
  }

  /** existsByWordIdAndReviewDate: a review of the word on that day is
      stored, so the word has at least one review. */
  predicate IsReviewedOn(reviews: seq<WordReview>, wordId: int, date: int)
    ensures IsReviewedOn(reviews, wordId, date) ==> ReviewCount(reviews, wordId) > 0
  {
    exists i :: 0 <= i < |reviews| && Slot(reviews[i]) == (wordId, date)
  }

  /** The store after addReview, with its result. */
  function AddReviewTo(s: ReviewStore, wordId: int, date: int, reviewType: Option<string>, notes: Option<string>)
    : (out: (AddResult, ReviewStore))
    ensures wordId !in s.wordIds ==> out == (Failed(WordNotFound), s)
    ensures wordId in s.wordIds && IsReviewedOn(s.reviews, wordId, date) ==> out == (Failed(AlreadyReviewed), s)
    ensures out.0.Added? ==>
      out.0.review == WordReview(s.nextId, wordId, date, reviewType, notes)
      && out.1 == s.(reviews := s.reviews + [out.0.review], nextId := s.nextId + 1)
    ensures out.0.Added? <==> wordId in s.wordIds && !IsReviewedOn(s.reviews, wordId, date)
  {
    if wordId !in s.wordIds then (Failed(WordNotFound), s)
    else if IsReviewedOn(s.reviews, wordId, date) then (Failed(AlreadyReviewed), s)
    else
      var r := WordReview(s.nextId, wordId, date, reviewType, notes);
      (Added(r), s.(reviews := s.reviews + [r], nextId := s.nextId + 1))
  }

  /** addReview keeps at most one review per word and day. */
  lemma AddReviewKeepsStoreOk(s: ReviewStore, wordId: int, date: int, reviewType: Option<string>, notes: Option<string>)
    requires StoreOk(s)
    ensures StoreOk(AddReviewTo(s, wordId, date, reviewType, notes).1)
  {
    var out := AddReviewTo(s, wordId, date, reviewType, notes);
    if out.0.Added? {
      var r := out.0.review;
      DistinctKeysAppend(s.reviews, r, ReviewId);
      assert forall i :: 0 <= i < |s.reviews| ==> Slot(s.reviews[i]) != Slot(r);
      DistinctKeysAppend(s.reviews, r, Slot);
    }
  }

  function OfWord(wordId: int): WordReview -> bool {
    (r: WordReview) => r.wordId == wordId
  }

  /** findByWordIdOrderByReviewDateDesc: the word's reviews, latest day first. */
  function WordReviewsOf(reviews: seq<WordReview>, wordId: int): (r: seq<WordReview>)
    ensures SortedDesc(r, DateOf)
    ensures multiset(r) == multiset(Filter(reviews, OfWord(wordId)))
  {
    SortDesc(Filter(reviews, OfWord(wordId)), DateOf)
  }

  /** The word's reviews are exactly the rows for that word. */
  lemma WordReviewsMembers(reviews: seq<WordReview>, wordId: int, x: WordReview)
    ensures x in WordReviewsOf(reviews, wordId) <==> x in reviews && x.wordId == wordId
  {
    var f := Filter(reviews, OfWord(wordId));
    FilterMembers(reviews, OfWord(wordId), x);
    assert x in WordReviewsOf(reviews, wordId) <==> x in multiset(f);
  }

  /** The days of a list of reviews, in the same order. */
  function Dates(xs: seq<WordReview>): (r: seq<int>)
    ensures |r| == |xs| && forall i :: 0 <= i < |xs| ==> r[i] == xs[i].reviewDate
  {
    if xs == [] then [] else [xs[0].reviewDate] + Dates(xs[1..])
  }

  /** getReviewDates: one day per review of the word, each of them a day
      the word was reviewed. */
  function ReviewDates(reviews: seq<WordReview>, wordId: int): (r: seq<int>)
    ensures |r| == |WordReviewsOf(reviews, wordId)|
    ensures forall i :: 0 <= i < |r| ==> IsReviewedOn(reviews, wordId, r[i])
  {
    var ws := WordReviewsOf(reviews, wordId);
    assert forall i :: 0 <= i < |ws| ==> IsReviewedOn(reviews, wordId, ws[i].reviewDate) by {
      forall i | 0 <= i < |ws| ensures IsReviewedOn(reviews, wordId, ws[i].reviewDate) {
        WordReviewsMembers(reviews, wordId, ws[i]);
        var j :| 0 <= j < |reviews| && reviews[j] == ws[i];
        assert Slot(reviews[j]) == (wordId, ws[i].reviewDate);
      }
    }
    Dates(ws)
  }

  /** getReviewDates has one day per review of the word, latest first, and
      a day occurs in it exactly when the word was reviewed that day. */
  lemma ReviewDatesSpec(reviews: seq<WordReview>, wordId: int, d: int)
    ensures |ReviewDates(reviews, wordId)| == ReviewCount(reviews, wordId)
    ensures forall i, j :: 0 <= i < j < |ReviewDates(reviews, wordId)| ==>
      ReviewDates(reviews, wordId)[i] >= ReviewDates(reviews, wordId)[j]
    ensures d in ReviewDates(reviews, wordId) <==> IsReviewedOn(reviews, wordId, d)
  {
    ReviewDatesLength(reviews, wordId);
    ReviewDatesDescending(reviews, wordId);
    ReviewDatesMembers(reviews, wordId, d);
  }

  lemma ReviewDatesLength(reviews: seq<WordReview>, wordId: int)
    ensures |ReviewDates(reviews, wordId)| == ReviewCount(reviews, wordId)
  {
    var ws := WordReviewsOf(reviews, wordId);
    assert |ws| == |Filter(reviews, OfWord(wordId))| by {
      assert |multiset(ws)| == |multiset(Filter(reviews, OfWord(wordId)))|;
    }
    ReviewCountSpec(reviews, wordId);
  }

  lemma ReviewDatesDescending(reviews: seq<WordReview>, wordId: int)
    ensures forall i, j :: 0 <= i < j < |ReviewDates(reviews, wordId)| ==>
      ReviewDates(reviews, wordId)[i] >= ReviewDates(reviews, wordId)[j]
  {
    var ws := WordReviewsOf(reviews, wordId);
    var ds := ReviewDates(reviews, wordId);
    forall i, j | 0 <= i < j < |ds| ensures ds[i] >= ds[j] {
      assert DateOf(ws[i]) >= DateOf(ws[j]);
    }
  }

  lemma ReviewDatesMembers(reviews: seq<WordReview>, wordId: int, d: int)
    ensures d in ReviewDates(reviews, wordId) <==> IsReviewedOn(reviews, wordId, d)
  {
    var ws := WordReviewsOf(reviews, wordId);
    var ds := ReviewDates(reviews, wordId);
    if d in ds {
      var i :| 0 <= i < |ds| && ds[i] == d;
      WordReviewsMembers(reviews, wordId, ws[i]);
      var k :| 0 <= k < |reviews| && reviews[k] == ws[i];
      assert Slot(reviews[k]) == (wordId, d);
    }
    if IsReviewedOn(reviews, wordId, d) {
      var k :| 0 <= k < |reviews| && Slot(reviews[k]) == (wordId, d);
      WordReviewsMembers(reviews, wordId, reviews[k]);
      var i :| 0 <= i < |ws| && ws[i] == reviews[k];
      assert ds[i] == d;
    }
  }

  /** Collectors.toMap keyed by day: None where Java throws on a repeated day. */
  function ToMapByDate(xs: seq<WordReview>): (r: Option<map<int, WordReview>>)
    ensures r.Some? ==> r.value.Keys == set i | 0 <= i < |xs| :: xs[i].reviewDate
    ensures r.Some? ==> forall i :: 0 <= i < |xs| ==> r.value[xs[i].reviewDate] == xs[i]
    ensures r.Some? <==> DistinctKeys(xs, DateOf)
  {
    if xs == [] then Some(map[])
    else
      var rest := ToMapByDate(xs[1..]);
      assert forall i :: 1 <= i < |xs| ==> xs[i] == xs[1..][i - 1];
      if rest.None? then
        assert !DistinctKeys(xs[1..], DateOf);
        None
      else if xs[0].reviewDate in rest.value then
        var i :| 0 <= i < |xs[1..]| && xs[1..][i].reviewDate == xs[0].reviewDate;
        assert DateOf(xs[0]) == DateOf(xs[i + 1]);
        None
      else
        assert forall i :: 0 <= i < |xs[1..]| ==> DateOf(xs[1..][i]) != DateOf(xs[0]);
        Some(rest.value[xs[0].reviewDate := xs[0]])
  }

  /** getReviewSummary: when it succeeds, each day maps to a stored review
      of the word on that day. */
  function ReviewSummary(reviews: seq<WordReview>, wordId: int): (r: Option<map<int, WordReview>>)
    ensures r.Some? ==> forall d :: d in r.value ==>
      r.value[d] in reviews && Slot(r.value[d]) == (wordId, d)
  {
    var ws := WordReviewsOf(reviews, wordId);
    var r := ToMapByDate(ws);
    assert r.Some? ==> forall d :: d in r.value ==> r.value[d] in reviews && Slot(r.value[d]) == (wordId, d) by {
      if r.Some? {
        forall d | d in r.value ensures r.value[d] in reviews && Slot(r.value[d]) == (wordId, d) {
          var i :| 0 <= i < |ws| && ws[i].reviewDate == d;
          WordReviewsMembers(reviews, wordId, ws[i]);
        }
      }
    }
    r
  }

  /** In a store kept by addReview the summary never fails: it maps each day
      the word was reviewed to that day's review, and nothing else. */
  lemma ReviewSummaryTotal(s: ReviewStore, wordId: int, d: int)
    requires StoreOk(s)
    ensures ReviewSummary(s.reviews, wordId).Some?
    ensures var m := ReviewSummary(s.reviews, wordId).value;
      (d in m <==> IsReviewedOn(s.reviews, wordId, d))
      && (d in m ==> m[d] in s.reviews && Slot(m[d]) == (wordId, d))
  {
    var ws := WordReviewsOf(s.reviews, wordId);
    DistinctKeysSub(s.reviews, ws, Slot);
    forall i, j | 0 <= i < j < |ws| ensures DateOf(ws[i]) != DateOf(ws[j]) {
      assert Slot(ws[i]) != Slot(ws[j]);
      WordReviewsMembers(s.reviews, wordId, ws[i]);
      WordReviewsMembers(s.reviews, wordId, ws[j]);
    }
    var m := ReviewSummary(s.reviews, wordId).value;
    ReviewDatesSpec(s.reviews, wordId, d);
    if d in m {
      var i :| 0 <= i < |ws| && ws[i].reviewDate == d;
      WordReviewsMembers(s.reviews, wordId, ws[i]);
      assert m[d] == ws[i];
      assert ReviewDates(s.reviews, wordId)[i] == d;
    }
    if IsReviewedOn(s.reviews, wordId, d) {
      assert d in ReviewDates(s.reviews, wordId);
      var i :| 0 <= i < |ws| && ReviewDates(s.reviews, wordId)[i] == d;
      assert ws[i].reviewDate == d;
    }
  }

  /** countByWordId: no more than the stored rows. */
  function ReviewCount(reviews: seq<WordReview>, wordId: int): (r: nat)
    ensures r <= |reviews|
  {
    Count(reviews, OfWord(wordId))
  }

  /** The count is the number of rows of the word: 0 exactly when it has none. */
  lemma ReviewCountSpec(reviews: seq<WordReview>, wordId: int)
    ensures ReviewCount(reviews, wordId) == |Filter(reviews, OfWord(wordId))|
    ensures ReviewCount(reviews, wordId) == 0 <==> forall i :: 0 <= i < |reviews| ==> reviews[i].wordId != wordId
  {
    CountIsFilterLength(reviews, OfWord(wordId));
  }

  /** findByReviewDate */
  function ReviewsOn(reviews: seq<WordReview>, date: int): (r: seq<WordReview>)
    ensures forall x :: x in r <==> x in reviews && x.reviewDate == date
  {
    var keep := (x: WordReview) => x.reviewDate == date;
    var r := Filter(reviews, keep);
    assert forall x :: x in r <==> x in reviews && x.reviewDate == date by {
      forall x { FilterMembers(reviews, keep, x); }
    }
    r
  }

  function NotSlot(wordId: int, date: int): WordReview -> bool {
    (r: WordReview) => Slot(r) != (wordId, date)
  }

  /** The store after deleteReviewByWordAndDate. */
  function DeleteByWordAndDate(s: ReviewStore, wordId: int, date: int): ReviewStore {
    s.(reviews := Filter(s.reviews, NotSlot(wordId, date)))
  }

  /** deleteReviewByWordAndDate removes every review of that word and day and
      keeps every other row; it keeps the store well formed. */
  lemma DeleteByWordAndDateSpec(s: ReviewStore, wordId: int, date: int, x: WordReview)
    ensures var t := DeleteByWordAndDate(s, wordId, date);
      !IsReviewedOn(t.reviews, wordId, date)
      && (x in t.reviews <==> x in s.reviews && Slot(x) != (wordId, date))
      && t.wordIds == s.wordIds && t.nextId == s.nextId
    ensures StoreOk(s) ==> StoreOk(DeleteByWordAndDate(s, wordId, date))
  {
    var t := DeleteByWordAndDate(s, wordId, date);
    FilterMembers(s.reviews, NotSlot(wordId, date), x);
    if StoreOk(s) {
      DistinctKeysSub(s.reviews, t.reviews, ReviewId);
      DistinctKeysSub(s.reviews, t.reviews, Slot);
      forall i | 0 <= i < |t.reviews| ensures t.reviews[i].id < t.nextId {
        FilterMembers(s.reviews, NotSlot(wordId, date), t.reviews[i]);
      }
    }
  }

  function NotId(reviewId: int): WordReview -> bool {
    (r: WordReview) => r.id != reviewId
  }

  /** The store after deleteReview (deleteById). */
  function DeleteReviewFrom(s: ReviewStore, reviewId: int): ReviewStore {
    s.(reviews := Filter(s.reviews, NotId(reviewId)))
  }

  lemma DeleteReviewSpec(s: ReviewStore, reviewId: int, x: WordReview)
    ensures var t := DeleteReviewFrom(s, reviewId);
      (x in t.reviews <==> x in s.reviews && x.id != reviewId)
      && t.wordIds == s.wordIds && t.nextId == s.nextId
    ensures StoreOk(s) ==> StoreOk(DeleteReviewFrom(s, reviewId))
  {
    var t := DeleteReviewFrom(s, reviewId);
    FilterMembers(s.reviews, NotId(reviewId), x);
    if StoreOk(s) {
      DistinctKeysSub(s.reviews, t.reviews, ReviewId);
      DistinctKeysSub(s.reviews, t.reviews, Slot);
      forall i | 0 <= i < |t.reviews| ensures t.reviews[i].id < t.nextId {
        FilterMembers(s.reviews, NotId(reviewId), t.reviews[i]);
      }
    }
  }

  /** Adding a review and then deleting that word and day gives back the
      original rows. */
  lemma AddThenDelete(s: ReviewStore, wordId: int, date: int, reviewType: Option<string>, notes: Option<string>)
    requires StoreOk(s)
    requires AddReviewTo(s, wordId, date, reviewType, notes).0.Added?
    ensures DeleteByWordAndDate(AddReviewTo(s, wordId, date, reviewType, notes).1, wordId, date).reviews == s.reviews
  {
    var t := AddReviewTo(s, wordId, date, reviewType, notes).1;
    FilterKeepsAll(s.reviews, NotSlot(wordId, date));
    FilterAppend(s.reviews, [t.reviews[|t.reviews| - 1]], NotSlot(wordId, date));
  }

  /** The service over its two repositories. */
  class WordReviewService {
    var wordIds: set<int>
    var reviews: seq<WordReview>
    var nextId: int

    function Store(): ReviewStore
      reads this
    {
      ReviewStore(wordIds, reviews, nextId)
    }

    constructor (wordIds: set<int>)
      ensures Store() == ReviewStore(wordIds, [], 1) && StoreOk(Store())
    {
      this.wordIds := wordIds;
      reviews := [];
      nextId := 1;
    }

    method AddReview(wordId: int, date: int, reviewType: Option<string>, notes: Option<string>)
      returns (result: AddResult)
      modifies this`reviews, this`nextId
      ensures (result, Store()) == AddReviewTo(old(Store()), wordId, date, reviewType, notes)
      ensures old(StoreOk(Store())) ==> StoreOk(Store())
    {
      if StoreOk(Store()) {
        AddReviewKeepsStoreOk(Store(), wordId, date, reviewType, notes);
      }
      if wordId !in wordIds {
        return Failed(WordNotFound);
      }
      var i := 0;
      while i < |reviews|
        invariant 0 <= i <= |reviews|
        invariant forall k :: 0 <= k < i ==> Slot(reviews[k]) != (wordId, date)
      {
        if reviews[i].wordId == wordId && reviews[i].reviewDate == date {
          return Failed(AlreadyReviewed);
        }
        i := i + 1;
      }
      var review := WordReview(nextId, wordId, date, reviewType, notes);
      reviews := reviews + [review];
      nextId := nextId + 1;
      result := Added(review);
    }

    method DeleteReviewByWordAndDate(wordId: int, date: int)
      modifies this`reviews
      ensures Store() == DeleteByWordAndDate(old(Store()), wordId, date)
    {
      reviews := Filter(reviews, NotSlot(wordId, date));
    }

    method DeleteReview(reviewId: int)
      modifies this`reviews
      ensures Store() == DeleteReviewFrom(old(Store()), reviewId)
    {
      reviews := Filter(reviews, NotId(reviewId));
    }
  }
}
