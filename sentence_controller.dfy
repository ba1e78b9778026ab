/** The sentence endpoints, which combine the practice table with the
    example sentences attached to words. Listed ids carry a table prefix,
    which the delete endpoint routes on. */
module SentenceEndpoints {
  import opened JavaLang
  import opened Collections
  import opened SentencePractices

  /** The word a sentence belongs to, as far as the listing shows it. */
  datatype WordInfo = WordInfo(englishWord: string, turkishMeaning: Option<string>, learnedDate: int)

  /** A row of the word-sentence table, fetched with its word. The listing's
      query joins every row to its word and the word column is not nullable,
      so `word` is always present there; the listing still guards against a
      missing word, and so does `WordEntry`. */
  datatype WordSentence = WordSentence(
    id: int,
    sentence: string,
    translation: Option<string>,
    difficulty: Option<string>,
    word: Option<WordInfo>)

  /** One map of the combined listing. */
  datatype Listed = Listed(
    id: string,
    englishSentence: string,
    turkishTranslation: Option<string>,
    difficulty: string,
    createdDate: Option<int>,
    source: string,
    wordInfo: Option<(string, Option<string>)>)

  /** Response status codes. */
  const OK: int := 200
  const BAD_REQUEST: int := 400
  const NOT_FOUND: int := 404

  const PRACTICE_PREFIX: string := "practice_"
  const WORD_PREFIX: string := "word_"

  /** A word sentence's difficulty as listed: "easy" when missing or blank,
      otherwise lower-cased. */
  function NormalizeDifficulty(d: Option<string>): (r: string)
    ensures d.None? || TrimsToEmpty(d.value) ==> r == "easy"
    ensures d.Some? && !TrimsToEmpty(d.value) ==> |r| == |d.value| && !TrimsToEmpty(r)
    ensures forall i :: 0 <= i < |r| ==> !IsUpperAscii(r[i])
  {
    if d.None? || TrimsToEmpty(d.value) then "easy" else ToLower(d.value)
  }

  /** Normalising twice changes nothing. */
  lemma NormalizeDifficultyIdempotent(d: Option<string>)
    ensures NormalizeDifficulty(Some(NormalizeDifficulty(d))) == NormalizeDifficulty(d)
  {
    var r := NormalizeDifficulty(d);
    assert !TrimsToEmpty(r) by {
      if d.None? || TrimsToEmpty(d.value) { assert !TrimSpace(r[0]); }
    }
    assert ToLower(r) == r;
  }

  function PracticeEntry(sp: SentencePractice): Listed {
    Listed(PRACTICE_PREFIX + IntToString(sp.id), sp.englishSentence, sp.turkishTranslation,
      DifficultyName(sp.difficulty), Some(sp.createdDate), "practice", None)
  }

  function WordEntry(s: WordSentence): Listed {
    Listed(WORD_PREFIX + IntToString(s.id), s.sentence, s.translation,
      NormalizeDifficulty(s.difficulty),
      if s.word.Some? then Some(s.word.value.learnedDate) else None,
      "word",
      if s.word.Some? then Some((s.word.value.englishWord, s.word.value.turkishMeaning)) else None)
  }

  /** Where deleteSentence sends an id; BadRequest is NumberFormatException. */
  datatype DeleteRoute = PracticeDelete(id: int) | WordDelete(id: int) | BadRequest

  function RouteDelete(id: string): (r: DeleteRoute)
    ensures StartsWith(id, PRACTICE_PREFIX) ==> r == match ParseLong(id[8..])
      case Some(n) => PracticeDelete(n)
      case None => BadRequest
    ensures !StartsWith(id, PRACTICE_PREFIX) && StartsWith(id, WORD_PREFIX) ==> r == match ParseLong(id[5..])
      case Some(n) => WordDelete(n)
      case None => BadRequest
    ensures !StartsWith(id, PRACTICE_PREFIX) && !StartsWith(id, WORD_PREFIX) ==> r == match ParseLong(id)
      case Some(n) => PracticeDelete(n)
      case None => BadRequest
  {
    if StartsWith(id, PRACTICE_PREFIX) then
      // substring(8) of a nine-character prefix keeps its final underscore
      var n := ParseLong(id[8..]);
      if n.Some? then PracticeDelete(n.value) else BadRequest
    else if StartsWith(id, WORD_PREFIX) then
      var n := ParseLong(id[5..]);
      if n.Some? then WordDelete(n.value) else BadRequest
    else
      var n := ParseLong(id);
      if n.Some? then PracticeDelete(n.value) else BadRequest
  }

  /** Every "practice_" id is refused: what follows the cut starts with '_'. */
  lemma PracticeIdsRefused(id: string)
    requires StartsWith(id, PRACTICE_PREFIX)
    ensures RouteDelete(id) == BadRequest
  {
    assert id[8..][0] == '_';
    AsciiDecimalDigit('_');
  }

  /** So no practice sentence can be deleted by the id the listing gives it. */
  lemma ListedPracticeIdsRefused(sp: SentencePractice)
    ensures RouteDelete(PracticeEntry(sp).id) == BadRequest
  {
    var id := PracticeEntry(sp).id;
    assert id[..9] == PRACTICE_PREFIX;
    PracticeIdsRefused(id);
  }

  /** A "word_" id of a long reaches the word-sentence table with that long. */
  lemma WordIdRouted(n: int)
    requires LONG_MIN <= n <= LONG_MAX
    ensures RouteDelete(WORD_PREFIX + IntToString(n)) == WordDelete(n)
  {
    var id := WORD_PREFIX + IntToString(n);
    assert id[..5] == WORD_PREFIX && id[5..] == IntToString(n);
    assert !StartsWith(id, PRACTICE_PREFIX) by { assert id[0] == 'w'; }
    ParseLongToString(n);
  }

  /** A listed word-sentence id reaches the word-sentence table with its own id. */
  lemma ListedWordIdsRouted(s: WordSentence)
    requires LONG_MIN <= s.id <= LONG_MAX
    ensures RouteDelete(WordEntry(s).id) == WordDelete(s.id)
  {
    WordIdRouted(s.id);
  }

  /** A bare number is taken as a practice id. */
  lemma BareIdsRouted(n: int)
    requires LONG_MIN <= n <= LONG_MAX
    ensures RouteDelete(IntToString(n)) == PracticeDelete(n)
  {
    var id := IntToString(n);
    assert id[0] == '-' || IsDigit(id[0]);
    assert !StartsWith(id, PRACTICE_PREFIX) && !StartsWith(id, WORD_PREFIX) by {
      assert id[0] != 'p' && id[0] != 'w';
    }
    ParseLongToString(n);
  }

  /** parseLong reads digits of any script: ARABIC-INDIC DIGIT THREE deletes row 3. */
  lemma ArabicIndicIdRouted(id: string)
    requires id == "\U{0663}"
    ensures RouteDelete(id) == PracticeDelete(3)
  {
    assert !StartsWith(id, PRACTICE_PREFIX) && !StartsWith(id, WORD_PREFIX) by {
      assert id[0] != 'p' && id[0] != 'w';
    }
    ParseLongArabicIndic(id);
  }

  /** getSentencesByDifficulty: the name upper-cased must be a level name. */
  function ParseDifficulty(name: string): (r: Option<DifficultyLevel>)
    ensures r.Some? <==> ToUpper(name) in {"EASY", "MEDIUM", "HARD"}
    ensures r.Some? ==> DifficultyName(r.value) == ToUpper(name)
  {
    DifficultyValueOf(ToUpper(name))
  }

  /** Every spelling that differs from a level name only in letter case is accepted. */
  lemma ParseDifficultyCaseInsensitive(d: DifficultyLevel, name: string)
    requires ToUpper(name) == DifficultyName(d)
    ensures ParseDifficulty(name) == Some(d)
  {
  }

  datatype Stats = Stats(total: int, easy: int, medium: int, hard: int)

  function HasRawDifficulty(d: string): WordSentence -> bool {
    (s: WordSentence) => s.difficulty == Some(d)
  }

  /** getStatistics: practice counts plus word-sentence counts, where the
      word sentences are counted by their stored difficulty text as is. */
  function Statistics(rows: seq<SentencePractice>, ws: seq<WordSentence>): (r: Stats)
    ensures r.total == TotalCount(rows) + |ws|
    ensures r.easy == CountByDifficulty(rows, EASY) + Count(ws, HasRawDifficulty("easy"))
    ensures r.medium == CountByDifficulty(rows, MEDIUM) + Count(ws, HasRawDifficulty("medium"))
    ensures r.hard == CountByDifficulty(rows, HARD) + Count(ws, HasRawDifficulty("hard"))
    ensures r.easy + r.medium + r.hard <= r.total
  {
    DifficultyCountsSum(rows);
    WordBucketsBounded(ws);
    Stats(TotalCount(rows) + |ws|,
      CountByDifficulty(rows, EASY) + Count(ws, HasRawDifficulty("easy")),
      CountByDifficulty(rows, MEDIUM) + Count(ws, HasRawDifficulty("medium")),
      CountByDifficulty(rows, HARD) + Count(ws, HasRawDifficulty("hard")))
  }

  lemma {:induction false} WordBucketsBounded(ws: seq<WordSentence>)
    ensures Count(ws, HasRawDifficulty("easy")) + Count(ws, HasRawDifficulty("medium"))
      + Count(ws, HasRawDifficulty("hard")) <= |ws|
  {
    if ws != [] { WordBucketsBounded(ws[1..]); }
  }

  /** With no word sentences the buckets add up to the total. */
  lemma PracticeStatsAddUp(rows: seq<SentencePractice>)
    ensures var r := Statistics(rows, []); r.easy + r.medium + r.hard == r.total
  {
    DifficultyCountsSum(rows);
  }

  /** A word sentence without a difficulty is listed as "easy" but counted
      in no bucket of the statistics. */
  lemma UnratedSentenceMissingFromBuckets(s: WordSentence)
    requires s.difficulty.None?
    ensures WordEntry(s).difficulty == "easy"
    ensures var r := Statistics([], [s]); r.total == 1 && r.easy + r.medium + r.hard == 0
  {
    assert [s][1..] == [];
  }

  /** From index `off` on, `r` holds `f` of each element of `xs`, in order. */
  predicate MapsAt<T>(r: seq<Listed>, off: nat, xs: seq<T>, f: T -> Listed) {
    off + |xs| <= |r| && forall k :: 0 <= k < |xs| ==> r[off + k] == f(xs[k])
  }

  /** The `for (x : xs) list.add(f(x))` loop: `f` of each element, in
      order, after what the list already held. */
  method AppendEach<T>(list: seq<Listed>, xs: seq<T>, f: T -> Listed) returns (r: seq<Listed>)
    ensures |r| == |list| + |xs| && forall k :: 0 <= k < |list| ==> r[k] == list[k]
    ensures MapsAt(r, |list|, xs, f)
  {
    r := list;
    for i := 0 to |xs|
      invariant |r| == |list| + i && forall k :: 0 <= k < |list| ==> r[k] == list[k]
      invariant forall k :: 0 <= k < i ==> r[|list| + k] == f(xs[k])
    {
      r := r + [f(xs[i])];
    }
  }

  /** What a list maps stays mapped when the list grows. */
  lemma MapsAtPrefix<T>(r: seq<Listed>, s: seq<Listed>, off: nat, xs: seq<T>, f: T -> Listed)
    requires MapsAt(s, off, xs, f) && |s| <= |r| && forall k :: 0 <= k < |s| ==> r[k] == s[k]
    ensures MapsAt(r, off, xs, f)
  {
    forall k | 0 <= k < |xs| ensures r[off + k] == f(xs[k]) {
      assert r[off + k] == s[off + k];
    }
  }

  class SentencePracticeController {
    var practice: SentencePracticeService
    var wordSentences: seq<WordSentence>

    constructor (practice: SentencePracticeService, wordSentences: seq<WordSentence>)
      ensures this.practice == practice && this.wordSentences == wordSentences
    {
      this.practice := practice;
      this.wordSentences := wordSentences;
    }

    /** getAllSentences: the practice rows, latest first, then the word sentences. */
    method GetAllSentences() returns (all: seq<Listed>)
      ensures var ps := AllSentences(practice.rows);
        |all| == |ps| + |wordSentences| && MapsAt(all, 0, ps, PracticeEntry) && MapsAt(all, |ps|, wordSentences, WordEntry)
    {
      var practiceSentences := AllSentences(practice.rows);
      var listed := AppendEach([], practiceSentences, PracticeEntry);
      all := AppendEach(listed, wordSentences, WordEntry);
      MapsAtPrefix(all, listed, 0, practiceSentences, PracticeEntry);
    }

    /** deleteSentence: the status, after deleting from the table the id
        routes to. A word sentence stays: deleteById loads it together with
        its word, whose eagerly fetched sentence list cascades persist, and
        at flush that cascade makes the removed sentence managed again
        (sections 3.2.2 and 3.2.4 of the Jakarta Persistence specification),
        so the row is never deleted, while the endpoint answers 200. */
    method DeleteSentence(id: string) returns (status: int)
      modifies practice`rows
      ensures match RouteDelete(id)
        case BadRequest => status == BAD_REQUEST && practice.rows == old(practice.rows)
        case WordDelete(n) => status == OK && practice.rows == old(practice.rows)
        case PracticeDelete(n) =>
          (status == OK <==> HasId(old(practice.rows), n))
          && (status == OK || status == NOT_FOUND)
          && practice.rows == Delete(old(practice.rows), n).1
      ensures wordSentences == old(wordSentences)
    {
      match RouteDelete(id)
      case BadRequest =>
        status := BAD_REQUEST;
      case WordDelete(n) =>
        status := OK;
      case PracticeDelete(n) =>
        var deleted := practice.DeleteSentence(n);
        status := if deleted then OK else NOT_FOUND;
    }

    /** Deleting a listed word sentence by the id the listing gives it
        answers 200, and the next listing still shows the sentence. */
    method DeleteKeepsWordSentence(s: WordSentence) returns (status: int, all: seq<Listed>)
      requires s in wordSentences && LONG_MIN <= s.id <= LONG_MAX
      modifies practice`rows
      ensures status == OK && WordEntry(s) in all
    {
      ListedWordIdsRouted(s);
      status := DeleteSentence(WordEntry(s).id);
      all := GetAllSentences();
      var k :| 0 <= k < |wordSentences| && wordSentences[k] == s;
      assert all[|AllSentences(practice.rows)| + k] == WordEntry(s);
    }
  }
}
