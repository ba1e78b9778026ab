/** A user's counters for one day. Every counter is a Java `int`, so each
    increment wraps at 2^31 - 1; `updatedAt` is refreshed by every update. */
module DailyStats {
  import opened JavaLang

  class UserDailyStats {
    var statDate: int
    var xpEarned: int
    var wordsLearned: int
    var wordsReviewed: int
    var sentencesPracticed: int
    var studyTimeMinutes: int
    var correctAnswers: int
    var totalAnswers: int
    var dailyGoalCompleted: bool
    var createdAt: int
    var updatedAt: int

    /** The answer counters are non-negative ints and correct answers never exceed all answers. */
    ghost predicate AnswersValid()
      reads this
    {
      0 <= correctAnswers <= totalAnswers <= INT_MAX
    }

    constructor (date: int, now: int)
      ensures statDate == date && createdAt == now && updatedAt == now
      ensures xpEarned == 0 && wordsLearned == 0 && wordsReviewed == 0 && sentencesPracticed == 0
      ensures studyTimeMinutes == 0 && correctAnswers == 0 && totalAnswers == 0
      ensures !dailyGoalCompleted
      ensures AnswersValid()
    {
      statDate := date;
      xpEarned := 0;
      wordsLearned := 0;
      wordsReviewed := 0;
      sentencesPracticed := 0;
      studyTimeMinutes := 0;
      correctAnswers := 0;
      totalAnswers := 0;
      dailyGoalCompleted := false;
      createdAt := now;
      updatedAt := now;
    }

    /** getAccuracyRate as an exact ratio (double rounding is not modelled). */
    function AccuracyRate(): (r: real)
      reads this
      ensures totalAnswers == 0 ==> r == 0.0
      ensures 0 <= correctAnswers <= totalAnswers ==> 0.0 <= r <= 100.0
      ensures totalAnswers > 0 && correctAnswers == totalAnswers ==> r == 100.0
    {
      if totalAnswers == 0 then 0.0
      else (correctAnswers as real) / (totalAnswers as real) * 100.0
    }

    method AddXp(xp: int, now: int)
      requires INT_MIN <= xp <= INT_MAX
      modifies this`xpEarned, this`updatedAt
      ensures xpEarned == Wrap32(old(xpEarned) + xp) && updatedAt == now
    {
      xpEarned := Wrap32(xpEarned + xp);
      updatedAt := now;
    }

    method IncrementWordsLearned(now: int)
      modifies this`wordsLearned, this`updatedAt
      ensures wordsLearned == Wrap32(old(wordsLearned) + 1) && updatedAt == now
    {
      wordsLearned := Wrap32(wordsLearned + 1);
      updatedAt := now;
    }

    method IncrementWordsReviewed(now: int)
      modifies this`wordsReviewed, this`updatedAt
      ensures wordsReviewed == Wrap32(old(wordsReviewed) + 1) && updatedAt == now
    {
      wordsReviewed := Wrap32(wordsReviewed + 1);
      updatedAt := now;
    }

    method AddStudyTime(minutes: int, now: int)
      requires INT_MIN <= minutes <= INT_MAX
      modifies this`studyTimeMinutes, this`updatedAt
      ensures studyTimeMinutes == Wrap32(old(studyTimeMinutes) + minutes) && updatedAt == now
    {
      studyTimeMinutes := Wrap32(studyTimeMinutes + minutes);
      updatedAt := now;
    }

    /** recordAnswer: one more answer, and one more correct one iff `correct`. */
    method RecordAnswer(correct: bool, now: int)
      modifies this`totalAnswers, this`correctAnswers, this`updatedAt
      ensures totalAnswers == Wrap32(old(totalAnswers) + 1)
      ensures correctAnswers == if correct then Wrap32(old(correctAnswers) + 1) else old(correctAnswers)
      ensures updatedAt == now
      ensures old(AnswersValid()) && old(totalAnswers) < INT_MAX ==> AnswersValid()
    {
      totalAnswers := Wrap32(totalAnswers + 1);
      if correct {
        correctAnswers := Wrap32(correctAnswers + 1);
      }
      updatedAt := now;
    }
  }

  /** The answer counters after a sequence of answers, starting from zero. */
  function Tally(answers: seq<bool>): (r: (int, int))
    ensures 0 <= r.0 <= r.1 == |answers|
  {
    if answers == [] then (0, 0)
    else
      var t := Tally(answers[..|answers| - 1]);
      (if answers[|answers| - 1] then t.0 + 1 else t.0, t.1 + 1)
  }

  /** Recording answers one by one on a fresh record gives the tally, with
      correct <= total, as long as the total fits an int. */
  method RecordAll(stats: UserDailyStats, answers: seq<bool>, now: int)
    requires stats.correctAnswers == 0 && stats.totalAnswers == 0
    requires |answers| <= INT_MAX
    modifies stats
    ensures (stats.correctAnswers, stats.totalAnswers) == Tally(answers)
    ensures stats.AnswersValid()
  {
    var i := 0;
    while i < |answers|
      invariant 0 <= i <= |answers|
      invariant (stats.correctAnswers, stats.totalAnswers) == Tally(answers[..i])
    {
      assert answers[..i + 1][..i] == answers[..i];
      stats.RecordAnswer(answers[i], now);
      i := i + 1;
    }
    assert answers[..i] == answers;
  }
}
