/** A vocabulary word and its example sentences. The word holds the list of
    its sentences and each sentence points back at its word; sentences are
    compared by identity. */
module Words {
  import opened JavaLang
  import opened Collections

  class Sentence {
    var sentence: string
    var translation: Option<string>
    var difficulty: Option<string>
    var word: Word?

    constructor (sentence: string, translation: Option<string>, difficulty: Option<string>, word: Word?)
      ensures this.sentence == sentence && this.translation == translation
      ensures this.difficulty == difficulty && this.word == word
    {
      this.sentence := sentence;
      this.translation := translation;
      this.difficulty := difficulty;
      this.word := word;
    }
  }

  class Word {
    var englishWord: string
    var turkishMeaning: Option<string>
    var learnedDate: int
    var notes: Option<string>
    var difficulty: Option<string>
    var sentences: seq<Sentence>

    constructor (englishWord: string, turkishMeaning: Option<string>, learnedDate: int)
      ensures this.englishWord == englishWord && this.turkishMeaning == turkishMeaning
      ensures this.learnedDate == learnedDate && notes == None && difficulty == None
      ensures sentences == [] && BackPointersOk()
    {
      this.englishWord := englishWord;
      this.turkishMeaning := turkishMeaning;
      this.learnedDate := learnedDate;
      notes := None;
      difficulty := None;
      sentences := [];
    }

    /** Every listed sentence points back at this word. */
    ghost predicate BackPointersOk()
      reads this, sentences
    {
      forall i :: 0 <= i < |sentences| ==> sentences[i].word == this
    }

    /** addSentence: appended at the end, with its back-pointer set. */
    method AddSentence(s: Sentence)
      modifies this`sentences, s`word
      ensures sentences == old(sentences) + [s] && s.word == this
      ensures forall t :: t in old(sentences) && t != s ==> t.word == old(t.word)
      ensures old(BackPointersOk()) ==> BackPointersOk()
    {
      sentences := sentences + [s];
      s.word := this;
    }

    /** removeSentence: the first occurrence goes and the back-pointer is
        cleared, even when the sentence was not listed at all. */
    method RemoveSentence(s: Sentence)
      modifies this`sentences, s`word
      ensures sentences == RemoveFirst(old(sentences), s) && s.word == null
      ensures s !in old(sentences) ==> sentences == old(sentences)
      ensures old(BackPointersOk()) && old(NoDup(sentences)) ==> BackPointersOk() && NoDup(sentences)
    {
      ghost var before := sentences;
      ghost var ok := BackPointersOk() && NoDup(sentences);
      if ok {
        RemoveFirstNoDup(sentences, s);
      }
      sentences := RemoveFirst(sentences, s);
      s.word := null;
      if ok {
        forall i | 0 <= i < |sentences| ensures sentences[i].word == this {
          var t := sentences[i];
          assert t in before && t != s;
          var j :| 0 <= j < |before| && before[j] == t;
          assert old(before[j].word) == this;
        }
      }
    }
  }

  /** Adding a sentence the word does not list and then removing it gives
      back the original list. */
  method AddThenRemove(w: Word, s: Sentence)
    requires s !in w.sentences
    modifies w`sentences, s`word
    ensures w.sentences == old(w.sentences) && s.word == null
  {
    w.AddSentence(s);
    w.RemoveSentence(s);
    RemoveFirstOfAppended(old(w.sentences), s);
  }

  /** Adding the same sentence twice and removing it once leaves it listed
      with no back-pointer: the list and the pointers disagree. */
  method AddTwiceRemoveOnce(w: Word, s: Sentence)
    requires w.sentences == []
    modifies w`sentences, s`word
    ensures w.sentences == [s] && s.word == null && !w.BackPointersOk()
  {
    w.AddSentence(s);
    w.AddSentence(s);
    w.RemoveSentence(s);
  }
}
