/** Practice sentences kept in one table, and the service over it. The
    repository is a sequence of rows with distinct ids; days are integers. */
module SentencePractices {
  import opened JavaLang
  import opened Collections

  /** SentencePractice.DifficultyLevel */
  datatype DifficultyLevel = EASY | MEDIUM | HARD

  function DifficultyName(d: DifficultyLevel): string {
    match d
    case EASY => "EASY"
    case MEDIUM => "MEDIUM"
    case HARD => "HARD"
  }

  function DifficultyDisplayName(d: DifficultyLevel): string {
    match d
    case EASY => "Kolay"
    case MEDIUM => "Orta"
    case HARD => "Zor"
  }

  /** DifficultyLevel.valueOf: None where Java throws IllegalArgumentException. */
  function DifficultyValueOf(name: string): (r: Option<DifficultyLevel>)
    ensures r.Some? <==> name in {"EASY", "MEDIUM", "HARD"}
    ensures r.Some? ==> DifficultyName(r.value) == name
  {
    if name == "EASY" then Some(EASY)
    else if name == "MEDIUM" then Some(MEDIUM)
    else if name == "HARD" then Some(HARD)
    else None
  }

  datatype SentencePractice = SentencePractice(
    id: int,
    englishSentence: string,
    turkishTranslation: Option<string>,
    difficulty: DifficultyLevel,
    createdDate: int)

  function IdOf(s: SentencePractice): int { s.id }

  function CreatedDateOf(s: SentencePractice): int { s.createdDate }

  /** Ids are distinct and below the next generated id. */
  ghost predicate RowsOk(rows: seq<SentencePractice>, nextId: int) {
    DistinctKeys(rows, IdOf) && forall i :: 0 <= i < |rows| ==> rows[i].id < nextId
  }

  /** existsById */
  predicate HasId(rows: seq<SentencePractice>, id: int) {
    exists i :: 0 <= i < |rows| && rows[i].id == id
  }

  /** findById: the position of the first row with the id. */
  function FindIndex(rows: seq<SentencePractice>, id: int): (r: Option<nat>)
    ensures r.None? <==> !HasId(rows, id)
    ensures r.Some? ==> r.value < |rows| && rows[r.value].id == id
  {
    if rows == [] then None
    else if rows[0].id == id then Some(0)
    else
      var k := FindIndex(rows[1..], id);
      assert forall i :: 1 <= i < |rows| ==> rows[i] == rows[1..][i - 1];
      if k.None? then None else Some(k.value + 1)
  }

  /** updateSentence: copies the sentence, translation and difficulty of
      `upd` onto the stored row, which keeps its id and creation day. */
  function Update(rows: seq<SentencePractice>, id: int, upd: SentencePractice)
    : (out: (Option<SentencePractice>, seq<SentencePractice>))
    ensures !HasId(rows, id) ==> out == (None, rows)
    ensures HasId(rows, id) ==> out.0.Some?
  {
    match FindIndex(rows, id)
    case None => (None, rows)
    case Some(k) =>
      var e := rows[k].(englishSentence := upd.englishSentence,
                        turkishTranslation := upd.turkishTranslation,
                        difficulty := upd.difficulty);
      (Some(e), rows[k := e])
  }

  /** An update of a present id changes that row's three fields only, and
      keeps the ids (so the rows stay well formed). */
  lemma UpdateSpec(rows: seq<SentencePractice>, nextId: int, id: int, upd: SentencePractice)
    requires HasId(rows, id)
    ensures var (r, rows') := Update(rows, id, upd);
      r.Some? && r.value.id == id
      && r.value.englishSentence == upd.englishSentence
      && r.value.turkishTranslation == upd.turkishTranslation
      && r.value.difficulty == upd.difficulty
      && |rows'| == |rows|
      && (forall i :: 0 <= i < |rows| ==> rows'[i].id == rows[i].id && rows'[i].createdDate == rows[i].createdDate)
      && (forall i :: 0 <= i < |rows| && rows[i].id != id ==> rows'[i] == rows[i])
      && r.value in rows'
    ensures RowsOk(rows, nextId) ==> RowsOk(Update(rows, id, upd).1, nextId)
  {
    var k := FindIndex(rows, id).value;
    var rows' := Update(rows, id, upd).1;
    if RowsOk(rows, nextId) {
      forall i, j | 0 <= i < j < |rows'| ensures IdOf(rows'[i]) != IdOf(rows'[j]) {
        assert IdOf(rows[i]) != IdOf(rows[j]);
      }
    }
  }

  function NotId(id: int): SentencePractice -> bool {
    (s: SentencePractice) => s.id != id
  }

  /** deleteSentence: true and the row is gone when the id existed, otherwise false. */
  function Delete(rows: seq<SentencePractice>, id: int): (out: (bool, seq<SentencePractice>))
    ensures out.0 <==> HasId(rows, id)
    ensures !out.0 ==> out.1 == rows
    ensures !HasId(out.1, id)
  {
    if HasId(rows, id) then (true, Filter(rows, NotId(id))) else (false, rows)
  }

  /** Deleting keeps every other row, and the rows stay well formed. */
  lemma DeleteSpec(rows: seq<SentencePractice>, nextId: int, id: int, x: SentencePractice)
    ensures x in Delete(rows, id).1 <==> x in rows && x.id != id
    ensures RowsOk(rows, nextId) ==> RowsOk(Delete(rows, id).1, nextId)
  {
    FilterMembers(rows, NotId(id), x);
    var rows' := Delete(rows, id).1;
    if RowsOk(rows, nextId) && HasId(rows, id) {
      DistinctKeysSub(rows, rows', IdOf);
      forall i | 0 <= i < |rows'| ensures rows'[i].id < nextId {
        FilterMembers(rows, NotId(id), rows'[i]);
      }
    }
  }

  /** A present id is deleted exactly once: a second delete reports false. */
  lemma DeleteTwice(rows: seq<SentencePractice>, id: int)
    ensures !Delete(Delete(rows, id).1, id).0
  {
  }

  /** A SentencePractice as a request body binds it: the id is null unless
      the client supplies one. */
  datatype SentenceBody = SentenceBody(
    id: Option<int>,
    englishSentence: string,
    turkishTranslation: Option<string>,
    difficulty: DifficultyLevel,
    createdDate: int)

  function Stored(id: int, b: SentenceBody): SentencePractice {
    SentencePractice(id, b.englishSentence, b.turkishTranslation, b.difficulty, b.createdDate)
  }

  /** saveSentence, that is the repository's save. A body without an id is
      inserted under the next generated id. A body whose id names a stored
      row is merged onto that row by primary key: the row takes every field
      of the body and no row is added. A body whose id names no row is
      inserted like a new one, under the next generated id, as Hibernate's
      merge does before version 6.6. */
  function Save(rows: seq<SentencePractice>, nextId: int, b: SentenceBody)
    : (out: (SentencePractice, seq<SentencePractice>, int))
    ensures b.id.Some? && HasId(rows, b.id.value) ==>
      out.0 == Stored(b.id.value, b) && out.2 == nextId
      && |out.1| == |rows|
      && forall i :: 0 <= i < |rows| ==> out.1[i] == (if rows[i].id == b.id.value then out.0 else rows[i])
    ensures b.id.None? || !HasId(rows, b.id.value) ==>
      out.0 == Stored(nextId, b) && out.1 == rows + [out.0] && out.2 == nextId + 1
  {
    if b.id.Some? && HasId(rows, b.id.value) then
      var merged := Stored(b.id.value, b);
      var rows' := seq(|rows|, i requires 0 <= i < |rows| =>
        if rows[i].id == b.id.value then merged else rows[i]);
      (merged, rows', nextId)
    else
      var saved := Stored(nextId, b);
      (saved, rows + [saved], nextId + 1)
  }

  /** Saving keeps the rows well formed. An insert adds one row under an id
      that was new; a merge keeps the number of rows and overwrites the row
      with the body's id. In both cases findById then returns what was saved. */
  lemma SaveKeepsRowsOk(rows: seq<SentencePractice>, nextId: int, b: SentenceBody)
    requires RowsOk(rows, nextId)
    ensures var (saved, rows', next') := Save(rows, nextId, b);
      && RowsOk(rows', next')
      && FindIndex(rows', saved.id).Some? && rows'[FindIndex(rows', saved.id).value] == saved
      && (b.id.Some? && HasId(rows, b.id.value) ==> saved.id == b.id.value && |rows'| == |rows|)
      && (b.id.None? || !HasId(rows, b.id.value) ==> !HasId(rows, saved.id) && |rows'| == |rows| + 1)
  {
    var (saved, rows', next') := Save(rows, nextId, b);
    if b.id.Some? && HasId(rows, b.id.value) {
      forall i, j | 0 <= i < j < |rows'| ensures IdOf(rows'[i]) != IdOf(rows'[j]) {
        assert IdOf(rows[i]) != IdOf(rows[j]);
      }
      UniqueFind(rows', saved.id, FindIndex(rows, b.id.value).value);
    } else {
      DistinctKeysAppend(rows, saved, IdOf);
      assert rows'[|rows|] == saved;
      UniqueFind(rows', saved.id, |rows|);
    }
  }

  /** The body a stored row is read back as. */
  function BodyOf(r: SentencePractice): SentenceBody {
    SentenceBody(Some(r.id), r.englishSentence, r.turkishTranslation, r.difficulty, r.createdDate)
  }

  /** Saving a stored row back unchanged is a merge that changes nothing:
      no row is added and no id is used up. */
  lemma SaveStoredRow(rows: seq<SentencePractice>, nextId: int, k: nat)
    requires k < |rows| && DistinctKeys(rows, IdOf)
    ensures Save(rows, nextId, BodyOf(rows[k])) == (rows[k], rows, nextId)
  {
    assert HasId(rows, rows[k].id);
    assert Stored(rows[k].id, BodyOf(rows[k])) == rows[k];
    var out := Save(rows, nextId, BodyOf(rows[k]));
    forall i | 0 <= i < |rows| ensures out.1[i] == rows[i] {
      if i < k { assert IdOf(rows[i]) != IdOf(rows[k]); }
      if i > k { assert IdOf(rows[k]) != IdOf(rows[i]); }
    }
    assert out.1 == rows;
  }

  /** With distinct ids, findById finds the one row holding the id. */
  lemma UniqueFind(rows: seq<SentencePractice>, id: int, k: nat)
    requires DistinctKeys(rows, IdOf) && k < |rows| && rows[k].id == id
    ensures FindIndex(rows, id) == Some(k)
  {
    var r := FindIndex(rows, id);
    assert IdOf(rows[r.value]) == IdOf(rows[k]);
  }

  /** findAllByOrderByCreatedDateDesc */
  function AllSentences(rows: seq<SentencePractice>): (r: seq<SentencePractice>)
    ensures SortedDesc(r, CreatedDateOf) && multiset(r) == multiset(rows)
  {
    SortDesc(rows, CreatedDateOf)
  }

  function HasDifficulty(d: DifficultyLevel): SentencePractice -> bool {
    (s: SentencePractice) => s.difficulty == d
  }

  /** findByDifficultyOrderByCreatedDateDesc: the rows of one difficulty, latest first. */
  function ByDifficulty(rows: seq<SentencePractice>, d: DifficultyLevel): (r: seq<SentencePractice>)
    ensures SortedDesc(r, CreatedDateOf)
    ensures multiset(r) == multiset(Filter(rows, HasDifficulty(d)))
    ensures forall x :: x in r <==> x in rows && x.difficulty == d
  {
    var f := Filter(rows, HasDifficulty(d));
    var r := SortDesc(f, CreatedDateOf);
    assert forall x :: x in r <==> x in rows && x.difficulty == d by {
      forall x ensures x in r <==> x in rows && x.difficulty == d {
        FilterMembers(rows, HasDifficulty(d), x);
        assert x in r <==> x in multiset(f);
      }
    }
    r
  }

  function CreatedOn(date: int): SentencePractice -> bool {
    (s: SentencePractice) => s.createdDate == date
  }

  /** findByCreatedDateOrderByCreatedDateDesc: the rows of one day. */
  function ByDate(rows: seq<SentencePractice>, date: int): (r: seq<SentencePractice>)
    ensures multiset(r) == multiset(Filter(rows, CreatedOn(date)))
    ensures forall x :: x in r <==> x in rows && x.createdDate == date
  {
    var f := Filter(rows, CreatedOn(date));
    var r := SortDesc(f, CreatedDateOf);
    assert forall x :: x in r <==> x in rows && x.createdDate == date by {
      forall x ensures x in r <==> x in rows && x.createdDate == date {
        FilterMembers(rows, CreatedOn(date), x);
        assert x in r <==> x in multiset(f);
      }
    }
    r
  }

  function CreatedBetween(startDate: int, endDate: int): SentencePractice -> bool {
    (s: SentencePractice) => startDate <= s.createdDate <= endDate
  }

  /** findByDateRange: the rows created between the two days, both included, latest first. */
  function ByDateRange(rows: seq<SentencePractice>, startDate: int, endDate: int): (r: seq<SentencePractice>)
    ensures SortedDesc(r, CreatedDateOf)
    ensures multiset(r) == multiset(Filter(rows, CreatedBetween(startDate, endDate)))
    ensures forall x :: x in r <==> x in rows && startDate <= x.createdDate <= endDate
  {
    var f := Filter(rows, CreatedBetween(startDate, endDate));
    var r := SortDesc(f, CreatedDateOf);
    assert forall x :: x in r <==> x in rows && startDate <= x.createdDate <= endDate by {
      forall x ensures x in r <==> x in rows && startDate <= x.createdDate <= endDate {
        FilterMembers(rows, CreatedBetween(startDate, endDate), x);
        assert x in r <==> x in multiset(f);
      }
    }
    r
  }

  /** A one-day range holds exactly the rows of that day, and a range ending before it starts holds none. */
  lemma {:induction false} DateRangeOfOneDay(rows: seq<SentencePractice>, date: int, startDate: int, endDate: int)
    ensures multiset(ByDateRange(rows, date, date)) == multiset(ByDate(rows, date))
    ensures endDate < startDate ==> ByDateRange(rows, startDate, endDate) == []
  {
    FilterSamePredicate(rows, CreatedBetween(date, date), CreatedOn(date));
  }

  /** Two predicates that agree on every element filter alike. */
  lemma {:induction false} FilterSamePredicate(xs: seq<SentencePractice>, p: SentencePractice -> bool, q: SentencePractice -> bool)
    requires forall x :: p(x) == q(x)
    ensures Filter(xs, p) == Filter(xs, q)
  {
    if xs != [] {
      FilterSamePredicate(xs[1..], p, q);
    }
  }

  /** Strictly descending: latest first, no day twice. */
  predicate StrictlyDesc(ds: seq<int>) {
    forall i, j :: 0 <= i < j < |ds| ==> ds[i] > ds[j]
  }

  /** One day put in its place in a strictly descending list, unless already there. */
  function InsertDate(d: int, ds: seq<int>): (r: seq<int>)
    requires StrictlyDesc(ds)
    ensures StrictlyDesc(r)
    ensures forall e :: e in r <==> e == d || e in ds
  {
    if ds == [] then [d]
    else if d > ds[0] then [d] + ds
    else if d == ds[0] then ds
    else
      var rest := InsertDate(d, ds[1..]);
      assert forall k :: 0 <= k < |rest| ==> ds[0] > rest[k] by {
        forall k | 0 <= k < |rest| ensures ds[0] > rest[k] {
          if rest[k] != d {
            assert rest[k] in rest;
            var j :| 0 <= j < |ds[1..]| && ds[1..][j] == rest[k];
            assert ds[j + 1] == rest[k];
          }
        }
      }
      [ds[0]] + rest
  }

  /** findDistinctCreatedDates: every creation day once, latest first. */
  function DistinctDates(rows: seq<SentencePractice>): (r: seq<int>)
    ensures StrictlyDesc(r)
    ensures forall e :: e in r <==> exists i :: 0 <= i < |rows| && rows[i].createdDate == e
  {
    if rows == [] then []
    else
      var r := InsertDate(rows[0].createdDate, DistinctDates(rows[1..]));
      assert forall e :: e in r <==> exists i :: 0 <= i < |rows| && rows[i].createdDate == e by {
        forall e ensures e in r <==> exists i :: 0 <= i < |rows| && rows[i].createdDate == e {
          if exists i :: 0 <= i < |rows| && rows[i].createdDate == e {
            var i :| 0 <= i < |rows| && rows[i].createdDate == e;
            if i > 0 {
              assert rows[1..][i - 1].createdDate == e;
            }
          }
          if e in DistinctDates(rows[1..]) {
            var i :| 0 <= i < |rows[1..]| && rows[1..][i].createdDate == e;
            assert rows[i + 1].createdDate == e;
          }
        }
      }
      r
  }

  /** count: as many as the full listing shows. */
  function TotalCount(rows: seq<SentencePractice>): (r: nat)
    ensures r == |AllSentences(rows)|
  {
    assert |multiset(AllSentences(rows))| == |multiset(rows)|;
    |rows|
  }

  /** countByDifficulty: no more than the whole table. */
  function CountByDifficulty(rows: seq<SentencePractice>, d: DifficultyLevel): (r: nat)
    ensures r <= TotalCount(rows)
  {
    Count(rows, HasDifficulty(d))
  }

  /** Every row has exactly one difficulty, so the three counts add up to the total. */
  lemma {:induction false} DifficultyCountsSum(rows: seq<SentencePractice>)
    ensures CountByDifficulty(rows, EASY) + CountByDifficulty(rows, MEDIUM) + CountByDifficulty(rows, HARD)
      == TotalCount(rows)
  {
    if rows != [] {
      DifficultyCountsSum(rows[1..]);
    }
  }

  /** The per-difficulty count is the length of the per-difficulty listing. */
  lemma CountMatchesListing(rows: seq<SentencePractice>, d: DifficultyLevel)
    ensures CountByDifficulty(rows, d) == |ByDifficulty(rows, d)|
    ensures TotalCount(rows) == |AllSentences(rows)|
  {
    CountIsFilterLength(rows, HasDifficulty(d));
    var f := Filter(rows, HasDifficulty(d));
    assert |multiset(SortDesc(f, CreatedDateOf))| == |multiset(f)|;
    assert |multiset(AllSentences(rows))| == |multiset(rows)|;
  }

  class SentencePracticeService {
    var rows: seq<SentencePractice>
    var nextId: int

    constructor ()
      ensures rows == [] && nextId == 1 && RowsOk(rows, nextId)
    {
      rows := [];
      nextId := 1;
    }

    method SaveSentence(b: SentenceBody) returns (saved: SentencePractice)
      modifies this`rows, this`nextId
      ensures (saved, rows, nextId) == Save(old(rows), old(nextId), b)
      ensures old(RowsOk(rows, nextId)) ==> RowsOk(rows, nextId)
    {
      if RowsOk(rows, nextId) { SaveKeepsRowsOk(rows, nextId, b); }
      if b.id.Some? && FindIndex(rows, b.id.value).Some? {
        var id := b.id.value;
        saved := Stored(id, b);
        var stored := rows;
        rows := seq(|stored|, i requires 0 <= i < |stored| =>
          if stored[i].id == id then saved else stored[i]);
      } else {
        saved := Stored(nextId, b);
        rows := rows + [saved];
        nextId := nextId + 1;
      }
    }

    method UpdateSentence(id: int, upd: SentencePractice) returns (r: Option<SentencePractice>)
      modifies this`rows
      ensures (r, rows) == Update(old(rows), id, upd)
      ensures old(RowsOk(rows, nextId)) ==> RowsOk(rows, nextId)
    {
      if HasId(rows, id) && RowsOk(rows, nextId) { UpdateSpec(rows, nextId, id, upd); }
      var existing := FindIndex(rows, id);
      if existing.Some? {
        var k := existing.value;
        var sentence := rows[k].(englishSentence := upd.englishSentence,
                                 turkishTranslation := upd.turkishTranslation,
                                 difficulty := upd.difficulty);
        rows := rows[k := sentence];
        return Some(sentence);
      }
      return None;
    }

    method DeleteSentence(id: int) returns (deleted: bool)
      modifies this`rows
      ensures (deleted, rows) == Delete(old(rows), id)
      ensures old(RowsOk(rows, nextId)) ==> RowsOk(rows, nextId)
    {
      if RowsOk(rows, nextId) {
        forall x { DeleteSpec(rows, nextId, id, x); }
      }
      if HasId(rows, id) {
        rows := Filter(rows, NotId(id));
        return true;
      }
      return false;
    }
  }
}
