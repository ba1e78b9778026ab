/** The chatbot endpoints: request validation, and the parsers for the
    language model's replies. Each regular expression the endpoints use is
    written out as a scanner that follows the matcher's search and
    backtracking for that one pattern. */
module Chatbot {
  import opened JavaLang

  // ---------------------------------------------------------------------------
  // Scanning primitives

  /** The character classes the patterns repeat: \d, \s, [^"] and [^)]. */
  datatype CharClass = Digit | Space | NotQuote | NotCloseParen

  predicate InClass(c: char, k: CharClass) {
    match k
    case Digit => IsDigit(c)
    case Space => RegexSpace(c)
    case NotQuote => c != '"'
    case NotCloseParen => c != ')'
  }

  /** The end of the longest run from `i` of characters in class `k`. */
  function RunEnd(s: string, i: nat, k: CharClass): (j: nat)
    requires i <= |s|
    ensures i <= j <= |s|
    ensures forall x :: i <= x < j ==> InClass(s[x], k)
    ensures j == |s| || !InClass(s[j], k)
    decreases |s| - i
  {
    if i < |s| && InClass(s[i], k) then RunEnd(s, i + 1, k) else i
  }

  /** Where `$` matches without MULTILINE: at the end of the input, or before
      one line terminator (or "\r\n") that ends the input. */
  predicate DollarAt(s: string, i: int) {
    i == |s|
    || (i == |s| - 1 && i >= 0 && LineTerminator(s[i]) && !(s[i] == '\n' && i > 0 && s[i - 1] == '\r'))
    || (i == |s| - 2 && i >= 0 && s[i] == '\r' && s[i + 1] == '\n')
  }

  // ---------------------------------------------------------------------------
  // Numbered sentences: \d+\)\s*(.+?)(?=\d+\)|$) with DOTALL

  /** `\d+\)` at `i`: the position after the parenthesis. */
  function NumberMarker(s: string, i: nat): (r: Option<nat>)
    requires i <= |s|
    ensures r.Some? ==> i + 2 <= r.value <= |s|
  {
    if i < |s| && IsDigit(s[i]) then
      var j := RunEnd(s, i, Digit);
      if j < |s| && s[j] == ')' then Some(j + 1) else None
    else None
  }

  /** A marker is one or more digits and a closing parenthesis, and there is
      one wherever such a run starts. */
  lemma NumberMarkerSpec(s: string, i: nat)
    requires i <= |s|
    ensures NumberMarker(s, i).Some? ==> var m := NumberMarker(s, i).value;
      s[m - 1] == ')' && forall k :: i <= k < m - 1 ==> IsDigit(s[k])
    ensures forall j :: i < j < |s| && s[j] == ')' && (forall k :: i <= k < j ==> IsDigit(s[k])) ==>
      NumberMarker(s, i) == Some(j + 1)
  {
    forall j | i < j < |s| && s[j] == ')' && (forall k :: i <= k < j ==> IsDigit(s[k]))
      ensures NumberMarker(s, i) == Some(j + 1)
    {
      var e := RunEnd(s, i, Digit);
      assert !InClass(s[j], Digit);
      assert e < |s| ==> !InClass(s[e], Digit);
    }
  }

  /** The lookahead `(?=\d+\)|$)`. */
  predicate Boundary(s: string, e: nat)
    requires e <= |s|
  {
    NumberMarker(s, e).Some? || DollarAt(s, e)
  }

  /** The lazy `.+?`: the first boundary at or after `e`. */
  function LazyEnd(s: string, e: nat): (r: nat)
    requires e <= |s|
    ensures e <= r <= |s|
    decreases |s| - e
  {
    if Boundary(s, e) then e else LazyEnd(s, e + 1)
  }

  lemma {:induction false} LazyEndLeast(s: string, e: nat)
    requires e <= |s|
    ensures Boundary(s, LazyEnd(s, e))
    ensures forall k :: e <= k < LazyEnd(s, e) ==> !Boundary(s, k)
    decreases |s| - e
  {
    if !Boundary(s, e) {
      LazyEndLeast(s, e + 1);
    }
  }

  /** A match of the numbered pattern starting at `p`: the bounds of group 1.
      When `\s*` has eaten the rest of the input it gives back one character. */
  function NumberedMatchAt(s: string, p: nat): (r: Option<(nat, nat)>)
    requires p <= |s|
    ensures r.Some? ==> p + 2 <= r.value.0 < r.value.1 <= |s|
  {
    match NumberMarker(s, p)
    case None => None
    case Some(m) =>
      var w := RunEnd(s, m, Space);
      if w < |s| then Some((w, LazyEnd(s, w + 1)))
      else if w > m then Some((|s| - 1, |s|))
      else None
  }

  /** Group 1 follows a marker and its white space, and ends at the first
      boundary after its first character. */
  lemma NumberedMatchSpec(s: string, p: nat)
    requires p <= |s| && NumberedMatchAt(s, p).Some?
    ensures NumberMarker(s, p).Some?
    ensures var (g0, g1) := NumberedMatchAt(s, p).value;
      NumberMarker(s, p).value <= g0 && Boundary(s, g1)
      && (forall k :: NumberMarker(s, p).value <= k < g0 ==> RegexSpace(s[k]))
      && (g1 < |s| ==> forall k :: g0 < k < g1 ==> !Boundary(s, k))
  {
    var m := NumberMarker(s, p).value;
    var w := RunEnd(s, m, Space);
    if w < |s| {
      LazyEndLeast(s, w + 1);
    }
  }

  /** Matcher.find from `from`: the first start with a match, and the match. */
  function FindNumbered(s: string, from: nat): (r: Option<(nat, nat, nat)>)
    requires from <= |s|
    ensures r.Some? ==> from <= r.value.0 <= |s| && from < r.value.2 <= |s| && r.value.1 < r.value.2
    decreases |s| - from
  {
    match NumberedMatchAt(s, from)
    case Some(g) => Some((from, g.0, g.1))
    case None => if from == |s| then None else FindNumbered(s, from + 1)
  }

  /** find reports the first start from `from` at which the pattern matches. */
  lemma {:induction false} FindNumberedFirst(s: string, from: nat)
    requires from <= |s| && FindNumbered(s, from).Some?
    ensures var r := FindNumbered(s, from).value;
      NumberedMatchAt(s, r.0) == Some((r.1, r.2))
      && forall q :: from <= q < r.0 ==> NumberedMatchAt(s, q).None?
    decreases |s| - from
  {
    if NumberedMatchAt(s, from).None? {
      FindNumberedFirst(s, from + 1);
    }
  }

  /** find fails only when the pattern matches at no start from `from`. */
  lemma {:induction false} FindNumberedNone(s: string, from: nat)
    requires from <= |s| && FindNumbered(s, from).None?
    ensures forall q :: from <= q <= |s| ==> NumberedMatchAt(s, q).None?
    decreases |s| - from
  {
    if from < |s| {
      FindNumberedNone(s, from + 1);
    }
  }

  /** Group 1 of every successive find from `from`. */
  function NumberedGroups(s: string, from: nat): seq<string>
    requires from <= |s|
    decreases |s| - from
  {
    match FindNumbered(s, from)
    case None => []
    case Some(m) => [s[m.1..m.2]] + NumberedGroups(s, m.2)
  }

  /** The trimmed groups that are not empty, in order. */
  function KeepTrimmed(gs: seq<string>): (r: seq<string>)
    ensures |r| <= |gs|
    ensures forall i :: 0 <= i < |r| ==> r[i] != [] && IsTrimmed(r[i])
  {
    if gs == [] then []
    else
      var t := Trim(gs[0]);
      (if t != [] then [t] else []) + KeepTrimmed(gs[1..])
  }

  /** A line the fallback keeps, already trimmed. */
  predicate KeptLine(t: string) {
    t != [] && !StartsWith(t, "ROLE:") && !StartsWith(t, "TASK:")
  }

  /** The fallback: the trimmed lines that are kept, in order. */
  function KeepLines(lines: seq<string>): (r: seq<string>)
    ensures |r| <= |lines|
    ensures forall i :: 0 <= i < |r| ==> KeptLine(r[i]) && IsTrimmed(r[i])
  {
    if lines == [] then []
    else
      var t := Trim(lines[|lines| - 1]);
      KeepLines(lines[..|lines| - 1]) + (if KeptLine(t) then [t] else [])
  }

  /** parseSentences: the numbered items, or the line fallback when there are none. */
  function Sentences(response: string): seq<string> {
    var numbered := KeepTrimmed(NumberedGroups(response, 0));
    if numbered != [] then numbered else KeepLines(Split(response, '\n'))
  }

  /** Every parsed sentence is non-empty and already trimmed. */
  lemma SentencesAreTrimmed(response: string, i: int)
    requires 0 <= i < |Sentences(response)|
    ensures Sentences(response)[i] != [] && Trim(Sentences(response)[i]) == Sentences(response)[i]
  {
    TrimmedFixed(Sentences(response)[i]);
  }

  /** The first find in "1) A 2) B": the marker "1)", one space, then "A "
      up to the next marker. */
  lemma ExampleFirstFind()
    ensures FindNumbered("1) A 2) B", 0) == Some((0, 3, 5))
  {
    var s := "1) A 2) B";
    assert NumberMarker(s, 0) == Some(2);
    assert RunEnd(s, 2, Space) == 3;
    assert !Boundary(s, 4);
    assert NumberMarker(s, 5) == Some(7);
    assert LazyEnd(s, 4) == 5;
  }

  /** The second find: "2)", one space, then "B" up to the end. */
  lemma ExampleSecondFind()
    ensures FindNumbered("1) A 2) B", 5) == Some((5, 8, 9))
  {
    var s := "1) A 2) B";
    assert NumberMarker(s, 5) == Some(7);
    assert RunEnd(s, 7, Space) == 8;
    assert LazyEnd(s, 9) == 9;
  }

  lemma ExampleGroups(s: string)
    requires s == "1) A 2) B"
    ensures NumberedGroups(s, 0) == ["A "] + ["B"]
  {
    ExampleFirstFind();
    ExampleSecondFind();
    assert FindNumbered(s, 9) == None;
    assert s[3..5] == "A ";
    assert s[8..9] == "B";
    assert NumberedGroups(s, 9) == [];
    assert NumberedGroups(s, 5) == ["B"];
  }

  lemma ExampleKept(gs: seq<string>)
    requires gs == ["A "] + ["B"]
    ensures KeepTrimmed(gs) == ["A", "B"]
  {
    var rest := gs[1..];
    assert rest == ["B"] && rest[1..] == [];
    TrimExample(gs[0], rest[0]);
    assert KeepTrimmed(rest) == ["B"] + KeepTrimmed(rest[1..]);
    assert gs[0] == "A ";
    assert KeepTrimmed(gs) == ["A"] + KeepTrimmed(rest);
  }

  /** Trimming the two groups of the example. */
  lemma TrimExample(a: string, b: string)
    requires a == "A " && b == "B"
    ensures Trim(a) == "A" && Trim(b) == "B"
  {
    assert Trim(a) == "A" by {
      assert !TrimSpace(a[0]) && TrimSpace(a[1]);
      assert |Trim(a)| == 1 && Trim(a)[0] == 'A';
    }
    assert Trim(b) == "B" by {
      assert !TrimSpace(b[0]);
      assert |Trim(b)| == 1 && Trim(b)[0] == 'B';
    }
  }

  /** A reply in the requested numbered form yields its items. */
  lemma NumberedExample(s: string)
    requires s == "1) A 2) B"
    ensures Sentences(s) == ["A", "B"]
  {
    ExampleGroups(s);
    ExampleKept(NumberedGroups(s, 0));
    NumberedFirst(s);
  }

  /** The fallback is consulted only when no numbered item survives trimming. */
  lemma NumberedFirst(response: string)
    ensures KeepTrimmed(NumberedGroups(response, 0)) != [] ==>
      Sentences(response) == KeepTrimmed(NumberedGroups(response, 0))
    ensures KeepTrimmed(NumberedGroups(response, 0)) == [] ==>
      Sentences(response) == KeepLines(Split(response, '\n'))
  {
  }

  lemma KeepTrimmedCons(g: string, rest: seq<string>)
    ensures KeepTrimmed([g] + rest) == (if Trim(g) != [] then [Trim(g)] else []) + KeepTrimmed(rest)
  {
    assert ([g] + rest)[1..] == rest;
  }

  lemma NumberedGroupsStep(s: string, from: nat)
    requires from <= |s| && FindNumbered(s, from).Some?
    ensures var m := FindNumbered(s, from).value;
      NumberedGroups(s, from) == [s[m.1..m.2]] + NumberedGroups(s, m.2)
  {
  }

  lemma ConcatAssoc<T>(a: seq<T>, b: seq<T>, c: seq<T>)
    ensures (a + b) + c == a + (b + c)
  {
  }

  /** The loop over Matcher.find. */
  method ScanNumbered(response: string) returns (sentences: seq<string>)
    ensures sentences == KeepTrimmed(NumberedGroups(response, 0))
  {
    sentences := [];
    var from: nat := 0;
    var m := FindNumbered(response, from);
    while m.Some?
      invariant from <= |response|
      invariant m == FindNumbered(response, from)
      invariant sentences + KeepTrimmed(NumberedGroups(response, from)) == KeepTrimmed(NumberedGroups(response, 0))
      decreases |response| - from
    {
      var g0, g1 := m.value.1, m.value.2;
      NumberedGroupsStep(response, from);
      KeepTrimmedCons(response[g0..g1], NumberedGroups(response, g1));
      var sentence := Trim(response[g0..g1]);
      ghost var head := if sentence != [] then [sentence] else [];
      ghost var rest := KeepTrimmed(NumberedGroups(response, g1));
      ghost var before := sentences;
      assert before + (head + rest) == KeepTrimmed(NumberedGroups(response, 0));
      if sentence != [] {
        sentences := sentences + [sentence];
      }
      assert sentences == before + head;
      ConcatAssoc(before, head, rest);
      from := g1;
      m := FindNumbered(response, from);
    }
  }

  /** The loop over the lines of the fallback. */
  method ScanLines(lines: seq<string>) returns (sentences: seq<string>)
    ensures sentences == KeepLines(lines)
  {
    sentences := [];
    for i := 0 to |lines|
      invariant sentences == KeepLines(lines[..i])
    {
      assert lines[..i + 1][..i] == lines[..i];
      var line := Trim(lines[i]);
      if line != [] && !StartsWith(line, "ROLE:") && !StartsWith(line, "TASK:") {
        sentences := sentences + [line];
      }
    }
    assert lines[..|lines|] == lines;
  }

  method ParseSentences(response: string) returns (sentences: seq<string>)
    ensures sentences == Sentences(response)
  {
    sentences := ScanNumbered(response);
    if sentences == [] {
      sentences := ScanLines(Split(response, '\n'));
    }
  }

  // ---------------------------------------------------------------------------
  // The translation check: "key"\s*:\s*(true|false) and "key"\s*:\s*"([^"]+)"

  const IS_CORRECT_KEY: string := "\"isCorrect\""
  const CORRECT_TRANSLATION_KEY: string := "\"correctTranslation\""
  const FEEDBACK_KEY: string := "\"feedback\""
  const DEFAULT_FEEDBACK: string := "\U{00C7}eviri kontrol edildi."
  const FAILED_FEEDBACK: string := "\U{00C7}eviri kontrol edilemedi: "

  /** The three fields the endpoint answers with. */
  datatype TranslationCheck = TranslationCheck(isCorrect: bool, correctTranslation: string, feedback: string)

  /** `key\s*:\s*` at `q`: the position after the second run of white space.
      Neither run needs to give anything back, since `:` and the value's
      first character are not white space. */
  function ValueStart(s: string, q: nat, key: string): (r: Option<nat>)
    requires q <= |s|
    ensures r.Some? ==> OccursAt(s, key, q) && q + |key| < r.value <= |s|
  {
    if OccursAt(s, key, q) then
      var c := RunEnd(s, q + |key|, Space);
      if c < |s| && s[c] == ':' then Some(RunEnd(s, c + 1, Space)) else None
    else None
  }

  /** The isCorrect pattern at `q`, and the flag Boolean.parseBoolean reads from group 1. */
  function BoolAt(s: string, q: nat): Option<bool>
    requires q <= |s|
  {
    match ValueStart(s, q, IS_CORRECT_KEY)
    case None => None
    case Some(v) =>
      if OccursAt(s, "true", v) then Some(true)
      else if OccursAt(s, "false", v) then Some(false)
      else None
  }

  /** A quoted-string pattern at `q`: group 1, which `[^"]+` keeps non-empty
      and free of quotes. */
  function StringAt(s: string, q: nat, key: string): (r: Option<string>)
    requires q <= |s|
    ensures r.Some? ==> r.value != [] && '"' !in r.value
  {
    match ValueStart(s, q, key)
    case None => None
    case Some(v) =>
      if v < |s| && s[v] == '"' then
        var e := RunEnd(s, v + 1, NotQuote);
        if v + 1 < e < |s| then Some(s[v + 1..e]) else None
      else None
  }

  /** Matcher.find for the isCorrect pattern from `q`. */
  function FindBool(s: string, q: nat): Option<bool>
    requires q <= |s|
    decreases |s| - q
  {
    if BoolAt(s, q).Some? then BoolAt(s, q)
    else if q == |s| then None
    else FindBool(s, q + 1)
  }

  /** Matcher.find for a quoted-string pattern from `q`. */
  function FindString(s: string, q: nat, key: string): (r: Option<string>)
    requires q <= |s|
    ensures r.Some? ==> r.value != [] && '"' !in r.value
    decreases |s| - q
  {
    if StringAt(s, q, key).Some? then StringAt(s, q, key)
    else if q == |s| then None
    else FindString(s, q + 1, key)
  }

  /** A field written `key:"v"` is read back as `v`. */
  lemma StringFieldAt(s: string, q: nat, key: string, v: string)
    requires q <= |s| && v != [] && '"' !in v
    requires OccursAt(s, key + ":\"" + v + "\"", q)
    ensures StringAt(s, q, key) == Some(v)
  {
    var c := q + |key|;
    var e := c + 2 + |v|;
    StringFieldLayout(s, q, key, v);
    RunEndIs(s, c, Space, c);
    RunEndIs(s, c + 1, Space, c + 1);
    RunEndIs(s, c + 2, NotQuote, e);
  }

  /** Where the parts of `key:"v"` lie when it occurs at `q`. */
  lemma StringFieldLayout(s: string, q: nat, key: string, v: string)
    requires q <= |s| && '"' !in v
    requires OccursAt(s, key + ":\"" + v + "\"", q)
    ensures q + |key| + 2 + |v| < |s| && OccursAt(s, key, q)
    ensures s[q + |key|] == ':' && s[q + |key| + 1] == '"' && s[q + |key| + 2 + |v|] == '"'
    ensures s[q + |key| + 2..q + |key| + 2 + |v|] == v
    ensures forall k :: q + |key| + 2 <= k < q + |key| + 2 + |v| ==> InClass(s[k], NotQuote)
  {
    var t := key + ":\"" + v + "\"";
    var c := q + |key|;
    var e := c + 2 + |v|;
    assert s[q..q + |t|] == t;
    assert s[q..c] == t[..|key|];
    assert s[c] == t[|key|] == ':';
    assert s[c + 1] == t[|key| + 1] == '"';
    assert s[e] == t[|t| - 1] == '"';
    var pre := key + ":\"";
    assert t == pre + v + "\"" && |pre| == |key| + 2;
    forall k | 0 <= k < |v| ensures s[c + 2 + k] == v[k] {
      assert s[c + 2 + k] == t[|pre| + k];
    }
    assert s[c + 2..e] == v;
    forall k | c + 2 <= k < e ensures InClass(s[k], NotQuote) {
      assert s[k] == v[k - c - 2];
    }
  }

  /** A run of class `k` from `i` that stops at `e` ends at `e`. */
  lemma RunEndIs(s: string, i: nat, k: CharClass, e: nat)
    requires i <= e < |s| && !InClass(s[e], k)
    requires forall x :: i <= x < e ==> InClass(s[x], k)
    ensures RunEnd(s, i, k) == e
  {
  }

  /** A flag written `key:true` or `key:false` is read back. */
  lemma BoolFieldAt(s: string, q: nat, b: bool)
    requires q <= |s|
    requires OccursAt(s, IS_CORRECT_KEY + ":" + (if b then "true" else "false"), q)
    ensures BoolAt(s, q) == Some(b)
  {
    var lit := if b then "true" else "false";
    var c := q + |IS_CORRECT_KEY|;
    BareFieldLayout(s, q, IS_CORRECT_KEY, lit);
    RunEndIs(s, c, Space, c);
    RunEndIs(s, c + 1, Space, c + 1);
    assert ValueStart(s, q, IS_CORRECT_KEY) == Some(c + 1);
    if !b {
      assert s[c + 1] == lit[0] == 'f';
      assert !OccursAt(s, "true", c + 1);
    }
  }

  /** Where the parts of `key:lit` lie when it occurs at `q`. */
  lemma BareFieldLayout(s: string, q: nat, key: string, lit: string)
    requires lit != [] && OccursAt(s, key + ":" + lit, q)
    ensures OccursAt(s, key, q) && s[q + |key|] == ':'
    ensures OccursAt(s, lit, q + |key| + 1) && s[q + |key| + 1] == lit[0]
  {
    var t := key + ":" + lit;
    var c := q + |key|;
    assert s[q..q + |t|] == t;
    assert s[q..c] == t[..|key|];
    assert s[c] == t[|key|] == ':';
    assert s[c + 1..c + 1 + |lit|] == t[|key| + 1..] == lit;
  }

  /** find reads the first place the pattern matches, so a field reads from
      the first occurrence of its key. */
  lemma {:induction false} FindStringSkips(s: string, p: nat, q: nat, key: string)
    requires p <= q <= |s|
    requires forall k :: p <= k < q ==> !OccursAt(s, key, k)
    ensures FindString(s, p, key) == FindString(s, q, key)
    decreases q - p
  {
    if p < q {
      FindStringSkips(s, p + 1, q, key);
    }
  }

  lemma {:induction false} FindBoolSkips(s: string, p: nat, q: nat)
    requires p <= q <= |s|
    requires forall k :: p <= k < q ==> !OccursAt(s, IS_CORRECT_KEY, k)
    ensures FindBool(s, p) == FindBool(s, q)
    decreases q - p
  {
    if p < q {
      FindBoolSkips(s, p + 1, q);
    }
  }

  /** The value of a string field is the one after the first occurrence of its key. */
  lemma FindStringField(s: string, q: nat, key: string, v: string)
    requires q <= |s| && v != [] && '"' !in v
    requires OccursAt(s, key + ":\"" + v + "\"", q)
    requires forall k :: 0 <= k < q ==> !OccursAt(s, key, k)
    ensures FindString(s, 0, key) == Some(v)
  {
    StringFieldAt(s, q, key, v);
    FindStringSkips(s, 0, q, key);
  }

  /** The flag is the one after the first occurrence of its key. */
  lemma FindBoolField(s: string, q: nat, b: bool)
    requires q <= |s|
    requires OccursAt(s, IS_CORRECT_KEY + ":" + (if b then "true" else "false"), q)
    requires forall k :: 0 <= k < q ==> !OccursAt(s, IS_CORRECT_KEY, k)
    ensures FindBool(s, 0) == Some(b)
  {
    BoolFieldAt(s, q, b);
    FindBoolSkips(s, 0, q);
  }

  /** Without its key the pattern is found nowhere, and the default applies. */
  lemma {:induction false} FindStringAbsent(s: string, p: nat, key: string)
    requires p <= |s| && !Contains(s, key)
    ensures FindString(s, p, key) == None
    decreases |s| - p
  {
    assert !OccursAt(s, key, p);
    if p < |s| {
      FindStringAbsent(s, p + 1, key);
    }
  }

  /** The reply with code fences removed and trimmed: "```json" and then
      every "```" are removed, which leaves none behind, and trimming cuts
      out a piece of the text, which cannot create one. */
  function Cleaned(response: string): (r: string)
    ensures IsTrimmed(r)
    ensures !Contains(r, "```")
  {
    var x := ReplaceAll(ReplaceAll(Trim(response), "```json", ""), "```", "");
    ReplaceAllFenceFree(ReplaceAll(Trim(response), "```json", ""));
    TrimKeepsAbsent(x, "```");
    Trim(x)
  }

  /** Trimming a text without the pattern gives a text without it. */
  lemma TrimKeepsAbsent(s: string, t: string)
    requires !Contains(s, t)
    ensures !Contains(Trim(s), t)
  {
    var a := TrimStart(s);
    NotContainsSlice(s, t, |s| - |a|, |s|);
    assert a == s[|s| - |a|..|s|];
    NotContainsSlice(a, t, 0, |TrimEnd(a)|);
  }

  /** A piece of a text without the pattern is without it too. */
  lemma NotContainsSlice(s: string, t: string, lo: nat, hi: nat)
    requires lo <= hi <= |s| && !Contains(s, t)
    ensures !Contains(s[lo..hi], t)
  {
    forall i | 0 <= i <= hi - lo - |t| ensures !OccursAt(s[lo..hi], t, i) {
      assert !OccursAt(s, t, lo + i);
      var w := s[lo..hi][i..i + |t|];
      assert forall j :: 0 <= j < |t| ==> w[j] == s[lo + i + j];
      assert w == s[lo + i..lo + i + |t|];
    }
  }

  /** A reply without backticks is only trimmed. */
  lemma CleanedPlain(response: string)
    requires '`' !in response
    ensures Cleaned(response) == Trim(response)
  {
    var t := Trim(response);
    TrimKeepsOut(response, '`');
    AbsentByFirst(t, "```json");
    ReplaceAllAbsent(t, "```json", "");
    AbsentByFirst(t, "```");
    ReplaceAllAbsent(t, "```", "");
    TrimIdempotent(response);
  }

  /** Trimming adds no character. */
  lemma TrimKeepsOut(s: string, ch: char)
    requires ch !in s
    ensures ch !in Trim(s)
  {
    var a := TrimStart(s);
    forall k | 0 <= k < |Trim(s)| ensures Trim(s)[k] != ch {
      assert Trim(s)[k] == a[k] == s[|s| - |a| + k];
    }
  }

  /** A pattern whose first character is absent does not occur. */
  lemma AbsentByFirst(t: string, pat: string)
    requires pat != [] && pat[0] !in t
    ensures !Contains(t, pat)
  {
    forall i | 0 <= i <= |t| - |pat| ensures !OccursAt(t, pat, i) {
      assert t[i..i + |pat|][0] == t[i];
    }
  }

  /** From the first `{` to the last `}`, when the last comes after the first. */
  function JsonSlice(c: string): (r: Option<string>)
    ensures r.Some? ==> |r.value| >= 2 && r.value[0] == '{' && r.value[|r.value| - 1] == '}'
  {
    var start := IndexOf(c, '{');
    var end := LastIndexOf(c, '}') + 1;
    if start >= 0 && end > start then Some(c[start..end]) else None
  }

  /** The braces are found exactly when some `}` follows some `{`. */
  lemma JsonSliceSpec(c: string)
    ensures JsonSlice(c).Some? <==> exists i, j :: 0 <= i < j < |c| && c[i] == '{' && c[j] == '}'
  {
    var start := IndexOf(c, '{');
    var last := LastIndexOf(c, '}');
    if exists i, j :: 0 <= i < j < |c| && c[i] == '{' && c[j] == '}' {
      var i, j :| 0 <= i < j < |c| && c[i] == '{' && c[j] == '}';
      assert c[i] in c && c[j] in c;
      IndexOfLeast(c, '{', i);
      LastIndexOfGreatest(c, '}', j);
    }
  }

  /** parseJsonResponse on a reply. */
  function ParseJson(response: string): (r: TranslationCheck)
    ensures '"' !in r.correctTranslation
    ensures JsonSlice(Cleaned(response)).Some? ==> r.feedback != []
  {
    var c := Cleaned(response);
    match JsonSlice(c)
    case Some(json) =>
      TranslationCheck(
        match FindBool(json, 0) case Some(b) => b case None => false,
        match FindString(json, 0, CORRECT_TRANSLATION_KEY) case Some(t) => t case None => "",
        match FindString(json, 0, FEEDBACK_KEY) case Some(f) => f case None => DEFAULT_FEEDBACK)
    case None =>
      var l := ToLower(c);
      TranslationCheck(
        Contains(l, "\"isCorrect\":true") || Contains(l, "do\U{011F}ru")
        || (!Contains(l, "incorrect") && !Contains(l, "yanl\U{0131}\U{015F}") && !Contains(l, "\"isCorrect\":false")),
        "", c)
  }

  /** Without braces the quoted-flag tests run on a lower-cased string and can
      never succeed: the verdict comes from the Turkish and English words alone,
      and the cleaned reply is the feedback. */
  lemma NoJsonVerdict(response: string)
    requires JsonSlice(Cleaned(response)).None?
    ensures var l := ToLower(Cleaned(response));
      ParseJson(response) == TranslationCheck(
        Contains(l, "do\U{011F}ru") || (!Contains(l, "incorrect") && !Contains(l, "yanl\U{0131}\U{015F}")),
        "", Cleaned(response))
  {
    QuotedFlagsNeverLower(Cleaned(response));
  }

  /** The quoted flags contain a capital `C`, so no lower-cased string contains them. */
  lemma QuotedFlagsNeverLower(c: string)
    ensures !Contains(ToLower(c), "\"isCorrect\":true") && !Contains(ToLower(c), "\"isCorrect\":false")
  {
    var t, f := "\"isCorrect\":true", "\"isCorrect\":false";
    assert t[3] == 'C' && f[3] == 'C';
    LowerNeverContainsUpper(c, t, 3);
    LowerNeverContainsUpper(c, f, 3);
  }

  /** In the braces branch each field is the first match in the slice, or its default. */
  lemma JsonFields(response: string, json: string)
    requires JsonSlice(Cleaned(response)) == Some(json)
    ensures ParseJson(response).isCorrect <==> FindBool(json, 0) == Some(true)
    ensures ParseJson(response).correctTranslation == [] <==> FindString(json, 0, CORRECT_TRANSLATION_KEY).None?
    ensures !Contains(json, FEEDBACK_KEY) ==> ParseJson(response).feedback == DEFAULT_FEEDBACK
  {
    if !Contains(json, FEEDBACK_KEY) {
      FindStringAbsent(json, 0, FEEDBACK_KEY);
    }
  }

  /** A null reply makes the parser throw a NullPointerException; the handler
      answers with the fallback, followed by the exception's message
      (`npeMessage`, which the JDK words). */
  function CheckReply(response: Option<string>, npeMessage: string): (r: TranslationCheck)
    ensures response.None? ==> !r.isCorrect && r.correctTranslation == []
    ensures response.None? ==> StartsWith(r.feedback, FAILED_FEEDBACK) && r.feedback[|FAILED_FEEDBACK|..] == npeMessage
    ensures response.Some? ==> r == ParseJson(response.value)
  {
    match response
    case None => TranslationCheck(false, "", FAILED_FEEDBACK + npeMessage)
    case Some(text) => ParseJson(text)
  }

  // ---------------------------------------------------------------------------
  // Sentence and translation: (.+?)\s*\(([^)]+)\)\s*$

  /** `\s*\(([^)]+)\)\s*$` at `e`: the bounds of group 2. The greedy runs need
      no backtracking: white space is never `(`, `[^)]` never matches `)`, and
      `$` holds inside the trailing white space only at its end
      (TrailingDollar). */
  function ParenTail(s: string, e: nat): (r: Option<(nat, nat)>)
    requires e <= |s|
    ensures r.Some? ==> e < r.value.0 < r.value.1 < |s| && s[r.value.0 - 1] == '(' && s[r.value.1] == ')'
  {
    var w := RunEnd(s, e, Space);
    if w < |s| && s[w] == '(' then
      var f := RunEnd(s, w + 1, NotCloseParen);
      if w + 1 < f < |s| && DollarAt(s, RunEnd(s, f + 1, Space)) then Some((w + 1, f)) else None
    else None
  }

  /** Backtracking into trailing white space never finds another `$`. */
  lemma TrailingDollar(s: string, i: nat, t: nat)
    requires i <= |s| && i <= t <= RunEnd(s, i, Space) && DollarAt(s, t)
    ensures DollarAt(s, RunEnd(s, i, Space))
  {
    var r := RunEnd(s, i, Space);
    assert t < r ==> RegexSpace(s[t]) && r == |s|;
  }

  /** The lazy `.+?` having consumed up to `e`: the first end with a tail,
      never crossing a line terminator. */
  function LazyParen(s: string, e: nat): (r: Option<nat>)
    requires 1 <= e <= |s|
    ensures r.Some? ==> e <= r.value <= |s| && ParenTail(s, r.value).Some?
    decreases |s| - e
  {
    if ParenTail(s, e).Some? then Some(e)
    else if e < |s| && !LineTerminator(s[e]) then LazyParen(s, e + 1)
    else None
  }

  /** A match starting at `p`: the end of group 1. */
  function ParenMatchAt(s: string, p: nat): (r: Option<nat>)
    requires p <= |s|
    ensures r.Some? ==> p < r.value <= |s| && ParenTail(s, r.value).Some?
  {
    if p < |s| && !LineTerminator(s[p]) then LazyParen(s, p + 1) else None
  }

  /** The first index from `p` holding a value, with that value. */
  function FirstSome<T>(ms: seq<Option<T>>, p: nat): (r: Option<(nat, T)>)
    requires p <= |ms|
    ensures r.Some? ==> p <= r.value.0 < |ms| && ms[r.value.0] == Some(r.value.1)
    ensures r.None? ==> forall q :: p <= q < |ms| ==> ms[q].None?
    decreases |ms| - p
  {
    if p == |ms| then None
    else match ms[p]
      case Some(e) => Some((p, e))
      case None => FirstSome(ms, p + 1)
  }

  /** The search skips the empty indexes and stops at the first value. */
  lemma {:induction false} FirstSomeAt<T>(ms: seq<Option<T>>, p: nat, k: nat)
    requires p <= k < |ms| && ms[k].Some?
    requires forall q :: p <= q < k ==> ms[q].None?
    ensures FirstSome(ms, p) == Some((k, ms[k].value))
    decreases k - p
  {
    if p < k {
      FirstSomeAt(ms, p + 1, k);
    }
  }

  /** The match attempted at every start of `s`. */
  function ParenMatches(s: string): (ms: seq<Option<nat>>)
    ensures |ms| == |s| && forall q :: 0 <= q < |s| ==> ms[q] == ParenMatchAt(s, q)
  {
    seq(|s|, q requires 0 <= q < |s| => ParenMatchAt(s, q))
  }

  /** Matcher.find: the first start with a match, and the end of group 1. */
  function FindParen(s: string, p: nat): (r: Option<(nat, nat)>)
    requires p <= |s|
    ensures r.Some? ==> p <= r.value.0 < r.value.1 <= |s| && ParenTail(s, r.value.1).Some?
    ensures r.Some? ==> ParenMatchAt(s, r.value.0) == Some(r.value.1) && '(' in s
  {
    var r := FirstSome(ParenMatches(s), p);
    if r.Some? then
      assert s[ParenTail(s, r.value.1).value.0 - 1] == '(';
      r
    else r
  }

  /** The English text and the Turkish translation stored for one sentence. */
  function SplitSentence(s: string): (string, string) {
    match FindParen(s, 0)
    case None => (s, "")
    case Some(m) =>
      var g := ParenTail(s, m.1).value;
      (Trim(s[m.0..m.1]), Trim(s[g.0..g.1]))
  }

  /** A sentence without `(` is kept whole, with an empty translation. */
  lemma NoParenKeepsSentence(s: string)
    requires '(' !in s
    ensures SplitSentence(s) == (s, "")
  {
  }

  /** The shape "text (translation)" from `p` on: text free of line
      terminators and `(` up to `b`, a space and `(` at `b`, then a non-empty
      translation free of `)` closed by the final `)`. */
  ghost predicate ParenLayout(s: string, p: nat, b: nat) {
    p < b && b + 3 < |s| && s[b] == ' ' && s[b + 1] == '(' && s[|s| - 1] == ')'
    && (forall k :: p <= k < b ==> !LineTerminator(s[k]) && s[k] != '(')
    && (forall k :: b + 2 <= k < |s| - 1 ==> s[k] != ')')
  }

  /** In that shape the tail matches exactly where only white space is left
      before the parenthesis, and group 2 is then the translation. */
  lemma ParenTailInLayout(s: string, p: nat, b: nat, e: nat)
    requires ParenLayout(s, p, b) && p < e <= b
    ensures ParenTail(s, e).Some? <==> forall k :: e <= k < b ==> RegexSpace(s[k])
    ensures ParenTail(s, e).Some? ==> ParenTail(s, e).value.0 == b + 2 && ParenTail(s, e).value.1 == |s| - 1
  {
    var w := RunEnd(s, e, Space);
    if forall k :: e <= k < b ==> RegexSpace(s[k]) {
      assert forall k :: e <= k <= b ==> InClass(s[k], Space);
      assert !InClass(s[b + 1], Space);
      assert w == b + 1;
      var f := RunEnd(s, b + 2, NotCloseParen);
      assert forall k :: b + 2 <= k < |s| - 1 ==> InClass(s[k], NotCloseParen);
      assert !InClass(s[|s| - 1], NotCloseParen);
      assert f == |s| - 1;
      assert RunEnd(s, |s|, Space) == |s|;
    } else {
      var k :| e <= k < b && !RegexSpace(s[k]);
      assert w <= k;
      assert s[w] != '(';
    }
  }

  lemma {:induction false} LazyParenInLayout(s: string, p: nat, b: nat, e: nat)
    requires ParenLayout(s, p, b) && p < e <= b
    ensures LazyParen(s, e).Some?
    ensures var x := LazyParen(s, e).value;
      e <= x <= b && (forall k :: x <= k < b ==> RegexSpace(s[k]))
      && ParenTail(s, x).Some? && ParenTail(s, x).value.0 == b + 2 && ParenTail(s, x).value.1 == |s| - 1
    decreases b - e
  {
    ParenTailInLayout(s, p, b, e);
    if ParenTail(s, e).None? {
      assert e < b;
      LazyParenInLayout(s, p, b, e + 1);
    }
  }

  /** In the shape, a match starts at `p`: group 1 is the text up to `b`
      less some trailing white space, and group 2 is the translation. */
  lemma MatchInLayout(s: string, p: nat, b: nat)
    requires ParenLayout(s, p, b)
    ensures ParenMatchAt(s, p).Some?
    ensures var x := ParenMatchAt(s, p).value;
      x <= b && (forall k :: x <= k < b ==> RegexSpace(s[k]))
      && ParenTail(s, x).Some? && ParenTail(s, x).value.0 == b + 2 && ParenTail(s, x).value.1 == |s| - 1
  {
    LazyParenInLayout(s, p, b, p + 1);
  }

  /** Matcher.find stops at `p`, group 1 ends at `x`, and group 2 is
      `s[g0..g1]`. */
  predicate FoundAt(s: string, p: nat, x: nat, g0: nat, g1: nat) {
    FindParen(s, 0) == Some((p, x))
    && ParenTail(s, x).Some? && ParenTail(s, x).value.0 == g0 && ParenTail(s, x).value.1 == g1
  }

  /** The split, given the match find reports. */
  lemma SplitAt(s: string, p: nat, x: nat, g0: nat, g1: nat)
    requires FoundAt(s, p, x, g0, g1)
    ensures SplitSentence(s) == (Trim(s[p..x]), Trim(s[g0..g1]))
  {
  }

  /** Trailing white space does not change the trimmed text. */
  lemma SpaceSuffixTrim(s: string, p: nat, x: nat, b: nat)
    requires p <= x <= b <= |s| && forall k :: x <= k < b ==> RegexSpace(s[k])
    ensures Trim(s[p..b]) == Trim(s[p..x])
  {
    var w := s[x..b];
    assert forall i :: 0 <= i < |w| ==> w[i] == s[x + i];
    assert s[p..b] == s[p..x] + w;
    TrimDropsTrailingSpace(s[p..x], w);
  }

  /** A sentence written "text (translation)" splits into the trimmed text and
      the trimmed translation. */
  lemma ParenSplitSimple(a: string, t: string)
    requires a != [] && forall k :: 0 <= k < |a| ==> !LineTerminator(a[k]) && a[k] != '('
    requires t != [] && ')' !in t
    ensures SplitSentence(a + " (" + t + ")") == (Trim(a), Trim(t))
  {
    var s := a + " (" + t + ")";
    SimpleLayout(a, t);
    MatchInLayout(s, 0, |a|);
    var x := ParenMatchAt(s, 0).value;
    assert FindParen(s, 0) == Some((0 as nat, x));
    SplitAt(s, 0, x, |a| + 2, |s| - 1);
    SpaceSuffixTrim(s, 0, x, |a|);
  }

  lemma SimpleLayout(a: string, t: string)
    requires a != [] && forall k :: 0 <= k < |a| ==> !LineTerminator(a[k]) && a[k] != '('
    requires t != [] && ')' !in t
    ensures var s := a + " (" + t + ")";
      ParenLayout(s, 0, |a|) && s[0..|a|] == a && s[|a| + 2..|s| - 1] == t
  {
    var s := a + " (" + t + ")";
    var b := |a|;
    assert forall k :: 0 <= k < b ==> s[k] == a[k];
    assert forall k :: b + 2 <= k < |s| - 1 ==> s[k] == t[k - b - 2];
    assert s[b + 2..|s| - 1] == t;
  }

  /** Two lines of text without `(`, the second not blank, and a translation
      without `)`. */
  predicate TwoLineShape(a: string, b: string, t: string) {
    (forall k :: 0 <= k < |a| ==> !LineTerminator(a[k]) && a[k] != '(')
    && (forall k :: 0 <= k < |b| ==> !LineTerminator(b[k]) && b[k] != '(')
    && (exists k :: 0 <= k < |b| && !RegexSpace(b[k]))
    && t != [] && ')' !in t
  }

  /** With a line break before "text (translation)", group 1 cannot start
      before the break: `.` does not cross it, and the split keeps only the last
      line of the English text. */
  lemma ParenAfterLineBreak(a: string, b: string, t: string)
    requires TwoLineShape(a, b, t)
    ensures SplitSentence(a + "\n" + b + " (" + t + ")") == (Trim(b), Trim(t))
  {
    var s := a + "\n" + b + " (" + t + ")";
    var p: nat := |a| + 1;
    var bb: nat := p + |b|;
    var x := BreakFind(s, a, b, t, p, bb);
    SplitAt(s, p, x, bb + 2, |s| - 1);
    SpaceSuffixTrim(s, p, x, bb);
  }

  /** A line break at `n`, then before `bb` a character at `kb` that is not
      white space, and no `(` before `bb`. */
  predicate BreakBefore(s: string, n: nat, kb: nat, bb: nat) {
    n < kb < bb <= |s| && LineTerminator(s[n]) && !RegexSpace(s[kb])
    && (forall k :: 0 <= k < n ==> !LineTerminator(s[k]))
    && (forall k :: 0 <= k < bb ==> s[k] != '(')
  }

  /** In the two-line text Matcher.find reports the match that starts on the
      second line; group 1 is the second line less some trailing white space. */
  lemma BreakFind(s: string, a: string, b: string, t: string, p: nat, bb: nat) returns (x: nat)
    requires TwoLineShape(a, b, t)
    requires s == a + "\n" + b + " (" + t + ")" && p == |a| + 1 && bb == p + |b|
    ensures p <= x <= bb <= |s| && FoundAt(s, p, x, bb + 2, |s| - 1)
    ensures (forall k :: x <= k < bb ==> RegexSpace(s[k])) && s[p..bb] == b && s[bb + 2..|s| - 1] == t
  {
    var kb :| 0 <= kb < |b| && !RegexSpace(b[kb]);
    BreakLayout(s, a, b, t, p, kb, bb);
    x := FirstMatchAfterBreak(s, |a|, p, p + kb, bb);
  }

  /** Matcher.find reports the match that starts after the line break. */
  lemma FirstMatchAfterBreak(s: string, n: nat, p: nat, kb: nat, bb: nat) returns (x: nat)
    requires ParenLayout(s, p, bb) && p == n + 1 && BreakBefore(s, n, kb, bb)
    ensures p <= x <= bb && FoundAt(s, p, x, bb + 2, |s| - 1) && (forall k :: x <= k < bb ==> RegexSpace(s[k]))
  {
    MatchInLayout(s, p, bb);
    NoMatchBeforeBreak(s, n, p, kb, bb);
    x := ParenMatchAt(s, p).value;
  }

  /** Before such a line break Matcher.find skips to the start of the next
      line, where a match begins. */
  lemma NoMatchBeforeBreak(s: string, n: nat, p: nat, kb: nat, bb: nat)
    requires p == n + 1 && BreakBefore(s, n, kb, bb) && ParenMatchAt(s, p).Some?
    ensures FindParen(s, 0) == Some((p, ParenMatchAt(s, p).value))
  {
    forall q | 0 <= q < p ensures ParenMatchAt(s, q).None? {
      BeforeBreakNoMatch(s, n, kb, bb, q);
    }
    FirstSomeAt(ParenMatches(s), 0, p);
  }

  lemma BreakLayout(s: string, a: string, b: string, t: string, p: nat, kb: nat, bb: nat)
    requires TwoLineShape(a, b, t) && 0 <= kb < |b| && !RegexSpace(b[kb])
    requires s == a + "\n" + b + " (" + t + ")" && p == |a| + 1 && bb == p + |b|
    ensures ParenLayout(s, p, bb) && BreakBefore(s, |a|, p + kb, bb)
    ensures s[p..bb] == b && s[bb + 2..|s| - 1] == t
  {
    assert forall k :: 0 <= k < |a| ==> s[k] == a[k];
    assert forall k :: p <= k < bb ==> s[k] == b[k - p];
    assert forall k :: bb + 2 <= k < |s| - 1 ==> s[k] == t[k - bb - 2];
    assert s[p + kb] == b[kb];
    assert s[bb + 2..|s| - 1] == t;
    assert s[p..bb] == b;
  }

  /** No match starts at or before such a line break. */
  lemma BeforeBreakNoMatch(s: string, n: nat, kb: nat, bb: nat, q: nat)
    requires BreakBefore(s, n, kb, bb) && q <= n
    ensures ParenMatchAt(s, q).None?
  {
    if q < n {
      LazyNoneBeforeBreak(s, n, kb, bb, q + 1);
    }
  }

  lemma {:induction false} LazyNoneBeforeBreak(s: string, n: nat, kb: nat, bb: nat, e: nat)
    requires 1 <= e <= n && BreakBefore(s, n, kb, bb)
    ensures LazyParen(s, e).None?
    decreases n - e
  {
    var w := RunEnd(s, e, Space);
    assert !InClass(s[kb], Space);
    assert w <= kb;
    assert ParenTail(s, e).None?;
    if e < n {
      LazyNoneBeforeBreak(s, n, kb, bb, e + 1);
    }
  }

  // ---------------------------------------------------------------------------
  // The endpoints

  /** An endpoint's answer: 400 with its error text, or 200 with a body. */
  datatype Reply<T> = BadRequest(error: string) | Ok(body: T)

  /** The body of POST /generate-sentences. */
  datatype GeneratedSentences = GeneratedSentences(sentences: seq<string>, count: int)

  /** POST /generate-sentences: a missing or blank word is refused; otherwise
      the trimmed word goes to the language model (`generate`) and its reply is
      parsed into sentences, each non-empty and trimmed, with their count. */
  method GenerateSentences(word: Option<string>, generate: string -> string) returns (r: Reply<GeneratedSentences>)
    ensures r.BadRequest? <==> word.None? || TrimsToEmpty(word.value)
    ensures r.BadRequest? ==> r.error == "Please provide a word"
    ensures r.Ok? ==> r.body.sentences == Sentences(generate(Trim(word.value)))
    ensures r.Ok? ==> r.body.count == |r.body.sentences|
    ensures r.Ok? ==> forall i :: 0 <= i < |r.body.sentences| ==> r.body.sentences[i] != [] && IsTrimmed(r.body.sentences[i])
  {
    var w := RequiredText(word);
    if w.None? {
      return BadRequest("Please provide a word");
    }
    var reply := generate(w.value);
    var sentences := ParseSentences(reply);
    forall i | 0 <= i < |sentences| ensures sentences[i] != [] && IsTrimmed(sentences[i]) {
      SentencesAreTrimmed(reply, i);
      TrimIdempotent(sentences[i]);
    }
    r := Ok(GeneratedSentences(sentences, |sentences|));
  }

  const ENGLISH_LABEL := "English sentence: "
  const TRANSLATION_LABEL := ". User's Turkish translation: "
  const CHECK_INSTRUCTION := ". Check if the translation is correct. Return ONLY a JSON object with isCorrect, correctTranslation, and feedback fields."

  /** The one message check-translation sends: both texts, untrimmed, between
      the fixed labels, then the instruction. */
  function CombinedMessage(english: string, translation: string): (m: string)
    ensures StartsWith(m, ENGLISH_LABEL)
    ensures OccursAt(m, english, |ENGLISH_LABEL|)
    ensures OccursAt(m, TRANSLATION_LABEL, |ENGLISH_LABEL| + |english|)
    ensures OccursAt(m, translation, |ENGLISH_LABEL| + |english| + |TRANSLATION_LABEL|)
    ensures m[|ENGLISH_LABEL| + |english| + |TRANSLATION_LABEL| + |translation|..] == CHECK_INSTRUCTION
  {
    var m := ENGLISH_LABEL + english + TRANSLATION_LABEL + translation + CHECK_INSTRUCTION;
    var a := |ENGLISH_LABEL|;
    var b := a + |english|;
    var c := b + |TRANSLATION_LABEL|;
    var d := c + |translation|;
    assert m[..a] == ENGLISH_LABEL;
    assert m[a..b] == english;
    assert m[b..c] == TRANSLATION_LABEL;
    assert m[c..d] == translation;
    assert m[d..] == CHECK_INSTRUCTION;
    m
  }

  /** POST /check-translation: both texts must be present (blank ones are
      accepted); the model's reply (`check`, None for a null reply) is read as
      a verdict; `npeMessage` is the message of the exception a null reply raises. */
  function CheckTranslation(english: Option<string>, translation: Option<string>, check: string -> Option<string>,
                            npeMessage: string): (r: Reply<TranslationCheck>)
    ensures r.BadRequest? <==> english.None? || translation.None?
    ensures r.BadRequest? ==> r.error == "Please provide both English sentence and translation"
    ensures r.Ok? ==> r.body == CheckReply(check(CombinedMessage(english.value, translation.value)), npeMessage)
  {
    if english.None? || translation.None? then BadRequest("Please provide both English sentence and translation")
    else Ok(CheckReply(check(CombinedMessage(english.value, translation.value)), npeMessage))
  }

  /** The body of POST /chat. */
  datatype ChatAnswer = ChatAnswer(response: string, timestamp: int)

  /** POST /chat: a missing or blank message is refused; otherwise the model
      (`chat`) answers the trimmed message, stamped with the time `now`. */
  function Chat(message: Option<string>, chat: string -> string, now: int): (r: Reply<ChatAnswer>)
    ensures r.BadRequest? <==> message.None? || TrimsToEmpty(message.value)
    ensures r.BadRequest? ==> r.error == "Please provide a message"
    ensures r.Ok? ==> r.body.response == chat(Trim(message.value)) && r.body.timestamp == now
  {
    match RequiredText(message)
    case None => BadRequest("Please provide a message")
    case Some(m) => Ok(ChatAnswer(chat(m), now))
  }

  // ---------------------------------------------------------------------------
  // Saving a generated word

  const SAVED_MESSAGE := "Kelime ve c\U{00FC}mleler bug\U{00FC}nk\U{00FC} tarihe ba\U{015F}ar\U{0131}yla eklendi."
  const MEANING_SEPARATOR := ", "

  /** A sentence as save-to-today stores it. */
  datatype SavedSentence = SavedSentence(sentence: string, translation: string, difficulty: string)

  /** The word as save-to-today stores it; `learnedDate` is a day number. */
  datatype SavedWord = SavedWord(englishWord: string, turkishMeaning: string, learnedDate: int,
                                 difficulty: string, sentences: seq<SavedSentence>)

  datatype SaveAnswer = SaveAnswer(success: bool, word: SavedWord, message: string)

  /** A missing list in the request is an empty one. */
  function OrEmpty(xs: Option<seq<string>>): seq<string> {
    if xs.None? then [] else xs.value
  }

  /** The Turkish meaning: the meanings joined with ", ", or "" for none. */
  function MeaningText(meanings: seq<string>): string {
    if meanings == [] then "" else JoinStrings(MEANING_SEPARATOR, meanings)
  }

  /** Every meaning appears, in order, at its place in the joined text, each
      but the last followed by ", "; no meanings give "". */
  lemma MeaningTextPlacesEach(meanings: seq<string>, i: nat)
    requires i < |meanings|
    ensures MeaningText([]) == []
    ensures OccursAt(MeaningText(meanings), meanings[i], JoinOffset(MEANING_SEPARATOR, meanings, i))
    ensures i + 1 < |meanings| ==>
      OccursAt(MeaningText(meanings), MEANING_SEPARATOR, JoinOffset(MEANING_SEPARATOR, meanings, i) + |meanings[i]|)
  {
    JoinPlacesEach(MEANING_SEPARATOR, meanings, i);
  }

  /** One sentence of the request: split at its trailing parenthesis, at
      difficulty "medium". */
  function SavedFrom(text: string): SavedSentence {
    var (english, turkish) := SplitSentence(text);
    SavedSentence(english, turkish, "medium")
  }

  /** The request's sentence loop: one entry per sentence, in order, each
      built by `split`. */
  method SplitEach<T>(given: seq<string>, split: string -> T) returns (saved: seq<T>)
    ensures |saved| == |given|
    ensures forall i :: 0 <= i < |given| ==> saved[i] == split(given[i])
  {
    saved := [];
    for k := 0 to |given|
      invariant |saved| == k
      invariant forall i :: 0 <= i < k ==> saved[i] == split(given[i])
    {
      saved := saved + [split(given[k])];
    }
  }

  /** POST /save-to-today: a missing or blank English word is refused;
      otherwise the trimmed word is stored for `today` with its joined
      meanings, at difficulty "medium", with one sentence per request
      sentence, in order. */
  method SaveToToday(englishWord: Option<string>, meanings: Option<seq<string>>, sentences: Option<seq<string>>, today: int)
    returns (r: Reply<SaveAnswer>)
    ensures r.BadRequest? <==> englishWord.None? || TrimsToEmpty(englishWord.value)
    ensures r.BadRequest? ==> r.error == "English word is required"
    ensures r.Ok? ==> r.body.success && r.body.message == SAVED_MESSAGE
    ensures r.Ok? ==> r.body.word.englishWord == Trim(englishWord.value) && r.body.word.englishWord != []
    ensures r.Ok? ==> r.body.word.turkishMeaning == MeaningText(OrEmpty(meanings))
    ensures r.Ok? ==> r.body.word.learnedDate == today && r.body.word.difficulty == "medium"
    ensures r.Ok? ==> |r.body.word.sentences| == |OrEmpty(sentences)|
    ensures r.Ok? ==> forall i :: 0 <= i < |OrEmpty(sentences)| ==> r.body.word.sentences[i] == SavedFrom(OrEmpty(sentences)[i])
  {
    var given := OrEmpty(sentences);
    var w := RequiredText(englishWord);
    if w.None? {
      return BadRequest("English word is required");
    }
    var saved := SplitEach(given, SavedFrom);
    var word := SavedWord(w.value, MeaningText(OrEmpty(meanings)), today, "medium", saved);
    r := Ok(SaveAnswer(true, word, SAVED_MESSAGE));
  }
}
