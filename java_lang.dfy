/** The parts of java.lang (String, Long, Character and integer arithmetic)
    that the modelled code relies on, written out over `string` (`seq<char>`)
    and unbounded `int`. Case mapping is ASCII only. */
module JavaLang {

  datatype Option<T> = None | Some(value: T)

  /** Map.get: the value stored under `k`, or None where Java returns null. */
  function Get<K, V>(m: map<K, V>, k: K): (r: Option<V>)
    ensures r.Some? <==> k in m
    ensures r.Some? ==> r.value == m[k]
  {
    if k in m then Some(m[k]) else None
  }

  const LONG_MIN: int := -0x8000_0000_0000_0000
  const LONG_MAX: int := 0x7FFF_FFFF_FFFF_FFFF

  // ---------------------------------------------------------------------------
  // Integer arithmetic

  const INT_MIN: int := -0x8000_0000
  const INT_MAX: int := 0x7FFF_FFFF

  /** Java's `/` on integers, which rounds toward zero (Dafny's rounds down). */
  function JavaDiv(a: int, b: int): (r: int)
    requires b > 0
    ensures a >= 0 ==> r == a / b
    ensures a < 0 ==> r == -((-a) / b)
  {
    if a >= 0 then a / b else -((-a) / b)
  }

  /** The 32-bit two's-complement value of `x`, as Java's `int` addition wraps. */
  function Wrap32(x: int): (r: int)
    ensures INT_MIN <= r <= INT_MAX
    ensures INT_MIN <= x <= INT_MAX ==> r == x
    ensures (r - x) % 0x1_0000_0000 == 0
  {
    (x - INT_MIN) % 0x1_0000_0000 + INT_MIN
  }

  // ---------------------------------------------------------------------------
  // Prefixes and search

  /** String.startsWith */
  predicate StartsWith(s: string, p: string) {
    |p| <= |s| && s[..|p|] == p
  }

  /** `t` occurs in `s` starting at index `i`. */
  predicate OccursAt(s: string, t: string, i: int) {
    0 <= i <= |s| - |t| && s[i..i + |t|] == t
  }

  /** String.contains */
  predicate Contains(s: string, t: string) {
    exists i | 0 <= i <= |s| - |t| :: OccursAt(s, t, i)
  }

  /** String.indexOf(char): the first index of `c`, or -1 */
  function IndexOf(s: string, c: char): (r: int)
    ensures -1 <= r < |s|
    ensures r == -1 <==> c !in s
    ensures r >= 0 ==> s[r] == c && c !in s[..r]
  {
    if s == [] then -1
    else if s[0] == c then 0
    else
      var k := IndexOf(s[1..], c);
      assert s[1..][..if k < 0 then 0 else k] == s[1..if k < 0 then 1 else k + 1];
      if k < 0 then -1 else k + 1
  }

  /** String.lastIndexOf(char): the last index of `c`, or -1 */
  function LastIndexOf(s: string, c: char): (r: int)
    ensures -1 <= r < |s|
    ensures r == -1 <==> c !in s
    ensures r >= 0 ==> s[r] == c && c !in s[r + 1..]
  {
    if s == [] then -1
    else if s[|s| - 1] == c then |s| - 1
    else
      var k := LastIndexOf(s[..|s| - 1], c);
      LastIndexOfStep(s, c, k);
      k
  }

  /** The step of LastIndexOf past a last character that is not `c`. */
  lemma LastIndexOfStep(s: string, c: char, k: int)
    requires s != [] && s[|s| - 1] != c && -1 <= k < |s| - 1
    requires k == -1 <==> c !in s[..|s| - 1]
    requires k >= 0 ==> s[k] == c && c !in s[..|s| - 1][k + 1..]
    ensures k == -1 <==> c !in s
    ensures k >= 0 ==> c !in s[k + 1..]
  {
    var front := s[..|s| - 1];
    assert s == front + [s[|s| - 1]];
    if k >= 0 {
      assert s[k + 1..] == front[k + 1..] + [s[|s| - 1]];
    }
  }

  /** No occurrence comes before the first. */
  lemma {:induction false} IndexOfLeast(s: string, c: char, i: int)
    requires 0 <= i < |s| && s[i] == c
    ensures 0 <= IndexOf(s, c) <= i
  {
    if s[0] != c {
      IndexOfLeast(s[1..], c, i - 1);
    }
  }

  /** No occurrence comes after the last. */
  lemma {:induction false} LastIndexOfGreatest(s: string, c: char, j: int)
    requires 0 <= j < |s| && s[j] == c
    ensures j <= LastIndexOf(s, c)
  {
    if s[|s| - 1] != c {
      LastIndexOfGreatest(s[..|s| - 1], c, j);
    }
  }

  // ---------------------------------------------------------------------------
  // Whitespace, trimming and blankness

  /** The characters String.trim removes: every code point up to U+0020. */
  predicate TrimSpace(c: char) {
    c <= ' '
  }

  /** Character.isWhitespace, which String.isBlank uses. */
  predicate JavaWhitespace(c: char) {
    c == ' ' || c == '\t' || c == '\n' || c == '\U{000B}' || c == '\U{000C}' || c == '\r'
    || ('\U{001C}' <= c <= '\U{001F}')
    || c == '\U{1680}' || ('\U{2000}' <= c <= '\U{2006}') || ('\U{2008}' <= c <= '\U{200A}')
    || c == '\U{2028}' || c == '\U{2029}' || c == '\U{205F}' || c == '\U{3000}'
  }

  /** The regular-expression class \s (without UNICODE_CHARACTER_CLASS): [ \t\n\x0B\f\r] */
  predicate RegexSpace(c: char) {
    c == ' ' || c == '\t' || c == '\n' || c == '\U{000B}' || c == '\U{000C}' || c == '\r'
  }

  /** The line terminators that `.` does not match and before which `$` may match. */
  predicate LineTerminator(c: char) {
    c == '\n' || c == '\r' || c == '\U{0085}' || c == '\U{2028}' || c == '\U{2029}'
  }

  function TrimStart(s: string): (r: string)
    ensures |r| <= |s| && r == s[|s| - |r|..]
    ensures r != [] ==> !TrimSpace(r[0])
    ensures forall i :: 0 <= i < |s| - |r| ==> TrimSpace(s[i])
  {
    if s != [] && TrimSpace(s[0]) then TrimStart(s[1..]) else s
  }

  function TrimEnd(s: string): (r: string)
    ensures |r| <= |s| && r == s[..|r|]
    ensures r != [] ==> !TrimSpace(r[|r| - 1])
    ensures forall i :: |r| <= i < |s| ==> TrimSpace(s[i])
  {
    if s != [] && TrimSpace(s[|s| - 1]) then TrimEnd(s[..|s| - 1]) else s
  }

  /** A string String.trim leaves as it is. */
  predicate IsTrimmed(s: string) {
    s == [] || (!TrimSpace(s[0]) && !TrimSpace(s[|s| - 1]))
  }

  /** String.trim: the longest substring that neither starts nor ends with a
      character up to U+0020. */
  function Trim(s: string): (r: string)
    ensures IsTrimmed(r)
  {
    var a := TrimStart(s);
    var r := TrimEnd(a);
    assert r != [] ==> r[0] == a[0] == s[|s| - |a|];
    r
  }

  /** String.trim gives "" exactly when every character is at most ' '. */
  lemma TrimEmptyIff(s: string)
    ensures Trim(s) == [] <==> forall i :: 0 <= i < |s| ==> TrimSpace(s[i])
  {
    var a := TrimStart(s);
    assert TrimEnd(a) == [] ==> a == [];
  }

  /** Trimming is idempotent: the result of String.trim is left unchanged by it. */
  lemma TrimIdempotent(s: string)
    ensures Trim(Trim(s)) == Trim(s)
  {
    TrimmedFixed(Trim(s));
  }

  lemma TrimmedFixed(s: string)
    requires IsTrimmed(s)
    ensures Trim(s) == s
  {
  }

  /** Dropping trailing characters up to U+0020 does not change the trimmed string. */
  lemma TrimDropsTrailingSpace(a: string, w: string)
    requires forall i :: 0 <= i < |w| ==> TrimSpace(w[i])
    ensures Trim(a + w) == Trim(a)
  {
    if forall i :: 0 <= i < |a| ==> TrimSpace(a[i]) {
      assert forall i :: 0 <= i < |a + w| ==> TrimSpace((a + w)[i]);
    } else {
      var k :| 0 <= k < |a| && !TrimSpace(a[k]);
      TrimStartAppend(a, w, k);
      TrimEndSpaces(TrimStart(a), w);
    }
  }

  lemma {:induction false} TrimEndSpaces(x: string, w: string)
    requires forall i :: 0 <= i < |w| ==> TrimSpace(w[i])
    ensures TrimEnd(x + w) == TrimEnd(x)
    decreases |w|
  {
    if w == [] {
      assert x + w == x;
    } else {
      var w' := w[..|w| - 1];
      assert (x + w)[..|x + w| - 1] == x + w';
      TrimEndSpaces(x, w');
    }
  }

  lemma TrimStartAppend(a: string, b: string, k: int)
    requires 0 <= k < |a| && !TrimSpace(a[k])
    ensures TrimStart(a + b) == TrimStart(a) + b
    decreases |a|
  {
    if TrimSpace(a[0]) {
      assert (a + b)[1..] == a[1..] + b;
      TrimStartAppend(a[1..], b, k - 1);
    }
  }

  /** String.isBlank: every code point is whitespace (so "" is blank). */
  predicate IsBlank(s: string) {
    forall i :: 0 <= i < |s| ==> JavaWhitespace(s[i])
  }

  /** `s.trim().isEmpty()` */
  predicate TrimsToEmpty(s: string) {
    Trim(s) == []
  }

  /** The `x == null || x.trim().isEmpty()` guard: the trimmed text, when
      there is any. */
  function RequiredText(x: Option<string>): (r: Option<string>)
    ensures r.None? <==> x.None? || TrimsToEmpty(x.value)
    ensures r.Some? ==> r.value != [] && IsTrimmed(r.value) && r.value == Trim(x.value)
  {
    if x.None? || TrimsToEmpty(x.value) then None else Some(Trim(x.value))
  }

  // ---------------------------------------------------------------------------
  // Case mapping (ASCII letters only)

  predicate IsUpperAscii(c: char) { 'A' <= c <= 'Z' }

  function LowerChar(c: char): (r: char)
    ensures !IsUpperAscii(r)
    ensures !IsUpperAscii(c) ==> r == c
  {
    if IsUpperAscii(c) then (c as int + 32) as char else c
  }

  function UpperChar(c: char): (r: char)
    ensures !('a' <= r <= 'z')
    ensures !('a' <= c <= 'z') ==> r == c
  {
    if 'a' <= c <= 'z' then (c as int - 32) as char else c
  }

  /** String.toLowerCase restricted to ASCII: no upper-case ASCII letter survives. */
  function ToLower(s: string): (r: string)
    ensures |r| == |s| && forall i :: 0 <= i < |s| ==> r[i] == LowerChar(s[i])
  {
    seq(|s|, i requires 0 <= i < |s| => LowerChar(s[i]))
  }

  function ToUpper(s: string): (r: string)
    ensures |r| == |s| && forall i :: 0 <= i < |s| ==> r[i] == UpperChar(s[i])
  {
    seq(|s|, i requires 0 <= i < |s| => UpperChar(s[i]))
  }

  /** A lower-cased string never contains a pattern that has an upper-case letter. */
  lemma LowerNeverContainsUpper(s: string, t: string, k: int)
    requires 0 <= k < |t| && IsUpperAscii(t[k])
    ensures !Contains(ToLower(s), t)
  {
    var l := ToLower(s);
    forall i | 0 <= i <= |l| - |t| ensures !OccursAt(l, t, i) {
      assert l[i..i + |t|][k] == LowerChar(s[i + k]);
    }
  }

  // ---------------------------------------------------------------------------
  // Replacement, joining and splitting

  /** String.replace / replaceAll with a pattern free of metacharacters: every
      non-overlapping occurrence, left to right, is replaced. */
  function ReplaceAll(s: string, pat: string, rep: string): (r: string)
    requires pat != []
    ensures |rep| <= |pat| ==> |r| <= |s|
    decreases |s|
  {
    if |s| < |pat| then s
    else if s[..|pat|] == pat then rep + ReplaceAll(s[|pat|..], pat, rep)
    else [s[0]] + ReplaceAll(s[1..], pat, rep)
  }

  /** Removing every occurrence of a pattern from a string without it changes nothing. */
  lemma {:induction false} ReplaceAllAbsent(s: string, pat: string, rep: string)
    requires pat != [] && !Contains(s, pat)
    ensures ReplaceAll(s, pat, rep) == s
    decreases |s|
  {
    if |s| >= |pat| {
      assert !OccursAt(s, pat, 0);
      forall i | 0 <= i <= |s[1..]| - |pat| ensures !OccursAt(s[1..], pat, i) {
        assert s[1..][i..i + |pat|] == s[i + 1..i + 1 + |pat|];
        assert !OccursAt(s, pat, i + 1);
      }
      ReplaceAllAbsent(s[1..], pat, rep);
      assert s == [s[0]] + s[1..];
    }
  }

  /** A text that does not start with the pattern keeps its first character. */
  lemma ReplaceAllKeepsHead(s: string, pat: string, rep: string)
    requires pat != [] && s != [] && !StartsWith(s, pat)
    ensures ReplaceAll(s, pat, rep) == [s[0]] + ReplaceAll(s[1..], pat, rep)
  {
    if |s| < |pat| {
      assert ReplaceAll(s[1..], pat, rep) == s[1..];
      assert s == [s[0]] + s[1..];
    }
  }

  /** A shorter replacement shrinks every text the pattern occurs in: at
      least one occurrence is replaced. */
  lemma {:induction false} ReplaceAllShrinks(s: string, pat: string, rep: string)
    requires pat != [] && |rep| < |pat| && Contains(s, pat)
    ensures |ReplaceAll(s, pat, rep)| < |s|
    decreases |s|
  {
    if s[..|pat|] != pat {
      var i :| 0 <= i <= |s| - |pat| && OccursAt(s, pat, i);
      assert i > 0;
      assert s[1..][i - 1..i - 1 + |pat|] == s[i..i + |pat|];
      assert OccursAt(s[1..], pat, i - 1);
      ReplaceAllShrinks(s[1..], pat, rep);
    }
  }

  /** An occurrence after the first character is an occurrence in the rest. */
  lemma NotContainsCons(ch: char, t: string, pat: string)
    requires !Contains(t, pat) && !OccursAt([ch] + t, pat, 0)
    ensures !Contains([ch] + t, pat)
  {
    var s := [ch] + t;
    forall i | 1 <= i <= |s| - |pat| ensures !OccursAt(s, pat, i) {
      assert s[i..i + |pat|] == t[i - 1..i - 1 + |pat|];
      assert !OccursAt(t, pat, i - 1);
    }
  }

  /** Removing every "```" leaves none behind: a backtick that starts no
      match is followed by at most one more before some other character. */
  lemma {:induction false} ReplaceAllFenceFree(s: string)
    ensures !Contains(ReplaceAll(s, "```", ""), "```")
    decreases |s|
  {
    var f := "```";
    var r := ReplaceAll(s, f, "");
    if |s| >= 3 {
      if s[..3] == f {
        ReplaceAllFenceFree(s[3..]);
        assert r == ReplaceAll(s[3..], f, "");
      } else {
        var tail := ReplaceAll(s[1..], f, "");
        ReplaceAllFenceFree(s[1..]);
        assert r == [s[0]] + tail;
        if s[0] == '`' && s[1] == '`' {
          assert s[2] != '`';
          ReplaceAllKeepsHead(s[1..], f, "");
          ReplaceAllKeepsHead(s[2..], f, "");
          assert s[1..][1..] == s[2..];
          assert r[2] == s[2];
        } else if s[0] == '`' {
          ReplaceAllKeepsHead(s[1..], f, "");
          assert r[1] == s[1];
        }
        assert !OccursAt(r, f, 0);
        NotContainsCons(s[0], tail, f);
      }
    }
  }

  /** String.join */
  function JoinStrings(sep: string, xs: seq<string>): (r: string)
    ensures xs == [] ==> r == []
    ensures |xs| == 1 ==> r == xs[0]
    ensures |xs| >= 1 ==> StartsWith(r, xs[0])
  {
    if xs == [] then ""
    else if |xs| == 1 then xs[0]
    else
      var rest := JoinStrings(sep, xs[1..]);
      assert (xs[0] + sep + rest)[..|xs[0]|] == xs[0];
      xs[0] + sep + rest
  }

  /** Where String.join places the `i`-th element: after the earlier
      elements, each followed by the separator. */
  function JoinOffset(sep: string, xs: seq<string>, i: nat): nat
    requires i <= |xs|
  {
    if i == 0 then 0 else |xs[0]| + |sep| + JoinOffset(sep, xs[1..], i - 1)
  }

  /** An occurrence in a suffix is an occurrence in the whole string. */
  lemma OccursShift(s: string, h: nat, t: string, o: nat)
    requires h <= |s| && OccursAt(s[h..], t, o)
    ensures OccursAt(s, t, h + o)
  {
    assert s[h..][o..o + |t|] == s[h + o..h + o + |t|];
  }

  /** A join of two or more: the head, the separator, then the join of the rest. */
  lemma JoinHead(sep: string, xs: seq<string>)
    requires |xs| > 1
    ensures OccursAt(JoinStrings(sep, xs), xs[0], 0)
    ensures OccursAt(JoinStrings(sep, xs), sep, |xs[0]|)
    ensures JoinStrings(sep, xs)[|xs[0]| + |sep|..] == JoinStrings(sep, xs[1..])
  {
    var j := JoinStrings(sep, xs);
    assert j == xs[0] + sep + JoinStrings(sep, xs[1..]);
    assert j[|xs[0]|..|xs[0]| + |sep|] == sep;
  }

  /** String.join writes every element at its offset, and the separator right
      after every element but the last. */
  lemma {:induction false} JoinPlacesEach(sep: string, xs: seq<string>, i: nat)
    requires i < |xs|
    ensures OccursAt(JoinStrings(sep, xs), xs[i], JoinOffset(sep, xs, i))
    ensures i + 1 < |xs| ==> OccursAt(JoinStrings(sep, xs), sep, JoinOffset(sep, xs, i) + |xs[i]|)
  {
    if |xs| > 1 {
      JoinHead(sep, xs);
      if i > 0 {
        JoinPlacesEach(sep, xs[1..], i - 1);
        var h := |xs[0]| + |sep|;
        var o := JoinOffset(sep, xs[1..], i - 1);
        assert xs[1..][i - 1] == xs[i];
        OccursShift(JoinStrings(sep, xs), h, xs[i], o);
        if i + 1 < |xs| {
          OccursShift(JoinStrings(sep, xs), h, sep, o + |xs[i]|);
        }
      }
    }
  }

  /** Splitting at every `c`: one more piece than there are separators. */
  function SplitAll(s: string, c: char): (r: seq<string>)
    ensures |r| >= 1
    ensures forall i :: 0 <= i < |r| ==> c !in r[i]
    decreases |s|
  {
    var k := IndexOf(s, c);
    if k < 0 then [s] else [s[..k]] + SplitAll(s[k + 1..], c)
  }

  function DropTrailingEmpty(xs: seq<string>): (r: seq<string>)
    ensures |r| <= |xs| && r == xs[..|r|]
    ensures forall i :: |r| <= i < |xs| ==> xs[i] == []
    ensures r != [] ==> r[|r| - 1] != []
  {
    if xs != [] && xs[|xs| - 1] == [] then DropTrailingEmpty(xs[..|xs| - 1]) else xs
  }

  /** String.split with a one-character, non-metacharacter regex: when `c`
      does not occur the result is the whole string, otherwise the pieces
      without the trailing empty ones. */
  function Split(s: string, c: char): (r: seq<string>)
    ensures forall i :: 0 <= i < |r| ==> c !in r[i]
  {
    if c !in s then [s] else DropTrailingEmpty(SplitAll(s, c))
  }

  /** Joining the pieces of a split at every `c` with `c` gives the string back. */
  lemma {:induction false} SplitAllJoin(s: string, c: char)
    ensures JoinStrings([c], SplitAll(s, c)) == s
    decreases |s|
  {
    var k := IndexOf(s, c);
    if k >= 0 {
      var rest := SplitAll(s[k + 1..], c);
      SplitAllJoin(s[k + 1..], c);
      var xs := [s[..k]] + rest;
      assert xs[1..] == rest;
      assert JoinStrings([c], xs) == s[..k] + [c] + s[k + 1..];
      assert s == s[..k] + [c] + s[k + 1..];
    }
  }

  /** Dropping one trailing empty piece drops one trailing separator from the join. */
  lemma {:induction false} JoinDropLast(c: char, xs: seq<string>)
    requires |xs| >= 2 && xs[|xs| - 1] == []
    ensures JoinStrings([c], xs) == JoinStrings([c], xs[..|xs| - 1]) + [c]
  {
    var front := xs[..|xs| - 1];
    if |xs| > 2 {
      assert xs[1..][|xs| - 2] == [];
      JoinDropLast(c, xs[1..]);
      assert xs[1..][..|xs| - 2] == front[1..];
      assert front[0] == xs[0];
    } else {
      assert front == [xs[0]];
    }
  }

  /** The join of the pieces DropTrailingEmpty keeps is the join of all the
      pieces less a run of trailing separators. */
  lemma {:induction false} DropTrailingJoin(c: char, xs: seq<string>)
    ensures var j := JoinStrings([c], DropTrailingEmpty(xs)); var all := JoinStrings([c], xs);
      |j| <= |all| && all[..|j|] == j && forall k :: |j| <= k < |all| ==> all[k] == c
    decreases |xs|
  {
    if xs != [] && xs[|xs| - 1] == [] {
      var front := xs[..|xs| - 1];
      DropTrailingJoin(c, front);
      if |xs| >= 2 {
        JoinDropLast(c, xs);
      }
    }
  }

  /** String.split keeps everything but the trailing separators: joining its
      pieces with the separator gives a prefix of the string that does not
      end in a separator, and what follows that prefix is nothing but
      separators: the prefix is the string less all of its trailing
      separators. */
  lemma SplitJoin(s: string, c: char)
    ensures var j := JoinStrings([c], Split(s, c));
      |j| <= |s| && s[..|j|] == j && forall k :: |j| <= k < |s| ==> s[k] == c
    ensures var j := JoinStrings([c], Split(s, c)); j == [] || j[|j| - 1] != c
  {
    if c in s {
      SplitAllJoin(s, c);
      var r := DropTrailingEmpty(SplitAll(s, c));
      DropTrailingJoin(c, SplitAll(s, c));
      if r != [] {
        JoinLast([c], r);
        assert c !in r[|r| - 1];
      }
    }
  }

  /** A join ends with its last element. */
  lemma {:induction false} JoinLast(sep: string, xs: seq<string>)
    requires xs != []
    ensures var j := JoinStrings(sep, xs); var z := xs[|xs| - 1];
      |z| <= |j| && j[|j| - |z|..] == z
  {
    if |xs| > 1 {
      JoinLast(sep, xs[1..]);
      var rest := JoinStrings(sep, xs[1..]);
      assert JoinStrings(sep, xs) == xs[0] + sep + rest;
      assert xs[1..][|xs| - 2] == xs[|xs| - 1];
    }
  }

  // ---------------------------------------------------------------------------
  // Long.toString and Long.parseLong

  /** An ASCII digit, the class `\d` of java.util.regex. */
  predicate IsDigit(c: char) { '0' <= c <= '9' }

  predicate AllDigits(s: string) {
    forall i :: 0 <= i < |s| ==> IsDigit(s[i])
  }

  function DigitChar(d: nat): (c: char)
    requires d < 10
    ensures IsDigit(c) && c as int - '0' as int == d
  {
    ('0' as int + d) as char
  }

  /** The digit zeros of the Basic Multilingual Plane: each starts a run of
      ten code points of Unicode category Nd (decimal digit). The BMP has had
      no other decimal digits since Unicode 7.0. */
  const DIGIT_ZEROS: seq<int> := [
    0x0030, 0x0660, 0x06F0, 0x07C0, 0x0966, 0x09E6, 0x0A66, 0x0AE6, 0x0B66, 0x0BE6,
    0x0C66, 0x0CE6, 0x0D66, 0x0DE6, 0x0E50, 0x0ED0, 0x0F20, 0x1040, 0x1090, 0x17E0,
    0x1810, 0x1946, 0x19D0, 0x1A80, 0x1A90, 0x1B50, 0x1BB0, 0x1C40, 0x1C50, 0xA620,
    0xA8D0, 0xA900, 0xA9D0, 0xA9F0, 0xAA50, 0xABF0, 0xFF10]

  /** The value of code point `v` in the first run from index `k` on that holds it, or -1. */
  function DigitFrom(v: int, k: nat): (d: int)
    requires k <= |DIGIT_ZEROS|
    ensures -1 <= d <= 9
    decreases |DIGIT_ZEROS| - k
  {
    if k == |DIGIT_ZEROS| then -1
    else if DIGIT_ZEROS[k] <= v < DIGIT_ZEROS[k] + 10 then v - DIGIT_ZEROS[k]
    else DigitFrom(v, k + 1)
  }

  /** DigitFrom finds a value exactly when a run from `k` on holds `v`, and the
      value is the offset into that run. */
  lemma {:induction false} DigitFromRuns(v: int, k: nat)
    requires k <= |DIGIT_ZEROS|
    ensures DigitFrom(v, k) >= 0 <==> exists j :: k <= j < |DIGIT_ZEROS| && DIGIT_ZEROS[j] <= v < DIGIT_ZEROS[j] + 10
    ensures DigitFrom(v, k) >= 0 ==> exists j :: k <= j < |DIGIT_ZEROS| && DigitFrom(v, k) == v - DIGIT_ZEROS[j]
    decreases |DIGIT_ZEROS| - k
  {
    if k < |DIGIT_ZEROS| {
      if DIGIT_ZEROS[k] <= v < DIGIT_ZEROS[k] + 10 {
        assert DigitFrom(v, k) == v - DIGIT_ZEROS[k];
      } else {
        DigitFromRuns(v, k + 1);
      }
    }
  }

  /** Character.digit(c, 10): the decimal value of a Unicode decimal digit
      of the BMP, -1 for every other character. A character outside the BMP
      is a surrogate pair in a Java string, and a surrogate is no digit. */
  function DecimalDigit(c: char): (d: int)
    ensures -1 <= d <= 9
    ensures IsDigit(c) ==> d == c as int - '0' as int
  {
    DigitFrom(c as int, 0)
  }

  /** The characters with a digit value are those of the runs of DIGIT_ZEROS. */
  lemma DecimalDigitRuns(c: char)
    ensures DecimalDigit(c) >= 0 <==> exists j :: 0 <= j < |DIGIT_ZEROS| && DIGIT_ZEROS[j] <= c as int < DIGIT_ZEROS[j] + 10
    ensures DecimalDigit(c) >= 0 ==> exists j :: 0 <= j < |DIGIT_ZEROS| && DecimalDigit(c) == c as int - DIGIT_ZEROS[j]
  {
    DigitFromRuns(c as int, 0);
  }

  /** Below ARABIC-INDIC DIGIT ZERO the decimal digits are the ASCII ones. */
  lemma AsciiDecimalDigit(c: char)
    requires c as int < 0x0660
    ensures DecimalDigit(c) >= 0 <==> IsDigit(c)
  {
    assert forall j :: 1 <= j < |DIGIT_ZEROS| ==> DIGIT_ZEROS[j] >= 0x0660;
    DigitFromRuns(c as int, 1);
  }

  predicate AllDecimal(s: string) {
    forall i :: 0 <= i < |s| ==> DecimalDigit(s[i]) >= 0
  }

  /** The decimal digits of a natural number, without leading zeros. */
  function NatToString(n: nat): (r: string)
    ensures r != [] && AllDigits(r)
  {
    if n < 10 then [DigitChar(n)] else NatToString(n / 10) + [DigitChar(n % 10)]
  }

  /** Long.toString */
  function IntToString(n: int): string {
    if n < 0 then "-" + NatToString(-n) else NatToString(n)
  }

  /** The value of a string of decimal digits, read left to right. */
  function DigitsValue(s: string): nat
    requires AllDecimal(s)
  {
    if s == [] then 0 else DigitsValue(s[..|s| - 1]) * 10 + DecimalDigit(s[|s| - 1])
  }

  /** Long.parseLong(s) (radix 10): an optional sign followed by at least one
      character Character.digit accepts, with a value that fits in 64 bits;
      `None` stands for NumberFormatException. */
  function ParseLong(s: string): (r: Option<int>)
    ensures r.Some? ==> LONG_MIN <= r.value <= LONG_MAX
    ensures s == [] || !(DecimalDigit(s[0]) >= 0 || s[0] == '-' || s[0] == '+') ==> r.None?
  {
    if s == [] then None
    else
      var signed := s[0] == '-' || s[0] == '+';
      var body := if signed then s[1..] else s;
      if body == [] || !AllDecimal(body) then None
      else
        var d: int := DigitsValue(body);
        var v := if s[0] == '-' then -d else d;
        if LONG_MIN <= v <= LONG_MAX then Some(v) else None
  }

  lemma {:induction false} DigitsValueOfNat(n: nat)
    ensures AllDecimal(NatToString(n))
    ensures DigitsValue(NatToString(n)) == n
  {
    var s := NatToString(n);
    assert AllDecimal(s) by {
      forall i | 0 <= i < |s| ensures DecimalDigit(s[i]) >= 0 {
        assert IsDigit(s[i]);
      }
    }
    if n >= 10 {
      assert s[..|s| - 1] == NatToString(n / 10);
      DigitsValueOfNat(n / 10);
    }
  }

  /** Long.parseLong reads back what Long.toString wrote. */
  lemma ParseLongToString(n: int)
    requires LONG_MIN <= n <= LONG_MAX
    ensures ParseLong(IntToString(n)) == Some(n)
  {
    var m: nat := if n < 0 then -n else n;
    var digits := NatToString(m);
    DigitsValueOfNat(m);
    var s := IntToString(n);
    if n < 0 {
      assert s == "-" + digits;
      assert s[0] == '-' && s[1..] == digits;
    } else {
      assert s == digits && IsDigit(s[0]);
    }
  }

  /** ARABIC-INDIC DIGIT THREE is a digit of value 3. */
  lemma ArabicIndicThree()
    ensures DecimalDigit('\U{0663}') == 3
  {
    assert DIGIT_ZEROS[0] == 0x0030 && DIGIT_ZEROS[1] == 0x0660;
    assert DigitFrom(0x0663, 1) == 3;
  }

  /** Digits of other scripts count too: ARABIC-INDIC DIGIT THREE parses to 3,
      after an optional sign. */
  lemma ParseLongArabicIndic(s: string)
    requires s == "\U{0663}" || s == "-\U{0663}"
    ensures ParseLong(s) == Some(if s[0] == '-' then -3 else 3)
  {
    ArabicIndicThree();
    var body := if s[0] == '-' then s[1..] else s;
    assert body == "\U{0663}";
    assert AllDecimal(body);
    assert body[..|body| - 1] == [];
    assert DigitsValue(body) == 3;
  }

  // ---------------------------------------------------------------------------
  // String.compareTo (by UTF-16 code unit)

  /** The UTF-16 code units Java stores for one character: itself inside the
      BMP, a high and a low surrogate outside it. */
  function Utf16Units(c: char): (r: seq<int>)
    ensures |r| == (if c as int > 0xFFFF then 2 else 1)
  {
    if c as int <= 0xFFFF then [c as int]
    else [0xD800 + (c as int - 0x10000) / 0x400, 0xDC00 + (c as int - 0x10000) % 0x400]
  }

  /** The UTF-16 encoding of a string. */
  function Utf16(s: string): seq<int> {
    if s == [] then [] else Utf16Units(s[0]) + Utf16(s[1..])
  }

  /** Lexicographic order on code-unit sequences, a prefix first. */
  predicate UnitsLessEq(a: seq<int>, b: seq<int>) {
    if a == [] then true
    else if b == [] then false
    else if a[0] != b[0] then a[0] < b[0]
    else UnitsLessEq(a[1..], b[1..])
  }

  /** `a.compareTo(b) <= 0`: compareTo compares the UTF-16 code units. */
  predicate LessEq(a: string, b: string) {
    UnitsLessEq(Utf16(a), Utf16(b))
  }

  lemma {:induction false} UnitsLessEqTotal(a: seq<int>, b: seq<int>)
    ensures UnitsLessEq(a, b) || UnitsLessEq(b, a)
  {
    if a != [] && b != [] && a[0] == b[0] {
      UnitsLessEqTotal(a[1..], b[1..]);
    }
  }

  lemma {:induction false} UnitsLessEqAntisymmetric(a: seq<int>, b: seq<int>)
    requires UnitsLessEq(a, b) && UnitsLessEq(b, a)
    ensures a == b
  {
    if a != [] && b != [] {
      UnitsLessEqAntisymmetric(a[1..], b[1..]);
      assert a == [a[0]] + a[1..];
      assert b == [b[0]] + b[1..];
    }
  }

  /** The code units of one character determine it, and what follows. */
  lemma Utf16UnitsPrefix(c: char, d: char, x: seq<int>, y: seq<int>)
    requires Utf16Units(c) + x == Utf16Units(d) + y
    ensures c == d && x == y
  {
    var u, w := Utf16Units(c) + x, Utf16Units(d) + y;
    assert u[0] == w[0];
    if c as int <= 0xFFFF && d as int <= 0xFFFF {
      assert x == u[1..] && y == w[1..];
    } else if c as int > 0xFFFF && d as int > 0xFFFF {
      assert u[1] == w[1];
      assert x == u[2..] && y == w[2..];
    }
  }

  /** Distinct strings have distinct encodings. */
  lemma {:induction false} Utf16Injective(a: string, b: string)
    requires Utf16(a) == Utf16(b)
    ensures a == b
  {
    if a != [] && b != [] {
      Utf16UnitsPrefix(a[0], b[0], Utf16(a[1..]), Utf16(b[1..]));
      Utf16Injective(a[1..], b[1..]);
      assert a == [a[0]] + a[1..];
      assert b == [b[0]] + b[1..];
    }
  }

  lemma LessEqTotal(a: string, b: string)
    ensures LessEq(a, b) || LessEq(b, a)
  {
    UnitsLessEqTotal(Utf16(a), Utf16(b));
  }

  lemma LessEqAntisymmetric(a: string, b: string)
    requires LessEq(a, b) && LessEq(b, a)
    ensures a == b
  {
    UnitsLessEqAntisymmetric(Utf16(a), Utf16(b));
    Utf16Injective(a, b);
  }

  /** Two strings starting with different BMP characters are ordered by those. */
  lemma LessEqByFirst(a: string, b: string)
    requires a != [] && b != [] && a[0] < b[0] && b[0] as int <= 0xFFFF
    ensures LessEq(a, b) && !LessEq(b, a)
  {
    assert Utf16(a)[0] == a[0] as int;
    assert Utf16(b)[0] == b[0] as int;
  }

  /** The code-unit order is not the order of code points: U+10000 is stored
      as 0xD800 0xDC00 and so comes before U+FFFF. */
  lemma SupplementaryBeforeBmpEnd(a: string, b: string)
    requires a == "\U{10000}" && b == "\U{FFFF}"
    ensures a[0] > b[0]
    ensures LessEq(a, b) && !LessEq(b, a)
  {
    assert Utf16(a) == [0xD800, 0xDC00] by { assert a[1..] == []; }
    assert Utf16(b) == [0xFFFF] by { assert b[1..] == []; }
  }
}
