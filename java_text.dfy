/**
 * The parts of java.lang.String and of the string utilities that the core relies on:
 * blank tests, prefix tests, `String.replace`, `String.split("\\s+")`, ASCII upper-casing,
 * character search and the decimal text of an `int`.
 */
module JavaText {
  import opened Wrappers
  import Sequences

  /**
   * `Character.isWhitespace` on a UTF-16 unit: the controls U+0009 to U+000D and U+001C to
   * U+001F, and the Unicode space, line and paragraph separators except the non-breaking ones
   * (U+00A0, U+2007, U+202F).
   */
  predicate IsWhitespace(c: char) {
    ('\t' <= c <= '\r') || ('\U{1C}' <= c <= ' ') || c == '\U{1680}'
    || ('\U{2000}' <= c <= '\U{200A}' && c != '\U{2007}') || c == '\U{2028}' || c == '\U{2029}'
    || c == '\U{205F}' || c == '\U{3000}'
  }

  /** Micrometer's `StringUtils.isBlank` for a non-null string: every character is whitespace. */
  predicate IsBlank(s: string) {
    forall i :: 0 <= i < |s| ==> IsWhitespace(s[i])
  }

  /** The regular-expression class `\s`: space, tab, newline, vertical tab, form feed, carriage return. */
  predicate IsSpace(c: char) {
    c == ' ' || c == '\t' || c == '\n' || c == '\U{0B}' || c == '\U{0C}' || c == '\r'
  }

  predicate HasSpace(s: string) {
    exists i :: 0 <= i < |s| && IsSpace(s[i])
  }

  predicate StartsWith(s: string, prefix: string) {
    |prefix| <= |s| && s[..|prefix|] == prefix
  }

  /** `pat` occurs somewhere in `s`. */
  predicate Occurs(pat: string, s: string)
    decreases |s|
  {
    StartsWith(s, pat) || (s != [] && Occurs(pat, s[1..]))
  }

  // ---------------------------------------------------------------------------
  // String.replace(CharSequence, CharSequence)
  // ---------------------------------------------------------------------------

  /** Replaces every occurrence of `pat`, scanning left to right without overlap. */
  function Replace(s: string, pat: string, rep: string): string
    requires pat != []
    decreases |s|
  {
    if |s| < |pat| then s
    else if s[..|pat|] == pat then rep + Replace(s[|pat|..], pat, rep)
    else [s[0]] + Replace(s[1..], pat, rep)
  }

  /** A placeholder such as `%source%`: delimited by `%` at both ends and nowhere else. */
  predicate IsPlaceholder(q: string) {
    |q| >= 2 && q[0] == '%' && q[|q| - 1] == '%' && '%' !in q[1..|q| - 1]
  }

  lemma {:induction false} OccursNeedsRoom(q: string, s: string)
    requires Occurs(q, s)
    ensures |q| <= |s|
    decreases |s|
  {
    if !StartsWith(s, q) {
      OccursNeedsRoom(q, s[1..]);
    }
  }

  lemma {:induction false} OccursInSuffix(q: string, s: string, k: nat)
    requires k <= |s| && Occurs(q, s[k..])
    ensures Occurs(q, s)
    decreases k
  {
    if k > 0 {
      assert s[1..][k - 1..] == s[k..];
      OccursInSuffix(q, s[1..], k - 1);
    }
  }

  /** A prefix free of `%` cannot complete an occurrence of a `%`-led pattern. */
  lemma {:induction false} NoOccurrenceAcross(prefix: string, t: string, q: string)
    requires q != [] && q[0] == '%' && '%' !in prefix && !Occurs(q, t)
    ensures !Occurs(q, prefix + t)
    decreases |prefix|
  {
    if prefix != [] {
      assert (prefix + t)[0] == prefix[0];
      assert (prefix + t)[1..] == prefix[1..] + t;
      NoOccurrenceAcross(prefix[1..], t, q);
    } else {
      assert prefix + t == t;
    }
  }

  /** A replacement text without `%` but with `mark` cannot begin a prefix `x` that ends in `%` and lacks `mark`. */
  lemma ReplacementStartsNoPrefix(rep: string, t: string, x: string, mark: char)
    requires x != [] && x[|x| - 1] == '%' && mark !in x
    requires '%' !in rep && mark in rep
    ensures !StartsWith(rep + t, x)
  {
    if |rep| >= |x| {
      assert (rep + t)[|x| - 1] == rep[|x| - 1];
    } else {
      var i :| 0 <= i < |rep| && rep[i] == mark;
      assert (rep + t)[i] == rep[i];
    }
  }

  /**
   * If the replaced text starts with `x` (a string whose only `%` is its last character and
   * which lacks the character `mark` that the replacement contains), then the original text
   * started with `x` already: no replacement contributed to that prefix.
   */
  lemma {:induction false} ReplacedPrefix(u: string, pat: string, rep: string, x: string, mark: char)
    requires pat != [] && x != []
    requires x[|x| - 1] == '%' && '%' !in x[..|x| - 1]
    requires '%' !in rep && mark in rep && mark !in x
    requires StartsWith(Replace(u, pat, rep), x)
    ensures StartsWith(u, x)
    decreases |u|
  {
    var r := Replace(u, pat, rep);
    if |u| < |pat| {
    } else if u[..|pat|] == pat {
      ReplacementStartsNoPrefix(rep, Replace(u[|pat|..], pat, rep), x, mark);
    } else {
      var t := Replace(u[1..], pat, rep);
      assert r == [u[0]] + t;
      assert x[0] == u[0];
      if |x| > 1 {
        assert x[1..][|x[1..]| - 1] == '%';
        assert x[1..][..|x[1..]| - 1] == x[1..|x| - 1];
        assert x[1..|x| - 1] == x[..|x| - 1][1..];
        assert StartsWith(t, x[1..]) by {
          Sequences.PrependSlice(u[0], t, |x| - 1);
        }
        ReplacedPrefix(u[1..], pat, rep, x[1..], mark);
        assert u[..|x|] == [u[0]] + u[1..][..|x| - 1];
      }
    }
  }

  /**
   * Replacing `pat` by a text without `%` that contains a character foreign to the placeholder `q`
   * leaves no occurrence of `q`: none of `pat` itself, and no new one of any other placeholder.
   */
  lemma {:induction false} ReplaceLeavesNoPlaceholder(s: string, pat: string, rep: string, q: string, mark: char)
    requires IsPlaceholder(pat) && IsPlaceholder(q)
    requires '%' !in rep && mark in rep && mark !in q
    requires q == pat || !Occurs(q, s)
    ensures !Occurs(q, Replace(s, pat, rep))
    decreases |s|
  {
    if |s| < |pat| {
      if q == pat && Occurs(q, s) {
        OccursNeedsRoom(q, s);
      }
    } else if s[..|pat|] == pat {
      var t := s[|pat|..];
      if q != pat && Occurs(q, t) {
        OccursInSuffix(q, s, |pat|);
      }
      ReplaceLeavesNoPlaceholder(t, pat, rep, q, mark);
      NoOccurrenceAcross(rep, Replace(t, pat, rep), q);
    } else {
      var t := s[1..];
      var rt := Replace(t, pat, rep);
      ReplaceLeavesNoPlaceholder(t, pat, rep, q, mark);
      var r := [s[0]] + rt;
      assert Replace(s, pat, rep) == r;
      KeptCharPlaceholderStart(s, pat, rep, q, mark);
      assert !StartsWith(s, q);
      assert r[1..] == rt;
    }
  }

  /** A placeholder at the head of the replaced text starts the original text too, when its first character was kept. */
  lemma KeptCharPlaceholderStart(s: string, pat: string, rep: string, q: string, mark: char)
    requires pat != [] && s != [] && IsPlaceholder(q)
    requires '%' !in rep && mark in rep && mark !in q
    ensures StartsWith([s[0]] + Replace(s[1..], pat, rep), q) ==> StartsWith(s, q)
  {
    var t := s[1..];
    var rt := Replace(t, pat, rep);
    var r := [s[0]] + rt;
    if StartsWith(r, q) {
      var x := q[1..];
      assert x[|x| - 1] == '%';
      assert x[..|x| - 1] == q[1..|q| - 1];
      assert mark !in x;
      assert StartsWith(rt, x) by {
        assert rt[..|x|] == r[1..|q|];
      }
      ReplacedPrefix(t, pat, rep, x, mark);
      assert s[..|q|] == [s[0]] + t[..|x|];
    }
  }

  /** A text in which the pattern does not occur comes back unchanged. */
  lemma {:induction false} ReplaceWithoutOccurrence(s: string, pat: string, rep: string)
    requires pat != [] && !Occurs(pat, s)
    ensures Replace(s, pat, rep) == s
    decreases |s|
  {
    if |s| >= |pat| {
      assert s[..|pat|] != pat;
      ReplaceWithoutOccurrence(s[1..], pat, rep);
      assert [s[0]] + s[1..] == s;
    }
  }

  // ---------------------------------------------------------------------------
  // String.split("\\s+")
  // ---------------------------------------------------------------------------

  /** Length of the leading run of characters that are not `\s`. */
  function WordLength(s: string): (n: nat)
    ensures n <= |s|
    decreases |s|
  {
    if s == [] || IsSpace(s[0]) then 0 else 1 + WordLength(s[1..])
  }

  /** The leading word is free of `\s` and is followed by `\s` unless it is all of `s`. */
  lemma {:induction false} WordLengthIsMaximal(s: string)
    ensures !HasSpace(s[..WordLength(s)])
    ensures WordLength(s) < |s| ==> IsSpace(s[WordLength(s)])
    decreases |s|
  {
    if s != [] && !IsSpace(s[0]) {
      WordLengthIsMaximal(s[1..]);
      assert s[..WordLength(s)] == [s[0]] + s[1..][..WordLength(s[1..])];
    }
  }

  /** Drops the leading run of `\s` characters. */
  function DropSpaces(s: string): (r: string)
    ensures |r| <= |s| && r == s[|s| - |r|..]
    ensures r != [] ==> !IsSpace(r[0])
    decreases |s|
  {
    if s != [] && IsSpace(s[0]) then DropSpaces(s[1..]) else s
  }

  /** What `DropSpaces` removes is all `\s`. */
  lemma {:induction false} DropSpacesDropsOnlySpaces(s: string)
    ensures forall i :: 0 <= i < |s| - |DropSpaces(s)| ==> IsSpace(s[i])
    decreases |s|
  {
    if s != [] && IsSpace(s[0]) {
      DropSpacesDropsOnlySpaces(s[1..]);
      assert forall i :: 1 <= i < |s| - |DropSpaces(s)| ==> s[i] == s[1..][i - 1];
    }
  }

  /** The texts between the maximal runs of `\s`, leading and trailing empty ones included. */
  function Pieces(s: string): seq<string>
    decreases |s|
  {
    var n := WordLength(s);
    if n == |s| then [s] else [s[..n]] + Pieces(DropSpaces(s[n..]))
  }

  function DropTrailingEmpty(ts: seq<string>): (r: seq<string>)
    ensures |r| <= |ts| && r == ts[..|r|]
    ensures r != [] ==> r[|r| - 1] != []
  {
    if ts == [] || ts[|ts| - 1] != [] then ts else DropTrailingEmpty(ts[..|ts| - 1])
  }

  /**
   * `String.split("\\s+")` with limit 0: without any match the whole input is the one token;
   * a run of `\s` at the start yields an empty first token; trailing empty tokens are removed.
   */
  function Split(s: string): seq<string> {
    if !HasSpace(s) then [s] else DropTrailingEmpty(Pieces(s))
  }

  /** The characters of `s` that are not `\s`, in order. */
  function NonSpace(s: string): string
    decreases |s|
  {
    if s == [] then [] else (if IsSpace(s[0]) then [] else [s[0]]) + NonSpace(s[1..])
  }

  function Concat(ts: seq<string>): string {
    if ts == [] then [] else ts[0] + Concat(ts[1..])
  }

  lemma {:induction false} NonSpaceOfWord(s: string)
    requires !HasSpace(s)
    ensures NonSpace(s) == s
    decreases |s|
  {
    if s != [] {
      NonSpaceOfWord(s[1..]);
    }
  }

  lemma {:induction false} ConcatAppend(a: seq<string>, b: seq<string>)
    ensures Concat(a + b) == Concat(a) + Concat(b)
    decreases |a|
  {
    if a != [] {
      assert (a + b)[1..] == a[1..] + b;
      ConcatAppend(a[1..], b);
    } else {
      assert a + b == b;
    }
  }

  lemma {:induction false} ConcatDropTrailingEmpty(ts: seq<string>)
    ensures Concat(DropTrailingEmpty(ts)) == Concat(ts)
    decreases |ts|
  {
    if ts != [] && ts[|ts| - 1] == [] {
      var init := ts[..|ts| - 1];
      ConcatDropTrailingEmpty(init);
      assert ts == init + [[]];
      ConcatAppend(init, [[]]);
    }
  }

  /** Every piece is free of `\s`. */
  lemma {:induction false} PiecesHaveNoSpace(s: string)
    ensures forall i :: 0 <= i < |Pieces(s)| ==> !HasSpace(Pieces(s)[i])
    decreases |s|
  {
    var n := WordLength(s);
    WordLengthIsMaximal(s);
    if n < |s| {
      PiecesHaveNoSpace(DropSpaces(s[n..]));
    } else {
      assert s[..n] == s;
    }
  }

  /** Only the first and the last piece can be empty. */
  lemma {:induction false} InnerPiecesNonEmpty(s: string)
    ensures |Pieces(s)| > 0
    ensures forall i :: 0 < i < |Pieces(s)| - 1 ==> Pieces(s)[i] != []
    decreases |s|
  {
    var n := WordLength(s);
    if n < |s| {
      var rest := DropSpaces(s[n..]);
      RestShorter(s);
      InnerPiecesNonEmpty(rest);
      var ps := Pieces(rest);
      assert Pieces(s) == [s[..n]] + ps;
      if |ps| > 1 {
        FirstPieceNonEmpty(rest);
      }
      forall i | 0 < i < |Pieces(s)| - 1
        ensures Pieces(s)[i] != []
      {
        assert Pieces(s)[i] == ps[i - 1];
      }
    }
  }

  /** A text that starts with a word and has more than one piece has a non-empty first piece. */
  lemma FirstPieceNonEmpty(s: string)
    requires s != [] && !IsSpace(s[0]) && |Pieces(s)| > 1
    ensures Pieces(s)[0] != []
  {
    var n := WordLength(s);
    assert n > 0;
    assert Pieces(s)[0] == s[..n];
  }

  /** Leading `\s` contributes nothing to `NonSpace`. */
  lemma {:induction false} NonSpaceDropSpaces(s: string)
    ensures NonSpace(DropSpaces(s)) == NonSpace(s)
    decreases |s|
  {
    if s != [] && IsSpace(s[0]) {
      NonSpaceDropSpaces(s[1..]);
    }
  }

  /** Removing `\s` from a text that starts with a word and a gap keeps the word and drops the gap. */
  lemma {:induction false} NonSpaceStep(s: string)
    requires WordLength(s) < |s|
    ensures NonSpace(s) == s[..WordLength(s)] + NonSpace(DropSpaces(s[WordLength(s)..]))
    decreases |s|
  {
    var n := WordLength(s);
    if IsSpace(s[0]) {
      assert n == 0 && s[n..] == s;
      NonSpaceDropSpaces(s);
      assert s[..n] + NonSpace(DropSpaces(s)) == NonSpace(DropSpaces(s));
    } else {
      var m := WordLength(s[1..]);
      var r := NonSpace(DropSpaces(s[n..]));
      assert n == m + 1;
      NonSpaceStep(s[1..]);
      assert s[1..][m..] == s[n..];
      assert NonSpace(s[1..]) == s[1..][..m] + r;
      assert NonSpace(s) == [s[0]] + NonSpace(s[1..]);
      TakeCons(s, n);
      Sequences.AppendAssociates([s[0]], s[1..][..m], r);
    }
  }

  /** A non-empty prefix is the first character followed by a prefix of the rest. */
  lemma TakeCons(s: string, k: nat)
    requires 0 < k <= |s|
    ensures s[..k] == [s[0]] + s[1..][..k - 1]
  {
  }

  lemma ConcatPiecesStep(s: string)
    requires WordLength(s) < |s|
    ensures Concat(Pieces(s)) == s[..WordLength(s)] + Concat(Pieces(DropSpaces(s[WordLength(s)..])))
  {
    var n := WordLength(s);
    var ps := Pieces(DropSpaces(s[n..]));
    assert Pieces(s) == [s[..n]] + ps;
    assert ([s[..n]] + ps)[1..] == ps;
  }

  /** A text without `\s` is its own single piece. */
  lemma PiecesOfWord(s: string)
    requires WordLength(s) == |s|
    ensures Concat(Pieces(s)) == NonSpace(s)
  {
    WordLengthIsMaximal(s);
    assert s[..|s|] == s;
    NonSpaceOfWord(s);
    assert Concat([s]) == s + Concat([]);
  }

  /** The text after the first word and gap is shorter than the text. */
  lemma RestShorter(s: string)
    requires WordLength(s) < |s|
    ensures |DropSpaces(s[WordLength(s)..])| < |s|
  {
    var n := WordLength(s);
    if n == 0 {
      assert IsSpace(s[0]);
      assert DropSpaces(s[n..]) == DropSpaces(s[1..]);
    }
  }

  /** Together the pieces keep every character that is not `\s`, in order. */
  lemma {:induction false} PiecesKeepText(s: string)
    ensures Concat(Pieces(s)) == NonSpace(s)
    decreases |s|
  {
    if WordLength(s) == |s| {
      PiecesOfWord(s);
    } else {
      RestShorter(s);
      PiecesKeepText(DropSpaces(s[WordLength(s)..]));
      NonSpaceStep(s);
      ConcatPiecesStep(s);
    }
  }

  /** No token of `split("\\s+")` contains `\s`. */
  lemma SplitTokensHaveNoSpace(s: string)
    ensures forall i :: 0 <= i < |Split(s)| ==> !HasSpace(Split(s)[i])
  {
    if HasSpace(s) {
      PiecesHaveNoSpace(s);
    }
  }

  /** Every token of `split("\\s+")` but the first is non-empty. */
  lemma SplitTokensNonEmpty(s: string)
    ensures forall i :: 0 < i < |Split(s)| ==> Split(s)[i] != []
  {
    if HasSpace(s) {
      var ps := Pieces(s);
      var r := DropTrailingEmpty(ps);
      InnerPiecesNonEmpty(s);
      forall i | 0 < i < |r|
        ensures r[i] != []
      {
        if i < |ps| - 1 {
          assert r[i] == ps[i];
        } else {
          assert i == |r| - 1;
        }
      }
    }
  }

  /** The tokens of `split("\\s+")`, joined, are exactly the non-`\s` characters of the input, in order. */
  lemma SplitKeepsText(s: string)
    ensures Concat(Split(s)) == NonSpace(s)
  {
    if !HasSpace(s) {
      NonSpaceOfWord(s);
      assert Concat([s]) == s + Concat([]);
    } else {
      PiecesKeepText(s);
      ConcatDropTrailingEmpty(Pieces(s));
    }
  }

  /** A string with no character outside `\s` consists of `\s` only. */
  lemma {:induction false} AllSpace(s: string)
    requires NonSpace(s) == []
    ensures forall i :: 0 <= i < |s| ==> IsSpace(s[i])
    decreases |s|
  {
    if s != [] {
      AllSpace(s[1..]);
      assert forall i :: 1 <= i < |s| ==> s[i] == s[1..][i - 1];
    }
  }

  /**
   * `split("\\s+")` yields no token at all exactly when the input is non-empty and all `\s`:
   * the two empty pieces around the one run are both trailing. The empty input yields one
   * empty token.
   */
  lemma SplitEmptyExactlyWhenAllSpace(s: string)
    ensures Split(s) == [] <==> s != [] && forall i :: 0 <= i < |s| ==> IsSpace(s[i])
  {
    if Split(s) == [] {
      SplitKeepsText(s);
      AllSpace(s);
    }
    if s != [] && forall i :: 0 <= i < |s| ==> IsSpace(s[i]) {
      assert HasSpace(s) by {
        assert IsSpace(s[0]);
      }
      assert WordLength(s) == 0;
      var rest := DropSpaces(s[0..]);
      assert rest == [];
      assert Pieces(s) == [[]] + Pieces(rest);
    }
  }

  // ---------------------------------------------------------------------------
  // Upper-casing and character search
  // ---------------------------------------------------------------------------

  function UpperChar(c: char): char {
    if 'a' <= c <= 'z' then (c as int - 32) as char else c
  }

  /** `String.toUpperCase()` restricted to ASCII letters. */
  function ToUpper(s: string): (r: string)
    ensures |r| == |s| && forall i :: 0 <= i < |s| ==> r[i] == UpperChar(s[i])
  {
    seq(|s|, i requires 0 <= i < |s| => UpperChar(s[i]))
  }

  /** `String.lastIndexOf(char)`: the last position of `c`, or -1. */
  function LastIndexOf(s: string, c: char): (r: int)
    ensures -1 <= r < |s|
    ensures r >= 0 ==> s[r] == c
    ensures forall i :: r < i < |s| ==> s[i] != c
    decreases |s|
  {
    if s == [] then -1 else if s[|s| - 1] == c then |s| - 1 else LastIndexOf(s[..|s| - 1], c)
  }

  /** `String.indexOf(char)`: the first position of `c`, or -1. */
  function IndexOf(s: string, c: char): (r: int)
    ensures -1 <= r < |s|
    ensures r >= 0 ==> s[r] == c
    ensures forall i :: 0 <= i < |s| && (r < 0 || i < r) ==> s[i] != c
    decreases |s|
  {
    if s == [] then -1 else if s[0] == c then 0 else var k := IndexOf(s[1..], c); if k < 0 then -1 else k + 1
  }

  /** Nothing before the first `c` is a `c`. */
  lemma BeforeIndexOf(s: string, c: char)
    requires IndexOf(s, c) >= 0
    ensures c !in s[..IndexOf(s, c)]
  {
    var k := IndexOf(s, c);
    forall i | 0 <= i < k
      ensures s[..k][i] != c
    {
      assert s[..k][i] == s[i];
    }
  }

  // ---------------------------------------------------------------------------
  // Integer.toString and its inverse
  // ---------------------------------------------------------------------------

  predicate IsDigits(s: string) {
    forall i :: 0 <= i < |s| ==> '0' <= s[i] <= '9'
  }

  function DigitChar(d: nat): (c: char)
    requires d < 10
    ensures '0' <= c <= '9' && c as int - '0' as int == d
  {
    ('0' as int + d) as char
  }

  /** `Integer.toString` of a value that is not negative: its decimal digits, with no leading zero. */
  function NatToString(n: nat): (s: string)
    ensures s != [] && IsDigits(s)
    ensures |s| > 1 ==> s[0] != '0'
    decreases n
  {
    if n < 10 then [DigitChar(n)] else NatToString(n / 10) + [DigitChar(n % 10)]
  }

  /** `Integer.toString`: a minus sign before the digits of a negative value. */
  function IntToString(n: int): string {
    if n < 0 then "-" + NatToString(-n) else NatToString(n)
  }

  /** The value of a string of decimal digits. */
  function DigitsValue(s: string): nat
    requires IsDigits(s)
  {
    if s == [] then 0 else DigitsValue(s[..|s| - 1]) * 10 + (s[|s| - 1] as int - '0' as int)
  }

  /** `Integer.parseInt` on the decimal texts without a plus sign; `None` for anything else. */
  function ParseInt(s: string): Option<int> {
    if |s| > 1 && s[0] == '-' && IsDigits(s[1..]) then Some(-(DigitsValue(s[1..]) as int))
    else if s != [] && IsDigits(s) then Some(DigitsValue(s))
    else None
  }

  lemma {:induction false} NatToStringValue(n: nat)
    ensures DigitsValue(NatToString(n)) == n
    decreases n
  {
    if n >= 10 {
      var t := NatToString(n / 10);
      NatToStringValue(n / 10);
      assert (t + [DigitChar(n % 10)])[..|t|] == t;
    }
  }

  /** Parsing the decimal text of any value gives the value back. */
  lemma IntToStringRoundTrip(n: int)
    ensures ParseInt(IntToString(n)) == Some(n)
  {
    if n < 0 {
      var t := NatToString(-n);
      NatToStringValue(-n);
      var s := "-" + t;
      assert s[0] == '-' && s[1..] == t;
      assert ParseInt(s) == Some(-(DigitsValue(t) as int));
    } else {
      var s := NatToString(n);
      NatToStringValue(n);
      assert '0' <= s[0] <= '9';
      assert ParseInt(s) == Some(DigitsValue(s));
    }
  }

  /** Distinct values have distinct decimal texts. */
  lemma IntToStringInjective(a: int, b: int)
    requires IntToString(a) == IntToString(b)
    ensures a == b
  {
    IntToStringRoundTrip(a);
    IntToStringRoundTrip(b);
  }
}
