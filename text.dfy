/** Small shared option type. */
module Wrappers {
  datatype Option<+T> = None | Some(value: T)
}

/**
 * The string primitives the frontmatter decoder leans on, as JavaScript
 * defines them: the whitespace class shared by `\s`, `trim` and
 * `trimStart`, the word class `\w`, `split('\n')`, the quote-stripping
 * replacement and the integer subset of `Number()`.
 */
module Text {

  /** JavaScript's WhiteSpace and LineTerminator code points (the `\s` class). */
  predicate IsSpace(c: char) {
    c == ' ' || c == '\t' || c == '\n' || c == '\r' || c == '\U{000B}' || c == '\U{000C}'
    || c == '\U{00A0}' || c == '\U{1680}' || ('\U{2000}' <= c <= '\U{200A}')
    || c == '\U{2028}' || c == '\U{2029}' || c == '\U{202F}' || c == '\U{205F}'
    || c == '\U{3000}' || c == '\U{FEFF}'
  }

  /** The characters that `.` in a regular expression does not match. */
  predicate IsLineTerminator(c: char) {
    c == '\n' || c == '\r' || c == '\U{2028}' || c == '\U{2029}'
  }

  /** The `\w` class without the `u` flag. */
  predicate IsWordChar(c: char) {
    ('a' <= c <= 'z') || ('A' <= c <= 'Z') || ('0' <= c <= '9') || c == '_'
  }

  predicate IsQuote(c: char) {
    c == '"' || c == '\''
  }

  predicate AllSpace(s: string) {
    forall i :: 0 <= i < |s| ==> IsSpace(s[i])
  }

  /** A whitespace stretch is whitespace in every part. */
  lemma AllSpaceSlice(s: string, i: nat, j: nat, k: nat)
    requires i <= j <= k <= |s| && AllSpace(s[i..k])
    ensures AllSpace(s[i..j]) && AllSpace(s[j..k])
  {
    forall m | i <= m < j ensures IsSpace(s[m]) {
      assert s[m] == s[i..k][m - i];
    }
    forall m | j <= m < k ensures IsSpace(s[m]) {
      assert s[m] == s[i..k][m - i];
    }
  }

  predicate StartsWith(s: string, prefix: string) {
    |prefix| <= |s| && s[..|prefix|] == prefix
  }

  predicate EndsWith(s: string, suffix: string) {
    |suffix| <= |s| && s[|s| - |suffix|..] == suffix
  }

  /** `trimStart`: the longest all-whitespace prefix is dropped (see `TrimStartShape`). */
  function TrimStart(s: string): (r: string)
    ensures |r| <= |s|
    ensures r == [] || !IsSpace(r[0])
  {
    if s != [] && IsSpace(s[0]) then TrimStart(s[1..]) else s
  }

  /** What `trimStart` keeps is a suffix, and what it drops is whitespace. */
  lemma {:induction false} TrimStartShape(s: string)
    ensures var r := TrimStart(s); r == s[|s| - |r|..] && AllSpace(s[..|s| - |r|])
    decreases |s|
  {
    if s != [] && IsSpace(s[0]) {
      TrimStartShape(s[1..]);
      var r := TrimStart(s[1..]);
      assert s[..|s| - |r|] == [s[0]] + s[1..][..|s| - 1 - |r|];
    }
  }

  /** The trailing half of `trim`: the longest all-whitespace suffix is dropped (see `TrimEndShape`). */
  function TrimEnd(s: string): (r: string)
    ensures |r| <= |s|
    ensures r == [] || !IsSpace(r[|r| - 1])
  {
    if s != [] && IsSpace(s[|s| - 1]) then TrimEnd(s[..|s| - 1]) else s
  }

  /** What `trimEnd` keeps is a prefix, and what it drops is whitespace. */
  lemma {:induction false} TrimEndShape(s: string)
    ensures var r := TrimEnd(s); r == s[..|r|] && AllSpace(s[|r|..])
    decreases |s|
  {
    if s != [] && IsSpace(s[|s| - 1]) {
      TrimEndShape(s[..|s| - 1]);
      var r := TrimEnd(s[..|s| - 1]);
      assert s[|r|..] == s[..|s| - 1][|r|..] + [s[|s| - 1]];
    }
  }

  /** `trim`: whitespace is dropped at both ends. */
  function Trim(s: string): (r: string)
    ensures r == [] <==> AllSpace(s)
    ensures r == [] || (!IsSpace(r[0]) && !IsSpace(r[|r| - 1]))
  {
    TrimBlank(s);
    TrimEnds(s);
    TrimEnd(TrimStart(s))
  }

  lemma TrimBlank(s: string)
    ensures TrimEnd(TrimStart(s)) == [] <==> AllSpace(s)
  {
    var t := TrimStart(s);
    BlankIffNothingLeft(s);
    BlankIffNothingLeftEnd(t);
  }

  lemma TrimEnds(s: string)
    ensures var r := TrimEnd(TrimStart(s)); r == [] || (!IsSpace(r[0]) && !IsSpace(r[|r| - 1]))
  {
    var t := TrimStart(s);
    var r := TrimEnd(t);
    if r != [] {
      TrimEndShape(t);
      assert r[0] == t[0];
    }
  }

  /** A text is blank exactly when `trimStart` leaves nothing of it. */
  lemma BlankIffNothingLeft(s: string)
    ensures AllSpace(s) <==> TrimStart(s) == []
  {
    var t := TrimStart(s);
    TrimStartShape(s);
    if t != [] {
      assert t[0] == s[|s| - |t|];
    } else {
      assert s[..|s|] == s;
    }
  }

  /** A text is blank exactly when `trimEnd` leaves nothing of it. */
  lemma BlankIffNothingLeftEnd(s: string)
    ensures AllSpace(s) <==> TrimEnd(s) == []
  {
    var t := TrimEnd(s);
    TrimEndShape(s);
    if t != [] {
      assert t[|t| - 1] == s[|t| - 1];
    } else {
      assert s[0..] == s;
    }
  }

  /** Leading whitespace never survives `trimStart`, so prepending some changes nothing. */
  lemma {:induction false} TrimStartSkipsSpace(w: string, t: string)
    requires AllSpace(w)
    ensures TrimStart(w + t) == TrimStart(t)
  {
    if w != [] {
      var s := w + t;
      assert s[0] == w[0] && IsSpace(w[0]);
      assert s[1..] == w[1..] + t;
      TrimStartSkipsSpace(w[1..], t);
    } else {
      assert w + t == t;
    }
  }

  /** Hence `trim` ignores leading whitespace too. */
  lemma TrimSkipsSpace(w: string, t: string)
    requires AllSpace(w)
    ensures Trim(w + t) == Trim(t)
  {
    TrimStartSkipsSpace(w, t);
  }

  /** A line that is not blank keeps something after `trimStart`. */
  lemma NonBlankTrimStart(s: string)
    requires Trim(s) != []
    ensures TrimStart(s) != []
  {
  }

  /**
   * The replacement `/^["']|["']$/g` by the empty string: at most one quote
   * is removed at the front and, independently, at most one at the back.
   * A lone quote is removed once.
   */
  function StripQuotes(s: string): (r: string)
    ensures |s| - 2 <= |r| <= |s|
  {
    var a := if |s| > 0 && IsQuote(s[0]) then 1 else 0;
    var b := if |s| >= 2 && IsQuote(s[|s| - 1]) then |s| - 1 else |s|;
    s[a..b]
  }

  /** Wrapping a text in one quote at each end and stripping gives the text back. */
  lemma StripQuotesUnwraps(q1: char, t: string, q2: char)
    requires IsQuote(q1) && IsQuote(q2)
    ensures StripQuotes([q1] + t + [q2]) == t
  {
    var s := [q1] + t + [q2];
    assert s[1..|s| - 1] == t;
  }

  /** A text with no quote at either end is left as it is. */
  lemma StripQuotesKeepsUnquoted(t: string)
    requires t == [] || (!IsQuote(t[0]) && !IsQuote(t[|t| - 1]))
    ensures StripQuotes(t) == t
  {
  }

  /** A leading quote with no trailing one is removed alone; so is a lone quote. */
  lemma StripQuotesLeading(q: char, t: string)
    requires IsQuote(q) && (t == [] || !IsQuote(t[|t| - 1]))
    ensures StripQuotes([q] + t) == t
  {
    assert ([q] + t)[1..] == t;
  }

  /** A trailing quote with no leading one is removed alone. */
  lemma StripQuotesTrailing(t: string, q: char)
    requires IsQuote(q) && t != [] && !IsQuote(t[0])
    ensures StripQuotes(t + [q]) == t
  {
    assert (t + [q])[..|t|] == t;
  }

  /** The first position of `c` in `s`, or `|s|` when there is none. */
  function IndexOf(s: string, c: char): (i: nat)
    ensures i <= |s|
    ensures c !in s[..i]
    ensures i < |s| ==> s[i] == c
  {
    if s == [] then 0
    else if s[0] == c then 0
    else
      var i := 1 + IndexOf(s[1..], c);
      assert s[..i] == [s[0]] + s[1..][..i - 1];
      i
  }

  /** `Array.prototype.join('\n')`. */
  function JoinLines(ps: seq<string>): string {
    if |ps| == 0 then ""
    else if |ps| == 1 then ps[0]
    else ps[0] + "\n" + JoinLines(ps[1..])
  }

  /**
   * `String.prototype.split('\n')`: the pieces between newlines, always at
   * least one, none holding a newline, and joined back they give `s`.
   */
  function SplitLines(s: string): (r: seq<string>)
    ensures |r| >= 1
    ensures forall i :: 0 <= i < |r| ==> '\n' !in r[i]
    ensures JoinLines(r) == s
    decreases |s|
  {
    var i := IndexOf(s, '\n');
    if i == |s| then
      assert s[..i] == s;
      [s]
    else
      var rest := SplitLines(s[i + 1..]);
      assert s == s[..i] + "\n" + s[i + 1..];
      [s[..i]] + rest
  }

  /** Splitting undoes joining when no piece holds a newline. */
  lemma {:induction false} SplitJoinLines(ps: seq<string>)
    requires |ps| >= 1
    requires forall i :: 0 <= i < |ps| ==> '\n' !in ps[i]
    ensures SplitLines(JoinLines(ps)) == ps
  {
    if |ps| == 1 {
      assert IndexOf(ps[0], '\n') == |ps[0]|;
    } else {
      var s := JoinLines(ps);
      assert s == ps[0] + "\n" + JoinLines(ps[1..]);
      assert s[..|ps[0]|] == ps[0];
      assert IndexOf(s, '\n') == |ps[0]| by {
        IndexOfFirst(ps[0], JoinLines(ps[1..]));
      }
      assert s[|ps[0]| + 1..] == JoinLines(ps[1..]);
      SplitJoinLines(ps[1..]);
    }
  }

  lemma {:induction false} IndexOfFirst(p: string, rest: string)
    requires '\n' !in p
    ensures IndexOf(p + "\n" + rest, '\n') == |p|
  {
    if p != [] {
      assert (p + "\n" + rest)[1..] == p[1..] + "\n" + rest;
      IndexOfFirst(p[1..], rest);
    }
  }

  // ----- The integer subset of Number() -----

  predicate IsDigit(c: char) {
    '0' <= c <= '9'
  }

  predicate AllDigits(s: string) {
    forall i :: 0 <= i < |s| ==> IsDigit(s[i])
  }

  /** An optional sign followed by one or more decimal digits. */
  predicate IsNumeral(s: string) {
    (|s| >= 1 && AllDigits(s))
    || (|s| >= 2 && (s[0] == '+' || s[0] == '-') && AllDigits(s[1..]))
  }

  function DigitsValue(d: string): nat
    requires AllDigits(d)
  {
    if d == [] then 0
    else DigitsValue(d[..|d| - 1]) * 10 + (d[|d| - 1] as int - '0' as int)
  }

  /** The value `Number()` gives a numeral. */
  function NumeralValue(s: string): int
    requires IsNumeral(s)
  {
    if AllDigits(s) then DigitsValue(s)
    else if s[0] == '-' then -(DigitsValue(s[1..]) as int)
    else DigitsValue(s[1..])
  }

  /** The decimal digits of a natural number, without leading zeros. */
  function Digits(n: nat): (r: string)
    ensures |r| >= 1 && AllDigits(r)
  {
    var c := ('0' as int + n % 10) as char;
    if n < 10 then [c] else Digits(n / 10) + [c]
  }

  /** How an integer is written: a minus sign for negatives, then its digits. */
  function Show(n: int): string {
    if n < 0 then "-" + Digits(-n) else Digits(n)
  }

  lemma {:induction false} DigitsRoundTrip(n: nat)
    ensures DigitsValue(Digits(n)) == n
  {
    if n >= 10 {
      var d := Digits(n);
      assert d[..|d| - 1] == Digits(n / 10);
      DigitsRoundTrip(n / 10);
    }
  }

  /** Every integer written in decimal is a numeral that reads back as itself. */
  lemma NumeralRoundTrip(n: int)
    ensures IsNumeral(Show(n)) && NumeralValue(Show(n)) == n
  {
    if n < 0 {
      var d := Digits(-n);
      assert Show(n)[1..] == d;
      assert !AllDigits(Show(n)) by { assert !IsDigit(Show(n)[0]); }
      DigitsRoundTrip(-n);
    } else {
      DigitsRoundTrip(n);
    }
  }
}
