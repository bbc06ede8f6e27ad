/** The string operations the coordinate parser is built from: Rust's
    whitespace test, `str::trim`, `str::split_whitespace`, and unsigned
    decimal numerals. */
module Text {

  /** `char::is_whitespace`: the characters with the Unicode White_Space property. */
  predicate IsWhitespace(c: char) {
    || ('\t' <= c <= '\r')
    || c == ' '
    || c == '\U{85}'
    || c == '\U{A0}'
    || c == '\U{1680}'
    || ('\U{2000}' <= c <= '\U{200A}')
    || c == '\U{2028}'
    || c == '\U{2029}'
    || c == '\U{202F}'
    || c == '\U{205F}'
    || c == '\U{3000}'
  }

  predicate AllWhitespace(s: string) {
    forall i :: 0 <= i < |s| ==> IsWhitespace(s[i])
  }

  predicate NoWhitespace(s: string) {
    forall i :: 0 <= i < |s| ==> !IsWhitespace(s[i])
  }

  // ---------------------------------------------------------------------
  // Trimming

  /** The end of the whitespace run of `s` that starts at `i`. */
  function WhitespaceFrom(s: string, i: nat): (j: nat)
    requires i <= |s|
    ensures i <= j <= |s|
    ensures forall k :: i <= k < j ==> IsWhitespace(s[k])
    ensures j < |s| ==> !IsWhitespace(s[j])
    decreases |s| - i
  {
    if i < |s| && IsWhitespace(s[i]) then WhitespaceFrom(s, i + 1) else i
  }

  /** The start of the whitespace run of `s` that ends at `j`. */
  function WhitespaceUpTo(s: string, j: nat): (i: nat)
    requires j <= |s|
    ensures i <= j
    ensures forall k :: i <= k < j ==> IsWhitespace(s[k])
    ensures i > 0 ==> !IsWhitespace(s[i - 1])
  {
    if j > 0 && IsWhitespace(s[j - 1]) then WhitespaceUpTo(s, j - 1) else j
  }

  /** `str::trim_start`. */
  function TrimStart(s: string): (r: string)
    ensures |r| <= |s| && r == s[|s| - |r|..]
    ensures AllWhitespace(s[..|s| - |r|])
    ensures |r| > 0 ==> !IsWhitespace(r[0])
  {
    var k := WhitespaceFrom(s, 0);
    assert forall i :: 0 <= i < k ==> s[..k][i] == s[i];
    s[k..]
  }

  /** `str::trim_end`. */
  function TrimEnd(s: string): (r: string)
    ensures |r| <= |s| && r == s[..|r|]
    ensures AllWhitespace(s[|r|..])
    ensures |r| > 0 ==> !IsWhitespace(r[|r| - 1])
  {
    var k := WhitespaceUpTo(s, |s|);
    assert forall i :: k <= i < |s| ==> s[k..][i - k] == s[i];
    s[..k]
  }

  /** `str::trim`: `s` without its leading and trailing whitespace. */
  function Trim(s: string): (r: string)
    ensures |r| > 0 ==> !IsWhitespace(r[0]) && !IsWhitespace(r[|r| - 1])
    ensures NoWhitespace(s) ==> r == s
  {
    var t := TrimStart(s);
    TrimEndFirst(t);
    TrimStartOfWord(s);
    TrimEndOfWord(s);
    TrimEnd(t)
  }

  /** Text without whitespace has nothing to trim at its start. */
  lemma TrimStartOfWord(s: string)
    ensures NoWhitespace(s) ==> TrimStart(s) == s
  {
  }

  /** Text without whitespace has nothing to trim at its end. */
  lemma TrimEndOfWord(s: string)
    ensures NoWhitespace(s) ==> TrimEnd(s) == s
  {
  }

  /** Trimming the end keeps the first character of what is left. */
  lemma TrimEndFirst(s: string)
    ensures |TrimEnd(s)| > 0 ==> TrimEnd(s)[0] == s[0]
  {
  }

  /** Trimming removes a whitespace prefix and a whitespace suffix and keeps
      everything between them: `Trim(s)` is `s[k..k + |Trim(s)|]` for the
      length `k` of the leading whitespace. */
  lemma TrimKeepsMiddle(s: string)
    ensures var k := |s| - |TrimStart(s)|;
            && k + |Trim(s)| <= |s|
            && Trim(s) == s[k..k + |Trim(s)|]
            && AllWhitespace(s[..k])
            && AllWhitespace(s[k + |Trim(s)|..])
  {
    KeepsMiddle(s, TrimStart(s), Trim(s));
  }

  /** A whitespace prefix of `s` dropped, then a whitespace suffix of the
      rest, leaves the middle of `s`. */
  lemma KeepsMiddle(s: string, t: string, r: string)
    requires |t| <= |s| && t == s[|s| - |t|..] && AllWhitespace(s[..|s| - |t|])
    requires |r| <= |t| && r == t[..|r|] && AllWhitespace(t[|r|..])
    ensures var k := |s| - |t|;
            && k + |r| <= |s|
            && r == s[k..k + |r|]
            && AllWhitespace(s[..k])
            && AllWhitespace(s[k + |r|..])
  {
    SlicesOfSuffix(s, |s| - |t|, t, |r|);
  }

  /** Slices of a suffix `t == s[k..]` are slices of `s`. */
  lemma SlicesOfSuffix(s: string, k: nat, t: string, m: nat)
    requires k <= |s| && t == s[k..] && m <= |t|
    ensures k + m <= |s| && t[..m] == s[k..k + m] && t[m..] == s[k + m..]
  {
  }

  // ---------------------------------------------------------------------
  // Tokenising

  /** Length of the leading run of non-whitespace characters of `s`. */
  function WordLen(s: string): (n: nat)
    ensures n <= |s|
    ensures forall k :: 0 <= k < n ==> !IsWhitespace(s[k])
    ensures n < |s| ==> IsWhitespace(s[n])
    decreases |s|
  {
    if |s| == 0 || IsWhitespace(s[0]) then 0 else 1 + WordLen(s[1..])
  }

  /** `str::split_whitespace`: the maximal runs of non-whitespace characters
      of `s`, left to right. */
  function Tokens(s: string): (ts: seq<string>)
    ensures forall k :: 0 <= k < |ts| ==> |ts[k]| > 0 && NoWhitespace(ts[k])
    decreases |s|
  {
    if |s| == 0 then []
    else if IsWhitespace(s[0]) then Tokens(s[1..])
    else
      var n := WordLen(s);
      [s[..n]] + Tokens(s[n..])
  }

  /** Leading whitespace produces no token. */
  lemma {:induction false} TokensSkipLeading(w: string, s: string)
    requires AllWhitespace(w)
    ensures Tokens(w + s) == Tokens(s)
    decreases |w|
  {
    if |w| == 0 {
      assert w + s == s;
    } else {
      assert (w + s)[1..] == w[1..] + s;
      TokensSkipLeading(w[1..], s);
    }
  }

  lemma {:induction false} WordLenOfWord(t: string, s: string)
    requires NoWhitespace(t)
    requires |s| == 0 || IsWhitespace(s[0])
    ensures WordLen(t + s) == |t|
    decreases |t|
  {
    if |t| == 0 {
      assert t + s == s;
    } else {
      assert (t + s)[1..] == t[1..] + s;
      WordLenOfWord(t[1..], s);
    }
  }

  /** A word followed by the end of the text or by whitespace is one token. */
  lemma TokensOfWord(t: string, s: string)
    requires |t| > 0 && NoWhitespace(t)
    requires |s| == 0 || IsWhitespace(s[0])
    ensures Tokens(t + s) == [t] + Tokens(s)
  {
    WordLenOfWord(t, s);
    assert (t + s)[..|t|] == t;
    assert (t + s)[|t|..] == s;
  }

  lemma {:induction false} WordLenExtend(s: string, w: string)
    requires AllWhitespace(w)
    ensures WordLen(s + w) == WordLen(s)
    decreases |s|
  {
    if |s| == 0 {
      assert s + w == w;
    } else if !IsWhitespace(s[0]) {
      assert (s + w)[1..] == s[1..] + w;
      WordLenExtend(s[1..], w);
    }
  }

  /** Trailing whitespace produces no token. */
  lemma {:induction false} TokensDropTrailing(s: string, w: string)
    requires AllWhitespace(w)
    ensures Tokens(s + w) == Tokens(s)
    decreases |s|
  {
    if |s| == 0 {
      assert s + w == w + s;
      TokensSkipLeading(w, s);
    } else if IsWhitespace(s[0]) {
      assert (s + w)[1..] == s[1..] + w;
      TokensDropTrailing(s[1..], w);
    } else {
      var n := WordLen(s);
      WordLenExtend(s, w);
      assert (s + w)[..n] == s[..n];
      assert (s + w)[n..] == s[n..] + w;
      TokensDropTrailing(s[n..], w);
    }
  }

  /** Trimming before splitting changes nothing. */
  lemma TokensOfTrim(s: string)
    ensures Tokens(Trim(s)) == Tokens(s)
  {
    TokensOfTrimStart(s);
    TokensOfTrimEnd(TrimStart(s));
  }

  lemma TokensOfTrimStart(s: string)
    ensures Tokens(TrimStart(s)) == Tokens(s)
  {
    var t := TrimStart(s);
    var lead := s[..|s| - |t|];
    assert s == lead + t;
    TokensSkipLeading(lead, t);
  }

  lemma TokensOfTrimEnd(t: string)
    ensures Tokens(TrimEnd(t)) == Tokens(t)
  {
    var r := TrimEnd(t);
    var tail := t[|r|..];
    assert t == r + tail;
    TokensDropTrailing(r, tail);
  }

  /** `gaps[0] + toks[0] + gaps[1] + ... + toks[k-1] + gaps[k]`. */
  function Join(toks: seq<string>, gaps: seq<string>): string
    requires |gaps| == |toks| + 1
    decreases |toks|
  {
    if |toks| == 0 then gaps[0] else gaps[0] + toks[0] + Join(toks[1..], gaps[1..])
  }

  /** `gaps` lays out `toks` as a line: every gap is whitespace, the gaps
      between two tokens are not empty, every token is a non-empty word. */
  predicate Separates(toks: seq<string>, gaps: seq<string>) {
    && |gaps| == |toks| + 1
    && (forall k :: 0 <= k < |gaps| ==> AllWhitespace(gaps[k]))
    && (forall k :: 0 < k < |toks| ==> |gaps[k]| > 0)
    && (forall k :: 0 <= k < |toks| ==> |toks[k]| > 0 && NoWhitespace(toks[k]))
  }

  /** Splitting a line recovers its words, whatever whitespace surrounds and
      separates them. */
  lemma {:induction false} TokensOfJoin(toks: seq<string>, gaps: seq<string>)
    requires Separates(toks, gaps)
    ensures Tokens(Join(toks, gaps)) == toks
    decreases |toks|
  {
    if |toks| == 0 {
      assert gaps[0] == gaps[0] + "";
      TokensSkipLeading(gaps[0], "");
    } else {
      var rest := Join(toks[1..], gaps[1..]);
      SeparatesTail(toks, gaps);
      TokensOfJoin(toks[1..], gaps[1..]);
      JoinStart(toks[1..], gaps[1..]);
      TokensOfWord(toks[0], rest);
      assert gaps[0] + toks[0] + rest == gaps[0] + (toks[0] + rest);
      TokensSkipLeading(gaps[0], toks[0] + rest);
    }
  }

  /** Dropping the first gap and word of a layout leaves a layout. */
  lemma SeparatesTail(toks: seq<string>, gaps: seq<string>)
    requires Separates(toks, gaps) && |toks| > 0
    ensures Separates(toks[1..], gaps[1..])
    ensures |toks[0]| > 0 && NoWhitespace(toks[0]) && AllWhitespace(gaps[0])
    ensures |toks| > 1 ==> |gaps[1]| > 0
  {
    assert AllWhitespace(gaps[0]);
  }

  /** A laid-out line with a first word and a non-empty first gap, or with
      no word at all, starts with whitespace or is empty. */
  lemma JoinStart(toks: seq<string>, gaps: seq<string>)
    requires Separates(toks, gaps)
    requires |toks| > 0 ==> |gaps[0]| > 0
    ensures |Join(toks, gaps)| == 0 || IsWhitespace(Join(toks, gaps)[0])
  {
    var line := Join(toks, gaps);
    if |toks| > 0 {
      assert line == gaps[0] + (toks[0] + Join(toks[1..], gaps[1..]));
      assert line[0] == gaps[0][0];
    }
  }

  // ---------------------------------------------------------------------
  // Decimal numerals

  predicate IsDigit(c: char) {
    '0' <= c <= '9'
  }

  predicate AllDigits(s: string) {
    forall i :: 0 <= i < |s| ==> IsDigit(s[i])
  }

  lemma DigitsNoWhitespace(s: string)
    requires AllDigits(s)
    ensures NoWhitespace(s)
  {
  }

  function DigitValue(c: char): (d: nat)
    requires IsDigit(c)
    ensures d < 10
  {
    c as int - '0' as int
  }

  function DigitChar(d: nat): (c: char)
    requires d < 10
    ensures IsDigit(c) && DigitValue(c) == d
  {
    ('0' as int + d) as char
  }

  /** The value of a numeral, most significant digit first. */
  function DecimalValue(s: string): nat
    requires AllDigits(s)
    decreases |s|
  {
    if |s| == 0 then 0 else 10 * DecimalValue(s[..|s| - 1]) + DigitValue(s[|s| - 1])
  }

  /** A numeral without redundant leading zeros. */
  predicate Canonical(s: string) {
    |s| > 0 && AllDigits(s) && (|s| > 1 ==> s[0] != '0')
  }

  /** The shortest numeral of `n`, as `to_string` writes it. */
  function Decimal(n: nat): (s: string)
    ensures Canonical(s)
    ensures s[0] == '0' ==> n == 0
  {
    if n < 10 then [DigitChar(n)] else Decimal(n / 10) + [DigitChar(n % 10)]
  }

  /** Reading back a written number gives the number. */
  lemma {:induction false} DecimalValueOfDecimal(n: nat)
    ensures DecimalValue(Decimal(n)) == n
  {
    if n >= 10 {
      var s := Decimal(n);
      assert s[..|s| - 1] == Decimal(n / 10);
      DecimalValueOfDecimal(n / 10);
    }
  }

  lemma {:induction false} PositiveValue(s: string)
    requires |s| > 0 && AllDigits(s) && s[0] != '0'
    ensures DecimalValue(s) > 0
    decreases |s|
  {
    if |s| > 1 {
      PositiveValue(s[..|s| - 1]);
    }
  }

  /** Writing back a read canonical numeral gives the numeral. */
  lemma {:induction false} DecimalOfDecimalValue(s: string)
    requires Canonical(s)
    ensures Decimal(DecimalValue(s)) == s
    decreases |s|
  {
    var c := s[|s| - 1];
    var d := DigitValue(c);
    assert DigitChar(d) == c;
    if |s| == 1 {
      assert DecimalValue(s) == d;
    } else {
      var p := s[..|s| - 1];
      PositiveValue(p);
      DecimalOfDecimalValue(p);
      var v := DecimalValue(s);
      assert v == 10 * DecimalValue(p) + d;
      assert v / 10 == DecimalValue(p) && v % 10 == d;
      assert s == p + [c];
    }
  }
}
