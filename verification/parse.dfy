/** The coordinate parser of src/main.rs: `parse_position_part` and
    `parse_position`, with `str::parse::<usize>` on a 64-bit target. */
module Parse {
  import opened Results
  import opened Text
  import opened Board

  /** `usize::MAX` on a 64-bit target. */
  const UsizeMax: nat := 0xFFFF_FFFF_FFFF_FFFF

  /** The three error strings of the parser. */
  datatype ParseError = NotTwoParts | NotAnInteger | TooLarge

  function Message(e: ParseError): string {
    match e
    case NotTwoParts => "Not 2 parts"
    case NotAnInteger => "Not an integer"
    case TooLarge => "Too large"
  }

  /** `t` without the one leading '+' that `parse::<usize>` allows. */
  function Unsigned(t: string): string {
    if |t| > 0 && t[0] == '+' then t[1..] else t
  }

  /** `str::parse::<usize>`: an optional '+', then at least one ASCII digit and
      nothing else, with a value that fits in a `usize`; anything else fails. */
  function ParseUsize(t: string): (r: Option<nat>)
    ensures r.Some? ==> r.value <= UsizeMax
    ensures r.Some? ==> |Unsigned(t)| > 0 && AllDigits(Unsigned(t))
    ensures r.Some? ==> r.value == DecimalValue(Unsigned(t))
    ensures |t| > 0 && t[0] == '-' ==> r == None
    ensures |t| == 0 || t == "+" ==> r == None
    ensures |Unsigned(t)| > 0 && AllDigits(Unsigned(t)) && DecimalValue(Unsigned(t)) <= UsizeMax ==>
              r == Some(DecimalValue(Unsigned(t)))
  {
    var digits := Unsigned(t);
    if |t| == 0 || |digits| == 0 || !AllDigits(digits) then None
    else if DecimalValue(digits) > UsizeMax then None
    else Some(DecimalValue(digits))
  }

  /** Every number a `usize` holds is read back from its numeral, with or
      without a leading '+'. */
  lemma {:induction false} ParseUsizeOfDecimal(n: nat)
    requires n <= UsizeMax
    ensures ParseUsize(Decimal(n)) == Some(n)
    ensures ParseUsize("+" + Decimal(n)) == Some(n)
  {
    DecimalValueOfDecimal(n);
    assert Unsigned("+" + Decimal(n)) == Decimal(n);
  }

  /** Any character other than a digit, bar one leading '+', makes the
      text no `usize`. */
  lemma {:induction false} ParseUsizeStray(t: string, i: nat)
    requires i < |t| && !IsDigit(t[i]) && (i > 0 || t[0] != '+')
    ensures ParseUsize(t) == None
  {
    if t[0] == '+' {
      assert Unsigned(t)[i - 1] == t[i];
    } else {
      assert Unsigned(t)[i] == t[i];
    }
  }

  /** A numeral without sign or leading zeros is the numeral of the value read. */
  lemma {:induction false} ParseUsizeCanonical(t: string)
    requires Canonical(t)
    requires ParseUsize(t).Some?
    ensures Decimal(ParseUsize(t).value) == t
  {
    DecimalOfDecimalValue(t);
  }

  /** `parse_position_part`: the integer check comes before the range check. */
  function ParsePositionPart(s: string, boardSize: nat): (r: Result<nat, ParseError>)
    ensures r.Ok? ==> r.value < boardSize && ParseUsize(Trim(s)) == Some(r.value)
    ensures r == Err(NotAnInteger) <==> ParseUsize(Trim(s)) == None
    ensures r == Err(TooLarge) <==> ParseUsize(Trim(s)).Some? && ParseUsize(Trim(s)).value >= boardSize
    ensures r != Err(NotTwoParts)
  {
    match ParseUsize(Trim(s))
    case None => Err(NotAnInteger)
    case Some(pos) => if pos >= boardSize then Err(TooLarge) else Ok(pos)
  }

  /** The parts of `parse_position` after splitting: exactly two, the row
      and then the column, each checked by `ParsePositionPart`, the row first. */
  function ParseParts(parts: seq<string>, boardSize: nat): (r: Result<Position, ParseError>)
    ensures r == Err(NotTwoParts) <==> |parts| != 2
    ensures r.Ok? <==> (&& |parts| == 2
                        && ParsePositionPart(parts[0], boardSize).Ok?
                        && ParsePositionPart(parts[1], boardSize).Ok?)
    ensures r.Ok? ==> (&& r.value.row < boardSize && r.value.col < boardSize
                       && ParsePositionPart(parts[0], boardSize) == Ok(r.value.row)
                       && ParsePositionPart(parts[1], boardSize) == Ok(r.value.col))
    ensures |parts| == 2 && ParsePositionPart(parts[0], boardSize).Err? ==>
              r == Err(ParsePositionPart(parts[0], boardSize).error)
    ensures |parts| == 2 && ParsePositionPart(parts[0], boardSize).Ok?
              && ParsePositionPart(parts[1], boardSize).Err? ==>
              r == Err(ParsePositionPart(parts[1], boardSize).error)
  {
    if |parts| != 2 then Err(NotTwoParts)
    else
      match ParsePositionPart(parts[0], boardSize)
      case Err(e) => Err(e)
      case Ok(row) =>
        match ParsePositionPart(parts[1], boardSize)
        case Err(e) => Err(e)
        case Ok(col) => Ok(Position(row, col))
  }

  /** `parse_position`: the text is trimmed, split on whitespace, and its
      parts checked; trimming first makes no difference to the split. */
  function ParsePosition(s: string, boardSize: nat): (r: Result<Position, ParseError>)
    ensures r == ParseParts(Tokens(s), boardSize)
  {
    TokensOfTrim(s);
    ParseParts(Tokens(Trim(s)), boardSize)
  }

  /** A last word followed only by whitespace is one token. */
  lemma {:induction false} TokensOfLastWord(c: string, after: string)
    requires |c| > 0 && NoWhitespace(c) && AllWhitespace(after)
    ensures Tokens(c + after) == [c]
  {
    TokensDropTrailing(c, after);
    TokensOfWord(c, "");
    assert c + "" == c;
  }

  /** A word followed by non-empty whitespace is the first token. */
  lemma {:induction false} TokensOfLeadingWord(r: string, between: string, rest: string)
    requires |r| > 0 && NoWhitespace(r) && AllWhitespace(between) && |between| > 0
    ensures Tokens(r + (between + rest)) == [r] + Tokens(rest)
  {
    TokensOfWord(r, between + rest);
    TokensSkipLeading(between, rest);
  }

  lemma {:induction false} Regroup(a: string, b: string, c: string, d: string, e: string)
    ensures a + b + c + d + e == a + (b + (c + (d + e)))
  {
  }

  /** Two words with whitespace around and between them split into those words. */
  lemma {:induction false} TokensOfTwoWords(r: string, c: string, before: string, between: string, after: string)
    requires |r| > 0 && NoWhitespace(r) && |c| > 0 && NoWhitespace(c)
    requires AllWhitespace(before) && AllWhitespace(between) && AllWhitespace(after)
    requires |between| > 0
    ensures Tokens(before + r + between + c + after) == [r, c]
  {
    var rest := c + after;
    var line := r + (between + rest);
    Regroup(before, r, between, c, after);
    TokensSkipLeading(before, line);
    TokensOfLeadingWord(r, between, rest);
    TokensOfLastWord(c, after);
  }

  /** A numeral of a `usize` passes the integer check of the part parser,
      and then only the range check decides. */
  lemma {:induction false} ParsePositionPartOfDecimal(n: nat, boardSize: nat)
    requires n <= UsizeMax
    ensures ParsePositionPart(Decimal(n), boardSize) == if n < boardSize then Ok(n) else Err(TooLarge)
  {
    var d := Decimal(n);
    DigitsNoWhitespace(d);
    ParseUsizeOfDecimal(n);
    PartOfTrimmed(d, n, boardSize);
  }

  /** The part parser decides on the trimmed text alone. */
  lemma {:induction false} PartOfTrimmed(d: string, n: nat, boardSize: nat)
    requires NoWhitespace(d) && ParseUsize(d) == Some(n)
    ensures ParsePositionPart(d, boardSize) == if n < boardSize then Ok(n) else Err(TooLarge)
  {
    assert Trim(d) == d;
  }

  /** A position written as two numerals, with any whitespace before, between
      and after them, is read back as that position. */
  lemma {:induction false} ParsePositionOfDecimals(row: nat, col: nat, boardSize: nat, before: string, between: string, after: string)
    requires row < boardSize && col < boardSize && boardSize <= UsizeMax
    requires AllWhitespace(before) && AllWhitespace(between) && AllWhitespace(after)
    requires |between| > 0
    ensures ParsePosition(before + Decimal(row) + between + Decimal(col) + after, boardSize)
            == Ok(Position(row, col))
  {
    DecimalWord(row, boardSize);
    DecimalWord(col, boardSize);
    ParsePositionOfSpacedWords(Decimal(row), Decimal(col), before, between, after, boardSize, row, col);
  }

  /** The numeral of a coordinate on the board is one word the part parser
      accepts. */
  lemma {:induction false} DecimalWord(n: nat, boardSize: nat)
    requires n < boardSize <= UsizeMax
    ensures |Decimal(n)| > 0 && NoWhitespace(Decimal(n))
    ensures ParsePositionPart(Decimal(n), boardSize) == Ok(n)
  {
    DigitsNoWhitespace(Decimal(n));
    ParsePositionPartOfDecimal(n, boardSize);
  }

  /** Two accepted words with whitespace around and between them are read
      as the position they name. */
  lemma {:induction false} ParsePositionOfSpacedWords(r: string, c: string, before: string, between: string, after: string,
                                                      boardSize: nat, row: nat, col: nat)
    requires |r| > 0 && NoWhitespace(r) && |c| > 0 && NoWhitespace(c)
    requires AllWhitespace(before) && AllWhitespace(between) && AllWhitespace(after)
    requires |between| > 0
    requires ParsePositionPart(r, boardSize) == Ok(row)
    requires ParsePositionPart(c, boardSize) == Ok(col)
    ensures ParsePosition(before + r + between + c + after, boardSize) == Ok(Position(row, col))
  {
    TokensOfTwoWords(r, c, before, between, after);
    ParsePositionOfWords(before + r + between + c + after, r, c, boardSize, row, col);
  }

  /** Any line that does not split into exactly two words is refused as
      "Not 2 parts", whatever the words are. */
  lemma {:induction false} ParsePositionPartCount(toks: seq<string>, gaps: seq<string>, boardSize: nat)
    requires Separates(toks, gaps) && |toks| != 2
    ensures ParsePosition(Join(toks, gaps), boardSize) == Err(NotTwoParts)
  {
    TokensOfJoin(toks, gaps);
  }

  /** Two words joined by one space split into those two words. */
  lemma {:induction false} TokensOfSpacedPair(a: string, b: string)
    requires |a| > 0 && NoWhitespace(a) && |b| > 0 && NoWhitespace(b)
    ensures Tokens(a + " " + b) == [a, b]
  {
    TokensOfTwoWords(a, b, "", " ", "");
    assert "" + a + " " + b + "" == a + " " + b;
  }

  /** A line of two words the part parser accepts is read as that position. */
  lemma {:induction false} ParsePositionOfWords(s: string, a: string, b: string, boardSize: nat, row: nat, col: nat)
    requires Tokens(s) == [a, b]
    requires ParsePositionPart(a, boardSize) == Ok(row)
    requires ParsePositionPart(b, boardSize) == Ok(col)
    ensures ParsePosition(s, boardSize) == Ok(Position(row, col))
  {
  }

  /** Two numerals of positions on the board, one space apart, are read
      as that position. */
  lemma {:induction false} AcceptedPair(row: nat, col: nat, boardSize: nat)
    requires row < boardSize && col < boardSize && boardSize <= UsizeMax
    ensures ParsePosition(Decimal(row) + " " + Decimal(col), boardSize) == Ok(Position(row, col))
  {
    assert "" + Decimal(row) + " " + Decimal(col) + "" == Decimal(row) + " " + Decimal(col);
    ParsePositionOfDecimals(row, col, boardSize, "", " ", "");
  }

  /** The first line the parser's unit test accepts, on any board wider
      than 14 (`main` plays on 15). */
  lemma AcceptedExample(boardSize: nat)
    requires 14 < boardSize <= UsizeMax
    ensures ParsePosition("12 14", boardSize) == Ok(Position(12, 14))
  {
    assert Decimal(12) == "12" && Decimal(14) == "14";
    assert Decimal(12) + " " + Decimal(14) == "12 14";
    AcceptedPair(12, 14, boardSize);
  }

  /** The accepted line of the unit test on the first row. */
  lemma AcceptedZeroExample(boardSize: nat)
    requires 1 < boardSize <= UsizeMax
    ensures ParsePosition("0 1", boardSize) == Ok(Position(0, 1))
  {
    assert Decimal(0) == "0" && Decimal(1) == "1";
    assert Decimal(0) + " " + Decimal(1) == "0 1";
    AcceptedPair(0, 1, boardSize);
  }

  /** The accepted line of the unit test with leading, repeated and trailing
      spaces. */
  lemma AcceptedSpacedExample(boardSize: nat)
    requires 14 < boardSize <= UsizeMax
    ensures ParsePosition(" 12  14  ", boardSize) == Ok(Position(12, 14))
  {
    assert Decimal(12) == "12" && Decimal(14) == "14";
    assert " " + "12" + "  " + "14" + "  " == " 12  14  ";
    ParsePositionOfDecimals(12, 14, boardSize, " ", "  ", "  ");
  }

  /** A two-word line whose first word is no `usize` numeral is refused as
      "Not an integer", whatever the second word is. */
  lemma {:induction false} ParsePositionFirstNotInteger(s: string, a: string, b: string, boardSize: nat)
    requires Tokens(s) == [a, b]
    requires ParseUsize(Trim(a)) == None
    ensures ParsePosition(s, boardSize) == Err(NotAnInteger)
  {
  }

  /** A two-word line whose first word is accepted and whose second word is
      out of range is refused as "Too large". */
  lemma {:induction false} ParsePositionSecondTooLarge(s: string, a: string, b: string, boardSize: nat, row: nat)
    requires Tokens(s) == [a, b]
    requires ParsePositionPart(a, boardSize) == Ok(row)
    requires ParsePositionPart(b, boardSize) == Err(TooLarge)
    ensures ParsePosition(s, boardSize) == Err(TooLarge)
  {
  }

  /** Two numerals one space apart, the first on the board and the second
      off it, are refused as "Too large". */
  lemma {:induction false} RefusedPair(row: nat, col: nat, boardSize: nat)
    requires row < boardSize <= col <= UsizeMax
    ensures ParsePosition(Decimal(row) + " " + Decimal(col), boardSize) == Err(TooLarge)
  {
    var r, c := Decimal(row), Decimal(col);
    DigitsNoWhitespace(r);
    DigitsNoWhitespace(c);
    ParsePositionPartOfDecimal(row, boardSize);
    ParsePositionPartOfDecimal(col, boardSize);
    TokensOfSpacedPair(r, c);
    ParsePositionSecondTooLarge(r + " " + c, r, c, boardSize, row);
  }

  /** The line of the parser's unit test refused for its range. */
  lemma RefusedRangeExample(boardSize: nat)
    requires 12 < boardSize <= 15
    ensures ParsePosition("12 15", boardSize) == Err(TooLarge)
  {
    assert Decimal(12) == "12" && Decimal(15) == "15";
    assert Decimal(12) + " " + Decimal(15) == "12 15";
    RefusedPair(12, 15, boardSize);
  }

  /** Two words one space apart, the first holding a character that is no
      digit (and not one leading '+'), are refused as "Not an integer". */
  lemma {:induction false} RefusedFirstWord(a: string, b: string, i: nat, boardSize: nat)
    requires |a| > 0 && NoWhitespace(a) && |b| > 0 && NoWhitespace(b)
    requires i < |a| && !IsDigit(a[i]) && (i > 0 || a[0] != '+')
    ensures ParsePosition(a + " " + b, boardSize) == Err(NotAnInteger)
  {
    StrayWordNotInteger(a, i);
    SpacedPairFirstNotInteger(a + " " + b, a, b, boardSize);
  }

  /** A word holding a stray character is no `usize`, trimmed or not. */
  lemma {:induction false} StrayWordNotInteger(a: string, i: nat)
    requires NoWhitespace(a)
    requires i < |a| && !IsDigit(a[i]) && (i > 0 || a[0] != '+')
    ensures ParseUsize(Trim(a)) == None
  {
    ParseUsizeStray(a, i);
    assert Trim(a) == a;
  }

  /** Two words one space apart, the first no `usize`, are refused as
      "Not an integer". */
  lemma {:induction false} SpacedPairFirstNotInteger(s: string, a: string, b: string, boardSize: nat)
    requires |a| > 0 && NoWhitespace(a) && |b| > 0 && NoWhitespace(b)
    requires s == a + " " + b
    requires ParseUsize(Trim(a)) == None
    ensures ParsePosition(s, boardSize) == Err(NotAnInteger)
  {
    TokensOfSpacedPair(a, b);
    ParsePositionFirstNotInteger(s, a, b, boardSize);
  }

  /** A line of the parser's unit test refused for a sign on the row. */
  lemma RefusedSignExample(boardSize: nat)
    ensures ParsePosition("-1 2", boardSize) == Err(NotAnInteger)
  {
    assert "-1" + " " + "2" == "-1 2";
    RefusedFirstWord("-1", "2", 0, boardSize);
  }

  /** A line of the parser's unit test refused for a fraction as the row. */
  lemma RefusedFractionExample(boardSize: nat)
    ensures ParsePosition("12.0 15", boardSize) == Err(NotAnInteger)
  {
    assert "12.0" + " " + "15" == "12.0 15";
    RefusedFirstWord("12.0", "15", 2, boardSize);
  }

  /** A line of the parser's unit test refused for letters as the row. */
  lemma RefusedLettersExample(boardSize: nat)
    ensures ParsePosition("he he", boardSize) == Err(NotAnInteger)
  {
    assert "he" + " " + "he" == "he he";
    RefusedFirstWord("he", "he", 0, boardSize);
  }

  /** A line of the parser's unit test refused for a comma after the row. */
  lemma RefusedCommaExample(boardSize: nat)
    ensures ParsePosition("1, 2", boardSize) == Err(NotAnInteger)
  {
    assert "1," + " " + "2" == "1, 2";
    RefusedFirstWord("1,", "2", 1, boardSize);
  }

  /** A line of the parser's unit test refused for holding three parts. */
  lemma RefusedThreePartsExample(boardSize: nat)
    ensures ParsePosition("12 1 1", boardSize) == Err(NotTwoParts)
  {
    var toks, gaps := ["12", "1", "1"], ["", " ", " ", ""];
    assert Join(toks[3..], gaps[3..]) == "";
    assert Join(toks[2..], gaps[2..]) == " 1";
    assert Join(toks[1..], gaps[1..]) == " 1 1";
    assert Join(toks, gaps) == "12 1 1";
    assert Separates(toks, gaps);
    ParsePositionPartCount(toks, gaps, boardSize);
  }

  /** The empty line and a lone newline hold no part and are refused. */
  lemma RefusedBlankExamples(boardSize: nat)
    ensures ParsePosition("", boardSize) == Err(NotTwoParts)
    ensures ParsePosition("\n", boardSize) == Err(NotTwoParts)
  {
    assert "\n" + "" == "\n";
    TokensSkipLeading("\n", "");
  }
}
