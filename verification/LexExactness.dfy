/**
 Which token stands where, and how long it is, said of any source: characters
 by enumeration, numbers as the longest that stand there, and the one kind of
 token each first character makes (ecGetToken and makeNumberToken in
 src/compiler/ecLex.c).
 */
module LexExactness {
  import opened Lexical
  import opened LexSpec
  import opened OperatorTable
  import opened Spelling

  // ------------------------------------------------------------------ Characters

  predicate IsLetter(c: char) {
    c in "abcdefghijklm" || c in "nopqrstuvwxyz" || c in "ABCDEFGHIJKLM" || c in "NOPQRSTUVWXYZ"
  }

  lemma CharacterClasses(c: char)
    ensures IsDigit(c) <==> c in "0123456789"
    ensures IsOctal(c) <==> c in "01234567"
    ensures IsHex(c) <==> c in "0123456789" || c in "abcdef" || c in "ABCDEF"
    ensures IsQuote(c) <==> c in "\"'"
    ensures IsWhite(c) <==> c in " \t\r\n" || c == 11 as char || c == 12 as char
  {
  }

  lemma WordClasses(c: char)
    ensures IsAlpha(c) <==> IsLetter(c)
    ensures IsWordStart(c) <==> IsLetter(c) || c in "_$"
    ensures IsWordChar(c) <==> IsLetter(c) || c in "_$" || c in "0123456789"
  {
  }

  // --------------------------------------------------------------------- Numbers

  lemma {:induction false} DigitsRun(src: string, pos: nat, s: string)
    requires pos <= |src| && AllDigits(s) && Looking(src, pos, s)
    ensures DigitsEnd(src, pos) >= pos + |s|
    ensures !IsDigit(CharAt(src, pos + |s|)) ==> DigitsEnd(src, pos) == pos + |s|
    decreases |s|
  {
    if s != [] {
      assert src[pos] == s[0];
      LookingConcat(src, pos, [s[0]], s[1..]);
      assert [s[0]] + s[1..] == s;
      DigitsRun(src, pos + 1, s[1..]);
    }
  }

  lemma {:induction false} OctalRunEnd(src: string, pos: nat, s: string)
    requires pos <= |src| && AllOctal(s) && Looking(src, pos, s)
    ensures OctalEnd(src, pos) >= pos + |s|
    decreases |s|
  {
    if s != [] {
      assert src[pos] == s[0];
      LookingConcat(src, pos, [s[0]], s[1..]);
      assert [s[0]] + s[1..] == s;
      OctalRunEnd(src, pos + 1, s[1..]);
    }
  }

  lemma {:induction false} HexRunEnd(src: string, pos: nat, s: string)
    requires pos <= |src| && AllHex(s) && Looking(src, pos, s)
    ensures HexEnd(src, pos) >= pos + |s|
    decreases |s|
  {
    if s != [] {
      assert src[pos] == s[0];
      LookingConcat(src, pos, [s[0]], s[1..]);
      assert [s[0]] + s[1..] == s;
      HexRunEnd(src, pos + 1, s[1..]);
    }
  }

  lemma ExponentRun(src: string, pos: nat, x: Exponent)
    requires pos <= |src| && IsExponent(x) && Looking(src, pos, ExponentText(x))
    ensures ExponentEnd(src, pos) >= pos + |ExponentText(x)|
    ensures x.Exponent? ==> !IsDigit(CharAt(src, pos)) && CharAt(src, pos) != '.'
  {
    hide DigitsEnd;
    if x.Exponent? {
      LookingConcat(src, pos, [x.e], x.sign + x.digits);
      LookingConcat(src, pos + 1, x.sign, x.digits);
      assert src[pos] == [x.e][0];
      if x.sign != [] {
        assert src[pos + 1] == x.sign[0];
        DigitsRun(src, pos + 2, x.digits);
      } else if x.digits != [] {
        assert src[pos + 1] == x.digits[0];
        DigitsRun(src, pos + 1, x.digits);
      }
    }
  }

  lemma DecimalRun(src: string, pos: nat, n: Number)
    requires pos <= |src| && IsNumber(n) && n.Decimal? && Looking(src, pos, NumberText(n))
    ensures FloatEnd(src, pos) >= pos + |NumberText(n)|
  {
    hide DigitsEnd, ExponentEnd, ExponentText, IsExponent;
    var tail := n.fraction + ExponentText(n.exponent);
    var dot := if n.point then "." else [];
    LookingConcat(src, pos, n.whole, dot + tail);
    LookingConcat(src, pos + |n.whole|, dot, tail);
    var f := pos + |n.whole| + |dot|;
    LookingConcat(src, f, n.fraction, ExponentText(n.exponent));
    ExponentRun(src, f + |n.fraction|, n.exponent);
    assert n.point ==> src[pos + |n.whole|] == dot[0];
    NoExponentText(n.exponent);
    DigitsRun(src, pos, n.whole);
    DigitsRun(src, f, n.fraction);
  }

  lemma NoExponentText(x: Exponent)
    ensures x.NoExponent? ==> ExponentText(x) == []
  {
  }

  /** No number of the language that stands at a position is longer than what the lexer takes for one there. */
  lemma NumberLongest(src: string, pos: nat, n: Number)
    requires pos < |src| && IsNumber(n) && Looking(src, pos, NumberText(n))
    ensures pos + |NumberText(n)| <= NumberEnd(src, pos)
  {
    hide FloatEnd, OctalEnd, HexEnd;
    match n
    case Hex(x, digits) =>
      LookingConcat(src, pos, ['0', x], digits);
      assert src[pos] == ['0', x][0] && src[pos + 1] == ['0', x][1];
      HexRunEnd(src, pos + 2, digits);
    case Octal(digits) =>
      LookingConcat(src, pos, ['0'], digits);
      assert src[pos] == ['0'][0] && src[pos + 1] == digits[0];
      OctalRunEnd(src, pos + 1, digits);
    case Decimal(whole, point, fraction, exponent) =>
      DecimalRun(src, pos, n);
      if src[pos] == '0' {
        ZeroAlone(src, pos, n);
      }
  }

  /** Where a hexadecimal or an octal number begins, no decimal is longer than its zero. */
  lemma ZeroAlone(src: string, pos: nat, n: Number)
    requires pos < |src| && IsNumber(n) && n.Decimal? && Looking(src, pos, NumberText(n))
    requires src[pos] == '0'
    ensures var d := CharAt(src, pos + 1); d == 'x' || d == 'X' || IsOctal(d) ==> |NumberText(n)| == 1
  {
    var text := NumberText(n);
    assert text[0] == src[pos] && (|text| > 1 ==> text[1] == src[pos + 1]);
    if |n.whole| <= 1 && n.exponent.Exponent? {
      assert |n.whole| == 1 && !n.point ==> text[1] == n.exponent.e;
    }
  }

  /** A number begins where one of the language stands, and nowhere else. */
  lemma NumberStands(src: string, pos: nat)
    requires pos < |src|
    ensures StartsNumber(src, pos) <==> exists n :: IsNumber(n) && Looking(src, pos, NumberText(n))
  {
    if StartsNumber(src, pos) {
      var n := NumberTakenIsNumber(src, pos);
      assert Looking(src, pos, NumberText(n));
    }
    if n :| IsNumber(n) && Looking(src, pos, NumberText(n)) {
      NumberBegins(src, pos, n);
    }
  }

  lemma NumberBegins(src: string, pos: nat, n: Number)
    requires pos < |src| && IsNumber(n) && Looking(src, pos, NumberText(n))
    ensures StartsNumber(src, pos)
  {
    var text := NumberText(n);
    assert text[0] == src[pos] && (|text| > 1 ==> text[1] == src[pos + 1]);
  }

  // ---------------------------------------------------------------- Kinds of tokens

  /**
   The token at a position where no gap stands, by what stands there: a quote
   makes a string, a number of the language the longest such number, a letter,
   underscore or dollar a word, an operator the operator; anything else, a lone
   backslash included, is an error of one character.
   */
  lemma TokenKinds(src: string, pos: nat)
    requires pos < |src|
    ensures var r, c := TokenAt(src, pos), src[pos];
      if c == '"' || c == '\'' then r.tok.id == T_STRING
      else if exists n :: IsNumber(n) && Looking(src, pos, NumberText(n)) then
        && r.tok == Tok(T_NUMBER, -1, 0, src[pos..r.end])
        && (exists n :: IsNumber(n) && src[pos..r.end] == NumberText(n))
        && forall n :: IsNumber(n) && Looking(src, pos, NumberText(n)) ==> pos + |NumberText(n)| <= r.end
      else if IsLetter(c) || c == '_' || c == '$' then
        r.tok.id == T_ID || exists word :: word in KEYWORDS && r.tok.id == KEYWORDS[word].id
      else if Operators(c) != [] then
        exists o :: o in Operators(c) && r.end == pos + |o.spelling|
                    && r.tok.id == o.id && r.tok.sub == o.sub && r.tok.mask == o.mask
      else r == Lexed(Tok(T_ERR, -1, 0, []), pos + 1)
  {
    hide Operators, OperatorAt, StringFrom, WordFrom, StartsNumber, NumberEnd, IsNumber, NumberText;
    NumberStands(src, pos);
    WordClasses(src[pos]);
    if StartsNumber(src, pos) {
      var n := NumberTakenIsNumber(src, pos);
      forall m | IsNumber(m) && Looking(src, pos, NumberText(m)) ensures pos + |NumberText(m)| <= NumberEnd(src, pos) {
        NumberLongest(src, pos, m);
      }
      if src[pos] == '"' || src[pos] == '\'' {
        QuoteNoNumber(src, pos);
      }
    }
  }

  lemma QuoteNoNumber(src: string, pos: nat)
    requires StartsNumber(src, pos)
    ensures CharAt(src, pos) != '"' && CharAt(src, pos) != '\''
  {
  }
}
