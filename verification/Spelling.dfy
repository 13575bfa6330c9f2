/**
 Writing tokens down and lexing them again: string literals, numbers, words
 and operators, separated by spaces, come back as they were.
 */
module Spelling {
  import opened Lexical
  import opened LexSpec
  import opened OperatorTable
  import opened Tokenization

  lemma LookingConcat(src: string, pos: nat, a: string, b: string)
    ensures Looking(src, pos, a + b) <==> Looking(src, pos, a) && Looking(src, pos + |a|, b)
  {
    if Looking(src, pos, a + b) {
      assert forall i :: 0 <= i < |a| ==> (a + b)[i] == a[i];
      forall i | 0 <= i < |b| ensures src[pos + |a| + i] == b[i] {
        assert (a + b)[|a| + i] == b[i];
      }
    }
  }

  lemma LookingSlice(src: string, pos: nat, text: string)
    requires Looking(src, pos, text)
    ensures src[pos..pos + |text|] == text
  {
  }

  // ------------------------------------------------------------ String literals

  /** Bytes: what a token of eight-bit characters can hold. */
  predicate IsBytes(s: string) {
    forall i :: 0 <= i < |s| ==> s[i] < '\U{100}'
  }

  function HexDigit(n: nat): (c: char)
    requires n < 16
    ensures IsHex(c) && DigitValue(c) == n
  {
    if n < 10 then '0' + n as char else 'a' + (n - 10) as char
  }

  /** One character of a literal: as itself if it can be, else by name, else as two hexadecimal digits. */
  function EscapeChar(c: char): (s: string)
    requires c < '\U{100}'
  {
    if c == '\\' || IsQuote(c) then ['\\', c]
    else if ' ' <= c <= '~' then [c]
    else if c == '\U{08}' then "\\b"
    else if c == '\U{0C}' then "\\f"
    else if c == '\n' then "\\n"
    else if c == '\r' then "\\r"
    else if c == '\t' then "\\t"
    else if c == '\U{0B}' then "\\v"
    else ['\\', 'x', HexDigit(c as int / 16), HexDigit(c as int % 16)]
  }

  function Escape(s: string): string
    requires IsBytes(s)
  {
    if s == [] then [] else EscapeChar(s[0]) + Escape(s[1..])
  }

  /** The literal of s between quotes. */
  function Literal(s: string, quote: char): string
    requires IsBytes(s)
  {
    [quote] + Escape(s) + [quote]
  }

  lemma TwoHexDigits(src: string, pos: nat, c: char)
    requires c < '\U{100}'
    requires Looking(src, pos, [HexDigit(c as int / 16), HexDigit(c as int % 16)])
    ensures DecodeNumber(src, pos, 16, 2) == Escaped(c, pos + 2)
  {
    var h, l := HexDigit(c as int / 16), HexDigit(c as int % 16);
    assert src[pos] == [h, l][0] && src[pos + 1] == [h, l][1];
    assert CountDigits(src, pos + 1, 16, 1) == 1 + CountDigits(src, pos + 2, 16, 0);
    assert CountDigits(src, pos, 16, 2) == 2;
    assert src[pos..pos + 2] == [h, l];
    TwoDigitValue(h, l);
    assert c as int / 16 * 16 + c as int % 16 == c as int;
  }

  lemma TwoDigitValue(h: char, l: char)
    requires IsHex(h) && IsHex(l)
    ensures Value([h, l], 16, 0) == DigitValue(h) * 16 + DigitValue(l)
  {
    assert [h, l][1..] == [l] && [l][1..] == [];
    assert Value([l], 16, DigitValue(h)) == DigitValue(h) * 16 + DigitValue(l);
  }

  lemma EscapeCharLexes(src: string, pos: nat, c: char, quote: char)
    requires c < '\U{100}' && IsQuote(quote) && Looking(src, pos, EscapeChar(c))
    ensures var next := pos + |EscapeChar(c)|;
      next <= |src| && StringFrom(src, pos, quote) == Before(c, StringFrom(src, next, quote))
  {
    hide DecodeNumber;
    var e := EscapeChar(c);
    assert src[pos] == e[0] && (|e| > 1 ==> src[pos + 1] == e[1]);
    if |e| == 4 {
      assert src[pos + 2] == e[2] && src[pos + 3] == e[3];
      TwoHexDigits(src, pos + 2, c);
    }
  }

  /** A literal, lexed, is the string it was made from. */
  lemma {:induction false} LiteralLexes(src: string, pos: nat, s: string, quote: char)
    requires IsBytes(s) && IsQuote(quote) && Looking(src, pos, Escape(s) + [quote])
    ensures StringFrom(src, pos, quote) == Scan(s, pos + |Escape(s)| + 1)
    decreases |s|
  {
    hide EscapeChar, EscapeAt;
    if s == [] {
      assert src[pos] == (Escape(s) + [quote])[0];
    } else {
      var e, rest := EscapeChar(s[0]), Escape(s[1..]) + [quote];
      assert Escape(s) + [quote] == e + rest;
      LookingConcat(src, pos, e, rest);
      EscapeCharLexes(src, pos, s[0], quote);
      LiteralLexes(src, pos + |e|, s[1..], quote);
    }
  }

  // -------------------------------------------------------------------- Numbers

  /** `e`, a sign or none, and digits or none. */
  datatype Exponent = NoExponent | Exponent(e: char, sign: string, digits: string)

  datatype Number =
    | Hex(x: char, digits: string)
    | Octal(digits: string)
    | Decimal(whole: string, point: bool, fraction: string, exponent: Exponent)

  predicate AllDigits(s: string) { forall i :: 0 <= i < |s| ==> IsDigit(s[i]) }
  predicate AllOctal(s: string) { forall i :: 0 <= i < |s| ==> IsOctal(s[i]) }
  predicate AllHex(s: string) { forall i :: 0 <= i < |s| ==> IsHex(s[i]) }

  predicate IsExponent(x: Exponent) {
    x.NoExponent? || ((x.e == 'e' || x.e == 'E') && x.sign in {"", "+", "-"} && AllDigits(x.digits))
  }

  /** The numbers of the language: a zero before an octal digit makes no decimal. */
  predicate IsNumber(n: Number) {
    match n
    case Hex(x, digits) => (x == 'x' || x == 'X') && AllHex(digits)
    case Octal(digits) => digits != [] && AllOctal(digits)
    case Decimal(whole, point, fraction, exponent) =>
      && AllDigits(whole) && AllDigits(fraction) && IsExponent(exponent)
      && (whole == [] ==> point && fraction != [])
      && (!point ==> fraction == [])
      && !(|whole| > 1 && whole[0] == '0' && IsOctal(whole[1]))
  }

  function ExponentText(x: Exponent): string {
    if x.NoExponent? then [] else [x.e] + (x.sign + x.digits)
  }

  function NumberText(n: Number): string {
    match n
    case Hex(x, digits) => ['0', x] + digits
    case Octal(digits) => ['0'] + digits
    case Decimal(whole, point, fraction, exponent) =>
      whole + ((if point then "." else []) + (fraction + ExponentText(exponent)))
  }

  lemma {:induction false} DigitsStop(src: string, pos: nat, s: string)
    requires AllDigits(s) && Looking(src, pos, s) && !IsDigit(CharAt(src, pos + |s|))
    ensures DigitsEnd(src, pos) == pos + |s|
    decreases |s|
  {
    if s != [] {
      assert src[pos] == s[0];
      LookingConcat(src, pos, [s[0]], s[1..]);
      assert [s[0]] + s[1..] == s;
      DigitsStop(src, pos + 1, s[1..]);
    }
  }

  lemma {:induction false} OctalStop(src: string, pos: nat, s: string)
    requires AllOctal(s) && Looking(src, pos, s) && !IsOctal(CharAt(src, pos + |s|))
    ensures OctalEnd(src, pos) == pos + |s|
    decreases |s|
  {
    if s != [] {
      assert src[pos] == s[0];
      LookingConcat(src, pos, [s[0]], s[1..]);
      assert [s[0]] + s[1..] == s;
      OctalStop(src, pos + 1, s[1..]);
    }
  }

  lemma {:induction false} HexStop(src: string, pos: nat, s: string)
    requires AllHex(s) && Looking(src, pos, s) && !IsHex(CharAt(src, pos + |s|))
    ensures HexEnd(src, pos) == pos + |s|
    decreases |s|
  {
    if s != [] {
      assert src[pos] == s[0];
      LookingConcat(src, pos, [s[0]], s[1..]);
      assert [s[0]] + s[1..] == s;
      HexStop(src, pos + 1, s[1..]);
    }
  }

  lemma ExponentStops(src: string, pos: nat, x: Exponent)
    requires IsExponent(x) && Looking(src, pos, ExponentText(x)) && CharAt(src, pos + |ExponentText(x)|) == ' '
    ensures ExponentEnd(src, pos) == pos + |ExponentText(x)|
    ensures !IsDigit(CharAt(src, pos)) && CharAt(src, pos) != '.'
  {
    hide DigitsEnd;
    if x.Exponent? {
      LookingConcat(src, pos, [x.e], x.sign + x.digits);
      LookingConcat(src, pos + 1, x.sign, x.digits);
      assert src[pos] == [x.e][0];
      DigitsStop(src, pos + 1 + |x.sign|, x.digits);
      if x.sign != [] {
        assert src[pos + 1] == x.sign[0];
      } else if x.digits != [] {
        assert src[pos + 1] == x.digits[0];
      }
    }
  }

  lemma DecimalStops(src: string, pos: nat, n: Number)
    requires IsNumber(n) && n.Decimal?
    requires Looking(src, pos, NumberText(n)) && CharAt(src, pos + |NumberText(n)|) == ' '
    ensures FloatEnd(src, pos) == pos + |NumberText(n)|
  {
    hide DigitsEnd, ExponentEnd, ExponentText;
    var tail := n.fraction + ExponentText(n.exponent);
    var dot := if n.point then "." else [];
    LookingConcat(src, pos, n.whole, dot + tail);
    LookingConcat(src, pos + |n.whole|, dot, tail);
    var f := pos + |n.whole| + |dot|;
    LookingConcat(src, f, n.fraction, ExponentText(n.exponent));
    ExponentStops(src, f + |n.fraction|, n.exponent);
    DigitsStop(src, f, n.fraction);
    assert n.point ==> src[pos + |n.whole|] == dot[0];
    DigitsStop(src, pos, n.whole);
  }

  /** A number followed by a space is lexed whole. */
  lemma NumberLexes(src: string, pos: nat, n: Number)
    requires IsNumber(n) && Looking(src, pos, NumberText(n)) && CharAt(src, pos + |NumberText(n)|) == ' '
    ensures pos < |src| && StartsNumber(src, pos) && NumberEnd(src, pos) == pos + |NumberText(n)|
  {
    hide FloatEnd, OctalEnd, HexEnd;
    var text := NumberText(n);
    match n
    case Hex(x, digits) =>
      LookingConcat(src, pos, ['0', x], digits);
      assert src[pos] == ['0', x][0] && src[pos + 1] == ['0', x][1];
      HexStop(src, pos + 2, digits);
    case Octal(digits) =>
      LookingConcat(src, pos, ['0'], digits);
      assert src[pos] == ['0'][0] && src[pos + 1] == digits[0];
      OctalStop(src, pos + 1, digits);
    case Decimal(whole, point, fraction, exponent) =>
      DecimalStops(src, pos, n);
      DecimalStarts(src, pos, n);
  }

  lemma DecimalStarts(src: string, pos: nat, n: Number)
    requires IsNumber(n) && n.Decimal?
    requires Looking(src, pos, NumberText(n)) && CharAt(src, pos + |NumberText(n)|) == ' '
    ensures pos < |src| && StartsNumber(src, pos)
    ensures src[pos] == '0' ==> CharAt(src, pos + 1) != 'x' && CharAt(src, pos + 1) != 'X' && !IsOctal(CharAt(src, pos + 1))
  {
    var text := NumberText(n);
    assert text[0] == src[pos];
    assert |text| > 1 ==> text[1] == src[pos + 1];
    if |n.whole| <= 1 && n.exponent.Exponent? {
      assert |n.whole| == 1 && !n.point ==> text[1] == n.exponent.e;
    }
  }

  lemma {:induction false} DigitsTaken(src: string, pos: nat)
    requires pos <= |src|
    ensures AllDigits(src[pos..DigitsEnd(src, pos)])
    decreases |src| - pos
  {
    if IsDigit(CharAt(src, pos)) {
      DigitsTaken(src, pos + 1);
      assert src[pos..DigitsEnd(src, pos)] == [src[pos]] + src[pos + 1..DigitsEnd(src, pos + 1)];
    }
  }

  lemma {:induction false} OctalTaken(src: string, pos: nat)
    requires pos <= |src|
    ensures AllOctal(src[pos..OctalEnd(src, pos)])
    decreases |src| - pos
  {
    if IsOctal(CharAt(src, pos)) {
      OctalTaken(src, pos + 1);
      assert src[pos..OctalEnd(src, pos)] == [src[pos]] + src[pos + 1..OctalEnd(src, pos + 1)];
    }
  }

  lemma {:induction false} HexTaken(src: string, pos: nat)
    requires pos <= |src|
    ensures AllHex(src[pos..HexEnd(src, pos)])
    decreases |src| - pos
  {
    if IsHex(CharAt(src, pos)) {
      HexTaken(src, pos + 1);
      assert src[pos..HexEnd(src, pos)] == [src[pos]] + src[pos + 1..HexEnd(src, pos + 1)];
    }
  }

  lemma ExponentTaken(src: string, pos: nat) returns (x: Exponent)
    requires pos <= |src|
    ensures IsExponent(x) && src[pos..ExponentEnd(src, pos)] == ExponentText(x)
  {
    hide DigitsEnd;
    if ExponentEnd(src, pos) == pos {
      return NoExponent;
    }
    var digits := if CharAt(src, pos + 1) == '+' || CharAt(src, pos + 1) == '-' then pos + 2 else pos + 1;
    DigitsTaken(src, digits);
    var end := DigitsEnd(src, digits);
    var sign := if digits == pos + 1 then "" else if src[pos + 1] == '+' then "+" else "-";
    assert src[pos + 1..digits] == sign;
    x := Exponent(src[pos], sign, src[digits..end]);
    SliceJoin(src, pos + 1, digits, end);
    SliceJoin(src, pos, pos + 1, end);
    assert src[pos..pos + 1] == [x.e];
  }

  lemma SliceJoin(src: string, a: nat, b: nat, c: nat)
    requires a <= b <= c <= |src|
    ensures src[a..b] + src[b..c] == src[a..c]
  {
  }

  lemma DecimalShape(src: string, pos: nat)
    requires pos < |src| && StartsNumber(src, pos)
    ensures var whole := DigitsEnd(src, pos);
      && (whole == pos ==> src[pos] == '.' && DigitsEnd(src, pos + 1) > pos + 1)
      && (CharAt(src, whole) != '.' ==> DigitsEnd(src, whole) == whole)
  {
    DigitsEndStops(src, pos);
  }

  lemma {:induction false} DigitsEndStops(src: string, pos: nat)
    requires pos <= |src|
    ensures !IsDigit(CharAt(src, DigitsEnd(src, pos)))
    decreases |src| - pos
  {
    if IsDigit(CharAt(src, pos)) {
      DigitsEndStops(src, pos + 1);
    }
  }

  lemma DecimalTaken(src: string, pos: nat) returns (n: Number)
    requires pos < |src| && StartsNumber(src, pos)
    requires src[pos] == '0' ==> !IsOctal(CharAt(src, pos + 1))
    ensures IsNumber(n) && src[pos..FloatEnd(src, pos)] == NumberText(n)
  {
    hide ExponentEnd, ExponentText, IsExponent, DigitsEnd;
    var whole := DigitsEnd(src, pos);
    var point := CharAt(src, whole) == '.';
    var dot := if point then whole + 1 else whole;
    var fraction := DigitsEnd(src, dot);
    DigitsTaken(src, pos);
    DigitsTaken(src, dot);
    var x := ExponentTaken(src, fraction);
    var end := ExponentEnd(src, fraction);
    n := Decimal(src[pos..whole], point, src[dot..fraction], x);
    assert src[whole..dot] == if point then "." else [];
    SliceJoin(src, dot, fraction, end);
    SliceJoin(src, whole, dot, end);
    SliceJoin(src, pos, whole, end);
    DecimalShape(src, pos);
  }

  /** Whatever the lexer takes for a number is one of the language. */
  lemma NumberTakenIsNumber(src: string, pos: nat) returns (n: Number)
    requires pos < |src| && StartsNumber(src, pos)
    ensures IsNumber(n) && src[pos..NumberEnd(src, pos)] == NumberText(n)
  {
    hide FloatEnd;
    var d := CharAt(src, pos + 1);
    if src[pos] == '0' && (d == 'x' || d == 'X') {
      HexTaken(src, pos + 2);
      n := Hex(d, src[pos + 2..NumberEnd(src, pos)]);
    } else if src[pos] == '0' && IsOctal(d) {
      OctalTaken(src, pos + 1);
      n := Octal(src[pos + 1..NumberEnd(src, pos)]);
    } else {
      n := DecimalTaken(src, pos);
    }
  }

  // ---------------------------------------------------------------------- Words

  predicate IsWord(w: string) {
    w != [] && IsWordStart(w[0]) && forall i :: 0 <= i < |w| ==> IsWordChar(w[i])
  }

  lemma {:induction false} WordStops(src: string, pos: nat, w: string)
    requires forall i :: 0 <= i < |w| ==> IsWordChar(w[i])
    requires Looking(src, pos, w) && CharAt(src, pos + |w|) == ' '
    ensures WordFrom(src, pos) == Scan(w, pos + |w|)
    decreases |w|
  {
    if w != [] {
      assert src[pos] == w[0];
      LookingConcat(src, pos, [w[0]], w[1..]);
      assert [w[0]] + w[1..] == w;
      WordStops(src, pos + 1, w[1..]);
    }
  }

  lemma {:induction false} NoNul(w: string)
    requires EOF !in w
    ensures UpToNul(w) == w
  {
    if w != [] {
      NoNul(w[1..]);
    }
  }

  // ------------------------------------------------------------------ Operators

  /** Operators are made of printable characters other than the space. */
  lemma Graphic(c: char, i: nat, k: nat)
    requires i < |Operators(c)| && k < |Operators(c)[i].spelling|
    ensures ' ' < Operators(c)[i].spelling[k] <= '~'
  {
    hide Operators;
    if c in "+-*/%.:" {
      GraphicArithmetic(c, i, k);
    } else if c in "!&^|" {
      GraphicLogical(c, i, k);
    } else {
      GraphicOther(c, i, k);
    }
  }

  lemma GraphicArithmetic(c: char, i: nat, k: nat)
    requires c in "+-*/%.:" && i < |Operators(c)| && k < |Operators(c)[i].spelling|
    ensures ' ' < Operators(c)[i].spelling[k] <= '~'
  {
  }

  lemma GraphicLogical(c: char, i: nat, k: nat)
    requires c in "!&^|" && i < |Operators(c)| && k < |Operators(c)[i].spelling|
    ensures ' ' < Operators(c)[i].spelling[k] <= '~'
  {
  }

  lemma GraphicOther(c: char, i: nat, k: nat)
    requires c !in "+-*/%.:" && c !in "!&^|" && i < |Operators(c)| && k < |Operators(c)[i].spelling|
    ensures ' ' < Operators(c)[i].spelling[k] <= '~'
  {
  }

  /** An operator followed by a space is the longest that stands there. */
  lemma OperatorLexes(src: string, pos: nat, o: Op)
    requires IsOperator(o) && Looking(src, pos, o.spelling) && CharAt(src, pos + |o.spelling|) == ' '
    ensures Operators(CharAt(src, pos)) != [] && OperatorAt(src, pos) == o
  {
    hide Operators, OperatorAt;
    assert src[pos] == o.spelling[0];
    LongestMatch(src, pos);
    var p := OperatorAt(src, pos);
    if p != o {
      assert p.spelling[|o.spelling|] == ' ';
      var i :| 0 <= i < |Operators(p.spelling[0])| && Operators(p.spelling[0])[i] == p;
      Graphic(p.spelling[0], i, |o.spelling|);
    }
  }

  /** Neither a number nor a comment stands where an operator and a space stand. */
  lemma OperatorAlone(src: string, pos: nat, o: Op)
    requires IsOperator(o) && Looking(src, pos, o.spelling) && CharAt(src, pos + |o.spelling|) == ' '
    ensures src[pos] == '/' ==> CharAt(src, pos + 1) != '/' && CharAt(src, pos + 1) != '*'
    ensures src[pos] == '.' ==> !IsDigit(CharAt(src, pos + 1))
  {
    hide Operators;
    var c := o.spelling[0];
    assert src[pos] == c && (|o.spelling| > 1 ==> src[pos + 1] == o.spelling[1]);
    if c == '/' {
      Divisions(o);
    } else if c == '.' {
      Dots(o);
    }
  }

  lemma Divisions(o: Op)
    requires o in Operators('/')
    ensures o.spelling == "/" || (|o.spelling| == 2 && o.spelling[1] in "=>")
  {
  }

  lemma Dots(o: Op)
    requires o in Operators('.')
    ensures o.spelling == "." || (|o.spelling| > 1 && o.spelling[1] == '.')
  {
  }

  // ----------------------------------------------------------------- Token lists

  datatype Item =
    | OperatorItem(op: Op)
    | WordItem(word: string)
    | NumberItem(number: Number)
    | StringItem(text: string, quote: char)

  predicate IsItem(item: Item) {
    match item
    case OperatorItem(op) => IsOperator(op)
    case WordItem(word) => IsWord(word)
    case NumberItem(number) => IsNumber(number)
    case StringItem(text, quote) => IsBytes(text) && IsQuote(quote)
  }

  function Print(item: Item): string
    requires IsItem(item)
  {
    match item
    case OperatorItem(op) => op.spelling
    case WordItem(word) => word
    case NumberItem(number) => NumberText(number)
    case StringItem(text, quote) => Literal(text, quote)
  }

  /** The token an item stands for; only operators may have a text of their own. */
  function Meaning(item: Item): Tok {
    match item
    case OperatorItem(op) => OpTok(op, ' ')
    case WordItem(word) =>
      if word in KEYWORDS then Tok(KEYWORDS[word].id, KEYWORDS[word].sub, KEYWORDS[word].mask, word)
      else Tok(T_ID, -1, 0, word)
    case NumberItem(number) => Tok(T_NUMBER, -1, 0, NumberText(number))
    case StringItem(text, quote) => Tok(T_STRING, -1, 0, text)
  }

  function PrintAll(items: seq<Item>): string
    requires forall item :: item in items ==> IsItem(item)
  {
    if items == [] then [] else Print(items[0]) + (" " + PrintAll(items[1..]))
  }

  function Meanings(items: seq<Item>): seq<Tok> {
    if items == [] then [] else [Meaning(items[0])] + Meanings(items[1..])
  }

  /** The lexer, set at the item, takes exactly it. */
  ghost predicate Taken(src: string, pos: nat, item: Item)
    requires IsItem(item)
  {
    && pos < |src| && GapItemEnd(src, pos) == pos
    && TokenAt(src, pos) == Lexed(Meaning(item), pos + |Print(item)|)
  }

  ghost predicate PrintedAt(src: string, pos: nat, item: Item)
    requires IsItem(item)
  {
    Looking(src, pos, Print(item)) && CharAt(src, pos + |Print(item)|) == ' '
  }

  lemma OperatorTaken(src: string, pos: nat, item: Item)
    requires IsItem(item) && item.OperatorItem? && PrintedAt(src, pos, item)
    ensures Taken(src, pos, item)
  {
    hide Operators, OperatorAt, OpTok, LineEnd, BlockEnd, StringFrom, WordFrom, NumberEnd;
    var o := item.op;
    OperatorLexes(src, pos, o);
    OperatorAlone(src, pos, o);
    OperatorChars(src[pos]);
  }

  lemma WordTaken(src: string, pos: nat, item: Item)
    requires IsItem(item) && item.WordItem? && PrintedAt(src, pos, item)
    ensures Taken(src, pos, item)
  {
    hide LineEnd, BlockEnd, StringFrom, WordFrom, NumberEnd, Operators, OperatorAt;
    assert src[pos] == item.word[0];
    WordStops(src, pos, item.word);
    assert EOF !in item.word;
    NoNul(item.word);
  }

  lemma NumberTaken(src: string, pos: nat, item: Item)
    requires IsItem(item) && item.NumberItem? && PrintedAt(src, pos, item)
    ensures Taken(src, pos, item)
  {
    hide LineEnd, BlockEnd, StringFrom, WordFrom, NumberEnd, Operators, OperatorAt, NumberText;
    NumberLexes(src, pos, item.number);
    LookingSlice(src, pos, NumberText(item.number));
  }

  lemma StringTaken(src: string, pos: nat, item: Item)
    requires IsItem(item) && item.StringItem? && PrintedAt(src, pos, item)
    ensures Taken(src, pos, item)
  {
    hide LineEnd, BlockEnd, StringFrom, WordFrom, NumberEnd, Operators, OperatorAt, Escape;
    var text, quote := item.text, item.quote;
    assert Literal(text, quote) == [quote] + (Escape(text) + [quote]);
    LookingConcat(src, pos, [quote], Escape(text) + [quote]);
    assert src[pos] == [quote][0];
    LiteralLexes(src, pos + 1, text, quote);
  }

  lemma ItemTaken(src: string, pos: nat, item: Item)
    requires IsItem(item) && PrintedAt(src, pos, item)
    ensures Taken(src, pos, item)
  {
    match item
    case OperatorItem(_) => OperatorTaken(src, pos, item);
    case WordItem(_) => WordTaken(src, pos, item);
    case NumberItem(_) => NumberTaken(src, pos, item);
    case StringItem(_, _) => StringTaken(src, pos, item);
  }

  lemma SpaceSkipped(src: string, pos: nat)
    requires CharAt(src, pos) == ' ' && pos < |src|
    ensures Tokens(src, pos) == Tokens(src, pos + 1)
  {
    assert GapItemEnd(src, pos) == pos + 1;
    assert SkipGap(src, pos) == SkipGap(src, pos + 1);
  }

  lemma TakenFirst(src: string, pos: nat, item: Item)
    requires IsItem(item) && Taken(src, pos, item)
    ensures pos + |Print(item)| <= |src|
    ensures Tokens(src, pos) == [Meaning(item)] + Tokens(src, pos + |Print(item)|)
  {
    hide TokenAt, Print, Meaning, GapItemEnd;
    TokenProgress(src, pos);
  }

  /** Any list of operators, words, numbers and strings, printed with a space behind each, is lexed as that list. */
  lemma {:induction false} PrintThenLex(src: string, pos: nat, items: seq<Item>)
    requires forall item :: item in items ==> IsItem(item)
    requires Looking(src, pos, PrintAll(items)) && |src| == pos + |PrintAll(items)|
    ensures Tokens(src, pos) == Meanings(items)
    decreases |items|
  {
    hide IsItem, Print, Meaning, Tokens;
    if items == [] {
      NoMoreTokens(src);
    } else {
      var item, rest := items[0], PrintAll(items[1..]);
      LookingConcat(src, pos, Print(item), " " + rest);
      var end := pos + |Print(item)|;
      LookingConcat(src, end, " ", rest);
      assert src[end] == " "[0];
      ItemTaken(src, pos, item);
      TakenFirst(src, pos, item);
      SpaceSkipped(src, end);
      PrintThenLex(src, end + 1, items[1..]);
    }
  }

  lemma NoMoreTokens(src: string)
    ensures Tokens(src, |src|) == []
  {
    TokensStep(src, |src|);
    LexAtEnd(src);
  }

  lemma {:induction false} EscapedIsSource(s: string)
    requires IsBytes(s)
    ensures IsSource(Escape(s))
  {
    if s != [] {
      EscapedIsSource(s[1..]);
      assert forall c :: c in EscapeChar(s[0]) ==> EOF < c < '\U{80}';
    }
  }

  lemma OperatorIsSource(o: Op)
    requires IsOperator(o)
    ensures IsSource(o.spelling)
  {
    hide Operators;
    var c := o.spelling[0];
    var i :| 0 <= i < |Operators(c)| && Operators(c)[i] == o;
    forall k | 0 <= k < |o.spelling| ensures EOF < o.spelling[k] < '\U{80}' {
      Graphic(c, i, k);
    }
  }

  lemma NumberIsSource(n: Number)
    requires IsNumber(n)
    ensures IsSource(NumberText(n))
  {
    if n.Decimal? {
      assert IsSource(ExponentText(n.exponent));
      assert IsSource(n.fraction + ExponentText(n.exponent));
    }
  }

  lemma ItemIsSource(item: Item)
    requires IsItem(item)
    ensures IsSource(Print(item))
  {
    hide EscapeChar, Escape, Operators, IsNumber, NumberText;
    match item
    case OperatorItem(op) => OperatorIsSource(op);
    case WordItem(word) =>
    case NumberItem(number) => NumberIsSource(number);
    case StringItem(text, quote) => EscapedIsSource(text);
  }

  /** What is printed is text the lexer accepts: ASCII, without NUL. */
  lemma {:induction false} PrintedIsSource(items: seq<Item>)
    requires forall item :: item in items ==> IsItem(item)
    ensures IsSource(PrintAll(items))
  {
    hide IsItem, Print;
    if items != [] {
      ItemIsSource(items[0]);
      PrintedIsSource(items[1..]);
    }
  }
}
