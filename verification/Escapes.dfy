/**
 Escapes in strings and words, spelled every way the lexer knows: by name, by
 two or four hexadecimal digits, by octal digits, with fewer digits than there
 could be, and in words (src/compiler/ecLex.c).
 */
module Escapes {
  import opened Lexical
  import opened LexSpec
  import opened Spelling

  // ---------------------------------------------------------------------- Digits

  const LOWER: string := "0123456789abcdef"
  const UPPER: string := "0123456789ABCDEF"

  /** `text` spells these digits, in either case. */
  ghost predicate SpellsDigits(text: string, ns: seq<nat>) {
    |text| == |ns| && forall i :: 0 <= i < |ns| ==> ns[i] < 16 && (text[i] == LOWER[ns[i]] || text[i] == UPPER[ns[i]])
  }

  /** The number with these digits. */
  function Number(ns: seq<nat>, radix: nat): nat {
    if ns == [] then 0 else Number(ns[..|ns| - 1], radix) * radix + ns[|ns| - 1]
  }

  lemma DigitSpelled(c: char, n: nat)
    requires n < 16 && (c == LOWER[n] || c == UPPER[n])
    ensures IsHex(c) && DigitValue(c) == n && (IsDigit(c) <==> n < 10) && (IsOctal(c) <==> n < 8)
  {
  }

  lemma OneDigit(n: nat, radix: nat)
    ensures Number([n], radix) == n
  {
    assert [n][..0] == [];
  }

  lemma {:induction false} DigitsValue(text: string, ns: seq<nat>, radix: nat, val: nat)
    requires SpellsDigits(text, ns) && forall i :: 0 <= i < |ns| ==> ns[i] < radix
    ensures Value(text, radix, val) == Number([val] + ns, radix)
    decreases |ns|
  {
    hide DigitValue, Number;
    OneDigit(val, radix);
    if ns == [] {
      assert [val] + ns == [val];
    } else {
      DigitSpelled(text[0], ns[0]);
      DigitsValue(text[1..], ns[1..], radix, val * radix + ns[0]);
      NumberFront(val, ns, radix);
    }
  }

  /** The leading digit counts radix times for the digit behind it. */
  lemma {:induction false} NumberFront(val: nat, ns: seq<nat>, radix: nat)
    requires ns != []
    ensures Number([val] + ns, radix) == Number([val * radix + ns[0]] + ns[1..], radix)
    decreases |ns|
  {
    var last := |ns| - 1;
    assert ([val] + ns)[..|ns|] == [val] + ns[..last];
    var b := [val * radix + ns[0]] + ns[1..];
    if last == 0 {
      assert [val] + ns[..0] == [val] && [val][..0] == [] && b == [val * radix + ns[0]] && b[..0] == [];
    } else {
      assert b[..|b| - 1] == [val * radix + ns[0]] + ns[1..][..last - 1];
      assert ns[..last][1..] == ns[1..][..last - 1];
      NumberFront(val, ns[..last], radix);
    }
  }

  lemma {:induction false} LeadingZero(ns: seq<nat>, radix: nat)
    ensures Number([0] + ns, radix) == Number(ns, radix)
    decreases |ns|
  {
    if ns == [] {
      assert [0] + ns == [0] && [0][..0] == [];
    } else {
      assert ([0] + ns)[..|ns|] == [0] + ns[..|ns| - 1];
      LeadingZero(ns[..|ns| - 1], radix);
    }
  }

  /** Where a run of digits ends: at the limit, or before the first character that is none. */
  predicate RunEnds(src: string, end: nat, length: nat, limit: nat, radix: nat) {
    length == limit || (length < limit && !(if radix == 16 then IsHex(CharAt(src, end)) else IsDigit(CharAt(src, end))))
  }

  lemma {:induction false} RunCounted(src: string, pos: nat, text: string, radix: nat, limit: nat)
    requires Looking(src, pos, text) && RunEnds(src, pos + |text|, |text|, limit, radix)
    requires forall i :: 0 <= i < |text| ==> if radix == 16 then IsHex(text[i]) else IsDigit(text[i])
    ensures CountDigits(src, pos, radix, limit) == |text|
    decreases |text|
  {
    if text != [] {
      assert src[pos] == text[0];
      LookingConcat(src, pos, [text[0]], text[1..]);
      assert [text[0]] + text[1..] == text;
      RunCounted(src, pos + 1, text[1..], radix, limit - 1);
    }
  }

  lemma DigitsAreHex(text: string, ns: seq<nat>)
    requires SpellsDigits(text, ns)
    ensures |text| == |ns| && (forall i :: 0 <= i < |text| ==> IsHex(text[i])) && forall i :: 0 <= i < |ns| ==> ns[i] < 16
  {
    forall i | 0 <= i < |text| ensures IsHex(text[i]) {
      DigitSpelled(text[i], ns[i]);
    }
  }

  /** Hexadecimal digits, as many as stand there up to the limit, are the number they spell, cut to eight bits. */
  lemma HexRun(src: string, pos: nat, text: string, ns: seq<nat>, limit: nat)
    requires SpellsDigits(text, ns) && Looking(src, pos, text) && RunEnds(src, pos + |ns|, |ns|, limit, 16)
    ensures pos + |ns| <= |src|
    ensures DecodeNumber(src, pos, 16, limit) == Escaped((Number(ns, 16) % 256) as char, pos + |ns|)
  {
    hide Value, Number, CountDigits, SpellsDigits, IsHex;
    DigitsAreHex(text, ns);
    RunCounted(src, pos, text, 16, limit);
    LookingSlice(src, pos, text);
    DigitsValue(text, ns, 16, 0);
    LeadingZero(ns, 16);
  }

  /**
   Up to three decimal digits are read behind a zero; what counts are those
   before the first 8 or 9, as an octal number cut to eight bits.
   */
  lemma OctalRun(src: string, pos: nat, text: string, ns: seq<nat>, octal: nat)
    requires SpellsDigits(text, ns) && Looking(src, pos, text) && RunEnds(src, pos + |ns|, |ns|, 3, 8)
    requires octal <= |ns| && (forall i :: 0 <= i < |ns| ==> ns[i] < 10)
    requires (forall i :: 0 <= i < octal ==> ns[i] < 8) && (octal < |ns| ==> ns[octal] >= 8)
    ensures pos + |ns| <= |src|
    ensures DecodeNumber(src, pos, 8, 3) == Escaped((Number(ns[..octal], 8) % 256) as char, pos + |ns|)
  {
    hide Value, Number, CountDigits;
    forall i | 0 <= i < |text| ensures IsDigit(text[i]) {
      DigitSpelled(text[i], ns[i]);
    }
    RunCounted(src, pos, text, 8, 3);
    LookingSlice(src, pos, text);
    ValueStops(text, ns, octal, 0);
    LeadingZero(ns[..octal], 8);
  }

  lemma {:induction false} ValueStops(text: string, ns: seq<nat>, octal: nat, val: nat)
    requires SpellsDigits(text, ns) && octal <= |ns|
    requires (forall i :: 0 <= i < octal ==> ns[i] < 8) && (octal < |ns| ==> ns[octal] >= 8)
    ensures Value(text, 8, val) == Number([val] + ns[..octal], 8)
    decreases octal
  {
    hide DigitValue, Number;
    OneDigit(val, 8);
    if octal > 0 {
      DigitSpelled(text[0], ns[0]);
      ValueStops(text[1..], ns[1..], octal - 1, val * 8 + ns[0]);
      NumberFront(val, ns[..octal], 8);
      assert ns[..octal][1..] == ns[1..][..octal - 1];
    } else {
      assert [val] + ns[..0] == [val];
      if ns != [] {
        DigitSpelled(text[0], ns[0]);
      }
    }
  }

  // ---------------------------------------------------------------------- Pieces

  /** One character of a string or a word, and how it is spelled. */
  datatype Piece =
    | Plain(c: char)
    | Named(letter: char)                      // backslash and a letter
    | HexEscape(letter: char, text: string, ns: seq<nat>)  // \x and up to two digits, \u and up to four
    | OctalEscape(text: string, ns: seq<nat>, octal: nat)  // \0 and up to three digits

  const NAMES: map<char, char> :=
    map['b' := '\U{08}', 'f' := '\U{0C}', 'n' := '\n', 'r' := '\r', 't' := '\t', 'v' := '\U{0B}']

  function HexLimit(letter: char): nat {
    if letter == 'u' then 4 else 2
  }

  function Spelled(p: Piece): string {
    match p
    case Plain(c) => [c]
    case Named(letter) => ['\\', letter]
    case HexEscape(letter, text, _) => ['\\', letter] + text
    case OctalEscape(text, _, _) => ['\\', '0'] + text
  }

  /** The character a piece stands for; a name that is none stands for itself. */
  function Meant(p: Piece): char {
    match p
    case Plain(c) => c
    case Named(letter) => if letter in NAMES then NAMES[letter] else letter
    case HexEscape(_, _, ns) => (Number(ns, 16) % 256) as char
    case OctalEscape(_, ns, octal) => (Number(if octal <= |ns| then ns[..octal] else [], 8) % 256) as char
  }

  /** The pieces of a string between these quotes. */
  ghost predicate IsPiece(p: Piece, quote: char) {
    match p
    case Plain(c) => c != quote && c != '\\'
    case Named(letter) => letter != 'u' && letter != 'x' && letter != '0'
    case HexEscape(letter, text, ns) => (letter == 'u' || letter == 'x') && SpellsDigits(text, ns)
    case OctalEscape(text, ns, octal) =>
      && SpellsDigits(text, ns) && octal <= |ns|
      && (forall i :: 0 <= i < |ns| ==> ns[i] < 10)
      && (forall i :: 0 <= i < octal ==> ns[i] < 8) && (octal < |ns| ==> ns[octal] >= 8)
  }

  /** Behind a numeric escape no digit follows that it could still take. */
  predicate Closed(src: string, end: nat, p: Piece) {
    match p
    case HexEscape(letter, text, ns) => RunEnds(src, end, |ns|, HexLimit(letter), 16)
    case OctalEscape(text, ns, _) => RunEnds(src, end, |ns|, 3, 8)
    case _ => true
  }

  /** Each spelling, in a string, is its character, and the text goes on behind it. */
  lemma PieceInString(src: string, pos: nat, p: Piece, quote: char)
    requires IsPiece(p, quote) && IsQuote(quote) && Looking(src, pos, Spelled(p)) && Closed(src, pos + |Spelled(p)|, p)
    ensures var end := pos + |Spelled(p)|;
      end <= |src| && StringFrom(src, pos, quote) == Before(Meant(p), StringFrom(src, end, quote))
  {
    hide DecodeNumber, Number, SpellsDigits, RunEnds;
    var text := Spelled(p);
    assert src[pos] == text[0] && (|text| > 1 ==> src[pos + 1] == text[1]);
    match p {
      case Plain(c) =>
      case Named(letter) => NameAt(src, pos + 1, letter);
      case HexEscape(letter, digits, ns) =>
        LookingConcat(src, pos, ['\\', letter], digits);
        DigitCount(digits, ns);
        HexRun(src, pos + 2, digits, ns, HexLimit(letter));
      case OctalEscape(digits, ns, octal) =>
        LookingConcat(src, pos, ['\\', '0'], digits);
        DigitCount(digits, ns);
        OctalRun(src, pos + 2, digits, ns, octal);
    }
  }

  lemma DigitCount(text: string, ns: seq<nat>)
    requires SpellsDigits(text, ns)
    ensures |text| == |ns|
  {
  }

  lemma NameAt(src: string, pos: nat, letter: char)
    requires pos < |src| && src[pos] == letter && letter != 'u' && letter != 'x' && letter != '0'
    ensures EscapeAt(src, pos) == Escaped(if letter in NAMES then NAMES[letter] else letter, pos + 1)
  {
    hide DecodeNumber;
  }

  function SpelledAll(ps: seq<Piece>): string {
    if ps == [] then [] else Spelled(ps[0]) + SpelledAll(ps[1..])
  }

  function MeantAll(ps: seq<Piece>): string {
    if ps == [] then [] else [Meant(ps[0])] + MeantAll(ps[1..])
  }

  predicate AllClosed(src: string, pos: nat, ps: seq<Piece>)
    decreases |ps|
  {
    ps != [] ==> Closed(src, pos + |Spelled(ps[0])|, ps[0]) && AllClosed(src, pos + |Spelled(ps[0])|, ps[1..])
  }

  /** A string however spelled, up to where its text goes on. */
  lemma {:induction false} PiecesInString(src: string, pos: nat, ps: seq<Piece>, quote: char)
    requires IsQuote(quote) && forall p :: p in ps ==> IsPiece(p, quote)
    requires Looking(src, pos, SpelledAll(ps)) && AllClosed(src, pos, ps)
    ensures var end := pos + |SpelledAll(ps)|;
      && end <= |src|
      && StringFrom(src, pos, quote).text == MeantAll(ps) + StringFrom(src, end, quote).text
      && StringFrom(src, pos, quote).end == StringFrom(src, end, quote).end
    decreases |ps|
  {
    hide Spelled, Meant, IsPiece, Closed, StringFrom;
    if ps != [] {
      LookingConcat(src, pos, Spelled(ps[0]), SpelledAll(ps[1..]));
      PieceInString(src, pos, ps[0], quote);
      PiecesInString(src, pos + |Spelled(ps[0])|, ps[1..], quote);
    }
  }

  /** A string token: quote, pieces and quote; or, the source ending first, what stands there up to its end. */
  lemma StringLexes(src: string, pos: nat, ps: seq<Piece>, quote: char)
    requires IsQuote(quote) && forall p :: p in ps ==> IsPiece(p, quote)
    requires Looking(src, pos, [quote] + SpelledAll(ps)) && AllClosed(src, pos + 1, ps)
    requires var end := pos + 1 + |SpelledAll(ps)|; CharAt(src, end) == quote || end == |src|
    ensures var end := pos + 1 + |SpelledAll(ps)|;
      Lex(src, pos) == Lexed(Tok(T_STRING, -1, 0, MeantAll(ps)), if end == |src| then end else end + 1)
  {
    hide SpelledAll, MeantAll, AllClosed, IsPiece, LineEnd, BlockEnd, NumberEnd, WordFrom, OperatorAt, Operators;
    LookingConcat(src, pos, [quote], SpelledAll(ps));
    assert src[pos] == [quote][0];
    PiecesInString(src, pos + 1, ps, quote);
    assert MeantAll(ps) + [] == MeantAll(ps);
    assert GapItemEnd(src, pos) == pos;
  }

  /** A backslash that ends the source adds a NUL to the string. */
  lemma LastBackslash(src: string, quote: char)
    requires IsQuote(quote) && src != [] && src[|src| - 1] == '\\'
    ensures StringFrom(src, |src| - 1, quote) == Scan([EOF], |src|)
  {
    assert StringFrom(src, |src|, quote) == Scan([], |src|);
  }

  // ----------------------------------------------------------------------- Words

  /** The pieces of a word: a backslash makes a word character of any but a line end, and names none. */
  ghost predicate IsWordPiece(p: Piece) {
    match p
    case Plain(c) => IsWordChar(c)
    case Named(letter) => letter != 'u' && letter != '\n' && letter != '\r'
    case HexEscape(letter, text, ns) => letter == 'u' && SpellsDigits(text, ns)
    case OctalEscape(_, _, _) => false
  }

  function WordMeant(p: Piece): char {
    match p
    case Named(letter) => letter
    case _ => Meant(p)
  }

  function WordMeantAll(ps: seq<Piece>): string {
    if ps == [] then [] else [WordMeant(ps[0])] + WordMeantAll(ps[1..])
  }

  lemma PieceInWord(src: string, pos: nat, p: Piece)
    requires IsWordPiece(p) && Looking(src, pos, Spelled(p)) && Closed(src, pos + |Spelled(p)|, p)
    ensures var end := pos + |Spelled(p)|;
      end <= |src| && WordFrom(src, pos) == Before(WordMeant(p), WordFrom(src, end))
  {
    hide DecodeNumber, Number, SpellsDigits, RunEnds;
    var text := Spelled(p);
    assert src[pos] == text[0] && (|text| > 1 ==> src[pos + 1] == text[1]);
    if p.HexEscape? {
      LookingConcat(src, pos, ['\\', p.letter], p.text);
      DigitCount(p.text, p.ns);
      HexRun(src, pos + 2, p.text, p.ns, 4);
    }
  }

  /** A word however spelled ends before the first character that is neither of a word nor a backslash. */
  lemma {:induction false} WordLexes(src: string, pos: nat, ps: seq<Piece>)
    requires forall p :: p in ps ==> IsWordPiece(p)
    requires Looking(src, pos, SpelledAll(ps)) && AllClosed(src, pos, ps)
    requires var c := CharAt(src, pos + |SpelledAll(ps)|); !IsWordChar(c) && c != '\\'
    ensures WordFrom(src, pos) == Scan(WordMeantAll(ps), pos + |SpelledAll(ps)|)
    decreases |ps|
  {
    hide Spelled, WordMeant, IsWordPiece, Closed;
    if ps != [] {
      hide WordFrom;
      LookingConcat(src, pos, Spelled(ps[0]), SpelledAll(ps[1..]));
      PieceInWord(src, pos, ps[0]);
      WordLexes(src, pos + |Spelled(ps[0])|, ps[1..]);
    }
  }

  lemma {:induction false} KeyOfWord(text: string, key: string)
    requires EOF !in key && (text == key || key + [EOF] <= text)
    ensures UpToNul(text) == key
    decreases |key|
  {
    if key != [] {
      assert text[0] == key[0];
      KeyOfWord(text[1..], key[1..]);
    } else if text != [] {
      assert text[0] == EOF;
    }
  }

  /**
   A word token, however it is spelled behind its first character: a keyword if
   its text up to the first NUL is one, else an identifier.
   */
  lemma WordToken(src: string, pos: nat, ps: seq<Piece>, key: string)
    requires ps != [] && ps[0].Plain? && IsWordStart(ps[0].c) && forall p :: p in ps ==> IsWordPiece(p)
    requires Looking(src, pos, SpelledAll(ps)) && AllClosed(src, pos, ps)
    requires var c := CharAt(src, pos + |SpelledAll(ps)|); !IsWordChar(c) && c != '\\'
    requires var text := WordMeantAll(ps); EOF !in key && (text == key || key + [EOF] <= text)
    ensures var text, end := WordMeantAll(ps), pos + |SpelledAll(ps)|;
      Lex(src, pos) == Lexed(if key in KEYWORDS then Tok(KEYWORDS[key].id, KEYWORDS[key].sub, KEYWORDS[key].mask, text)
                             else Tok(T_ID, -1, 0, text), end)
  {
    hide AllClosed, LineEnd, BlockEnd, NumberEnd, WordFrom, OperatorAt, Operators, UpToNul, StringFrom,
      WordMeantAll, SpelledAll;
    FirstSpelled(ps);
    assert src[pos] == SpelledAll(ps)[0];
    WordLexes(src, pos, ps);
    KeyOfWord(WordMeantAll(ps), key);
    assert GapItemEnd(src, pos) == pos;
  }

  lemma FirstSpelled(ps: seq<Piece>)
    requires ps != [] && ps[0].Plain?
    ensures SpelledAll(ps) != [] && SpelledAll(ps)[0] == ps[0].c
  {
  }

  /** A backslash before a line end, or at the end of the source, ends a word; the latter adds a NUL. */
  lemma WordBackslash(src: string, pos: nat)
    requires pos < |src| && src[pos] == '\\'
    ensures pos + 1 == |src| ==> WordFrom(src, pos) == Scan([EOF], pos + 1)
    ensures pos + 1 < |src| && (src[pos + 1] == '\n' || src[pos + 1] == '\r') ==> WordFrom(src, pos) == Scan([], pos + 1)
  {
  }

  // ------------------------------------------------------------- One character

  function FourDigitEscape(c: char): Piece
    requires c < '\U{100}'
  {
    var n := c as int;
    HexEscape('u', ['0', '0', LOWER[n / 16], LOWER[n % 16]], [0, 0, n / 16, n % 16])
  }

  lemma FourDigitPiece(c: char)
    requires c < '\U{100}'
    ensures SpellsDigits(FourDigitEscape(c).text, FourDigitEscape(c).ns) && |FourDigitEscape(c).ns| == 4
    ensures Number(FourDigitEscape(c).ns, 16) == c as int
  {
    hide Number;
    FourDigitNumber(0, 0, c as int / 16, c as int % 16);
  }

  /** Every byte, written with four hexadecimal digits, is lexed as itself: in a string and in a word. */
  lemma FourDigits(src: string, pos: nat, c: char, quote: char)
    requires c < '\U{100}' && IsQuote(quote)
    requires var n := c as int; Looking(src, pos, ['\\', 'u', '0', '0', LOWER[n / 16], LOWER[n % 16]])
    ensures pos + 6 <= |src| && StringFrom(src, pos, quote) == Before(c, StringFrom(src, pos + 6, quote))
    ensures WordFrom(src, pos) == Before(c, WordFrom(src, pos + 6))
  {
    hide StringFrom, WordFrom, SpellsDigits, Number, Looking;
    var p := FourDigitEscape(c);
    FourDigitPiece(c);
    assert Spelled(p) == ['\\', 'u', '0', '0', LOWER[c as int / 16], LOWER[c as int % 16]];
    PieceInString(src, pos, p, quote);
    PieceInWord(src, pos, p);
  }

  lemma FourDigitNumber(a: nat, b: nat, c: nat, d: nat)
    ensures Number([a, b, c, d], 16) == a * 0x1000 + b * 0x100 + c * 0x10 + d
  {
    assert [a, b, c, d][..3] == [a, b, c] && [a, b, c][..2] == [a, b] && [a, b][..1] == [a] && [a][..0] == [];
    assert Number([a], 16) == a;
    assert Number([a, b], 16) == a * 16 + b;
    assert Number([a, b, c], 16) == (a * 16 + b) * 16 + c;
  }
}
