/**
 What the lexer is to do, as functions of the source and a position: where the
 gap before a token ends, where each kind of token ends, and its text.
 */
module LexSpec {
  import opened Lexical

  // ----------------------------------------------------------------------- Gaps

  /** Behind a line comment: after the first CR or LF, or at the end of the source. */
  function LineEnd(src: string, pos: nat): (end: nat)
    requires pos <= |src|
    ensures pos <= end <= |src|
    decreases |src| - pos
  {
    if pos == |src| then pos
    else if src[pos] == '\n' || src[pos] == '\r' then pos + 1
    else LineEnd(src, pos + 1)
  }

  /**
   Behind a block comment, whose text begins at pos. A character behind a slash
   is not looked at, so the star in slash-star never begins a closing star-slash.
   */
  function BlockEnd(src: string, pos: nat): (end: nat)
    requires pos <= |src|
    ensures pos <= end <= |src|
    decreases |src| - pos
  {
    if pos == |src| then pos
    else if src[pos] == '*' && CharAt(src, pos + 1) == '/' then pos + 2
    else if src[pos] == '/' then (if pos + 1 == |src| then pos + 1 else BlockEnd(src, pos + 2))
    else BlockEnd(src, pos + 1)
  }

  /** The end of the one white space, spliced line or comment at `pos`; pos itself if there is none. */
  function GapItemEnd(src: string, pos: nat): (end: nat)
    requires pos <= |src|
    ensures pos <= end <= |src|
  {
    var c, d := CharAt(src, pos), CharAt(src, pos + 1);
    if IsWhite(c) then pos + 1
    else if c == '\\' && d == '\n' then pos + 2
    else if c == '/' && d == '/' then LineEnd(src, pos + 2)
    else if c == '/' && d == '*' then BlockEnd(src, pos + 2)
    else pos
  }

  /** The start of the next token, or the end of the source. */
  function SkipGap(src: string, pos: nat): (start: nat)
    requires pos <= |src|
    ensures pos <= start <= |src|
    decreases |src| - pos
  {
    var end := GapItemEnd(src, pos);
    if end == pos then pos else SkipGap(src, end)
  }

  // -------------------------------------------------------------------- Numbers

  function DigitsEnd(src: string, pos: nat): (end: nat)
    requires pos <= |src|
    ensures pos <= end <= |src|
    decreases |src| - pos
  {
    if IsDigit(CharAt(src, pos)) then DigitsEnd(src, pos + 1) else pos
  }

  function OctalEnd(src: string, pos: nat): (end: nat)
    requires pos <= |src|
    ensures pos <= end <= |src|
    decreases |src| - pos
  {
    if IsOctal(CharAt(src, pos)) then OctalEnd(src, pos + 1) else pos
  }

  function HexEnd(src: string, pos: nat): (end: nat)
    requires pos <= |src|
    ensures pos <= end <= |src|
    decreases |src| - pos
  {
    if IsHex(CharAt(src, pos)) then HexEnd(src, pos + 1) else pos
  }

  function ExponentEnd(src: string, pos: nat): (end: nat)
    requires pos <= |src|
    ensures pos <= end <= |src|
  {
    if CharAt(src, pos) != 'e' && CharAt(src, pos) != 'E' then pos
    else if CharAt(src, pos + 1) == '+' || CharAt(src, pos + 1) == '-' then DigitsEnd(src, pos + 2)
    else DigitsEnd(src, pos + 1)
  }

  function FloatEnd(src: string, pos: nat): (end: nat)
    requires pos <= |src|
    ensures pos <= end <= |src|
  {
    var whole := DigitsEnd(src, pos);
    var dot := if CharAt(src, whole) == '.' then whole + 1 else whole;
    ExponentEnd(src, DigitsEnd(src, dot))
  }

  /** Hexadecimal, octal, or a decimal with optional fraction and exponent. */
  function NumberEnd(src: string, pos: nat): (end: nat)
    requires pos < |src|
    ensures pos <= end <= |src|
  {
    var d := CharAt(src, pos + 1);
    if src[pos] == '0' && (d == 'x' || d == 'X') then HexEnd(src, pos + 2)
    else if src[pos] == '0' && IsOctal(d) then OctalEnd(src, pos + 1)
    else FloatEnd(src, pos)
  }

  predicate StartsNumber(src: string, pos: nat) {
    IsDigit(CharAt(src, pos)) || (CharAt(src, pos) == '.' && IsDigit(CharAt(src, pos + 1)))
  }

  // ------------------------------------------------------------ Numeric escapes

  predicate IsRadixDigit(radix: nat, c: char) {
    if radix == 16 then IsHex(c) else IsDigit(c)
  }

  /** How many digits, at most `limit`, stand at pos. */
  function CountDigits(src: string, pos: nat, radix: nat, limit: nat): (n: nat)
    requires pos <= |src|
    ensures n <= limit && pos + n <= |src|
    decreases limit
  {
    if limit == 0 || !IsRadixDigit(radix, CharAt(src, pos)) || pos == |src| then 0
    else 1 + CountDigits(src, pos + 1, radix, limit - 1)
  }

  function DigitValue(c: char): nat {
    if IsDigit(c) then (c - '0') as int
    else if 'a' <= c <= 'f' then (c - 'a') as int + 10
    else if 'A' <= c <= 'F' then (c - 'A') as int + 10
    else 0
  }

  /** stoiradix on decimal or hexadecimal digits: stops at a digit the radix does not have. */
  function Value(digits: string, radix: nat, val: nat): nat {
    if digits == [] || DigitValue(digits[0]) >= radix then val
    else Value(digits[1..], radix, val * radix + DigitValue(digits[0]))
  }

  /** A character as stored in a token: the low eight bits. */
  function Stored(v: nat): char {
    (v % 256) as char
  }

  /** What an escape stands for, and where the text goes on. */
  datatype Escaped = Escaped(c: char, next: nat)

  function DecodeNumber(src: string, pos: nat, radix: nat, length: nat): (e: Escaped)
    requires pos <= |src|
    ensures pos <= e.next <= |src|
  {
    var n := CountDigits(src, pos, radix, length);
    Escaped(Stored(Value(src[pos..pos + n], radix, 0)), pos + n)
  }

  // ---------------------------------------------------------------------- Words

  datatype Scan = Scan(text: string, end: nat)

  function Before(c: char, rest: Scan): Scan {
    Scan([c] + rest.text, rest.end)
  }

  /** The rest of a word from `pos` on. */
  function WordFrom(src: string, pos: nat): (r: Scan)
    requires pos <= |src|
    ensures pos <= r.end <= |src|
    decreases |src| - pos
  {
    var c, d := CharAt(src, pos), CharAt(src, pos + 1);
    if IsWordChar(c) then Before(c, WordFrom(src, pos + 1))
    else if c != '\\' then Scan([], pos)
    else if pos + 1 == |src| then Scan([EOF], pos + 1)
    else if d == '\n' || d == '\r' then Scan([], pos + 1)
    else if d == 'u' then
      var e := DecodeNumber(src, pos + 2, 16, 4);
      Before(e.c, WordFrom(src, e.next))
    else Before(d, WordFrom(src, pos + 2))
  }

  function UpToNul(s: string): string {
    if s == [] || s[0] == EOF then [] else [s[0]] + UpToNul(s[1..])
  }

  /** Keyword or identifier, decided by the text up to its first NUL. */
  function WordTok(text: string): Tok {
    var key := UpToNul(text);
    if key in KEYWORDS then Tok(KEYWORDS[key].id, KEYWORDS[key].sub, KEYWORDS[key].mask, text)
    else Tok(T_ID, -1, 0, text)
  }

  // -------------------------------------------------------------------- Strings

  /** The escape whose letter stands at pos; at the end of the source, a NUL. */
  function EscapeAt(src: string, pos: nat): (e: Escaped)
    requires pos <= |src|
    ensures pos <= e.next <= |src|
  {
    var c := CharAt(src, pos);
    if pos == |src| then Escaped(EOF, pos)
    else if c == 'b' then Escaped('\U{08}', pos + 1)
    else if c == 'f' then Escaped('\U{0C}', pos + 1)
    else if c == 'n' then Escaped('\n', pos + 1)
    else if c == 'r' then Escaped('\r', pos + 1)
    else if c == 't' then Escaped('\t', pos + 1)
    else if c == 'v' then Escaped('\U{0B}', pos + 1)
    else if c == 'u' then DecodeNumber(src, pos + 1, 16, 4)
    else if c == 'x' then DecodeNumber(src, pos + 1, 16, 2)
    else if c == '0' then DecodeNumber(src, pos + 1, 8, 3)
    else Escaped(c, pos + 1)
  }

  /** The rest of a string from `pos` on; a string the source does not end still is one. */
  function StringFrom(src: string, pos: nat, quote: char): (r: Scan)
    requires pos <= |src|
    ensures pos <= r.end <= |src|
    decreases |src| - pos
  {
    if pos == |src| then Scan([], pos)
    else if src[pos] == quote then Scan([], pos + 1)
    else if src[pos] == '\\' then
      var e := EscapeAt(src, pos + 1);
      Before(e.c, StringFrom(src, e.next, quote))
    else Before(src[pos], StringFrom(src, pos + 1, quote))
  }

  // ------------------------------------------------------------------ Operators

  /** The operator the nested switch of ecGetToken settles on, from four characters. */
  function OperatorAt(src: string, pos: nat): (o: Op)
    requires Operators(CharAt(src, pos)) != []
    ensures o in Operators(CharAt(src, pos))
  {
    var ops := Operators(CharAt(src, pos));
    var b, c, d := CharAt(src, pos + 1), CharAt(src, pos + 2), CharAt(src, pos + 3);
    match CharAt(src, pos)
    case '+' => if b == '+' then ops[0] else if b == '=' then ops[1] else ops[2]
    case '-' => if b == '-' then ops[0] else if b == '=' then ops[1] else ops[2]
    case '*' => if b == '=' then ops[0] else ops[1]
    case '/' => if b == '=' then ops[0] else if b == '>' then ops[1] else ops[2]
    case '%' => if b == '=' then ops[0] else ops[1]
    case '.' => if b == '.' then (if c == '.' then ops[0] else ops[1]) else ops[2]
    case ':' => if b == ':' then ops[0] else ops[1]
    case '!' => if b == '=' then (if c == '=' then ops[0] else ops[1]) else ops[2]
    case '&' => if b == '&' then (if c == '=' then ops[0] else ops[1]) else if b == '=' then ops[2] else ops[3]
    case '^' => if b == '^' then (if c == '=' then ops[0] else ops[1]) else if b == '=' then ops[2] else ops[3]
    case '|' => if b == '|' then (if c == '=' then ops[0] else ops[1]) else if b == '=' then ops[2] else ops[3]
    case '=' => if b == '=' then (if c == '=' then ops[0] else ops[1]) else ops[2]
    case '<' =>
      if b == '<' then (if c == '=' then ops[0] else ops[1])
      else if b == '=' then ops[2] else if b == '/' then ops[3] else ops[4]
    case '>' =>
      if b == '>' then
        if c == '>' then (if d == '=' then ops[0] else ops[1])
        else if c == '=' then ops[2] else ops[3]
      else if b == '=' then ops[4] else ops[5]
    case _ => ops[0]
  }

  // --------------------------------------------------------------------- Tokens

  /** A token and the position behind it. */
  datatype Lexed = Lexed(tok: Tok, end: nat)

  /** The token that begins at `pos`, where no gap item stands. */
  function TokenAt(src: string, pos: nat): (r: Lexed)
    requires pos < |src|
  {
    var c := src[pos];
    if IsQuote(c) then
      var scan := StringFrom(src, pos + 1, c);
      Lexed(Tok(T_STRING, -1, 0, scan.text), scan.end)
    else if StartsNumber(src, pos) then
      Lexed(Tok(T_NUMBER, -1, 0, src[pos..NumberEnd(src, pos)]), NumberEnd(src, pos))
    else if IsWordStart(c) then
      var scan := WordFrom(src, pos);
      Lexed(WordTok(scan.text), scan.end)
    else if Operators(c) != [] then
      var o := OperatorAt(src, pos);
      Lexed(OpTok(o, CharAt(src, pos + |o.spelling|)), pos + |o.spelling|)
    else Lexed(Tok(T_ERR, -1, 0, []), pos + 1)
  }

  /** ecGetToken on fresh input: skip the gap, then take a token or report the end. */
  function Lex(src: string, pos: nat): (r: Lexed)
    requires pos <= |src|
  {
    var start := SkipGap(src, pos);
    if start == |src| then Lexed(Tok(T_EOF, -1, 0, []), start) else TokenAt(src, start)
  }
}
