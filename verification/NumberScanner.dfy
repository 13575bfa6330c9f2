/**
 Scanning numbers and numeric escapes (makeNumberToken and decodeNumber in
 src/compiler/ecLex.c).
 */
module NumberScanner {
  import opened Lexical
  import opened LexSpec
  import opened CharStream
  import opened TokenBuffer

  /** The token holds the source from start to pos, and the character c at pos is read. */
  ghost predicate Scanned(s: EcStream, tp: EcToken, start: nat, pos: nat, c: char)
    reads s, tp, tp.text
  {
    && s.Valid() && tp.Valid()
    && start <= pos && s.Holds(pos, c)
    && tp.Text() == s.buf[start..pos]
  }

  /** Adds the character read, and reads the next one. */
  method Advance(s: EcStream, tp: EcToken, c: char, ghost start: nat, ghost pos: nat) returns (d: char)
    requires Scanned(s, tp, start, pos, c) && c != EOF
    modifies s, tp, tp.text
    ensures tp.text == old(tp.text) || fresh(tp.text)
    ensures Scanned(s, tp, start, pos + 1, d) && s.CanPutBack(d)
  {
    assert s.buf[start..pos] + [c] == s.buf[start..pos + 1];
    tp.AddChar(c);
    d := s.GetNextChar();
  }

  method AddDigits(s: EcStream, tp: EcToken, c: char, ghost start: nat, ghost pos: nat) returns (d: char)
    requires Scanned(s, tp, start, pos, c)
    modifies s, tp, tp.text
    ensures tp.text == old(tp.text) || fresh(tp.text)
    ensures Scanned(s, tp, start, DigitsEnd(s.buf, pos), d)
    ensures if IsDigit(c) || old(s.CanPutBack(c)) then s.CanPutBack(d) else d == c
  {
    d := c;
    ghost var q := pos;
    while IsDigit(d)
      invariant Scanned(s, tp, start, q, d)
      invariant if q > pos || old(s.CanPutBack(c)) then s.CanPutBack(d) else d == c
      invariant tp.text == old(tp.text) || fresh(tp.text)
      invariant DigitsEnd(s.buf, pos) == DigitsEnd(s.buf, q)
      decreases |s.buf| - q
    {
      d := Advance(s, tp, d, start, q);
      q := q + 1;
    }
  }

  method AddExponent(s: EcStream, tp: EcToken, c: char, ghost start: nat, ghost pos: nat) returns (d: char)
    requires Scanned(s, tp, start, pos, c) && s.CanPutBack(c)
    modifies s, tp, tp.text
    ensures tp.text == old(tp.text) || fresh(tp.text)
    ensures Scanned(s, tp, start, ExponentEnd(s.buf, pos), d) && s.CanPutBack(d)
  {
    hide DigitsEnd, Newlines, EcStream.CanPutBack;
    d := c;
    if d == 'e' || d == 'E' {
      d := Advance(s, tp, d, start, pos);
      ghost var q := pos + 1;
      if d == '+' || d == '-' {
        d := Advance(s, tp, d, start, q);
        q := q + 1;
      }
      d := AddDigits(s, tp, d, start, q);
    }
  }

  /** Puts the character behind the number back, and makes the token. */
  method FinishNumber(s: EcStream, tp: EcToken, c: char, ghost start: nat, ghost end: nat)
    requires Scanned(s, tp, start, end, c) && s.CanPutBack(c)
    modifies s, tp, tp.text
    ensures tp.text == old(tp.text) || fresh(tp.text)
    ensures s.Valid() && tp.Valid() && start <= end <= |s.buf|
    ensures tp.Tok() == Tok(T_NUMBER, -1, 0, s.buf[start..end]) && s.nextChar == end
  {
    s.PutBackChar(c);
    tp.Make(EOF, T_NUMBER, -1, 0);
  }

  method MakeFloatToken(s: EcStream, tp: EcToken, first: char, ghost start: nat)
    requires Scanned(s, tp, start, start, first) && StartsNumber(s.buf, start)
    modifies s, tp, tp.text
    ensures tp.text == old(tp.text) || fresh(tp.text)
    ensures s.Valid() && tp.Valid()
    ensures tp.Tok() == Tok(T_NUMBER, -1, 0, s.buf[start..FloatEnd(s.buf, start)])
    ensures s.nextChar == FloatEnd(s.buf, start)
  {
    hide DigitsEnd, ExponentEnd, Newlines, EcStream.CanPutBack;
    var c := AddDigits(s, tp, first, start, start);
    ghost var pos := DigitsEnd(s.buf, start);
    if c == '.' {
      c := Advance(s, tp, c, start, pos);
      pos := pos + 1;
    }
    c := AddDigits(s, tp, c, start, pos);
    c := AddExponent(s, tp, c, start, DigitsEnd(s.buf, pos));
    FinishNumber(s, tp, c, start, FloatEnd(s.buf, start));
  }

  method MakeHexToken(s: EcStream, tp: EcToken, x: char, ghost start: nat)
    requires Scanned(s, tp, start, start + 1, x) && x != EOF
    modifies s, tp, tp.text
    ensures tp.text == old(tp.text) || fresh(tp.text)
    ensures s.Valid() && tp.Valid() && start + 2 <= |s.buf|
    ensures tp.Tok() == Tok(T_NUMBER, -1, 0, s.buf[start..HexEnd(s.buf, start + 2)])
    ensures s.nextChar == HexEnd(s.buf, start + 2)
  {
    hide Newlines, EcStream.CanPutBack;
    var c := Advance(s, tp, x, start, start + 1);
    ghost var pos := start + 2;
    while IsHex(c)
      invariant Scanned(s, tp, start, pos, c) && s.CanPutBack(c) && start + 2 <= pos
      invariant tp.text == old(tp.text) || fresh(tp.text)
      invariant HexEnd(s.buf, start + 2) == HexEnd(s.buf, pos)
      decreases |s.buf| - pos
    {
      c := Advance(s, tp, c, start, pos);
      pos := pos + 1;
    }
    FinishNumber(s, tp, c, start, pos);
  }

  method MakeOctalToken(s: EcStream, tp: EcToken, digit: char, ghost start: nat)
    requires Scanned(s, tp, start, start + 1, digit) && IsOctal(digit)
    modifies s, tp, tp.text
    ensures tp.text == old(tp.text) || fresh(tp.text)
    ensures s.Valid() && tp.Valid() && start + 1 <= |s.buf|
    ensures tp.Tok() == Tok(T_NUMBER, -1, 0, s.buf[start..OctalEnd(s.buf, start + 1)])
    ensures s.nextChar == OctalEnd(s.buf, start + 1)
  {
    hide Newlines, EcStream.CanPutBack;
    var c := Advance(s, tp, digit, start, start + 1);
    ghost var pos := start + 2;
    while IsOctal(c)
      invariant Scanned(s, tp, start, pos, c) && s.CanPutBack(c) && start + 2 <= pos
      invariant tp.text == old(tp.text) || fresh(tp.text)
      invariant OctalEnd(s.buf, start + 1) == OctalEnd(s.buf, pos)
      decreases |s.buf| - pos
    {
      c := Advance(s, tp, c, start, pos);
      pos := pos + 1;
    }
    FinishNumber(s, tp, c, start, pos);
  }

  /** makeNumberToken: the text of the token is exactly the source up to NumberEnd. */
  method MakeNumberToken(s: EcStream, tp: EcToken, first: char, ghost start: nat)
    requires Scanned(s, tp, start, start, first) && StartsNumber(s.buf, start)
    modifies s, tp, tp.text
    ensures tp.text == old(tp.text) || fresh(tp.text)
    ensures s.Valid() && tp.Valid()
    ensures tp.Tok() == Tok(T_NUMBER, -1, 0, s.buf[start..NumberEnd(s.buf, start)])
    ensures s.nextChar == NumberEnd(s.buf, start)
  {
    hide FloatEnd, HexEnd, OctalEnd, Newlines, EcStream.CanPutBack;
    if first == '0' {
      var c := s.GetNextChar();
      assert s.buf[start..start] + ['0'] == s.buf[start..start + 1];
      if c == 'x' || c == 'X' {
        tp.AddChar('0');
        MakeHexToken(s, tp, c, start);
        return;
      } else if IsOctal(c) {
        tp.AddChar('0');
        MakeOctalToken(s, tp, c, start);
        return;
      }
      s.PutBackChar(c);
    }
    MakeFloatToken(s, tp, first, start);
  }

  /** decodeNumber: up to `length` digits; the character behind fewer digits is put back. */
  method DecodeEscape(s: EcStream, radix: nat, length: nat) returns (c: char)
    requires s.Valid() && radix > 1
    modifies s
    ensures s.Valid()
    ensures Escaped(c, s.nextChar) == DecodeNumber(s.buf, old(s.nextChar), radix, length)
  {
    hide Value, Newlines;
    var buf := [];
    var i := 0;
    ghost var start := s.nextChar;
    while i < length
      invariant s.Valid() && i <= length
      invariant s.nextChar == start + i && buf == s.buf[start..start + i]
      invariant CountDigits(s.buf, start, radix, length) == i + CountDigits(s.buf, start + i, radix, length - i)
    {
      var d := s.GetNextChar();
      if d == EOF || !IsRadixDigit(radix, d) {
        s.PutBackChar(d);
        break;
      }
      assert s.buf[start..start + i] + [d] == s.buf[start..start + i + 1];
      buf := buf + [d];
      i := i + 1;
    }
    c := Stored(Value(buf, radix, 0));
  }
}
