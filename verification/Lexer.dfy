/**
 The lexer proper (ecGetToken in src/compiler/ecLex.c): from any position of
 the source it produces the token, and stops at the position, that Lex gives.
 */
module Lexer {
  import opened Lexical
  import opened LexSpec
  import opened CharStream
  import opened TokenBuffer
  import opened NumberScanner
  import opened OperatorScanner
  import opened OperatorTable
  import opened TextScanner

  /** The token is the one that begins at pos, and the stream stands behind it. */
  ghost predicate Tokenized(s: EcStream, tp: EcToken, pos: nat)
    reads s, tp, tp.text
  {
    && s.Valid() && tp.Valid() && pos < |s.buf|
    && GapItemEnd(s.buf, pos) == pos
    && Lexed(tp.Tok(), s.nextChar) == TokenAt(s.buf, pos)
  }

  /** No token begins at pos; white space, a spliced line or a comment there was skipped. */
  ghost predicate Skipped(s: EcStream, tp: EcToken, pos: nat)
    reads s, tp, tp.text
  {
    && s.Valid() && tp.Valid() && pos < |s.buf| && tp.Text() == []
    && s.nextChar == GapItemEnd(s.buf, pos) > pos
  }

  lemma OperatorIsToken(src: string, pos: nat)
    requires pos < |src| && Operators(src[pos]) != []
    requires !StartsNumber(src, pos)
    requires src[pos] == '/' ==> CharAt(src, pos + 1) != '/' && CharAt(src, pos + 1) != '*'
    ensures GapItemEnd(src, pos) == pos
    ensures var o := OperatorAt(src, pos);
      TokenAt(src, pos) == Lexed(OpTok(o, CharAt(src, pos + |o.spelling|)), pos + |o.spelling|)
  {
    hide Operators, OperatorAt, OpTok, LineEnd, BlockEnd, StringFrom, WordFrom, WordTok, NumberEnd;
    OperatorChars(src[pos]);
  }

  /** The cases of the switch whose characters begin only one operator, of one character. */
  method ScanPunctuator(s: EcStream, tp: EcToken, c: char, ghost pos: nat)
    requires Begun(s, tp, pos, c) && |Operators(c)| == 1
    modifies s, tp, tp.text
    ensures tp.text == old(tp.text) || fresh(tp.text)
    ensures Made(s, tp, pos)
  {
    hide EcStream.CanPutBack, Newlines, Made;
    match c
    case '#' => Finish(s, tp, "", c, Op("#", T_HASH, -1, 0), pos);
    case '[' => Finish(s, tp, "", c, Op("[", T_LBRACKET, -1, G_OPERATOR), pos);
    case ']' => Finish(s, tp, "", c, Op("]", T_RBRACKET, -1, 0), pos);
    case '(' => Finish(s, tp, "", c, Op("(", T_LPAREN, -1, G_OPERATOR), pos);
    case ')' => Finish(s, tp, "", c, Op(")", T_RPAREN, -1, 0), pos);
    case '{' => Finish(s, tp, "", c, Op("{", T_LBRACE, -1, 0), pos);
    case '}' => Finish(s, tp, "", c, Op("}", T_RBRACE, -1, 0), pos);
    case '@' => Finish(s, tp, "", c, Op("@", T_AT, -1, 0), pos);
    case ';' => Finish(s, tp, "", c, Op(";", T_SEMICOLON, -1, 0), pos);
    case ',' => Finish(s, tp, "", c, Op(",", T_COMMA, -1, 0), pos);
    case '?' => Finish(s, tp, "", c, Op("?", T_QUERY, -1, 0), pos);
    case '~' => Finish(s, tp, "", c, Op("~", T_TILDE, -1, G_OPERATOR), pos);
  }

  /** The cases whose characters begin operators and nothing else. */
  method ScanOperator(s: EcStream, tp: EcToken, c: char, ghost pos: nat)
    requires Begun(s, tp, pos, c) && Operators(c) != [] && c != '.' && c != '/'
    modifies s, tp, tp.text
    ensures tp.text == old(tp.text) || fresh(tp.text)
    ensures Made(s, tp, pos)
  {
    hide Made;
    match c
    case '+' => ScanPlus(s, tp, pos);
    case '-' => ScanMinus(s, tp, pos);
    case '*' => ScanStar(s, tp, pos);
    case '%' => ScanPercent(s, tp, pos);
    case ':' => ScanColon(s, tp, pos);
    case '!' => ScanNot(s, tp, pos);
    case '&' => ScanAnd(s, tp, pos);
    case '<' => ScanLess(s, tp, pos);
    case '=' => ScanEquals(s, tp, pos);
    case '>' => ScanGreater(s, tp, pos);
    case '^' => ScanCaret(s, tp, pos);
    case '|' => ScanBar(s, tp, pos);
    case _ => ScanPunctuator(s, tp, c, pos);
  }

  /** The default case: numbers, words, spliced lines, and characters that begin no token. */
  method ScanOther(s: EcStream, tp: EcToken, first: char, ghost pos: nat) returns (skipped: bool)
    requires Begun(s, tp, pos, first) && Operators(first) == [] && !IsQuote(first) && !IsWhite(first)
    modifies s, tp, tp.text
    ensures tp.text == old(tp.text) || fresh(tp.text)
    ensures if skipped then Skipped(s, tp, pos) else Tokenized(s, tp, pos)
  {
    hide Newlines, EcStream.CanPutBack, NumberEnd, WordFrom, WordTok;
    skipped := false;
    var c := first;
    if IsDigit(c) {
      MakeNumberToken(s, tp, c, pos);
      return;
    } else if c == '\\' {
      c := s.GetNextChar();
      if c == '\n' {
        return true;
      }
      s.PutBackChar(c);
      c := '\n';
    }
    if IsWordStart(c) || c == '\\' {
      MakeAlphaToken(s, tp, c, pos);
      return;
    }
    tp.Make(EOF, T_ERR, -1, 0);
  }

  /** One pass of the loop of ecGetToken, after c at pos was read. */
  method ScanItem(s: EcStream, tp: EcToken, c: char, ghost pos: nat) returns (skipped: bool)
    requires Begun(s, tp, pos, c)
    modifies s, tp, tp.text
    ensures tp.text == old(tp.text) || fresh(tp.text)
    ensures if skipped then Skipped(s, tp, pos) else Tokenized(s, tp, pos)
  {
    hide Operators, OperatorAt, LineEnd, BlockEnd, StringFrom, WordFrom, WordTok, NumberEnd, OpTok, Newlines;
    skipped := false;
    if IsWhite(c) {
      skipped := true;
    } else if IsQuote(c) {
      MakeQuotedToken(s, tp, c);
    } else if c == '/' {
      var form := ScanSlash(s, tp, pos);
      if form != EOF {
        GetComment(s, tp, form);
        tp.Reinitialize();
        skipped := true;
      } else {
        OperatorIsToken(s.buf, pos);
      }
    } else if c == '.' {
      var number := ScanDot(s, tp, pos);
      if number {
        MakeNumberToken(s, tp, c, pos);
      } else {
        OperatorIsToken(s.buf, pos);
      }
    } else if Operators(c) != [] {
      OperatorChars(c);
      ScanOperator(s, tp, c, pos);
      OperatorIsToken(s.buf, pos);
    } else {
      skipped := ScanOther(s, tp, c, pos);
    }
  }

  /** ecGetToken, on a token that is empty. */
  method ScanToken(s: EcStream, tp: EcToken)
    requires s.Valid() && tp.Valid() && tp.Text() == []
    modifies s, tp, tp.text
    ensures tp.text == old(tp.text) || fresh(tp.text)
    ensures s.Valid() && tp.Valid()
    ensures Lexed(tp.Tok(), s.nextChar) == Lex(s.buf, old(s.nextChar))
  {
    hide TokenAt, GapItemEnd, Newlines;
    ghost var start := s.nextChar;
    while true
      invariant s.Valid() && tp.Valid() && tp.Text() == []
      invariant tp.text == old(tp.text) || fresh(tp.text)
      invariant SkipGap(s.buf, start) == SkipGap(s.buf, s.nextChar)
      decreases |s.buf| - s.nextChar
    {
      ghost var pos := s.nextChar;
      var c := s.GetNextChar();
      if c == EOF {
        GapAtEnd(s.buf);
        tp.Make(EOF, T_EOF, -1, 0);
        return;
      }
      var skipped := ScanItem(s, tp, c, pos);
      if !skipped {
        return;
      }
    }
  }

  lemma GapAtEnd(src: string)
    ensures SkipGap(src, |src|) == |src|
  {
  }
}
