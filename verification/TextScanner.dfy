/**
 Scanning words, string literals and comments (makeAlphaToken, makeQuotedToken
 and getComment in src/compiler/ecLex.c).
 */
module TextScanner {
  import opened Lexical
  import opened LexSpec
  import opened CharStream
  import opened TokenBuffer
  import opened NumberScanner

  // ---------------------------------------------------------------------- Words

  /** The C string in the token: its text up to the first NUL. */
  method CString(tp: EcToken) returns (key: string)
    requires tp.Terminated()
    ensures key == UpToNul(tp.Text())
  {
    key := [];
    while tp.text[|key|] != EOF
      invariant |key| <= tp.length
      invariant UpToNul(tp.Text()) == key + UpToNul(tp.text[|key|..tp.length])
      decreases tp.length - |key|
    {
      assert tp.text[|key|..tp.length][1..] == tp.text[|key| + 1..tp.length];
      key := key + [tp.text[|key|]];
    }
  }

  /** Having read `done`, the scan of a word goes on at `pos`. */
  ghost predicate WordSoFar(src: string, start: nat, done: string, pos: nat)
    requires start <= |src| && pos <= |src|
  {
    var rest := WordFrom(src, pos);
    WordFrom(src, start) == Scan(done + rest.text, rest.end)
  }

  lemma WordStep(src: string, start: nat, done: string, pos: nat, c: char, next: nat)
    requires start <= |src| && pos <= |src| && next <= |src|
    requires WordSoFar(src, start, done, pos)
    requires WordFrom(src, pos) == Before(c, WordFrom(src, next))
    ensures WordSoFar(src, start, done + [c], next)
  {
    hide WordFrom;
    assert done + ([c] + WordFrom(src, next).text) == done + [c] + WordFrom(src, next).text;
  }

  lemma WordStart(src: string, start: nat)
    requires start <= |src|
    ensures WordSoFar(src, start, [], start)
  {
    hide WordFrom;
  }

  lemma WordCharStep(src: string, pos: nat)
    requires pos < |src| && IsWordChar(src[pos])
    ensures WordFrom(src, pos) == Before(src[pos], WordFrom(src, pos + 1))
  {
  }

  /** A word ends at a character that is not part of one, or at a backslash before a line end. */
  lemma WordEnd(src: string, start: nat, done: string, pos: nat)
    requires start <= |src| && pos <= |src| && WordSoFar(src, start, done, pos)
    ensures WordFrom(src, pos).text == [] ==> WordFrom(src, start) == Scan(done, WordFrom(src, pos).end)
    ensures !IsWordChar(CharAt(src, pos)) && CharAt(src, pos) != '\\' ==> WordFrom(src, pos) == Scan([], pos)
  {
  }

  /** The character the escape behind a backslash at pos stands for; a line end only breaks the word. */
  method GetWordEscape(s: EcStream, ghost pos: nat) returns (c: char, broken: bool)
    requires s.Valid() && s.Holds(pos, '\\')
    modifies s
    ensures s.Valid()
    ensures if broken then
      c != EOF && s.CanPutBack(c) && s.nextChar == pos + 2 && WordFrom(s.buf, pos) == Scan([], pos + 1)
      else pos < s.nextChar && WordFrom(s.buf, pos) == Before(c, WordFrom(s.buf, s.nextChar))
  {
    c := s.GetNextChar();
    broken := c == '\n' || c == '\r';
    if c == 'u' {
      c := DecodeEscape(s, 16, 4);
    }
  }

  /** Keyword or identifier, looked up by the C string. */
  method MakeWordToken(tp: EcToken)
    requires tp.Terminated()
    modifies tp, tp.text
    ensures tp.text == old(tp.text) || fresh(tp.text)
    ensures tp.Valid() && tp.Tok() == WordTok(old(tp.Text()))
  {
    var key := CString(tp);
    if key in KEYWORDS {
      tp.Make(EOF, KEYWORDS[key].id, KEYWORDS[key].sub, KEYWORDS[key].mask);
    } else {
      tp.Make(EOF, T_ID, -1, 0);
    }
  }

  method MakeAlphaToken(s: EcStream, tp: EcToken, first: char, ghost start: nat)
    requires Scanned(s, tp, start, start, first) && IsWordStart(first)
    modifies s, tp, tp.text
    ensures tp.text == old(tp.text) || fresh(tp.text)
    ensures s.Valid() && tp.Valid()
    ensures tp.Tok() == WordTok(WordFrom(s.buf, start).text) && s.nextChar == WordFrom(s.buf, start).end
  {
    hide WordFrom, WordTok, WordSoFar, Newlines, UpToNul;
    var c := first;
    ghost var pos := start;
    WordStart(s.buf, start);
    while IsWordChar(c) || c == '\\'
      invariant s.Valid() && tp.Valid() && s.Holds(pos, c)
      invariant tp.text == old(tp.text) || fresh(tp.text)
      invariant WordSoFar(s.buf, start, tp.Text(), pos)
      invariant if pos == start then c == first else s.CanPutBack(c) && tp.Terminated()
      decreases |s.buf| - pos
    {
      ghost var done := tp.Text();
      if c == '\\' {
        var broken;
        c, broken := GetWordEscape(s, pos);
        if broken {
          WordEnd(s.buf, start, done, pos);
          break;
        }
      } else {
        WordCharStep(s.buf, pos);
      }
      WordStep(s.buf, start, done, pos, c, s.nextChar);
      pos := s.nextChar;
      tp.AddChar(c);
      c := s.GetNextChar();
    }
    WordEnd(s.buf, start, tp.Text(), pos);
    s.PutBackChar(c);
    MakeWordToken(tp);
  }

  // -------------------------------------------------------------------- Strings

  /** Having read `done`, the scan of a string goes on at `pos`. */
  ghost predicate StringSoFar(src: string, start: nat, quote: char, done: string, pos: nat)
    requires start <= |src| && pos <= |src|
  {
    var rest := StringFrom(src, pos, quote);
    StringFrom(src, start, quote) == Scan(done + rest.text, rest.end)
  }

  lemma StringBegins(src: string, start: nat, quote: char)
    requires start <= |src|
    ensures StringSoFar(src, start, quote, [], start)
  {
    hide StringFrom;
  }

  lemma StringStep(src: string, start: nat, quote: char, done: string, pos: nat, c: char, next: nat)
    requires start <= |src| && pos < |src| && next <= |src|
    requires StringSoFar(src, start, quote, done, pos)
    requires src[pos] != quote
    requires if src[pos] == '\\' then Escaped(c, next) == EscapeAt(src, pos + 1) else c == src[pos] && next == pos + 1
    ensures StringSoFar(src, start, quote, done + [c], next)
  {
    hide EscapeAt;
    assert done + ([c] + StringFrom(src, next, quote).text) == done + [c] + StringFrom(src, next, quote).text;
  }

  /** A string ends behind its closing quote, or with the source. */
  lemma StringEnds(src: string, start: nat, quote: char, done: string, pos: nat)
    requires start <= |src| && pos <= |src|
    requires StringSoFar(src, start, quote, done, pos)
    requires pos == |src| || src[pos] == quote
    ensures StringFrom(src, start, quote) == Scan(done, if pos == |src| then pos else pos + 1)
  {
  }

  method GetEscape(s: EcStream) returns (c: char)
    requires s.Valid()
    modifies s
    ensures s.Valid()
    ensures Escaped(c, s.nextChar) == EscapeAt(s.buf, old(s.nextChar))
  {
    hide DecodeNumber, Newlines;
    c := s.GetNextChar();
    match c
    case 'b' => c := '\U{08}';
    case 'f' => c := '\U{0C}';
    case 'n' => c := '\n';
    case 'r' => c := '\r';
    case 't' => c := '\t';
    case 'u' => c := DecodeEscape(s, 16, 4);
    case 'x' => c := DecodeEscape(s, 16, 2);
    case 'v' => c := '\U{0B}';
    case '0' => c := DecodeEscape(s, 8, 3);
    case _ =>
  }

  method MakeQuotedToken(s: EcStream, tp: EcToken, quote: char)
    requires s.Valid() && tp.Valid() && tp.Text() == [] && quote != EOF
    modifies s, tp, tp.text
    ensures tp.text == old(tp.text) || fresh(tp.text)
    ensures s.Valid() && tp.Valid()
    ensures tp.Tok() == Tok(T_STRING, -1, 0, StringFrom(s.buf, old(s.nextChar), quote).text)
    ensures s.nextChar == StringFrom(s.buf, old(s.nextChar), quote).end
  {
    hide StringFrom, EscapeAt, StringSoFar, Newlines;
    ghost var start := s.nextChar;
    ghost var pos := start;
    StringBegins(s.buf, start, quote);
    var c := s.GetNextChar();
    while c != EOF && c != quote
      invariant s.Valid() && tp.Valid() && s.Holds(pos, c)
      invariant tp.text == old(tp.text) || fresh(tp.text)
      invariant c == EOF <==> pos == |s.buf|
      invariant StringSoFar(s.buf, start, quote, tp.Text(), pos)
      decreases |s.buf| - pos
    {
      ghost var done := tp.Text();
      if c == '\\' {
        c := GetEscape(s);
      }
      StringStep(s.buf, start, quote, done, pos, c, s.nextChar);
      pos := s.nextChar;
      tp.AddChar(c);
      c := s.GetNextChar();
    }
    StringEnds(s.buf, start, quote, tp.Text(), pos);
    tp.Make(EOF, T_STRING, -1, 0);
  }

  // ------------------------------------------------------------------- Comments

  function Decimal(n: nat): string {
    (if n < 10 then [] else Decimal(n / 10)) + ['0' + (n % 10) as char]
  }

  /** The body of the loop of getComment for block comments, after c at pos was read. */
  method GetBlockCommentChar(s: EcStream, tp: EcToken, c: char, ghost pos: nat) returns (d: char, closed: bool)
    requires s.Valid() && tp.Valid() && s.Holds(pos, c) && c != EOF
    modifies s, tp, tp.text
    ensures tp.text == old(tp.text) || fresh(tp.text)
    ensures s.Valid() && tp.Valid() && s.nextChar > pos
    ensures if closed then s.nextChar == BlockEnd(s.buf, pos) else BlockEnd(s.buf, pos) == BlockEnd(s.buf, s.nextChar)
    ensures d == EOF ==> s.nextChar == |s.buf|
  {
    hide Newlines;
    d, closed := c, false;
    if c == '*' {
      d := s.GetNextChar();
      if d == '/' {
        closed := true;
        return;
      }
      tp.AddChar('*');
      s.PutBackChar(d);
    } else if c == '/' {
      d := s.GetNextChar();
      tp.AddChar('/');
    }
  }

  lemma BlockEndAtEnd(src: string)
    ensures BlockEnd(src, |src|) == |src|
  {
  }

  /**
   getComment. The text of the comment goes into the token, which the caller
   empties again; a comment the source does not end runs to the end of the source.
   */
  method GetComment(s: EcStream, tp: EcToken, form: char)
    requires s.Valid() && tp.Valid() && (form == '/' || form == '*')
    modifies s, tp, tp.text
    ensures tp.text == old(tp.text) || fresh(tp.text)
    ensures s.Valid() && tp.Valid()
    ensures s.nextChar ==
            if form == '/' then LineEnd(s.buf, old(s.nextChar)) else BlockEnd(s.buf, old(s.nextChar))
  {
    hide Newlines, Decimal, BlockEnd;
    BlockEndAtEnd(s.buf);
    var startLine := s.lineNumber;
    var c := form;
    while c != EOF
      invariant s.Valid() && tp.Valid()
      invariant tp.text == old(tp.text) || fresh(tp.text)
      invariant c == EOF ==> s.nextChar == |s.buf|
      invariant form == '/' ==> LineEnd(s.buf, old(s.nextChar)) == LineEnd(s.buf, s.nextChar)
      invariant form == '*' ==> BlockEnd(s.buf, old(s.nextChar)) == BlockEnd(s.buf, s.nextChar)
      decreases |s.buf| - s.nextChar, if c == EOF then 0 else 1
    {
      c := s.GetNextChar();
      if c == EOF {
        tp.AddString("Unterminated comment starting on line " + Decimal(startLine));
        tp.Make(EOF, if form == '/' then T_EOF else T_ERR, -1, 0);
        return;
      }
      if form == '/' {
        if c == '\n' || c == '\r' {
          break;
        }
      } else {
        var closed;
        c, closed := GetBlockCommentChar(s, tp, c, s.nextChar - 1);
        if closed {
          break;
        }
      }
      tp.AddChar(c);
    }
  }
}
