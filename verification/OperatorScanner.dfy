/**
 Scanning operators: the cases of the switch in ecGetToken
 (src/compiler/ecLex.c), one method a family. Each is entered when the first
 character of the family has been read.
 */
module OperatorScanner {
  import opened Lexical
  import opened LexSpec
  import opened CharStream
  import opened TokenBuffer

  /** The first character of an operator, at pos, has been read for an empty token. */
  ghost predicate Begun(s: EcStream, tp: EcToken, pos: nat, first: char)
    reads s, tp, tp.text
  {
    s.Valid() && tp.Valid() && s.Holds(pos, first) && first != EOF && tp.Text() == []
  }

  /** The token is the operator at pos, and the stream stands behind it. */
  ghost predicate Made(s: EcStream, tp: EcToken, pos: nat)
    reads s, tp, tp.text
  {
    && s.Valid() && tp.Valid()
    && pos < |s.buf| && Operators(s.buf[pos]) != []
    && var o := OperatorAt(s.buf, pos);
    && s.nextChar == pos + |o.spelling|
    && tp.Tok() == OpTok(o, CharAt(s.buf, pos + |o.spelling|))
  }

  /**
   A leaf of the switch: some characters are added to the token, then a last
   one unless it is NUL, and the token is given its codes. By then the stream
   must stand behind the operator o.
   */
  method Finish(s: EcStream, tp: EcToken, text: string, c: char, o: Op, ghost pos: nat)
    requires s.Valid() && tp.Valid() && tp.Text() == []
    requires pos < |s.buf| && Operators(s.buf[pos]) != [] && OperatorAt(s.buf, pos) == o
    requires s.nextChar == pos + |o.spelling|
    requires OpText(o, CharAt(s.buf, s.nextChar)) == text + if c == EOF then [] else [c]
    modifies tp, tp.text
    ensures tp.text == old(tp.text) || fresh(tp.text)
    ensures Made(s, tp, pos)
  {
    hide OperatorAt, Operators, OpText;
    tp.AddString(text);
    tp.Make(c, o.id, o.sub, o.mask);
  }

  method ScanPlus(s: EcStream, tp: EcToken, ghost pos: nat)
    requires Begun(s, tp, pos, '+')
    modifies s, tp, tp.text
    ensures tp.text == old(tp.text) || fresh(tp.text)
    ensures Made(s, tp, pos)
  {
    hide Newlines, EcStream.CanPutBack;
    var c := s.GetNextChar();
    if c == '+' {
      Finish(s, tp, "+", c, Op("++", T_PLUS_PLUS, -1, G_OPERATOR), pos);
      return;
    } else if c == '=' {
      Finish(s, tp, "+", c, Op("+=", T_ASSIGN, T_PLUS_ASSIGN, G_OPASSIGN), pos);
      return;
    }
    s.PutBackChar(c);
    Finish(s, tp, "", '+', Op("+", T_PLUS, -1, G_OPERATOR), pos);
  }

  method ScanMinus(s: EcStream, tp: EcToken, ghost pos: nat)
    requires Begun(s, tp, pos, '-')
    modifies s, tp, tp.text
    ensures tp.text == old(tp.text) || fresh(tp.text)
    ensures Made(s, tp, pos)
  {
    hide Newlines, EcStream.CanPutBack;
    var c := s.GetNextChar();
    if IsDigit(c) {
      s.PutBackChar(c);
      Finish(s, tp, "", '-', Op("-", T_MINUS, -1, G_OPERATOR), pos);
      return;
    } else if c == '-' {
      Finish(s, tp, "-", c, Op("--", T_MINUS_MINUS, -1, G_OPERATOR), pos);
      return;
    } else if c == '=' {
      Finish(s, tp, "-", c, Op("-=", T_ASSIGN, T_MINUS_ASSIGN, G_OPASSIGN), pos);
      return;
    }
    s.PutBackChar(c);
    Finish(s, tp, "", '-', Op("-", T_MINUS, -1, G_OPERATOR), pos);
  }

  method ScanStar(s: EcStream, tp: EcToken, ghost pos: nat)
    requires Begun(s, tp, pos, '*')
    modifies s, tp, tp.text
    ensures tp.text == old(tp.text) || fresh(tp.text)
    ensures Made(s, tp, pos)
  {
    hide Newlines, EcStream.CanPutBack;
    var c := s.GetNextChar();
    if c == '=' {
      Finish(s, tp, "*", c, Op("*=", T_ASSIGN, T_MUL_ASSIGN, G_OPASSIGN), pos);
      return;
    }
    s.PutBackChar(c);
    Finish(s, tp, "", '*', Op("*", T_MUL, -1, G_OPERATOR), pos);
  }

  method ScanPercent(s: EcStream, tp: EcToken, ghost pos: nat)
    requires Begun(s, tp, pos, '%')
    modifies s, tp, tp.text
    ensures tp.text == old(tp.text) || fresh(tp.text)
    ensures Made(s, tp, pos)
  {
    hide Newlines, EcStream.CanPutBack;
    var c := s.GetNextChar();
    if c == '=' {
      Finish(s, tp, "%", c, Op("%=", T_ASSIGN, T_MOD_ASSIGN, G_OPASSIGN), pos);
      return;
    }
    s.PutBackChar(c);
    Finish(s, tp, "", '%', Op("%", T_MOD, -1, G_OPERATOR), pos);
  }

  method ScanColon(s: EcStream, tp: EcToken, ghost pos: nat)
    requires Begun(s, tp, pos, ':')
    modifies s, tp, tp.text
    ensures tp.text == old(tp.text) || fresh(tp.text)
    ensures Made(s, tp, pos)
  {
    hide Newlines, EcStream.CanPutBack;
    var c := s.GetNextChar();
    if c == ':' {
      Finish(s, tp, ":", c, Op("::", T_COLON_COLON, -1, 0), pos);
      return;
    }
    s.PutBackChar(c);
    Finish(s, tp, "", ':', Op(":", T_COLON, -1, 0), pos);
  }

  method ScanNot(s: EcStream, tp: EcToken, ghost pos: nat)
    requires Begun(s, tp, pos, '!')
    modifies s, tp, tp.text
    ensures tp.text == old(tp.text) || fresh(tp.text)
    ensures Made(s, tp, pos)
  {
    hide Newlines, EcStream.CanPutBack;
    var c := s.GetNextChar();
    if c == '=' {
      c := s.GetNextChar();
      if c == '=' {
        Finish(s, tp, "!=", c, Op("!==", T_STRICT_NE, -1, G_OPERATOR), pos);
        return;
      }
      s.PutBackChar(c);
      Finish(s, tp, "!", '=', Op("!=", T_NE, -1, G_OPERATOR), pos);
      return;
    }
    s.PutBackChar(c);
    Finish(s, tp, "", '!', Op("!", T_LOGICAL_NOT, -1, G_OPERATOR), pos);
  }

  method ScanAnd(s: EcStream, tp: EcToken, ghost pos: nat)
    requires Begun(s, tp, pos, '&')
    modifies s, tp, tp.text
    ensures tp.text == old(tp.text) || fresh(tp.text)
    ensures Made(s, tp, pos)
  {
    hide Newlines, EcStream.CanPutBack;
    var c := s.GetNextChar();
    if c == '&' {
      c := s.GetNextChar();
      if c == '=' {
        Finish(s, tp, "&&", '=', Op("&&=", T_ASSIGN, T_LOGICAL_AND_ASSIGN, G_OPASSIGN), pos);
        return;
      }
      s.PutBackChar(c);
      Finish(s, tp, "&", '&', Op("&&", T_LOGICAL_AND, -1, G_OPERATOR), pos);
      return;
    } else if c == '=' {
      Finish(s, tp, "&", '=', Op("&=", T_ASSIGN, T_BIT_AND_ASSIGN, G_OPASSIGN), pos);
      return;
    }
    s.PutBackChar(c);
    Finish(s, tp, "", '&', Op("&", T_BIT_AND, -1, G_OPERATOR), pos);
  }

  method ScanCaret(s: EcStream, tp: EcToken, ghost pos: nat)
    requires Begun(s, tp, pos, '^')
    modifies s, tp, tp.text
    ensures tp.text == old(tp.text) || fresh(tp.text)
    ensures Made(s, tp, pos)
  {
    hide Newlines, EcStream.CanPutBack;
    var c := s.GetNextChar();
    if c == '^' {
      c := s.GetNextChar();
      if c == '=' {
        Finish(s, tp, "^^", '=', Op("^^=", T_ASSIGN, T_LOGICAL_XOR_ASSIGN, G_OPASSIGN), pos);
        return;
      }
      s.PutBackChar(c);
      Finish(s, tp, "^", '^', Op("^^", T_LOGICAL_XOR, -1, G_OPERATOR), pos);
      return;
    } else if c == '=' {
      Finish(s, tp, "^", '=', Op("^=", T_ASSIGN, T_BIT_XOR_ASSIGN, G_OPASSIGN), pos);
      return;
    }
    s.PutBackChar(c);
    Finish(s, tp, "", '^', Op("^", T_BIT_XOR, -1, G_OPERATOR), pos);
  }

  method ScanBar(s: EcStream, tp: EcToken, ghost pos: nat)
    requires Begun(s, tp, pos, '|')
    modifies s, tp, tp.text
    ensures tp.text == old(tp.text) || fresh(tp.text)
    ensures Made(s, tp, pos)
  {
    hide Newlines, EcStream.CanPutBack;
    var c := s.GetNextChar();
    if c == '|' {
      c := s.GetNextChar();
      if c == '=' {
        Finish(s, tp, "||", '=', Op("||=", T_ASSIGN, T_LOGICAL_OR_ASSIGN, G_OPASSIGN), pos);
        return;
      }
      s.PutBackChar(c);
      Finish(s, tp, "|", '|', Op("||", T_LOGICAL_OR, -1, G_OPERATOR), pos);
      return;
    } else if c == '=' {
      Finish(s, tp, "|", '=', Op("|=", T_ASSIGN, T_BIT_OR_ASSIGN, G_OPASSIGN), pos);
      return;
    }
    s.PutBackChar(c);
    Finish(s, tp, "", '|', Op("|", T_BIT_OR, -1, G_OPERATOR), pos);
  }

  method ScanEquals(s: EcStream, tp: EcToken, ghost pos: nat)
    requires Begun(s, tp, pos, '=')
    modifies s, tp, tp.text
    ensures tp.text == old(tp.text) || fresh(tp.text)
    ensures Made(s, tp, pos)
  {
    hide Newlines, EcStream.CanPutBack;
    var c := s.GetNextChar();
    if c == '=' {
      c := s.GetNextChar();
      if c == '=' {
        Finish(s, tp, "==", c, Op("===", T_STRICT_EQ, -1, G_OPERATOR), pos);
        return;
      }
      s.PutBackChar(c);
      Finish(s, tp, "=", c, Op("==", T_EQ, -1, G_OPERATOR), pos);
      return;
    }
    s.PutBackChar(c);
    Finish(s, tp, "", '=', Op("=", T_ASSIGN, -1, G_OPERATOR), pos);
  }

  method ScanLess(s: EcStream, tp: EcToken, ghost pos: nat)
    requires Begun(s, tp, pos, '<')
    modifies s, tp, tp.text
    ensures tp.text == old(tp.text) || fresh(tp.text)
    ensures Made(s, tp, pos)
  {
    hide Newlines, EcStream.CanPutBack;
    var c := s.GetNextChar();
    if c == '=' {
      Finish(s, tp, "<", c, Op("<=", T_LE, -1, G_OPERATOR), pos);
      return;
    } else if c == '<' {
      c := s.GetNextChar();
      if c == '=' {
        Finish(s, tp, "<<", c, Op("<<=", T_ASSIGN, T_LSH_ASSIGN, G_OPASSIGN), pos);
        return;
      }
      s.PutBackChar(c);
      Finish(s, tp, "<", c, Op("<<", T_LSH, -1, G_OPERATOR), pos);
      return;
    } else if c == '/' {
      Finish(s, tp, "<", c, Op("</", T_LT_SLASH, -1, 0), pos);
      return;
    }
    s.PutBackChar(c);
    Finish(s, tp, "", '<', Op("<", T_LT, -1, G_OPERATOR), pos);
  }

  /** The part of the '>' case that has read `>>`. */
  method ScanRightShift(s: EcStream, tp: EcToken, ghost pos: nat)
    requires s.Valid() && tp.Valid() && tp.Text() == []
    requires pos + 2 <= |s.buf| && s.buf[pos] == s.buf[pos + 1] == '>' && s.nextChar == pos + 2
    modifies s, tp, tp.text
    ensures tp.text == old(tp.text) || fresh(tp.text)
    ensures Made(s, tp, pos)
  {
    hide Newlines, EcStream.CanPutBack;
    var c := s.GetNextChar();
    if c == '=' {
      Finish(s, tp, ">>", c, Op(">>=", T_ASSIGN, T_RSH_ASSIGN, G_OPASSIGN), pos);
      return;
    } else if c == '>' {
      c := s.GetNextChar();
      if c == '=' {
        Finish(s, tp, ">>>", c, Op(">>>=", T_ASSIGN, T_RSH_ZERO_ASSIGN, G_OPASSIGN), pos);
        return;
      }
      s.PutBackChar(c);
      Finish(s, tp, ">>", '>', Op(">>>", T_RSH_ZERO, -1, G_OPERATOR), pos);
      return;
    }
    s.PutBackChar(c);
    Finish(s, tp, ">", '>', Op(">>", T_RSH, -1, G_OPERATOR), pos);
  }

  method ScanGreater(s: EcStream, tp: EcToken, ghost pos: nat)
    requires Begun(s, tp, pos, '>')
    modifies s, tp, tp.text
    ensures tp.text == old(tp.text) || fresh(tp.text)
    ensures Made(s, tp, pos)
  {
    hide Newlines, EcStream.CanPutBack;
    var c := s.GetNextChar();
    if c == '=' {
      Finish(s, tp, "<", c, Op(">=", T_GE, -1, G_OPERATOR), pos);
      return;
    } else if c == '>' {
      ScanRightShift(s, tp, pos);
      return;
    }
    s.PutBackChar(c);
    Finish(s, tp, "", '>', Op(">", T_GT, -1, G_OPERATOR), pos);
  }

  /** The '.' case for anything but a number. */
  method ScanDot(s: EcStream, tp: EcToken, ghost pos: nat) returns (number: bool)
    requires Begun(s, tp, pos, '.')
    modifies s, tp, tp.text
    ensures tp.text == old(tp.text) || fresh(tp.text)
    ensures number == IsDigit(CharAt(s.buf, pos + 1))
    ensures if number then Begun(s, tp, pos, '.') else Made(s, tp, pos)
  {
    hide Newlines, EcStream.CanPutBack;
    var c := s.GetNextChar();
    number := IsDigit(c);
    if c == '.' {
      c := s.GetNextChar();
      if c == '.' {
        Finish(s, tp, "..", c, Op("...", T_ELIPSIS, -1, 0), pos);
        return;
      }
      s.PutBackChar(c);
      Finish(s, tp, ".", '.', Op("..", T_DOT_DOT, -1, 0), pos);
      return;
    } else if number {
      s.PutBackChar(c);
      return;
    }
    s.PutBackChar(c);
    Finish(s, tp, "", '.', Op(".", T_DOT, -1, G_OPERATOR), pos);
  }

  /** The '/' case, up to the second character of a comment, which is returned; or NUL and an operator. */
  method ScanSlash(s: EcStream, tp: EcToken, ghost pos: nat) returns (form: char)
    requires Begun(s, tp, pos, '/')
    modifies s, tp, tp.text
    ensures tp.text == old(tp.text) || fresh(tp.text)
    ensures if form != EOF then
      (form == '/' || form == '*') && s.Valid() && tp.Valid() && s.Holds(pos + 1, form)
      else CharAt(s.buf, pos + 1) != '/' && CharAt(s.buf, pos + 1) != '*' && Made(s, tp, pos)
  {
    hide Newlines, EcStream.CanPutBack;
    form := EOF;
    var c := s.GetNextChar();
    if c == '=' {
      Finish(s, tp, "/", c, Op("/=", T_ASSIGN, T_DIV_ASSIGN, G_OPASSIGN), pos);
      return;
    } else if c == '>' {
      Finish(s, tp, "/", c, Op("/>", T_SLASH_GT, -1, G_OPERATOR), pos);
      return;
    } else if c == '*' || c == '/' {
      form := c;
      return;
    }
    s.PutBackChar(c);
    Finish(s, tp, "", '/', Op("/", T_DIV, -1, G_OPERATOR), pos);
  }
}
