/**
 The character stream of the lexer (EcStream; getNextChar, putBackChar and
 ecSetStreamBuf in src/compiler/ecLex.c): one character of push-back, and the
 line and column of the last character read.
 */
module CharStream {
  import opened Lexical

  function Newlines(s: string): nat {
    if s == [] then 0 else Newlines(s[..|s| - 1]) + if s[|s| - 1] == '\n' then 1 else 0
  }

  lemma NewlinesStep(src: string, pos: nat)
    requires pos < |src|
    ensures Newlines(src[..pos + 1]) == Newlines(src[..pos]) + if src[pos] == '\n' then 1 else 0
  {
    assert src[..pos + 1][..pos] == src[..pos];
  }

  class EcStream {
    const buf: string
    var nextChar: nat
    var lineNumber: int
    var column: int
    var lastLineNumber: int  // the line before the newline read last

    /** The line is always one more than the newlines consumed. */
    ghost predicate Valid()
      reads this
    {
      && IsSource(buf)
      && nextChar <= |buf|
      && lineNumber == 1 + Newlines(buf[..nextChar])
      && column >= 0
    }

    /** c is the character read last, and its location can be taken back; or c is EOF. */
    ghost predicate CanPutBack(c: char)
      reads this
    {
      c != EOF ==>
        && 0 < nextChar <= |buf|
        && buf[nextChar - 1] == c
        && if c == '\n' then lastLineNumber == lineNumber - 1 else column > 0
    }

    /** c, the character at pos, was read last. */
    ghost predicate Holds(pos: nat, c: char)
      reads this
    {
      && pos <= |buf|
      && c == CharAt(buf, pos)
      && nextChar == if pos < |buf| then pos + 1 else pos
    }

    /** ecCreateStream and ecSetStreamBuf: reads one character and puts it back. */
    constructor (contents: string)
      requires IsSource(contents)
      ensures Valid() && buf == contents && nextChar == 0
      ensures lineNumber == 1 && column == 0
    {
      buf := contents;
      nextChar, lineNumber, column, lastLineNumber := 0, 1, 0, 0;
      new;
      var c := GetNextChar();
      PutBackChar(c);
    }

    method GetNextChar() returns (c: char)
      requires Valid()
      modifies this
      ensures Valid() && Holds(old(nextChar), c) && CanPutBack(c)
      ensures c == EOF <==> old(nextChar) == |buf|
      ensures column == if c == EOF then old(column) else if c == '\n' then 0 else old(column) + 1
    {
      if nextChar < |buf| {
        c := buf[nextChar];
        NewlinesStep(buf, nextChar);
        nextChar := nextChar + 1;
        if c == '\n' {
          lastLineNumber := lineNumber;
          lineNumber := lineNumber + 1;
          column := 0;
        } else {
          column := column + 1;
        }
        return;
      }
      return EOF;
    }

    /** The two assertions of putBackChar never fail; the column behind a newline is not restored but zeroed. */
    method PutBackChar(c: char)
      requires Valid() && CanPutBack(c)
      modifies this
      ensures Valid()
      ensures nextChar == if c == EOF then old(nextChar) else old(nextChar) - 1
      ensures column == if c == EOF then old(column) else if c == '\n' then 0 else old(column) - 1
    {
      if 0 < nextChar && c != EOF {
        nextChar := nextChar - 1;
        NewlinesStep(buf, nextChar);
        assert c == buf[nextChar];
        if c == '\n' {
          lineNumber := lastLineNumber;
          column := 0;
        } else {
          column := column - 1;
        }
        assert column >= 0;
      }
    }

    /**
     Reading a character and putting it back restores position and line, and the
     column unless a newline was read away from column 0.
     */
    method PeekChar() returns (c: char)
      requires Valid()
      modifies this
      ensures Valid() && c == CharAt(buf, nextChar)
      ensures nextChar == old(nextChar) && lineNumber == old(lineNumber)
      ensures column == old(column) <==> c != '\n' || old(column) == 0
    {
      c := GetNextChar();
      PutBackChar(c);
    }
  }
}
