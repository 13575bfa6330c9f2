/**
 Tokens and their growing text (EcToken; initializeToken, addCharToToken,
 addStringToToken and setTokenID in src/compiler/ecLex.c).
 */
module TokenBuffer {
  import opened Lexical

  const TOKEN_INCR: nat := 64  // EC_TOKEN_INCR

  class EcToken {
    var text: array<char>
    var length: nat
    var tokenId: int
    var subId: int
    var groupMask: int
    var next: EcToken?  // the token pushed back before this one

    ghost predicate Valid()
      reads this`text, this`length, text
    {
      length < text.Length
    }

    /** The text of a token is text[..length]; it may hold NUL characters. */
    ghost function Text(): string
      reads this`text, this`length, text
      requires Valid()
    {
      text[..length]
    }

    /** A NUL stands behind the text, so C string functions see it up to its first NUL. */
    ghost predicate Terminated()
      reads this`text, this`length, text
    {
      length < text.Length && text[length] == EOF
    }

    ghost function Tok(): Tok
      reads this`tokenId, this`subId, this`groupMask, this`text, this`length, text
      requires Valid()
    {
      Lexical.Tok(tokenId, subId, groupMask, Text())
    }

    /** A token that was allocated and initialized for the first time. */
    constructor ()
      ensures Valid() && Text() == [] && Terminated() && tokenId == 0 && fresh(text)
    {
      text := new char[TOKEN_INCR];
      length, tokenId, subId, groupMask, next := 0, 0, 0, 0, null;
      new;
      text[0] := EOF;
    }

    /** initializeToken on a token in use: empties it, but leaves the old text in the buffer. */
    method Reinitialize()
      requires Valid()
      modifies this`length, this`tokenId
      ensures Valid() && Text() == [] && tokenId == 0
    {
      length := 0;
      tokenId := 0;
    }

    method AddChar(c: char)
      requires Valid()
      modifies this`text, this`length, text
      ensures Valid() && Terminated() && Text() == old(Text()) + [c]
      ensures text == old(text) || fresh(text)
    {
      ghost var was := Text();
      if length >= text.Length - 1 {
        var grown := new char[text.Length + TOKEN_INCR];
        forall i | 0 <= i < length {
          grown[i] := text[i];
        }
        assert grown[..length] == was;
        text := grown;
      }
      text[length] := c;
      length := length + 1;
      text[length] := EOF;
      assert text[..length] == was + [c];
    }

    method AddString(str: string)
      requires Valid()
      modifies this`text, this`length, text
      ensures Valid() && Text() == old(Text()) + str
      ensures text == old(text) || fresh(text)
    {
      for i := 0 to |str|
        invariant Valid() && Text() == old(Text()) + str[..i]
        invariant text == old(text) || fresh(text)
      {
        AddChar(str[i]);
        assert str[..i + 1] == str[..i] + [str[i]];
      }
      assert str[..|str|] == str;
    }

    /** makeSubToken; makeToken is this with subId -1, and with no character for NUL. */
    method Make(c: char, id: int, sub: int, mask: int)
      requires Valid()
      modifies this, text
      ensures Valid()
      ensures Tok() == Lexical.Tok(id, sub, mask, old(Text()) + if c == EOF then [] else [c])
      ensures text == old(text) || fresh(text)
    {
      if c != EOF {
        AddChar(c);
      }
      tokenId, subId, groupMask := id, sub, mask;
    }
  }
}
