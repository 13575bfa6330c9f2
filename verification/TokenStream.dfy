/**
 Getting tokens and putting them back (getLexToken, ecGetToken, ecPutToken,
 ecPutSpecificToken and ecTakeToken in src/compiler/ecLex.c). The linked list
 of tokens put back and the source not yet lexed are together one list of
 tokens: a get takes its head, a put adds one.
 */
module TokenStream {
  import opened Lexical
  import opened LexSpec
  import opened CharStream
  import opened TokenBuffer
  import opened Lexer
  import opened Tokenization

  /** The token k places down a list, or null behind the last. */
  ghost function Nth(tokens: seq<EcToken>, k: nat): EcToken? {
    if k < |tokens| then tokens[k] else null
  }

  /** The `next` links from head on make exactly this list. */
  ghost predicate Linked(head: EcToken?, tokens: seq<EcToken>)
    reads tokens`next
  {
    head == Nth(tokens, 0) && forall i :: 0 <= i < |tokens| ==> tokens[i].next == Nth(tokens, i + 1)
  }

  /** The tokens are complete, and are these. */
  ghost predicate Hold(tokens: seq<EcToken>, held: seq<Tok>)
    reads tokens, set t | t in tokens :: t.text
  {
    |held| == |tokens| && forall i :: 0 <= i < |tokens| ==> Holds(tokens[i], held[i])
  }

  ghost predicate Holds(tp: EcToken, tok: Tok)
    reads tp, tp.text
  {
    tp.Valid() && tp.tokenId > 0 && tp.Tok() == tok
  }

  lemma LinkedCons(tp: EcToken, tokens: seq<EcToken>)
    requires Linked(tp.next, tokens)
    ensures Linked(tp, [tp] + tokens)
  {
  }

  lemma LinkedTail(head: EcToken?, tokens: seq<EcToken>)
    requires Linked(head, tokens)
    ensures head == null <==> tokens == []
    ensures head != null ==> head == tokens[0] && Linked(head.next, tokens[1..])
  {
  }

  /** A list that ends holds no token twice: putting one back again would tie it into a ring. */
  lemma {:induction false} LinkedOnce(head: EcToken?, tokens: seq<EcToken>, i: nat, j: nat)
    requires Linked(head, tokens) && i < j < |tokens|
    ensures tokens[i] != tokens[j]
    decreases |tokens| - j
  {
    if tokens[i] == tokens[j] {
      assert Nth(tokens, i + 1) == Nth(tokens, j + 1);
      LinkedOnce(head, tokens, i + 1, j + 1);
    }
  }

  lemma HoldCons(tp: EcToken, tok: Tok, tokens: seq<EcToken>, held: seq<Tok>)
    requires Holds(tp, tok) && Hold(tokens, held)
    ensures Hold([tp] + tokens, [tok] + held)
  {
    hide Holds;
  }

  lemma HoldTail(tokens: seq<EcToken>, held: seq<Tok>)
    requires Hold(tokens, held)
    ensures |held| == |tokens|
    ensures tokens != [] ==> Holds(tokens[0], held[0]) && Hold(tokens[1..], held[1..])
  {
    hide Holds;
  }

  class TokenSource {
    const stream: EcStream
    var token: EcToken?
    var putback: EcToken?
    ghost var pushed: seq<EcToken>  // the list that begins at putback
    ghost var held: seq<Tok>        // what its tokens are

    ghost predicate Valid()
      reads this, stream, pushed, set t | t in pushed :: t.text
    {
      stream.Valid() && Linked(putback, pushed) && Hold(pushed, held)
    }

    /** The tokens of the source not read yet. */
    ghost function Unread(): seq<Tok>
      requires stream.Valid()
      reads stream
    {
      Tokens(stream.buf, stream.nextChar)
    }

    /** All tokens still to come: those put back, then those of the source. */
    ghost function Input(): seq<Tok>
      requires stream.Valid()
      reads this`held, stream
    {
      held + Unread()
    }

    constructor (contents: string)
      requires IsSource(contents)
      ensures Valid() && token == null && Input() == Tokens(contents, 0)
    {
      stream := new EcStream(contents);
      token, putback, pushed, held := null, null, [], [];
    }

    /** getLexToken: the token put back last, or else a new one without a code. */
    method GetLexToken() returns (tp: EcToken)
      requires Valid()
      modifies this
      ensures Valid() && token == tp && tp.Valid() && tp !in pushed
      ensures old(pushed) == [] <==> old(held) == []
      ensures if old(pushed) != [] then
                tp == old(pushed)[0] && tp.tokenId > 0
                && pushed == old(pushed)[1..] && [tp.Tok()] + held == old(held)
              else fresh(tp) && fresh(tp.text) && tp.Text() == [] && tp.tokenId == 0 && pushed == [] && held == []
    {
      hide EcToken.Tok, Linked, Hold;
      LinkedTail(putback, pushed);
      HoldTail(pushed, held);
      forall i | 0 < i < |pushed| ensures pushed[0] != pushed[i] {
        LinkedOnce(putback, pushed, 0, i);
      }
      if putback != null {
        tp := putback;
        putback := tp.next;
        pushed, held := pushed[1..], held[1..];
      } else {
        tp := new EcToken();
      }
      token := tp;
    }

    /** The part of ecGetToken that reads the source, into a new token. */
    method LexToken(tp: EcToken)
      requires stream.Valid() && tp.Valid() && tp.Text() == []
      modifies stream, tp, tp.text
      ensures stream.Valid() && tp.Valid()
      ensures tp.tokenId > 0
      ensures if old(Unread()) == [] then tp.Tok() == END && Unread() == []
              else [tp.Tok()] + Unread() == old(Unread())
    {
      hide Tokens, Lex;
      TokensStep(stream.buf, stream.nextChar);
      ScanToken(stream, tp);
    }

    /** ecGetToken: takes the head of the tokens to come; after the last one, ends of input. */
    method GetToken() returns (id: int)
      requires Valid()
      modifies this, stream
      ensures Valid() && token != null && token.Valid() && id == token.tokenId > 0 && token !in pushed
      ensures if old(Input()) == [] then token.Tok() == END && Input() == []
              else [token.Tok()] + Input() == old(Input())
    {
      hide TokenSource.Unread, Linked, Hold, EcToken.Tok, EcStream.Valid;
      var tp := GetLexToken();
      if tp.tokenId != 0 {
        return tp.tokenId;
      }
      assert old(Input()) == Unread();
      LexToken(tp);
      assert Input() == Unread();
      return tp.tokenId;
    }

    /** ecPutSpecificToken: the token, which must not be put back already, becomes the head. */
    method PutSpecificToken(tp: EcToken)
      requires Valid() && tp.Valid() && tp.tokenId > 0 && tp !in pushed
      modifies this`putback, this`pushed, this`held, tp`next
      ensures Valid() && Input() == [tp.Tok()] + old(Input())
    {
      hide Tokens, Linked, Hold, EcStream.Valid;
      tp.next := putback;
      LinkedCons(tp, pushed);
      HoldCons(tp, tp.Tok(), pushed, held);
      putback := tp;
      pushed, held := [tp] + pushed, [tp.Tok()] + held;
    }

    method PutToken()
      requires Valid() && token != null && token.Valid() && token.tokenId > 0 && token !in pushed
      modifies this, token`next
      ensures Valid() && token == null && Input() == [old(token.Tok())] + old(Input())
    {
      hide Tokens, EcToken.Tok, EcStream.Valid;
      PutSpecificToken(token);
      token := null;
    }

    method TakeToken() returns (tp: EcToken?)
      requires Valid()
      modifies this`token
      ensures Valid() && token == null && tp == old(token) && Input() == old(Input())
    {
      tp := token;
      token := null;
    }
  }
}
