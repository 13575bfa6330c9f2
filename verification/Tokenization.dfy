/**
 A whole source as tokens: the lexer always moves on, and the tokens and the
 gaps between them are exactly the source.
 */
module Tokenization {
  import opened Lexical
  import opened LexSpec
  import opened Gaps
  import opened OperatorTable

  lemma NumberProgress(src: string, pos: nat)
    requires pos < |src| && StartsNumber(src, pos)
    ensures pos < NumberEnd(src, pos)
  {
  }

  lemma WordProgress(src: string, pos: nat)
    requires pos < |src| && IsWordStart(src[pos])
    ensures pos < WordFrom(src, pos).end
  {
  }

  /** Every token but the end takes at least one character, and has a code of its own. */
  lemma TokenProgress(src: string, pos: nat)
    requires pos < |src|
    ensures pos < TokenAt(src, pos).end <= |src|
    ensures 0 < TokenAt(src, pos).tok.id != T_EOF
  {
    hide Operators, OperatorAt, OpText, NumberEnd, WordFrom, StringFrom, UpToNul;
    var c := src[pos];
    if IsQuote(c) {
    } else if StartsNumber(src, pos) {
      NumberProgress(src, pos);
    } else if IsWordStart(c) {
      WordProgress(src, pos);
    } else if Operators(c) != [] {
      LongestMatch(src, pos);
    }
  }

  // ------------------------------------------------------------------ Partition

  /** A token, src[start..end], and the gap before it, src[from..start]. */
  datatype Piece = Piece(from: nat, start: nat, end: nat, tok: Tok)

  const END: Tok := Tok(T_EOF, -1, 0, [])

  /** The pieces the lexer takes from the source, one call after the other, to the first end of input. */
  function Pieces(src: string, pos: nat): (ps: seq<Piece>)
    requires pos <= |src|
    ensures ps != []
    decreases |src| - pos
  {
    var start := SkipGap(src, pos);
    if start == |src| then [Piece(pos, start, start, END)]
    else
      TokenProgress(src, start);
      var r := TokenAt(src, start);
      [Piece(pos, start, r.end, r.tok)] + Pieces(src, r.end)
  }

  /** The gap ends where no gap item stands: it takes all there is. */
  ghost predicate WholeGap(src: string, from: nat, to: nat) {
    from <= to <= |src| && IsGap(src, from, to) && forall end :: !GapItemAt(src, to, end)
  }

  /** Gaps and tokens alternate from pos to the end of the source, and no token is empty. */
  ghost predicate IsPartition(src: string, pos: nat, ps: seq<Piece>)
    decreases |ps|
  {
    && ps != []
    && var p := ps[0];
    && p.from == pos && WholeGap(src, pos, p.start)
    && if p.start == |src| then p.end == |src| && p.tok == END && |ps| == 1
       else p.start < p.end <= |src| && TokenAt(src, p.start) == Lexed(p.tok, p.end) && IsPartition(src, p.end, ps[1..])
  }

  /** Gaps and tokens put together again. */
  function Glue(src: string, ps: seq<Piece>): string
    requires forall p :: p in ps ==> p.from <= p.start <= p.end <= |src|
  {
    if ps == [] then []
    else src[ps[0].from..ps[0].start] + src[ps[0].start..ps[0].end] + Glue(src, ps[1..])
  }

  /** The lexer's pieces are a partition of the source, and there is no other. */
  lemma {:induction false} PartitionIff(src: string, pos: nat, ps: seq<Piece>)
    requires pos <= |src|
    ensures IsPartition(src, pos, ps) <==> ps == Pieces(src, pos)
    decreases |src| - pos
  {
    hide TokenAt, IsGap, GapItemAt, SkipGap;
    var start := SkipGap(src, pos);
    SkipGapIff(src, pos, start);
    if ps != [] && pos <= ps[0].start <= |src| {
      SkipGapIff(src, pos, ps[0].start);
    }
    if start < |src| {
      TokenProgress(src, start);
      if ps != [] {
        PartitionIff(src, TokenAt(src, start).end, ps[1..]);
        assert ps == [ps[0]] + ps[1..];
      }
    } else {
      assert IsPartition(src, pos, ps) ==> ps == [ps[0]];
    }
  }

  lemma {:induction false} PartitionGlues(src: string, pos: nat, ps: seq<Piece>)
    requires IsPartition(src, pos, ps) && pos <= |src|
    ensures forall p :: p in ps ==> p.from <= p.start <= p.end <= |src|
    ensures Glue(src, ps) == src[pos..]
    decreases |ps|
  {
    hide TokenAt, IsGap, GapItemAt;
    var p := ps[0];
    assert ps == [p] + ps[1..];
    if p.start < |src| {
      PartitionGlues(src, p.end, ps[1..]);
    } else {
      assert ps[1..] == [];
    }
  }

  // ------------------------------------------------------------- Lists of tokens

  lemma LexProgress(src: string, pos: nat)
    requires pos <= |src|
    ensures pos <= Lex(src, pos).end <= |src| && 0 < Lex(src, pos).tok.id
    ensures Lex(src, pos).tok.id == T_EOF <==> SkipGap(src, pos) == |src|
    ensures if Lex(src, pos).tok.id == T_EOF then Lex(src, pos) == Lexed(END, |src|) else pos < Lex(src, pos).end
  {
    hide TokenAt, SkipGap;
    if SkipGap(src, pos) < |src| {
      TokenProgress(src, SkipGap(src, pos));
    }
  }

  /** The tokens from a position on, without the end of input. */
  function Tokens(src: string, pos: nat): seq<Tok>
    requires pos <= |src|
    decreases |src| - pos
  {
    LexProgress(src, pos);
    var r := Lex(src, pos);
    if r.tok.id == T_EOF then [] else [r.tok] + Tokens(src, r.end)
  }

  lemma TokensStep(src: string, pos: nat)
    requires pos <= |src|
    ensures var r := Lex(src, pos);
      && pos <= r.end <= |src| && 0 < r.tok.id
      && if r.tok == END then Tokens(src, pos) == Tokens(src, r.end) == []
         else Tokens(src, pos) == [r.tok] + Tokens(src, r.end)
  {
    hide Lex;
    LexProgress(src, pos);
    if Lex(src, pos).end == |src| {
      LexAtEnd(src);
    }
  }

  lemma LexAtEnd(src: string)
    ensures Lex(src, |src|) == Lexed(END, |src|)
  {
  }
}
