/**
 What lies between tokens, said without the lexer: white space, spliced lines
 and comments, where a block comment is what a four-state automaton accepts.
 */
module Gaps {
  import opened Lexical
  import opened LexSpec

  /** Inside a block comment: behind a star that may close it, behind a slash whose next character is passed over. */
  datatype CommentState = Open | Star | Slash | Closed

  function Next(state: CommentState, c: char): CommentState {
    match state
    case Open => if c == '*' then Star else if c == '/' then Slash else Open
    case Star => if c == '/' then Closed else if c == '*' then Star else Open
    case Slash => Open
    case Closed => Closed
  }

  /** The state after src[from..to]. */
  function Run(src: string, from: nat, to: nat, state: CommentState): CommentState
    requires from <= to <= |src|
    decreases |src| - from
  {
    if from == to then state else Run(src, from + 1, to, Next(state, src[from]))
  }

  predicate IsLineEnd(c: char) { c == '\n' || c == '\r' }

  ghost predicate LineCommentAt(src: string, from: nat, to: nat) {
    && from + 2 <= to <= |src| && src[from] == '/' && src[from + 1] == '/'
    && (to == |src| || (from + 2 < to && IsLineEnd(src[to - 1])))
    && forall i :: from + 2 <= i < to - 1 ==> !IsLineEnd(src[i])
  }

  predicate Closes(src: string, from: nat, to: nat) {
    from <= to <= |src| && Run(src, from, to, Open) == Closed
  }

  /** The text of a block comment and its closing: nothing shorter closes it. */
  ghost predicate ClosesFirst(src: string, from: nat, to: nat) {
    && from <= to <= |src|
    && (to == |src| || Closes(src, from, to))
    && forall i: nat :: i < to ==> !Closes(src, from, i)
  }

  ghost predicate BlockCommentAt(src: string, from: nat, to: nat) {
    from + 2 <= to <= |src| && src[from] == '/' && src[from + 1] == '*' && ClosesFirst(src, from + 2, to)
  }

  ghost predicate GapItemAt(src: string, from: nat, to: nat) {
    || (from + 1 == to <= |src| && IsWhite(src[from]))
    || (from + 2 == to <= |src| && src[from] == '\\' && src[from + 1] == '\n')
    || LineCommentAt(src, from, to)
    || BlockCommentAt(src, from, to)
  }

  /** src[from..to] is a run of gap items. */
  ghost predicate IsGap(src: string, from: nat, to: nat)
    requires from <= to <= |src|
    decreases |src| - from
  {
    from == to || exists mid: nat :: from < mid <= to && GapItemAt(src, from, mid) && IsGap(src, mid, to)
  }

  // -------------------------------------------------------- The lexer's comments

  lemma {:induction false} LineEndIsFirst(src: string, pos: nat, i: nat)
    requires pos <= |src|
    ensures var end := LineEnd(src, pos);
      && (end == |src| || (pos < end && IsLineEnd(src[end - 1])))
      && (pos <= i < end - 1 ==> !IsLineEnd(src[i]))
    decreases |src| - pos
  {
    if pos < |src| && !IsLineEnd(src[pos]) {
      LineEndIsFirst(src, pos + 1, i);
    }
  }

  /** Behind the first character of a comment's text, the automaton can be restarted. */
  lemma Restart(src: string, pos: nat, i: nat)
    requires pos < i <= |src|
    ensures src[pos] == '/' && pos + 1 < i ==> (Closes(src, pos, i) <==> Closes(src, pos + 2, i))
    ensures src[pos] != '/' && !(src[pos] == '*' && CharAt(src, pos + 1) == '/') ==>
      (Closes(src, pos, i) <==> Closes(src, pos + 1, i))
    ensures pos + 1 == i ==> !Closes(src, pos, i)
  {
    var state := Next(Open, src[pos]);
    assert Run(src, pos, i, Open) == Run(src, pos + 1, i, state);
    if pos + 1 < i {
      assert Run(src, pos + 1, i, state) == Run(src, pos + 2, i, Next(state, src[pos + 1]));
      assert Run(src, pos + 1, i, Open) == Run(src, pos + 2, i, Next(Open, src[pos + 1]));
    }
  }

  /** Up to BlockEnd the automaton is not closed; there it is, unless the source ends first. */
  lemma {:induction false} BlockEndIsFirst(src: string, pos: nat, i: nat)
    requires pos <= |src|
    ensures var end := BlockEnd(src, pos);
      && (end == |src| || Closes(src, pos, end))
      && (i < end ==> !Closes(src, pos, i))
    decreases |src| - pos
  {
    var end := BlockEnd(src, pos);
    if pos < |src| {
      Restart(src, pos, end);
      if pos < i <= |src| {
        Restart(src, pos, i);
      }
      if src[pos] == '*' && CharAt(src, pos + 1) == '/' {
        assert Run(src, pos, end, Open) == Run(src, pos + 1, end, Star) == Closed;
      } else if src[pos] == '/' && pos + 1 < |src| {
        BlockEndIsFirst(src, pos + 2, i);
      } else if src[pos] != '/' {
        BlockEndIsFirst(src, pos + 1, i);
      }
    }
  }

  // ---------------------------------------------------------- The lexer's gaps

  lemma LineCommentIff(src: string, pos: nat, end: nat)
    requires pos + 2 <= |src| && src[pos] == '/' && src[pos + 1] == '/'
    ensures LineCommentAt(src, pos, end) <==> end == LineEnd(src, pos + 2)
  {
    hide LineEnd;
    var first := LineEnd(src, pos + 2);
    forall i | pos + 2 <= i < first - 1 ensures !IsLineEnd(src[i]) {
      LineEndIsFirst(src, pos + 2, i);
    }
    LineEndIsFirst(src, pos + 2, if end > 0 then end - 1 else 0);
  }

  lemma BlockCommentIff(src: string, pos: nat, end: nat)
    requires pos + 2 <= |src| && src[pos] == '/' && src[pos + 1] == '*'
    ensures BlockCommentAt(src, pos, end) <==> end == BlockEnd(src, pos + 2)
  {
    hide BlockEnd, Closes;
    var body := pos + 2;
    forall i: nat ensures i < BlockEnd(src, body) ==> !Closes(src, body, i) {
      BlockEndIsFirst(src, body, i);
    }
    BlockEndIsFirst(src, body, end);
  }

  /** The lexer skips exactly one gap item at a time, where there is one. */
  lemma GapItemIff(src: string, pos: nat, end: nat)
    requires pos <= |src|
    ensures GapItemAt(src, pos, end) <==> pos < end && end == GapItemEnd(src, pos)
  {
    hide BlockEnd, LineEnd, ClosesFirst;
    if pos + 2 <= |src| && src[pos] == '/' {
      if src[pos + 1] == '/' {
        LineCommentIff(src, pos, end);
      } else if src[pos + 1] == '*' {
        BlockCommentIff(src, pos, end);
      }
    }
  }

  /** What the lexer skips before a token is a gap, and the only one after which no gap item stands. */
  lemma {:induction false} SkipGapIff(src: string, pos: nat, start: nat)
    requires pos <= start <= |src|
    ensures IsGap(src, pos, start) && (forall end :: !GapItemAt(src, start, end)) <==> start == SkipGap(src, pos)
    decreases |src| - pos
  {
    hide GapItemAt, GapItemEnd;
    var mid := GapItemEnd(src, pos);
    forall end: nat ensures GapItemAt(src, pos, end) <==> pos < end == mid {
      GapItemIff(src, pos, end);
    }
    if mid == pos {
      assert IsGap(src, pos, start) <==> start == pos;
    } else if mid <= start {
      SkipGapIff(src, mid, start);
      assert IsGap(src, pos, start) <==> IsGap(src, mid, start);
    } else {
      assert GapItemAt(src, pos, mid);
      assert IsGap(src, pos, start) ==> start == pos;
    }
  }
}
