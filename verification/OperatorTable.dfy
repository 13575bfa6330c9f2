/**
 The nested switch of the lexer refines a table: at every position it settles
 on the one operator of the table that is the longest to stand there.
 */
module OperatorTable {
  import opened Lexical
  import opened LexSpec

  /** The operator stands at pos, and no other that stands there is as long. */
  ghost predicate Longest(src: string, pos: nat, o: Op) {
    && IsOperator(o) && Looking(src, pos, o.spelling)
    && forall p :: IsOperator(p) && Looking(src, pos, p.spelling) && p != o ==> |p.spelling| < |o.spelling|
  }

  lemma LookingChars(src: string, pos: nat, spelling: string)
    requires 1 <= |spelling| <= 4 && EOF !in spelling
    ensures Looking(src, pos, spelling) <==>
      && CharAt(src, pos) == spelling[0]
      && (|spelling| > 1 ==> CharAt(src, pos + 1) == spelling[1])
      && (|spelling| > 2 ==> CharAt(src, pos + 2) == spelling[2])
      && (|spelling| > 3 ==> CharAt(src, pos + 3) == spelling[3])
  {
  }

  /** Of the operators that begin with the character at pos, number i is the one chosen, or shorter, or not there. */
  ghost predicate Settled(src: string, pos: nat, i: nat)
    requires i < |Operators(CharAt(src, pos))|
  {
    var p, o := Operators(CharAt(src, pos))[i], OperatorAt(src, pos);
    if p == o then Looking(src, pos, p.spelling)
    else Looking(src, pos, p.spelling) ==> |p.spelling| < |o.spelling|
  }

  lemma SettledArithmetic(src: string, pos: nat, i: nat)
    requires var first := CharAt(src, pos); (first == '+' || first == '-' || first == '*') && i < |Operators(first)|
    ensures Settled(src, pos, i)
  {
    hide Looking;
    LookingChars(src, pos, Operators(CharAt(src, pos))[i].spelling);
  }

  lemma SettledDivision(src: string, pos: nat, i: nat)
    requires var first := CharAt(src, pos); (first == '/' || first == '%') && i < |Operators(first)|
    ensures Settled(src, pos, i)
  {
    hide Looking;
    LookingChars(src, pos, Operators(CharAt(src, pos))[i].spelling);
  }

  lemma SettledDots(src: string, pos: nat, i: nat)
    requires var first := CharAt(src, pos); (first == '.' || first == ':') && i < |Operators(first)|
    ensures Settled(src, pos, i)
  {
    hide Looking;
    LookingChars(src, pos, Operators(CharAt(src, pos))[i].spelling);
  }

  lemma SettledEquality(src: string, pos: nat, i: nat)
    requires var first := CharAt(src, pos); (first == '!' || first == '=') && i < |Operators(first)|
    ensures Settled(src, pos, i)
  {
    hide Looking;
    LookingChars(src, pos, Operators(CharAt(src, pos))[i].spelling);
  }

  lemma SettledAnd(src: string, pos: nat, i: nat)
    requires var first := CharAt(src, pos); first == '&' && i < |Operators(first)|
    ensures Settled(src, pos, i)
  {
    hide Looking;
    LookingChars(src, pos, Operators(CharAt(src, pos))[i].spelling);
  }

  lemma SettledXor(src: string, pos: nat, i: nat)
    requires var first := CharAt(src, pos); first == '^' && i < |Operators(first)|
    ensures Settled(src, pos, i)
  {
    hide Looking;
    LookingChars(src, pos, Operators(CharAt(src, pos))[i].spelling);
  }

  lemma SettledOr(src: string, pos: nat, i: nat)
    requires var first := CharAt(src, pos); first == '|' && i < |Operators(first)|
    ensures Settled(src, pos, i)
  {
    hide Looking;
    LookingChars(src, pos, Operators(CharAt(src, pos))[i].spelling);
  }

  lemma SettledLess(src: string, pos: nat, i: nat)
    requires var first := CharAt(src, pos); first == '<' && i < |Operators(first)|
    ensures Settled(src, pos, i)
  {
    hide Looking;
    LookingChars(src, pos, Operators(CharAt(src, pos))[i].spelling);
  }

  lemma SettledGreater(src: string, pos: nat, i: nat)
    requires var first := CharAt(src, pos); first == '>' && i < |Operators(first)|
    ensures Settled(src, pos, i)
  {
    hide Looking;
    LookingChars(src, pos, Operators(CharAt(src, pos))[i].spelling);
  }

  lemma SettledPunctuator(src: string, pos: nat, i: nat)
    requires |Operators(CharAt(src, pos))| == 1 && i == 0
    ensures Settled(src, pos, i)
  {
    hide Looking;
    LookingChars(src, pos, Operators(CharAt(src, pos))[i].spelling);
  }

  lemma SettledAll(src: string, pos: nat, i: nat)
    requires i < |Operators(CharAt(src, pos))|
    ensures Settled(src, pos, i)
  {
    hide Settled, Operators;
    match CharAt(src, pos)
    case '+' => SettledArithmetic(src, pos, i);
    case '-' => SettledArithmetic(src, pos, i);
    case '*' => SettledArithmetic(src, pos, i);
    case '/' => SettledDivision(src, pos, i);
    case '%' => SettledDivision(src, pos, i);
    case '.' => SettledDots(src, pos, i);
    case ':' => SettledDots(src, pos, i);
    case '!' => SettledEquality(src, pos, i);
    case '=' => SettledEquality(src, pos, i);
    case '&' => SettledAnd(src, pos, i);
    case '^' => SettledXor(src, pos, i);
    case '|' => SettledOr(src, pos, i);
    case '<' => SettledLess(src, pos, i);
    case '>' => SettledGreater(src, pos, i);
    case _ =>
      OnePunctuator(CharAt(src, pos));
      SettledPunctuator(src, pos, i);
  }

  lemma OnePunctuator(c: char)
    requires Operators(c) != [] && c !in "+-*/%.:!=&^|<>"
    ensures |Operators(c)| == 1
  {
  }

  lemma OperatorChars(c: char)
    requires Operators(c) != []
    ensures !IsQuote(c) && !IsWhite(c) && !IsDigit(c) && !IsWordStart(c) && c != '\\'
  {
  }

  /** Every operator of the table begins with the character its family is listed under. */
  lemma SpellingBegins(c: char, i: nat)
    requires i < |Operators(c)|
    ensures Operators(c)[i].spelling != [] && Operators(c)[i].spelling[0] == c
  {
  }

  /** The operator the lexer takes is the longest that stands there, and the only one of its length. */
  lemma LongestMatch(src: string, pos: nat)
    requires Operators(CharAt(src, pos)) != []
    ensures Longest(src, pos, OperatorAt(src, pos))
  {
    hide Operators, OperatorAt, Looking;
    var c, o := CharAt(src, pos), OperatorAt(src, pos);
    var k :| 0 <= k < |Operators(c)| && Operators(c)[k] == o;
    SettledAll(src, pos, k);
    SpellingBegins(c, k);
    forall p | IsOperator(p) && Looking(src, pos, p.spelling) && p != o ensures |p.spelling| < |o.spelling| {
      LookingFirst(src, pos, p.spelling);
      var i :| 0 <= i < |Operators(c)| && Operators(c)[i] == p;
      SettledAll(src, pos, i);
    }
  }

  lemma LookingFirst(src: string, pos: nat, spelling: string)
    requires spelling != [] && Looking(src, pos, spelling)
    ensures CharAt(src, pos) == spelling[0]
  {
  }

  /** A character begins an operator exactly if some operator stands there. */
  lemma OperatorStands(src: string, pos: nat)
    ensures Operators(CharAt(src, pos)) != [] <==> exists o :: IsOperator(o) && Looking(src, pos, o.spelling)
  {
    hide Operators, OperatorAt, Looking;
    if Operators(CharAt(src, pos)) != [] {
      LongestMatch(src, pos);
    }
    forall o | IsOperator(o) && Looking(src, pos, o.spelling) ensures Operators(CharAt(src, pos)) != [] {
      LookingFirst(src, pos, o.spelling);
    }
  }

  /**
   The text of an operator token is its source, except for `>=` and `==`, and
   for `<<` unless a third `<` follows.
   */
  lemma OpTextIsSource(src: string, pos: nat)
    requires Operators(CharAt(src, pos)) != []
    ensures var o := OperatorAt(src, pos);
      && pos + |o.spelling| <= |src| && src[pos..pos + |o.spelling|] == o.spelling
      && (OpText(o, CharAt(src, pos + |o.spelling|)) == o.spelling <==>
          o.id != T_GE && o.id != T_EQ && (o.id == T_LSH ==> CharAt(src, pos + 2) == '<'))
  {
    hide Operators, OperatorAt;
    LongestMatch(src, pos);
    var o := OperatorAt(src, pos);
    SpellingById(o);
    TextIsSpelling(o, CharAt(src, pos + |o.spelling|));
    StrictEquals();
    assert o.id == T_EQ && CharAt(src, pos + 2) == '=' ==> Looking(src, pos, "===");
  }

  lemma TextIsSpelling(o: Op, next: char)
    requires IsOperator(o)
    ensures OpText(o, next) == o.spelling <==>
      o.id != T_GE && (o.id == T_EQ ==> next == '=') && (o.id == T_LSH ==> next == '<')
  {
    hide Operators;
    SpellingById(o);
    var text := OpText(o, next);
    assert |text| == 2 ==>
      (text == o.spelling <==> |o.spelling| == 2 && text[0] == o.spelling[0] && text[1] == o.spelling[1]);
  }

  lemma StrictEquals()
    ensures IsOperator(Op("===", T_STRICT_EQ, -1, G_OPERATOR))
  {
    assert Operators('=')[0] == Op("===", T_STRICT_EQ, -1, G_OPERATOR);
  }

  lemma SpellingById(o: Op)
    requires IsOperator(o)
    ensures o.id == T_GE ==> o.spelling == ">="
    ensures o.id == T_EQ ==> o.spelling == "=="
    ensures o.id == T_LSH ==> o.spelling == "<<"
  {
    hide Operators;
    var i :| 0 <= i < |Operators(o.spelling[0])| && Operators(o.spelling[0])[i] == o;
    if o.spelling[0] in "<=>" {
      RelationalIds(o.spelling[0], i);
    } else {
      OtherIds(o.spelling[0], i);
    }
  }

  lemma RelationalIds(c: char, i: nat)
    requires c in "<=>" && i < |Operators(c)|
    ensures var o := Operators(c)[i];
      && (o.id == T_GE ==> o.spelling == ">=")
      && (o.id == T_EQ ==> o.spelling == "==")
      && (o.id == T_LSH ==> o.spelling == "<<")
  {
  }

  lemma OtherIds(c: char, i: nat)
    requires c !in "<=>" && i < |Operators(c)|
    ensures var o := Operators(c)[i]; o.id != T_GE && o.id != T_EQ && o.id != T_LSH
  {
  }
}
