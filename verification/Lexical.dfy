/**
 The vocabulary of the lexer: characters, token and keyword codes
 (src/ejsCompiler.h, the keyword table of src/compiler/ecLex.c), and the
 operators of the language as a table.
 */
module Lexical {
  const T_ASSIGN: int := 1
  const T_AT: int := 2
  const T_ATTRIBUTE: int := 3
  const T_BIT_AND: int := 4
  const T_BIT_AND_ASSIGN: int := 5
  const T_BIT_OR: int := 6
  const T_BIT_OR_ASSIGN: int := 7
  const T_BIT_XOR: int := 8
  const T_BIT_XOR_ASSIGN: int := 9
  const T_BREAK: int := 10
  const T_CASE: int := 13
  const T_CAST: int := 14
  const T_CATCH: int := 15
  const T_CLASS: int := 18
  const T_COLON: int := 19
  const T_COLON_COLON: int := 20
  const T_COMMA: int := 21
  const T_CONST: int := 22
  const T_CONTINUE: int := 24
  const T_DEFAULT: int := 27
  const T_DELETE: int := 28
  const T_DIV: int := 29
  const T_DIV_ASSIGN: int := 30
  const T_DO: int := 31
  const T_DOT: int := 32
  const T_DOT_DOT: int := 33
  const T_DYNAMIC: int := 36
  const T_EACH: int := 37
  const T_ELIPSIS: int := 38
  const T_ELSE: int := 39
  const T_ENUMERABLE: int := 40
  const T_EOF: int := 41
  const T_EQ: int := 42
  const T_ERR: int := 43
  const T_EXTENDS: int := 44
  const T_FALSE: int := 45
  const T_FINAL: int := 46
  const T_FINALLY: int := 47
  const T_FOR: int := 49
  const T_FUNCTION: int := 50
  const T_GE: int := 51
  const T_GET: int := 53
  const T_GOTO: int := 54
  const T_GT: int := 55
  const T_HASH: int := 57
  const T_ID: int := 58
  const T_IF: int := 59
  const T_IMPLEMENTS: int := 60
  const T_IN: int := 61
  const T_INSTANCEOF: int := 64
  const T_INTERFACE: int := 66
  const T_INTERNAL: int := 67
  const T_INTRINSIC: int := 68
  const T_IS: int := 69
  const T_LBRACE: int := 70
  const T_LBRACKET: int := 71
  const T_LE: int := 72
  const T_LET: int := 73
  const T_LOGICAL_AND: int := 74
  const T_LOGICAL_AND_ASSIGN: int := 75
  const T_LOGICAL_NOT: int := 76
  const T_LOGICAL_OR: int := 77
  const T_LOGICAL_OR_ASSIGN: int := 78
  const T_LOGICAL_XOR: int := 79
  const T_LOGICAL_XOR_ASSIGN: int := 80
  const T_LPAREN: int := 81
  const T_LSH: int := 82
  const T_LSH_ASSIGN: int := 83
  const T_LT: int := 84
  const T_LT_SLASH: int := 85
  const T_MINUS: int := 86
  const T_MINUS_ASSIGN: int := 87
  const T_MINUS_MINUS: int := 88
  const T_MOD: int := 90
  const T_MODULE: int := 89
  const T_MOD_ASSIGN: int := 91
  const T_MUL: int := 92
  const T_MUL_ASSIGN: int := 93
  const T_NAMESPACE: int := 94
  const T_NATIVE: int := 95
  const T_NE: int := 96
  const T_NEW: int := 97
  const T_NOP: int := 98
  const T_NULL: int := 99
  const T_NUMBER: int := 100
  const T_OVERRIDE: int := 102
  const T_PLUS: int := 103
  const T_PLUS_ASSIGN: int := 104
  const T_PLUS_PLUS: int := 105
  const T_PRIVATE: int := 106
  const T_PROTECTED: int := 107
  const T_PUBLIC: int := 109
  const T_QUERY: int := 110
  const T_RBRACE: int := 111
  const T_RBRACKET: int := 112
  const T_REQUIRE: int := 114
  const T_RESERVED_NAMESPACE: int := 115
  const T_RETURN: int := 116
  const T_RPAREN: int := 117
  const T_RSH: int := 118
  const T_RSH_ASSIGN: int := 119
  const T_RSH_ZERO: int := 120
  const T_RSH_ZERO_ASSIGN: int := 121
  const T_SEMICOLON: int := 122
  const T_SET: int := 123
  const T_SLASH_GT: int := 124
  const T_STANDARD: int := 125
  const T_STATIC: int := 126
  const T_STRICT: int := 127
  const T_STRICT_EQ: int := 128
  const T_STRICT_NE: int := 129
  const T_STRING: int := 130
  const T_SUPER: int := 131
  const T_SWITCH: int := 132
  const T_THIS: int := 133
  const T_THROW: int := 134
  const T_TILDE: int := 135
  const T_TRUE: int := 137
  const T_TRY: int := 138
  const T_TYPEOF: int := 140
  const T_UNDEFINED: int := 142
  const T_USE: int := 143
  const T_VAR: int := 144
  const T_VOID: int := 145
  const T_WHILE: int := 146
  const T_WITH: int := 147

  // Group masks
  const G_RESERVED: int := 0x1
  const G_CONREV: int := 0x2
  const G_COMPOUND_ASSIGN: int := 0x4
  const G_OPERATOR: int := 0x8
  const G_OPASSIGN: int := G_OPERATOR + G_COMPOUND_ASSIGN

  // ----------------------------------------------------------------- Characters

  /** End of input, as the stream reports it. Sources hold no such character. */
  const EOF: char := '\0'

  predicate IsDigit(c: char) { '0' <= c <= '9' }
  predicate IsOctal(c: char) { '0' <= c <= '7' }
  predicate IsHex(c: char) { '0' <= c <= '9' || 'a' <= c <= 'f' || 'A' <= c <= 'F' }
  predicate IsAlpha(c: char) { 'a' <= c <= 'z' || 'A' <= c <= 'Z' }
  predicate IsWordStart(c: char) { IsAlpha(c) || c == '_' || c == '$' }
  predicate IsWordChar(c: char) { IsWordStart(c) || IsDigit(c) }
  predicate IsQuote(c: char) { c == '"' || c == '\'' }

  predicate IsWhite(c: char) {
    c == ' ' || c == '\U{0C}' || c == '\t' || c == '\U{0B}' || c == '\r' || c == '\n'
  }

  /** Sources are ASCII text without NUL. */
  predicate IsSource(src: string) {
    forall i :: 0 <= i < |src| ==> EOF < src[i] < '\U{80}'
  }

  /** The character at `pos`, or EOF behind the last one. */
  function CharAt(src: string, pos: nat): char {
    if pos < |src| then src[pos] else EOF
  }

  // --------------------------------------------------------------------- Tokens

  datatype Tok = Tok(id: int, sub: int, mask: int, text: string)

  /** A token code that is neither "no token yet" nor the end of input. */
  type Code = id: int | 0 < id && id != T_EOF witness T_ID

  datatype Keyword = Keyword(id: Code, sub: int, mask: int)

  const KEYWORDS: map<string, Keyword> := map[
    "break" := Keyword(T_BREAK, 0, G_RESERVED),
    "case" := Keyword(T_CASE, 0, G_RESERVED),
    "cast" := Keyword(T_CAST, 0, G_CONREV),
    "catch" := Keyword(T_CATCH, 0, G_RESERVED),
    "class" := Keyword(T_CLASS, 0, G_RESERVED),
    "const" := Keyword(T_CONST, 0, G_CONREV),
    "continue" := Keyword(T_CONTINUE, 0, G_RESERVED),
    "default" := Keyword(T_DEFAULT, 0, G_CONREV),
    "delete" := Keyword(T_DELETE, 0, G_RESERVED),
    "do" := Keyword(T_DO, 0, G_RESERVED),
    "dynamic" := Keyword(T_ATTRIBUTE, T_DYNAMIC, G_CONREV),
    "each" := Keyword(T_EACH, 0, G_CONREV),
    "else" := Keyword(T_ELSE, 0, G_RESERVED),
    "enumerable" := Keyword(T_ATTRIBUTE, T_ENUMERABLE, G_CONREV),
    "extends" := Keyword(T_EXTENDS, 0, G_RESERVED),
    "false" := Keyword(T_FALSE, 0, G_RESERVED),
    "final" := Keyword(T_ATTRIBUTE, T_FINAL, G_CONREV),
    "finally" := Keyword(T_FINALLY, 0, G_RESERVED),
    "for" := Keyword(T_FOR, 0, G_RESERVED),
    "function" := Keyword(T_FUNCTION, 0, G_RESERVED),
    "get" := Keyword(T_GET, 0, G_CONREV),
    "goto" := Keyword(T_GOTO, 0, G_CONREV),
    "if" := Keyword(T_IF, 0, G_RESERVED),
    "implements" := Keyword(T_IMPLEMENTS, 0, G_CONREV),
    "in" := Keyword(T_IN, 0, G_RESERVED),
    "instanceof" := Keyword(T_INSTANCEOF, 0, G_RESERVED),
    "interface" := Keyword(T_INTERFACE, 0, G_CONREV),
    "internal" := Keyword(T_RESERVED_NAMESPACE, T_INTERNAL, G_CONREV),
    "intrinsic" := Keyword(T_RESERVED_NAMESPACE, T_INTRINSIC, G_CONREV),
    "is" := Keyword(T_IS, 0, G_CONREV),
    "let" := Keyword(T_LET, 0, G_CONREV),
    "module" := Keyword(T_MODULE, 0, G_CONREV),
    "namespace" := Keyword(T_NAMESPACE, 0, G_CONREV),
    "native" := Keyword(T_ATTRIBUTE, T_NATIVE, G_CONREV),
    "new" := Keyword(T_NEW, 0, G_RESERVED),
    "null" := Keyword(T_NULL, 0, G_RESERVED),
    "override" := Keyword(T_ATTRIBUTE, T_OVERRIDE, G_CONREV),
    "private" := Keyword(T_RESERVED_NAMESPACE, T_PRIVATE, G_CONREV),
    "protected" := Keyword(T_RESERVED_NAMESPACE, T_PROTECTED, G_CONREV),
    "public" := Keyword(T_RESERVED_NAMESPACE, T_PUBLIC, G_CONREV),
    "require" := Keyword(T_REQUIRE, 0, G_CONREV),
    "return" := Keyword(T_RETURN, 0, G_RESERVED),
    "set" := Keyword(T_SET, 0, G_CONREV),
    "standard" := Keyword(T_STANDARD, 0, G_CONREV),
    "static" := Keyword(T_ATTRIBUTE, T_STATIC, G_CONREV),
    "strict" := Keyword(T_STRICT, 0, G_CONREV),
    "super" := Keyword(T_SUPER, 0, G_RESERVED),
    "switch" := Keyword(T_SWITCH, 0, G_RESERVED),
    "this" := Keyword(T_THIS, 0, G_RESERVED),
    "throw" := Keyword(T_THROW, 0, G_RESERVED),
    "true" := Keyword(T_TRUE, 0, G_RESERVED),
    "try" := Keyword(T_TRY, 0, G_RESERVED),
    "typeof" := Keyword(T_TYPEOF, 0, G_RESERVED),
    "var" := Keyword(T_VAR, 0, G_RESERVED),
    "undefined" := Keyword(T_UNDEFINED, 0, G_CONREV),
    "use" := Keyword(T_USE, 0, G_CONREV),
    "void" := Keyword(T_VOID, 0, G_RESERVED),
    "while" := Keyword(T_WHILE, 0, G_RESERVED),
    "with" := Keyword(T_WITH, 0, G_RESERVED)
  ]

  // ------------------------------------------------------------------ Operators

  datatype Op = Op(spelling: string, id: Code, sub: int, mask: int)

  /** The operators that begin with a character; together, all operators. */
  function Operators(first: char): seq<Op> {
    match first
    case '#' => [Op("#", T_HASH, -1, 0)]
    case '[' => [Op("[", T_LBRACKET, -1, G_OPERATOR)]
    case ']' => [Op("]", T_RBRACKET, -1, 0)]
    case '(' => [Op("(", T_LPAREN, -1, G_OPERATOR)]
    case ')' => [Op(")", T_RPAREN, -1, 0)]
    case '{' => [Op("{", T_LBRACE, -1, 0)]
    case '}' => [Op("}", T_RBRACE, -1, 0)]
    case '@' => [Op("@", T_AT, -1, 0)]
    case ';' => [Op(";", T_SEMICOLON, -1, 0)]
    case ',' => [Op(",", T_COMMA, -1, 0)]
    case '?' => [Op("?", T_QUERY, -1, 0)]
    case '~' => [Op("~", T_TILDE, -1, G_OPERATOR)]
    case '+' =>
      [Op("++", T_PLUS_PLUS, -1, G_OPERATOR),
       Op("+=", T_ASSIGN, T_PLUS_ASSIGN, G_OPASSIGN),
       Op("+", T_PLUS, -1, G_OPERATOR)]
    case '-' =>
      [Op("--", T_MINUS_MINUS, -1, G_OPERATOR),
       Op("-=", T_ASSIGN, T_MINUS_ASSIGN, G_OPASSIGN),
       Op("-", T_MINUS, -1, G_OPERATOR)]
    case '*' =>
      [Op("*=", T_ASSIGN, T_MUL_ASSIGN, G_OPASSIGN),
       Op("*", T_MUL, -1, G_OPERATOR)]
    case '/' =>
      [Op("/=", T_ASSIGN, T_DIV_ASSIGN, G_OPASSIGN),
       Op("/>", T_SLASH_GT, -1, G_OPERATOR),
       Op("/", T_DIV, -1, G_OPERATOR)]
    case '%' =>
      [Op("%=", T_ASSIGN, T_MOD_ASSIGN, G_OPASSIGN),
       Op("%", T_MOD, -1, G_OPERATOR)]
    case '.' =>
      [Op("...", T_ELIPSIS, -1, 0),
       Op("..", T_DOT_DOT, -1, 0),
       Op(".", T_DOT, -1, G_OPERATOR)]
    case ':' =>
      [Op("::", T_COLON_COLON, -1, 0),
       Op(":", T_COLON, -1, 0)]
    case '!' =>
      [Op("!==", T_STRICT_NE, -1, G_OPERATOR),
       Op("!=", T_NE, -1, G_OPERATOR),
       Op("!", T_LOGICAL_NOT, -1, G_OPERATOR)]
    case '&' =>
      [Op("&&=", T_ASSIGN, T_LOGICAL_AND_ASSIGN, G_OPASSIGN),
       Op("&&", T_LOGICAL_AND, -1, G_OPERATOR),
       Op("&=", T_ASSIGN, T_BIT_AND_ASSIGN, G_OPASSIGN),
       Op("&", T_BIT_AND, -1, G_OPERATOR)]
    case '<' =>
      [Op("<<=", T_ASSIGN, T_LSH_ASSIGN, G_OPASSIGN),
       Op("<<", T_LSH, -1, G_OPERATOR),
       Op("<=", T_LE, -1, G_OPERATOR),
       Op("</", T_LT_SLASH, -1, 0),
       Op("<", T_LT, -1, G_OPERATOR)]
    case '=' =>
      [Op("===", T_STRICT_EQ, -1, G_OPERATOR),
       Op("==", T_EQ, -1, G_OPERATOR),
       Op("=", T_ASSIGN, -1, G_OPERATOR)]
    case '>' =>
      [Op(">>>=", T_ASSIGN, T_RSH_ZERO_ASSIGN, G_OPASSIGN),
       Op(">>>", T_RSH_ZERO, -1, G_OPERATOR),
       Op(">>=", T_ASSIGN, T_RSH_ASSIGN, G_OPASSIGN),
       Op(">>", T_RSH, -1, G_OPERATOR),
       Op(">=", T_GE, -1, G_OPERATOR),
       Op(">", T_GT, -1, G_OPERATOR)]
    case '^' =>
      [Op("^^=", T_ASSIGN, T_LOGICAL_XOR_ASSIGN, G_OPASSIGN),
       Op("^^", T_LOGICAL_XOR, -1, G_OPERATOR),
       Op("^=", T_ASSIGN, T_BIT_XOR_ASSIGN, G_OPASSIGN),
       Op("^", T_BIT_XOR, -1, G_OPERATOR)]
    case '|' =>
      [Op("||=", T_ASSIGN, T_LOGICAL_OR_ASSIGN, G_OPASSIGN),
       Op("||", T_LOGICAL_OR, -1, G_OPERATOR),
       Op("|=", T_ASSIGN, T_BIT_OR_ASSIGN, G_OPASSIGN),
       Op("|", T_BIT_OR, -1, G_OPERATOR)]
    case _ => []
  }

  predicate IsOperator(o: Op) {
    o.spelling != [] && o in Operators(o.spelling[0])
  }

  /** `spelling` stands at `pos` of the source. */
  predicate Looking(src: string, pos: nat, spelling: string) {
    pos + |spelling| <= |src| && forall i :: 0 <= i < |spelling| ==> src[pos + i] == spelling[i]
  }

  /**
   The text a token of an operator is given. For three operators it is not the
   spelling: `>=` gets that of `<=`, and `==` and `<<` get the character behind
   them in place of their own second one.
   */
  function OpText(o: Op, next: char): string {
    if o.id == T_GE then "<="
    else if (o.id == T_EQ || o.id == T_LSH) && o.spelling != [] then
      [o.spelling[0]] + if next == EOF then [] else [next]
    else o.spelling
  }

  function OpTok(o: Op, next: char): Tok {
    Tok(o.id, o.sub, o.mask, OpText(o, next))
  }
}
