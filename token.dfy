/**
 * Lexical tokens: a closed enumeration of kinds and the (kind, literal) pair
 * the lexer produces. A token has no identity beyond its two fields, which a
 * datatype gives for free.
 */
module Tokens {
  import opened Options

  /** The kinds of token. `Return` is used by the parser but missing from the
      enumeration as written; it is added here. */
  datatype TokenType =
    | Illegal | Eof | Ident | Int
    | Assign | Plus | Comma | Semicolon
    | Lparen | Rparen | Lbrace | Rbrace
    | Function | Let | Return

  datatype Token = Token(kind: TokenType, literal: string)

  /** The token the lexer returns at and past the end of its input: Eof with
      the NUL character as its literal. */
  const EofToken := Token(Eof, "\0")

  /** `Token::new`: the field-copying constructor. */
  function New(kind: TokenType, literal: string): (t: Token)
    ensures t.kind == kind && t.literal == literal
  {
    Token(kind, literal)
  }

  /** Two tokens are the same exactly when their kinds and literals agree. */
  lemma TokenEquality(a: Token, b: Token)
    ensures a == b <==> a.kind == b.kind && a.literal == b.literal
  {
  }

  predicate IsAsciiLetter(c: char) {
    'a' <= c <= 'z' || 'A' <= c <= 'Z'
  }

  /** The derived `Debug` rendering of a kind: its variant name. */
  function KindName(k: TokenType): (name: string)
    ensures |name| > 0
    ensures forall i | 0 <= i < |name| :: IsAsciiLetter(name[i])
  {
    match k
    case Illegal => "Illegal"
    case Eof => "Eof"
    case Ident => "Ident"
    case Int => "Int"
    case Assign => "Assign"
    case Plus => "Plus"
    case Comma => "Comma"
    case Semicolon => "Semicolon"
    case Lparen => "Lparen"
    case Rparen => "Rparen"
    case Lbrace => "Lbrace"
    case Rbrace => "Rbrace"
    case Function => "Function"
    case Let => "Let"
    case Return => "Return"
  }

  /** Reads a variant name back; the inverse of KindName. */
  function KindOfName(name: string): Option<TokenType> {
    if name == "Illegal" then Some(Illegal)
    else if name == "Eof" then Some(Eof)
    else if name == "Ident" then Some(Ident)
    else if name == "Int" then Some(Int)
    else if name == "Assign" then Some(Assign)
    else if name == "Plus" then Some(Plus)
    else if name == "Comma" then Some(Comma)
    else if name == "Semicolon" then Some(Semicolon)
    else if name == "Lparen" then Some(Lparen)
    else if name == "Rparen" then Some(Rparen)
    else if name == "Lbrace" then Some(Lbrace)
    else if name == "Rbrace" then Some(Rbrace)
    else if name == "Function" then Some(Function)
    else if name == "Let" then Some(Let)
    else if name == "Return" then Some(Return)
    else None
  }

  /** Every kind's Debug name reads back as that kind, so distinct kinds print differently. */
  lemma KindNameRoundTrip(k: TokenType)
    ensures KindOfName(KindName(k)) == Some(k)
  {
    match k
    case Illegal =>
    case Eof =>
    case Ident =>
    case Int =>
    case Assign =>
    case Plus =>
    case Comma =>
    case Semicolon =>
    case Lparen =>
    case Rparen =>
    case Lbrace =>
    case Rbrace =>
    case Function =>
    case Let =>
    case Return =>
  }

  /** The converse of KindNameRoundTrip: a name that reads back as a kind is
      that kind's Debug name. */
  lemma KindOfNameSound(name: string, k: TokenType)
    requires KindOfName(name) == Some(k)
    ensures name == KindName(k)
  {
  }
}
