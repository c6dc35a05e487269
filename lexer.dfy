/**
 * The lexer: a cursor over the input characters. Each call to NextToken reads
 * one character and classifies it as one of eight punctuation tokens, the end
 * of input, or an illegal character. There is no whitespace skipping and no
 * identifier, keyword, integer or two-character operator scanning.
 *
 * The input is assumed to be ASCII, so that its length in bytes and in
 * characters agree; nothing here requires it, and for other input the model
 * reads NUL where the source's character lookup would fail.
 */
module Lexing {
  import opened Tokens

  const Nul: char := '\0'

  /** The character `read_char` sees at `position`: the input character, or
      NUL once the position has passed the end. */
  function CharAt(input: string, position: nat): (c: char)
    ensures c == Nul <==> position >= |input| || input[position] == Nul
  {
    if position >= |input| then Nul else input[position]
  }

  /** `new_token`: a token whose literal is the one character given. */
  function NewToken(kind: TokenType, c: char): (t: Token)
    ensures t.kind == kind && |t.literal| == 1 && t.literal[0] == c
  {
    Token(kind, [c])
  }

  /** The classification done by `next_token` on the character just read. */
  function Classify(c: char): (t: Token)
    ensures |t.literal| == 1
    ensures t.kind == Eof <==> c == Nul
    ensures t.kind == Illegal <==> t.literal == "_"
    ensures t.kind != Illegal ==> t.literal == [c]
    ensures t.kind in {Illegal, Eof, Assign, Semicolon, Lparen, Rparen, Comma, Plus, Lbrace, Rbrace}
  {
    match c
    case '=' => NewToken(Assign, c)
    case ';' => NewToken(Semicolon, c)
    case '(' => NewToken(Lparen, c)
    case ')' => NewToken(Rparen, c)
    case ',' => NewToken(Comma, c)
    case '+' => NewToken(Plus, c)
    case '{' => NewToken(Lbrace, c)
    case '}' => NewToken(Rbrace, c)
    case '\0' => NewToken(Eof, c)
    case _ => NewToken(Illegal, '_')
  }

  /** Lexing a token's own literal gives back the same token: the literal of a
      recognised token is its character, and "_" is itself illegal. */
  lemma ClassifyLiteralRoundTrip(c: char)
    ensures Classify(Classify(c).literal[0]) == Classify(c)
  {
  }

  /** The first n tokens the lexer returns for `input`. */
  function Lex(input: string, n: nat): (ts: seq<Token>)
    ensures |ts| == n
    ensures forall k | 0 <= k < n :: ts[k] == Classify(CharAt(input, k))
  {
    if n == 0 then [] else Lex(input, n - 1) + [Classify(CharAt(input, n - 1))]
  }

  /** Past the end of the input every token is Eof with literal NUL. */
  lemma LexEofForever(input: string, n: nat, k: nat)
    requires |input| <= k < n
    ensures Lex(input, n)[k] == EofToken
  {
  }

  /** An embedded NUL ends the token stream early: it yields Eof. */
  lemma LexEmbeddedNul(input: string, n: nat, k: nat)
    requires k < n && k < |input| && input[k] == Nul
    ensures Lex(input, n)[k].kind == Eof
  {
  }

  /** Any character that is not one of the eight punctuation marks or NUL,
      whitespace and letters included, yields Illegal with literal "_". */
  lemma LexIllegal(input: string, n: nat, k: nat)
    requires k < n && k < |input|
    requires input[k] !in {'=', ';', '(', ')', ',', '+', '{', '}', Nul}
    ensures Lex(input, n)[k] == Token(Illegal, "_")
  {
  }

  /** The lexer's own test input: each mark in turn, then Eof with literal NUL. */
  lemma LexPunctuation()
    ensures Lex("=+(){},;", 9) == [
      Token(Assign, "="), Token(Plus, "+"), Token(Lparen, "("), Token(Rparen, ")"),
      Token(Lbrace, "{"), Token(Rbrace, "}"), Token(Comma, ","), Token(Semicolon, ";"),
      EofToken]
  {
  }

  class Lexer {
    const input: string
    var position: nat
    var readPosition: nat
    var ch: char
    /** The tokens returned so far, in order. */
    ghost var emitted: seq<Token>

    ghost predicate Valid()
      reads this
    {
      readPosition == position + 1 && emitted == Lex(input, position)
    }

    /** `Lexer::new`: the first character is unwrapped, so the input must not be empty. */
    constructor (input: string)
      requires |input| > 0
      ensures Valid() && this.input == input
      ensures position == 0 && readPosition == 1 && ch == input[0] && emitted == []
    {
      this.input := input;
      position := 0;
      readPosition := 1;
      ch := input[0];
      emitted := [];
    }

    /** `read_char`: load the character at `position`, then advance both cursors. */
    method ReadChar()
      modifies this`ch, this`position, this`readPosition
      ensures ch == CharAt(input, old(position))
      ensures position == old(readPosition) && readPosition == old(readPosition) + 1
    {
      if position >= |input| {
        ch := Nul;
      } else {
        ch := input[position];
      }
      position := readPosition;
      readPosition := readPosition + 1;
    }

    /** `next_token`: one call reads and classifies exactly one character. */
    method NextToken() returns (tok: Token)
      requires Valid()
      modifies this
      ensures Valid()
      ensures position == old(position) + 1
      ensures ch == CharAt(input, old(position))
      ensures tok == Classify(ch)
      ensures emitted == old(emitted) + [tok]
      ensures old(position) >= |input| ==> tok == EofToken
    {
      ReadChar();
      tok := Classify(ch);
      emitted := emitted + [tok];
    }
  }

  /** The lexer's test expressed as calls on the class: nine calls on "=+(){},;". */
  method PunctuationClient() returns (tokens: seq<Token>)
    ensures tokens == Lex("=+(){},;", 9)
  {
    var lexer := new Lexer("=+(){},;");
    tokens := [];
    var i := 0;
    while i < 9
      invariant 0 <= i <= 9
      invariant lexer.Valid() && lexer.input == "=+(){},;"
      invariant lexer.position == i && tokens == lexer.emitted
    {
      var tok := lexer.NextToken();
      tokens := tokens + [tok];
      i := i + 1;
    }
  }
}
