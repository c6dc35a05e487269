/**
 * The syntax tree. The open `Statement` and `Expression` node families become
 * closed datatypes; every node reports the literal of the token that
 * introduced it.
 */
module Ast {
  import opened Tokens

  /** An identifier: its token and its text (the text mirrors the token's literal
      when the parser builds one). */
  datatype Identifier = Identifier(token: Token, value: string) {
    function TokenLiteral(): string {
      token.literal
    }
  }

  /** Expressions; only identifiers exist. */
  datatype Expression = IdentifierExpression(identifier: Identifier) {
    function TokenLiteral(): string {
      identifier.TokenLiteral()
    }
  }

  datatype Statement =
    | LetStatement(token: Token, name: Identifier, value: Expression)
    | ReturnStatement(token: Token, returnValue: Expression)
  {
    function TokenLiteral(): string {
      token.literal
    }
  }

  /** The parse root: statements in source order, owned by value. */
  datatype Program = Program(statements: seq<Statement>) {
    function TokenLiteral(): string {
      if |statements| == 0 then "" else statements[0].TokenLiteral()
    }
  }

  /** An identifier's literal comes from its token alone, whatever its value field says. */
  lemma IdentifierLiteralIgnoresValue(id: Identifier, value: string)
    ensures id.(value := value).TokenLiteral() == id.TokenLiteral() == id.token.literal
  {
  }

  /** Appending a statement, as the parser does, fixes the program's literal once
      it has a first statement; the empty program's literal is "". */
  lemma ProgramLiteralAfterPush(p: Program, s: Statement)
    ensures Program([]).TokenLiteral() == ""
    ensures Program(p.statements + [s]).TokenLiteral() ==
      if p.statements == [] then s.TokenLiteral() else p.TokenLiteral()
  {
  }
}
