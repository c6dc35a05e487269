/**
 * The parser: a two-token window (current and peek) over a token source, a
 * list of diagnostics, and recursive-descent statement parsers. The token
 * source is a sequence of tokens followed by Eof forever, with a cursor
 * counting the tokens pulled so far; it stands in for the lexer the parser
 * owns. The statement and program parsers are proved to follow the functions
 * of ParserSpec on the stream that remains from the current token on; the
 * window operations have direct contracts.
 */
module Parsing {
  import opened Options
  import opened Tokens
  import opened Ast
  import opened ParserSpec

  class Parser {
    /** The token source: these tokens, then Eof forever. */
    const source: seq<Token>
    /** How many tokens have been pulled from the source. */
    var pulled: nat
    var curToken: Token
    var peekToken: Token
    var errors: seq<string>

    /** The window holds two consecutive stream positions, and every diagnostic
        has the peek-error shape. */
    ghost predicate Valid()
      reads this
    {
      && pulled >= 2
      && curToken == At(source, pulled - 2)
      && peekToken == At(source, pulled - 1)
      && AllPeekErrors(errors)
    }

    /** The stream from the current token on. */
    ghost function Remaining(): seq<Token>
      reads this
      requires pulled >= 2
    {
      Drop(source, pulled - 2)
    }

    /** `Parser::new`: prime the window by pulling two tokens; the Eof
        placeholders are overwritten. */
    constructor (source: seq<Token>)
      ensures Valid() && this.source == source && errors == []
      ensures curToken == At(source, 0) && peekToken == At(source, 1)
      ensures Remaining() == source
    {
      this.source := source;
      curToken := Token(Eof, "");
      peekToken := Token(Eof, "");
      errors := [];
      pulled := 0;
      new;
      NextToken();
      NextToken();
    }

    /** `next_token`: shift peek into current and pull the next token into peek. */
    method NextToken()
      modifies this`curToken, this`peekToken, this`pulled
      ensures curToken == old(peekToken) && peekToken == At(source, old(pulled))
      ensures pulled == old(pulled) + 1
      ensures old(Valid()) ==> Valid() && Remaining() == Drop(old(Remaining()), 1)
    {
      curToken := peekToken;
      peekToken := At(source, pulled);
      pulled := pulled + 1;
      if old(Valid()) {
        DropDrop(source, old(pulled) - 2, 1);
      }
    }

    /** `cur_token_is`: the current token, the stream's first, has kind k. */
    function CurTokenIs(k: TokenType): (b: bool)
      reads this
      requires Valid()
      ensures b <==> At(Remaining(), 0).kind == k
    {
      AtDrop(source, pulled - 2, 0);
      curToken.kind == k
    }

    /** `peek_token_is`: the token after the current one has kind k. */
    function PeekTokenIs(k: TokenType): (b: bool)
      reads this
      requires Valid()
      ensures b <==> At(Remaining(), 1).kind == k
    {
      AtDrop(source, pulled - 2, 1);
      peekToken.kind == k
    }

    /** `errors`: the diagnostics so far, each of the peek-error shape. */
    function Errors(): (es: seq<string>)
      reads this
      requires Valid()
      ensures es == errors
      ensures forall i | 0 <= i < |es| :: DecodePeekError(es[i]).Some?
    {
      errors
    }

    /** `peek_error`: append one diagnostic naming k and the peek token's kind. */
    method PeekError(k: TokenType)
      requires Valid()
      modifies this`errors
      ensures Valid()
      ensures errors == old(errors) + [PeekErrorMessage(k, peekToken.kind)]
    {
      PeekErrorAppend(errors, k, peekToken.kind);
      errors := errors + [PeekErrorMessage(k, peekToken.kind)];
    }

    /** `expect_peek`: on a peek of kind k advance once and report success;
        otherwise leave the window alone and record exactly one diagnostic. */
    method ExpectPeek(k: TokenType) returns (ok: bool)
      requires Valid()
      modifies this
      ensures Valid()
      ensures ok <==> At(old(Remaining()), 1).kind == k
      ensures ok ==> Remaining() == Drop(old(Remaining()), 1) && errors == old(errors)
      ensures !ok ==> pulled == old(pulled) && curToken == old(curToken) && peekToken == old(peekToken)
      ensures !ok ==> errors == old(errors) + [PeekErrorMessage(k, old(peekToken).kind)]
    {
      if PeekTokenIs(k) {
        NextToken();
        ok := true;
      } else {
        PeekError(k);
        ok := false;
      }
    }

    /** The loop both statement parsers end with, `while !cur_token_is(Semicolon)
        { next_token() }`: step until the current token is a semicolon. It stops
        at no other token, Eof included, so a semicolon must lie ahead. `rest` is
        a stream whose n-th token is the current one, and `target` is the index
        of the first semicolon in it from n on. */
    method SkipUntilSemicolon(ghost rest: seq<Token>, ghost n: nat, ghost target: nat)
      requires Valid() && Remaining() == Drop(rest, n)
      requires n <= target && At(rest, target).kind == Semicolon
      requires forall k | n <= k < target :: At(rest, k).kind != Semicolon
      modifies this`curToken, this`peekToken, this`pulled
      ensures Valid() && Remaining() == Drop(rest, target)
    {
      ghost var start := pulled - 2;
      ghost var i := n;
      assert Drop(source, start) == Drop(rest, n);
      SameStream(source, start, rest, n, 0);
      while !CurTokenIs(Semicolon)
        invariant Valid() && n <= i <= target && pulled - 2 == start + (i - n)
        invariant curToken == At(rest, i)
        decreases target - i
      {
        assert i < target;
        NextToken();
        i := i + 1;
        SameStream(source, start, rest, n, i - n);
      }
      assert i == target;
      DropDrop(source, start, target - n);
      DropDrop(rest, n, target - n);
      assert Drop(source, pulled - 2) == Drop(Drop(rest, n), target - n);
    }

    /** `parse_let_statement`: `let`, an identifier, `=`, then every token up
        to the next semicolon, which is left current. A missing identifier or
        `=` abandons the statement with one diagnostic. */
    method ParseLetStatement() returns (stmt: Option<Statement>)
      requires Valid() && LetTerminates(Remaining())
      modifies this
      ensures Valid()
      ensures var o := ParseLet(old(Remaining()));
        && stmt == o.statement
        && Remaining() == Drop(old(Remaining()), o.cur)
        && errors == old(errors) + o.errors
    {
      ghost var rest := Remaining();
      AtDrop(source, pulled - 2, 0);
      AtDrop(source, pulled - 2, 1);
      assert curToken == At(rest, 0) && peekToken == At(rest, 1);
      var letToken := curToken;
      var ok := ExpectPeek(Ident);
      if !ok {
        assert errors == old(errors) + [PeekErrorMessage(Ident, At(rest, 1).kind)];
        assert ParseLet(rest) == Outcome(None, 0, [PeekErrorMessage(Ident, At(rest, 1).kind)]);
        assert Drop(rest, 0) == rest;
        return None;
      }
      stmt := ParseLetBinding(rest, letToken);
    }

    /** The rest of `parse_let_statement`, once the identifier is current:
        take it as the name, expect `=`, and skip to the semicolon. */
    method ParseLetBinding(ghost rest: seq<Token>, letToken: Token) returns (stmt: Option<Statement>)
      requires Valid() && LetTerminates(rest) && Remaining() == Drop(rest, 1)
      requires letToken == At(rest, 0) && At(rest, 1).kind == Ident
      modifies this
      ensures Valid()
      ensures var o := ParseLet(rest);
        && stmt == o.statement
        && Remaining() == Drop(rest, o.cur)
        && errors == old(errors) + o.errors
    {
      AtDrop(source, pulled - 2, 0);
      AtDrop(source, pulled - 2, 1);
      AtDrop(rest, 1, 0);
      AtDrop(rest, 1, 1);
      assert curToken == At(rest, 1) && peekToken == At(rest, 2);
      var name := Identifier(curToken, curToken.literal);
      var ok := ExpectPeek(Assign);
      if !ok {
        assert errors == old(errors) + [PeekErrorMessage(Assign, At(rest, 2).kind)];
        assert ParseLet(rest) == Outcome(None, 1, [PeekErrorMessage(Assign, At(rest, 2).kind)]);
        return None;
      }
      assert SemicolonFrom(rest, 2);
      ghost var target := ParserSpec.SkipToSemicolon(rest, 2);
      assert ParseLet(rest) == Outcome(Some(LetStatement(letToken, name, LetPlaceholder)), target, []);
      DropDrop(rest, 1, 1);
      SkipUntilSemicolon(rest, 2, target);
      stmt := Some(LetStatement(letToken, name, LetPlaceholder));
    }

    /** `parse_return_statement`: step past `return`, then past every token up
        to the next semicolon, which is left current. */
    method ParseReturnStatement() returns (stmt: Option<Statement>)
      requires Valid() && SemicolonFrom(Remaining(), 1)
      modifies this
      ensures Valid()
      ensures var o := ParseReturn(old(Remaining()));
        && stmt == o.statement
        && Remaining() == Drop(old(Remaining()), o.cur)
        && errors == old(errors) + o.errors
    {
      ghost var rest := Remaining();
      AtDrop(source, pulled - 2, 0);
      var returnToken := curToken;
      NextToken();
      SkipUntilSemicolon(rest, 1, ParserSpec.SkipToSemicolon(rest, 1));
      stmt := Some(ReturnStatement(returnToken, ReturnPlaceholder));
    }

    /** `parse_statement`: dispatch on the current token's kind; any kind other
        than let or return gives no statement and changes nothing. */
    method ParseStatement() returns (stmt: Option<Statement>)
      requires Valid() && StatementTerminates(Remaining())
      modifies this
      ensures Valid()
      ensures var o := ParserSpec.ParseStatement(old(Remaining()));
        && stmt == o.statement
        && Remaining() == Drop(old(Remaining()), o.cur)
        && errors == old(errors) + o.errors
    {
      AtDrop(source, pulled - 2, 0);
      match curToken.kind
      case Let =>
        stmt := ParseLetStatement();
      case Return =>
        stmt := ParseReturnStatement();
      case _ =>
        stmt := None;
    }

    /** One pass of `parse_program`'s loop body: parse a statement where the
        current token stands, then step past the token it stopped on. */
    method ParseNext(ghost here: seq<Token>) returns (stmt: Option<Statement>)
      requires Valid() && here == Remaining() && ProgramTerminates(here) && At(here, 0).kind != Eof
      modifies this
      ensures StatementTerminates(here)
      ensures Valid()
      ensures var o := ParserSpec.ParseStatement(here);
        && stmt == o.statement
        && Remaining() == Drop(here, o.cur + 1)
        && errors == old(errors) + o.errors
    {
      ParseProgramStep(here);
      ghost var o := ParserSpec.ParseStatement(here);
      stmt := ParseStatement();
      NextToken();
      DropDrop(here, o.cur, 1);
    }

    /** `parse_program`: until the current token is Eof, parse a statement,
        append it if one was produced, and step to the next token. */
    method ParseProgram() returns (program: Program)
      requires Valid() && ProgramTerminates(Remaining())
      modifies this
      ensures Valid()
      ensures var p := ParseProgramFrom(old(Remaining()));
        && program.statements == p.statements
        && errors == old(errors) + p.errors
        && Remaining() == p.remaining
      ensures curToken.kind == Eof
    {
      ghost var whole := ParseProgramFrom(Remaining());
      ghost var here := Remaining();
      CollectedStart(here, errors);
      program := Program([]);
      while curToken.kind != Eof
        invariant Valid() && here == Remaining()
        invariant Collected(whole, here, program.statements, old(errors), errors)
        decreases |here|
      {
        AtDrop(source, pulled - 2, 0);
        CollectedStep(whole, here, program.statements, old(errors), errors);
        ghost var o := ParserSpec.ParseStatement(here);
        var stmt := ParseNext(here);
        ghost var collected := program.statements + OptionToSeq(stmt);
        if stmt.Some? {
          program := Program(program.statements + [stmt.value]);
        }
        assert program.statements == collected;
        here := Drop(here, o.cur + 1);
      }
      AtDrop(source, pulled - 2, 0);
      CollectedEnd(whole, here, program.statements, old(errors), errors);
    }
  }
}
