/**
 * Properties of the parser's specification: what every parsed program looks
 * like, how many statements and diagnostics a stream can give, when parsing
 * ends, and that well-formed statements written out as tokens parse back to
 * themselves (which includes the parser's own two test programs).
 */
module ParserProperties {
  import opened Options
  import opened Tokens
  import opened Ast
  import opened ParserSpec

  /** The shape every statement the parser builds has. */
  ghost predicate WellFormed(s: Statement) {
    match s
    case LetStatement(t, name, value) =>
      t.kind == Let && name.token.kind == Ident && name.value == name.token.literal
      && value == LetPlaceholder
    case ReturnStatement(t, value) => t.kind == Return && value == ReturnPlaceholder
  }

  /** Every statement of a parsed program is well formed (a let statement's name
      value is its token's literal) and every diagnostic has the peek-error shape. */
  lemma {:induction false} ParsedWellFormed(rest: seq<Token>)
    requires ProgramTerminates(rest)
    ensures forall i | 0 <= i < |ParseProgramFrom(rest).statements| ::
      WellFormed(ParseProgramFrom(rest).statements[i])
    ensures AllPeekErrors(ParseProgramFrom(rest).errors)
    decreases |rest|
  {
    if At(rest, 0).kind != Eof {
      var o := ParseStatement(rest);
      if At(rest, 0).kind == Let {
        ParseLetErrors(rest);
      }
      assert AllPeekErrors(o.errors);
      ParsedWellFormed(Drop(rest, o.cur + 1));
      AllPeekErrorsConcat(o.errors, ParseProgramFrom(Drop(rest, o.cur + 1)).errors);
    }
  }

  /** A statement the parser builds reports, as its token literal, the literal
      of the token it started on; a let statement's name reports the literal of
      the identifier after `let`, which is also its value. */
  lemma ParsedStatementLiteral(rest: seq<Token>)
    requires StatementTerminates(rest)
    ensures var o := ParseStatement(rest);
      o.statement.Some? ==>
        && o.statement.value.TokenLiteral() == At(rest, 0).literal
        && (o.statement.value.LetStatement? ==>
          var name := o.statement.value.name;
          name.TokenLiteral() == name.value == At(rest, 1).literal)
  {
  }

  /** When the first token yields a statement, the parsed program's token
      literal is that token's literal. */
  lemma ParsedProgramLiteral(rest: seq<Token>)
    requires ProgramTerminates(rest) && At(rest, 0).kind != Eof && StatementTerminates(rest)
    requires ParseStatement(rest).statement.Some?
    ensures Program(ParseProgramFrom(rest).statements).TokenLiteral() == At(rest, 0).literal
  {
    ParseProgramStep(rest);
    ParsedStatementLiteral(rest);
  }

  /** A `let NAME =` or a `return` with no semicolon anywhere after it makes
      parsing run forever: the skip loop passes Eof without stopping. */
  lemma UnterminatedStatementNeverEnds(rest: seq<Token>)
    requires
      || (At(rest, 0).kind == Return && !SemicolonFrom(rest, 1))
      || (At(rest, 0).kind == Let && At(rest, 1).kind == Ident && At(rest, 2).kind == Assign
          && !SemicolonFrom(rest, 2))
    ensures !ProgramTerminates(rest)
  {
  }

  // ---------------------------------------------------------------------------
  // Each let or return token gives at most one statement or one diagnostic

  predicate StartsStatement(t: Token) {
    t.kind == Let || t.kind == Return
  }

  /** The number of statement-initial tokens in the stream. */
  function CountStarts(rest: seq<Token>): nat {
    if rest == [] then 0 else (if StartsStatement(rest[0]) then 1 else 0) + CountStarts(rest[1..])
  }

  lemma {:induction false} CountStartsDropAny(rest: seq<Token>, n: nat)
    ensures CountStarts(Drop(rest, n)) <= CountStarts(rest)
  {
    if n > 0 && rest != [] {
      assert Drop(rest, n) == Drop(rest[1..], n - 1);
      CountStartsDropAny(rest[1..], n - 1);
    }
  }

  lemma CountStartsDrop(rest: seq<Token>, n: nat)
    requires 0 < n && rest != []
    ensures CountStarts(Drop(rest, n)) + (if StartsStatement(rest[0]) then 1 else 0) <= CountStarts(rest)
  {
    assert Drop(rest, n) == Drop(rest[1..], n - 1);
    CountStartsDropAny(rest[1..], n - 1);
  }

  lemma {:induction false} ParsedCount(rest: seq<Token>)
    requires ProgramTerminates(rest)
    ensures |ParseProgramFrom(rest).statements| + |ParseProgramFrom(rest).errors| <= CountStarts(rest)
    decreases |rest|
  {
    if At(rest, 0).kind != Eof {
      var o := ParseStatement(rest);
      ParsedCount(Drop(rest, o.cur + 1));
      CountStartsDrop(rest, o.cur + 1);
    }
  }

  // ---------------------------------------------------------------------------
  // A simple condition under which parsing ends

  /** Every `let` or `return` token is followed, somewhere later, by a semicolon. */
  ghost predicate WellTerminated(rest: seq<Token>) {
    forall i | 0 <= i < |rest| && StartsStatement(rest[i]) :: SemicolonFrom(rest, i + 1)
  }

  lemma WellTerminatedDrop(rest: seq<Token>, n: nat)
    requires WellTerminated(rest)
    ensures WellTerminated(Drop(rest, n))
  {
    var d := Drop(rest, n);
    DropSlice(rest, n);
    forall i | 0 <= i < |d| && StartsStatement(d[i]) ensures SemicolonFrom(d, i + 1) {
      assert d[i] == rest[n + i];
      var j :| n + i + 1 <= j < |rest| && rest[j].kind == Semicolon;
      assert d[j - n] == rest[j];
    }
  }

  lemma {:induction false} WellTerminatedSuffices(rest: seq<Token>)
    requires WellTerminated(rest)
    ensures ProgramTerminates(rest)
    decreases |rest|
  {
    if At(rest, 0).kind != Eof {
      if At(rest, 0).kind == Let {
        assert StartsStatement(rest[0]);
        if At(rest, 1).kind == Ident {
          var j :| 1 <= j < |rest| && rest[j].kind == Semicolon;
          assert j != 1;
          assert SemicolonFrom(rest, 2);
        }
      } else if At(rest, 0).kind == Return {
        assert StartsStatement(rest[0]);
      }
      assert StatementTerminates(rest);
      var o := ParseStatement(rest);
      WellTerminatedDrop(rest, o.cur + 1);
      WellTerminatedSuffices(Drop(rest, o.cur + 1));
    }
  }

  // ---------------------------------------------------------------------------
  // Round trip: well-formed statements written out parse back to themselves

  const AssignToken := Token(Assign, "=")
  const SemicolonToken := Token(Semicolon, ";")

  /** A statement written out as tokens, with `rhs` as its right-hand side. */
  function RenderStatement(s: Statement, rhs: seq<Token>): seq<Token> {
    match s
    case LetStatement(t, name, _) => [t, name.token, AssignToken] + rhs + [SemicolonToken]
    case ReturnStatement(t, _) => [t] + rhs + [SemicolonToken]
  }

  function Render(stmts: seq<Statement>, rhs: seq<seq<Token>>): seq<Token>
    requires |rhs| == |stmts|
  {
    if stmts == [] then [] else RenderStatement(stmts[0], rhs[0]) + Render(stmts[1..], rhs[1..])
  }

  ghost predicate NoSemicolon(ts: seq<Token>) {
    forall i | 0 <= i < |ts| :: ts[i].kind != Semicolon
  }

  /** One written-out statement, followed by anything, parses back to the
      statement with the current token on its closing semicolon. */
  lemma ParseRenderedStatement(s: Statement, rhs: seq<Token>, tail: seq<Token>)
    requires WellFormed(s) && NoSemicolon(rhs)
    ensures var src := RenderStatement(s, rhs) + tail;
      StatementTerminates(src) &&
      ParseStatement(src) == Outcome(Some(s), |RenderStatement(s, rhs)| - 1, [])
  {
    var one := RenderStatement(s, rhs);
    var src := one + tail;
    var last := |one| - 1;
    assert At(src, last) == SemicolonToken;
    match s
    case LetStatement(t, name, value) =>
      assert At(src, 0) == t && At(src, 1) == name.token && At(src, 2) == AssignToken;
      assert SemicolonFrom(src, 2);
      forall k | 2 <= k < last ensures At(src, k).kind != Semicolon {
        if k > 2 { assert src[k] == rhs[k - 3]; }
      }
      var j := SkipToSemicolon(src, 2);
      assert j == last;
      assert Identifier(name.token, name.token.literal) == name;
    case ReturnStatement(t, value) =>
      assert At(src, 0) == t;
      assert SemicolonFrom(src, 1);
      forall k | 1 <= k < last ensures At(src, k).kind != Semicolon {
        assert src[k] == rhs[k - 1];
      }
      var j := SkipToSemicolon(src, 1);
      assert j == last;
  }

  /** Well-formed statements with semicolon-free right-hand sides, written out,
      parse back to exactly those statements, in order, with no diagnostics. */
  lemma {:induction false} ParseRender(stmts: seq<Statement>, rhs: seq<seq<Token>>)
    requires |rhs| == |stmts|
    requires forall i | 0 <= i < |stmts| :: WellFormed(stmts[i]) && NoSemicolon(rhs[i])
    ensures ProgramTerminates(Render(stmts, rhs))
    ensures ParseProgramFrom(Render(stmts, rhs)) == Parsed(stmts, [], [])
  {
    if stmts != [] {
      var tail := Render(stmts[1..], rhs[1..]);
      forall i | 0 <= i < |stmts[1..]| ensures WellFormed(stmts[1..][i]) && NoSemicolon(rhs[1..][i]) {
        assert stmts[1..][i] == stmts[i + 1] && rhs[1..][i] == rhs[i + 1];
      }
      ParseRender(stmts[1..], rhs[1..]);
      ParseRenderedFirst(stmts[0], rhs[0], tail);
      assert Render(stmts, rhs) == RenderStatement(stmts[0], rhs[0]) + tail;
      assert [stmts[0]] + stmts[1..] == stmts;
    }
  }

  /** One written-out statement in front of a stream that parses to `p`
      parses to the statement followed by `p`. */
  lemma ParseRenderedFirst(s: Statement, rhs: seq<Token>, tail: seq<Token>)
    requires WellFormed(s) && NoSemicolon(rhs) && ProgramTerminates(tail)
    ensures var src := RenderStatement(s, rhs) + tail;
      && ProgramTerminates(src)
      && ParseProgramFrom(src) ==
        var p := ParseProgramFrom(tail);
        Parsed([s] + p.statements, p.errors, p.remaining)
  {
    var one := RenderStatement(s, rhs);
    var src := one + tail;
    ParseRenderedStatement(s, rhs, tail);
    DropSlice(src, |one|);
    assert Drop(src, |one|) == tail;
    assert src[0] == one[0];
    ParseProgramUnfold(src);
  }

  // ---------------------------------------------------------------------------
  // The parser's test programs

  function LetOf(name: string): Statement {
    LetStatement(Token(Let, "let"), Identifier(Token(Ident, name), name), LetPlaceholder)
  }

  const ReturnOfReturn := ReturnStatement(Token(Return, "return"), ReturnPlaceholder)

  /** The tokens of `let x = 5; let y = 10; let foobar = 838383;`. */
  const LetSource: seq<Token> := [
    Token(Let, "let"), Token(Ident, "x"), Token(Assign, "="), Token(Int, "5"), Token(Semicolon, ";"),
    Token(Let, "let"), Token(Ident, "y"), Token(Assign, "="), Token(Int, "10"), Token(Semicolon, ";"),
    Token(Let, "let"), Token(Ident, "foobar"), Token(Assign, "="), Token(Int, "838383"), Token(Semicolon, ";")]

  /** The tokens of `return 5; return 10; return 993322;`. */
  const ReturnSource: seq<Token> := [
    Token(Return, "return"), Token(Int, "5"), Token(Semicolon, ";"),
    Token(Return, "return"), Token(Int, "10"), Token(Semicolon, ";"),
    Token(Return, "return"), Token(Int, "993322"), Token(Semicolon, ";")]

  /** The tokens of `let = 5;`. */
  const MissingIdentifierSource: seq<Token> :=
    [Token(Let, "let"), Token(Assign, "="), Token(Int, "5"), Token(Semicolon, ";")]

  /** The let test program as statements and right-hand sides. */
  const LetStatements := [LetOf("x"), LetOf("y"), LetOf("foobar")]
  const LetRightHandSides := [[Token(Int, "5")], [Token(Int, "10")], [Token(Int, "838383")]]

  lemma LetSourceRendered()
    ensures LetSource == Render(LetStatements, LetRightHandSides)
  {
    var stmts, rhs := LetStatements, LetRightHandSides;
    assert Render(stmts[3..], rhs[3..]) == [];
    assert Render(stmts[2..], rhs[2..]) == RenderStatement(stmts[2], rhs[2]);
    assert Render(stmts[1..], rhs[1..]) == RenderStatement(stmts[1], rhs[1]) + Render(stmts[2..], rhs[2..]);
    assert Render(stmts, rhs) == RenderStatement(stmts[0], rhs[0]) + Render(stmts[1..], rhs[1..]);
    assert RenderStatement(stmts[0], rhs[0]) == LetSource[..5];
    assert RenderStatement(stmts[1], rhs[1]) == LetSource[5..10];
    assert RenderStatement(stmts[2], rhs[2]) == LetSource[10..];
  }

  /** The statements of the let test are well formed, and their right-hand
      sides hold no semicolon. */
  lemma LetStatementsRenderable()
    ensures forall i | 0 <= i < |LetStatements| ::
      WellFormed(LetStatements[i]) && NoSemicolon(LetRightHandSides[i])
  {
    forall i | 0 <= i < |LetStatements|
      ensures WellFormed(LetStatements[i]) && NoSemicolon(LetRightHandSides[i])
    {
    }
  }

  /** What the let test checks of each statement: three of them, named x, y
      and foobar, each with literal "let" and a name whose literal is its value. */
  lemma LetStatementsChecked()
    ensures |LetStatements| == 3
    ensures LetStatements[0].name.value == "x" && LetStatements[1].name.value == "y"
    ensures LetStatements[2].name.value == "foobar"
    ensures forall i | 0 <= i < 3 ::
      (LetStatements[i].TokenLiteral() == "let"
       && LetStatements[i].name.TokenLiteral() == LetStatements[i].name.value)
  {
  }

  /** Three lets give exactly three let statements, named x, y and foobar in
      order, and no diagnostics. */
  lemma LetStatementsProgram()
    ensures ProgramTerminates(LetSource)
    ensures ParseProgramFrom(LetSource) == Parsed(LetStatements, [], [])
  {
    LetSourceRendered();
    LetStatementsRenderable();
    ParseRender(LetStatements, LetRightHandSides);
  }

  /** The return test program as statements and right-hand sides. */
  const ReturnStatements := [ReturnOfReturn, ReturnOfReturn, ReturnOfReturn]
  const ReturnRightHandSides := [[Token(Int, "5")], [Token(Int, "10")], [Token(Int, "993322")]]

  lemma ReturnSourceRendered()
    ensures ReturnSource == Render(ReturnStatements, ReturnRightHandSides)
  {
    var stmts, rhs := ReturnStatements, ReturnRightHandSides;
    assert Render(stmts[3..], rhs[3..]) == [];
    assert Render(stmts[2..], rhs[2..]) == RenderStatement(stmts[2], rhs[2]);
    assert Render(stmts[1..], rhs[1..]) == RenderStatement(stmts[1], rhs[1]) + Render(stmts[2..], rhs[2..]);
    assert Render(stmts, rhs) == RenderStatement(stmts[0], rhs[0]) + Render(stmts[1..], rhs[1..]);
    assert RenderStatement(stmts[0], rhs[0]) == ReturnSource[..3];
    assert RenderStatement(stmts[1], rhs[1]) == ReturnSource[3..6];
    assert RenderStatement(stmts[2], rhs[2]) == ReturnSource[6..];
  }

  lemma ReturnStatementsRenderable()
    ensures forall i | 0 <= i < |ReturnStatements| ::
      WellFormed(ReturnStatements[i]) && NoSemicolon(ReturnRightHandSides[i])
  {
    forall i | 0 <= i < |ReturnStatements|
      ensures WellFormed(ReturnStatements[i]) && NoSemicolon(ReturnRightHandSides[i])
    {
    }
  }

  /** What the return test checks of each statement: three of them, each a
      return statement with literal "return". */
  lemma ReturnStatementsChecked()
    ensures |ReturnStatements| == 3
    ensures forall i | 0 <= i < 3 ::
      (ReturnStatements[i].ReturnStatement? && ReturnStatements[i].TokenLiteral() == "return")
  {
  }

  /** Three returns give exactly three return statements and no diagnostics. */
  lemma ReturnStatementsProgram()
    ensures ProgramTerminates(ReturnSource)
    ensures ParseProgramFrom(ReturnSource) == Parsed(ReturnStatements, [], [])
  {
    ReturnSourceRendered();
    ReturnStatementsRenderable();
    ParseRender(ReturnStatements, ReturnRightHandSides);
  }

  /** A token that starts no statement is stepped over: no statement, no diagnostic. */
  lemma StepOver(rest: seq<Token>)
    requires At(rest, 0).kind !in {Let, Return, Eof}
    requires ProgramTerminates(rest[1..])
    ensures ProgramTerminates(rest)
    ensures ParseProgramFrom(rest) == ParseProgramFrom(rest[1..])
  {
    assert ParseStatement(rest) == Outcome(None, 0, []);
    assert Drop(rest, 1) == rest[1..];
  }

  /** A let not followed by an identifier records one diagnostic, builds no
      statement, and parsing resumes with the very next token. */
  lemma LetWithoutIdentifier(rest: seq<Token>)
    requires At(rest, 0).kind == Let && At(rest, 1).kind != Ident
    requires ProgramTerminates(rest[1..])
    ensures ProgramTerminates(rest)
    ensures var tail := ParseProgramFrom(rest[1..]);
      ParseProgramFrom(rest) ==
        Parsed(tail.statements, [PeekErrorMessage(Ident, At(rest, 1).kind)] + tail.errors, tail.remaining)
  {
    assert ParseStatement(rest) == Outcome(None, 0, [PeekErrorMessage(Ident, At(rest, 1).kind)]);
    assert Drop(rest, 1) == rest[1..];
  }

  /** The diagnostic for an Assign found where an Ident was expected, spelled out. */
  lemma IdentAssignMessage()
    ensures PeekErrorMessage(Ident, Assign) == "expected next token to be Ident, got Assign instead"
  {
  }

  /** After the `let` of `let = 5;` nothing starts a statement. */
  lemma MissingIdentifierRest()
    ensures ProgramTerminates(MissingIdentifierSource[1..])
    ensures ParseProgramFrom(MissingIdentifierSource[1..]) == Parsed([], [], [])
  {
    var src := MissingIdentifierSource;
    assert ProgramTerminates([]) && ParseProgramFrom([]) == Parsed([], [], []);
    assert src[3..][1..] == [];
    StepOver(src[3..]);
    assert src[2..][1..] == src[3..];
    StepOver(src[2..]);
    assert src[1..][1..] == src[2..];
    StepOver(src[1..]);
  }

  /** `let = 5;` gives no statement and one diagnostic naming Ident as expected
      and Assign as found; the rest of the line is stepped over. */
  lemma MissingIdentifierProgram()
    ensures ProgramTerminates(MissingIdentifierSource)
    ensures ParseProgramFrom(MissingIdentifierSource) ==
      Parsed([], ["expected next token to be Ident, got Assign instead"], [])
  {
    MissingIdentifierRest();
    LetWithoutIdentifier(MissingIdentifierSource);
    IdentAssignMessage();
  }
}
