/**
 * What the parser computes, as functions of the token stream it has not yet
 * consumed. `rest` is that stream with the current token at index 0 and the
 * peek token at index 1; past its end the stream yields Eof forever.
 * The Parser class in module Parsing is proved to follow these functions.
 */
module ParserSpec {
  import opened Options
  import opened Tokens
  import opened Ast

  /** The i-th token of the stream, Eof past its end. */
  function At(rest: seq<Token>, i: nat): Token {
    if i < |rest| then rest[i] else EofToken
  }

  /** The stream after n tokens have been consumed. */
  function Drop(rest: seq<Token>, n: nat): (d: seq<Token>)
    ensures |d| == if n <= |rest| then |rest| - n else 0
  {
    if n == 0 || rest == [] then rest else Drop(rest[1..], n - 1)
  }

  lemma {:induction false} DropSlice(rest: seq<Token>, n: nat)
    ensures Drop(rest, n) == if n <= |rest| then rest[n..] else []
  {
    if n != 0 && rest != [] {
      DropSlice(rest[1..], n - 1);
      if n <= |rest| {
        assert rest[1..][n - 1..] == rest[n..];
      }
    }
  }

  lemma AtDrop(rest: seq<Token>, n: nat, i: nat)
    ensures At(Drop(rest, n), i) == At(rest, n + i)
  {
    DropSlice(rest, n);
  }

  lemma DropDrop(rest: seq<Token>, m: nat, n: nat)
    ensures Drop(Drop(rest, m), n) == Drop(rest, m + n)
  {
    DropSlice(rest, m);
    DropSlice(Drop(rest, m), n);
    DropSlice(rest, m + n);
  }

  /** Two streams that agree from positions m and n on agree at every offset. */
  lemma SameStream(a: seq<Token>, m: nat, b: seq<Token>, n: nat, j: nat)
    requires Drop(a, m) == Drop(b, n)
    ensures At(a, m + j) == At(b, n + j)
  {
    AtDrop(a, m, j);
    AtDrop(b, n, j);
  }

  // ---------------------------------------------------------------------------
  // Diagnostics

  const ExpectedPrefix := "expected next token to be "
  const GotInfix := ", got "
  const InsteadSuffix := " instead"

  /** The message `peek_error` records, with both kinds in their Debug form. */
  function PeekErrorMessage(expected: TokenType, got: TokenType): (msg: string)
    ensures |ExpectedPrefix| + |GotInfix| + |InsteadSuffix| < |msg|
    ensures msg[..|ExpectedPrefix|] == ExpectedPrefix
    ensures msg[|msg| - |InsteadSuffix|..] == InsteadSuffix
  {
    var msg := ExpectedPrefix + KindName(expected) + GotInfix + KindName(got) + InsteadSuffix;
    assert msg[..|ExpectedPrefix|] == ExpectedPrefix;
    assert msg[|msg| - |InsteadSuffix|..] == InsteadSuffix;
    msg
  }

  /** The index of the first comma of s, or |s| when there is none. */
  function IndexOfComma(s: string): (i: nat)
    ensures i <= |s|
    ensures i < |s| ==> s[i] == ','
    ensures forall k | 0 <= k < i :: s[k] != ','
  {
    if s == [] || s[0] == ',' then 0 else 1 + IndexOfComma(s[1..])
  }

  /** Splits a message of the shape PREFIX + e + ", got " + g + SUFFIX, where e
      has no comma, into e and g. */
  function SplitMessage(msg: string): Option<(string, string)> {
    if |msg| < |ExpectedPrefix| + |InsteadSuffix| then None
    else if msg[..|ExpectedPrefix|] != ExpectedPrefix then None
    else if msg[|msg| - |InsteadSuffix|..] != InsteadSuffix then None
    else
      var middle := msg[|ExpectedPrefix|..|msg| - |InsteadSuffix|];
      var i := IndexOfComma(middle);
      if |middle| < i + |GotInfix| || middle[i..i + |GotInfix|] != GotInfix then None
      else Some((middle[..i], middle[i + |GotInfix|..]))
  }

  /** Reads the expected and the found kind back out of a diagnostic. */
  function DecodePeekError(msg: string): Option<(TokenType, TokenType)> {
    match SplitMessage(msg)
    case None => None
    case Some((e, g)) =>
      match (KindOfName(e), KindOfName(g))
      case (Some(expected), Some(got)) => Some((expected, got))
      case _ => None
  }

  /** A string that has the shape of a `peek_error` diagnostic. */
  predicate IsPeekError(msg: string) {
    DecodePeekError(msg).Some?
  }

  /** Every diagnostic of the list has the peek-error shape. */
  ghost predicate AllPeekErrors(errors: seq<string>) {
    forall i | 0 <= i < |errors| :: IsPeekError(errors[i])
  }

  lemma SplitMessageRoundTrip(a: string, b: string)
    requires forall k | 0 <= k < |a| :: a[k] != ','
    ensures SplitMessage(ExpectedPrefix + a + GotInfix + b + InsteadSuffix) == Some((a, b))
  {
    var middle := a + GotInfix + b;
    var msg := ExpectedPrefix + a + GotInfix + b + InsteadSuffix;
    assert msg == ExpectedPrefix + middle + InsteadSuffix;
    assert msg[..|ExpectedPrefix|] == ExpectedPrefix;
    assert msg[|msg| - |InsteadSuffix|..] == InsteadSuffix;
    assert msg[|ExpectedPrefix|..|msg| - |InsteadSuffix|] == middle;
    var i := IndexOfComma(middle);
    assert middle[|a|] == ',';
    assert i == |a|;
    assert middle[..i] == a;
    assert middle[i..i + |GotInfix|] == GotInfix;
    assert middle[i + |GotInfix|..] == b;
  }

  /** A diagnostic names the expected kind and the kind actually found, recoverably. */
  lemma PeekErrorRoundTrip(expected: TokenType, got: TokenType)
    ensures DecodePeekError(PeekErrorMessage(expected, got)) == Some((expected, got))
  {
    var a, b := KindName(expected), KindName(got);
    var msg := PeekErrorMessage(expected, got);
    assert msg == ExpectedPrefix + a + GotInfix + b + InsteadSuffix;
    forall k | 0 <= k < |a| ensures a[k] != ',' {
      assert IsAsciiLetter(a[k]);
    }
    SplitMessageRoundTrip(a, b);
    assert SplitMessage(msg) == Some((a, b));
    KindNameRoundTrip(expected);
    KindNameRoundTrip(got);
    assert KindOfName(a) == Some(expected) && KindOfName(b) == Some(got);
  }

  /** A message SplitMessage accepts is made of its two parts and the fixed text. */
  lemma SplitMessageSound(msg: string, a: string, b: string)
    requires SplitMessage(msg) == Some((a, b))
    ensures msg == ExpectedPrefix + a + GotInfix + b + InsteadSuffix
  {
    var middle := msg[|ExpectedPrefix|..|msg| - |InsteadSuffix|];
    var i := IndexOfComma(middle);
    assert middle == middle[..i] + middle[i..i + |GotInfix|] + middle[i + |GotInfix|..];
    assert msg == msg[..|ExpectedPrefix|] + middle + msg[|msg| - |InsteadSuffix|..];
  }

  /** The converse of PeekErrorRoundTrip: a diagnostic that decodes to a pair of
      kinds is exactly the message `peek_error` writes for them. */
  lemma DecodeSound(msg: string, expected: TokenType, got: TokenType)
    requires DecodePeekError(msg) == Some((expected, got))
    ensures msg == PeekErrorMessage(expected, got)
  {
    var (a, b) := SplitMessage(msg).value;
    SplitMessageSound(msg, a, b);
    KindOfNameSound(a, expected);
    KindOfNameSound(b, got);
  }

  /** Recording one more peek error keeps every diagnostic decodable. */
  lemma PeekErrorAppend(errors: seq<string>, expected: TokenType, got: TokenType)
    requires AllPeekErrors(errors)
    ensures AllPeekErrors(errors + [PeekErrorMessage(expected, got)])
  {
    PeekErrorRoundTrip(expected, got);
    var es := errors + [PeekErrorMessage(expected, got)];
    forall i | 0 <= i < |es| ensures IsPeekError(es[i]) {
      if i < |errors| {
        assert es[i] == errors[i];
      }
    }
  }

  lemma AllPeekErrorsConcat(a: seq<string>, b: seq<string>)
    requires AllPeekErrors(a) && AllPeekErrors(b)
    ensures AllPeekErrors(a + b)
  {
    forall i | 0 <= i < |a + b| ensures IsPeekError((a + b)[i]) {
      if i < |a| {
        assert (a + b)[i] == a[i];
      } else {
        assert (a + b)[i] == b[i - |a|];
      }
    }
  }

  /** Different (expected, found) pairs give different messages. */
  lemma PeekErrorInjective(e1: TokenType, g1: TokenType, e2: TokenType, g2: TokenType)
    requires PeekErrorMessage(e1, g1) == PeekErrorMessage(e2, g2)
    ensures e1 == e2 && g1 == g2
  {
    PeekErrorRoundTrip(e1, g1);
    PeekErrorRoundTrip(e2, g2);
  }

  // ---------------------------------------------------------------------------
  // Statements

  /** The value slots the parser fills in, since it parses no expressions. */
  const LetPlaceholder := IdentifierExpression(Identifier(Token(Illegal, ""), ""))
  const ReturnPlaceholder := IdentifierExpression(Identifier(Token(Return, ""), ""))

  /** A semicolon occurs in the stream at index i or later. */
  ghost predicate SemicolonFrom(rest: seq<Token>, i: nat) {
    exists j :: i <= j < |rest| && rest[j].kind == Semicolon
  }

  /** Where the skip loop `while !cur_token_is(Semicolon) { next_token() }` stops
      when started at index i: the first semicolon from i on. Eof does not stop it. */
  function SkipToSemicolon(rest: seq<Token>, i: nat): (j: nat)
    requires SemicolonFrom(rest, i)
    ensures i <= j < |rest| && At(rest, j).kind == Semicolon
    ensures forall k | i <= k < j :: At(rest, k).kind != Semicolon
    decreases |rest| - i
  {
    if rest[i].kind == Semicolon then i else SkipToSemicolon(rest, i + 1)
  }

  /** The result of one statement parser: the statement (if any), the index in
      the stream where the current token stands afterwards, the new diagnostics. */
  datatype Outcome = Outcome(statement: Option<Statement>, cur: nat, errors: seq<string>)

  /** The let parser's skip loop is reached only after `let IDENT =`, and then ends
      only if a semicolon follows. */
  ghost predicate LetTerminates(rest: seq<Token>) {
    At(rest, 1).kind == Ident && At(rest, 2).kind == Assign ==> SemicolonFrom(rest, 2)
  }

  /** `parse_let_statement`, started with the `let` token current. */
  function ParseLet(rest: seq<Token>): (o: Outcome)
    requires LetTerminates(rest)
    ensures o.statement.Some? <==> o.errors == []
    ensures |o.errors| <= 1
  {
    if At(rest, 1).kind != Ident then
      Outcome(None, 0, [PeekErrorMessage(Ident, At(rest, 1).kind)])
    else if At(rest, 2).kind != Assign then
      Outcome(None, 1, [PeekErrorMessage(Assign, At(rest, 2).kind)])
    else
      var name := Identifier(At(rest, 1), At(rest, 1).literal);
      Outcome(Some(LetStatement(At(rest, 0), name, LetPlaceholder)), SkipToSemicolon(rest, 2), [])
  }

  /** The let parser builds a statement exactly when `let` is followed by an
      identifier and `=`; the statement is named after the identifier, and the
      current token is left on the first semicolon after the `=`. Otherwise it
      records one diagnostic and stops on `let` or on the identifier. */
  lemma ParseLetShape(rest: seq<Token>)
    requires LetTerminates(rest)
    ensures var o := ParseLet(rest);
      && (o.statement.Some? <==> At(rest, 1).kind == Ident && At(rest, 2).kind == Assign)
      && (o.statement.Some? ==>
        var s := o.statement.value;
        && s.LetStatement? && s.token == At(rest, 0) && s.name.token == At(rest, 1)
        && s.name.value == s.name.token.literal && s.value == LetPlaceholder
        && o.errors == [] && At(rest, o.cur).kind == Semicolon
        && forall k | 2 <= k < o.cur :: At(rest, k).kind != Semicolon)
      && (At(rest, 1).kind != Ident ==>
        o.cur == 0 && o.errors == [PeekErrorMessage(Ident, At(rest, 1).kind)])
      && (At(rest, 1).kind == Ident && At(rest, 2).kind != Assign ==>
        o.cur == 1 && o.errors == [PeekErrorMessage(Assign, At(rest, 2).kind)])
  {
  }

  /** `parse_return_statement`, started with the `return` token current: it steps
      once, then skips to the first semicolon. */
  function ParseReturn(rest: seq<Token>): (o: Outcome)
    requires SemicolonFrom(rest, 1)
    ensures o.statement.Some? && o.errors == []
    ensures o.statement.value == ReturnStatement(At(rest, 0), ReturnPlaceholder)
    ensures 1 <= o.cur && At(rest, o.cur).kind == Semicolon
    ensures forall k | 1 <= k < o.cur :: At(rest, k).kind != Semicolon
  {
    Outcome(Some(ReturnStatement(At(rest, 0), ReturnPlaceholder)), SkipToSemicolon(rest, 1), [])
  }

  /** The statement parser selected by the current token ends. */
  ghost predicate StatementTerminates(rest: seq<Token>) {
    match At(rest, 0).kind
    case Let => LetTerminates(rest)
    case Return => SemicolonFrom(rest, 1)
    case _ => true
  }

  /** The diagnostics the let parser records all have the peek-error shape. */
  lemma ParseLetErrors(rest: seq<Token>)
    requires LetTerminates(rest)
    ensures AllPeekErrors(ParseLet(rest).errors)
  {
    PeekErrorRoundTrip(Ident, At(rest, 1).kind);
    PeekErrorRoundTrip(Assign, At(rest, 2).kind);
  }

  /** `parse_statement`: dispatch on the current token's kind. */
  function ParseStatement(rest: seq<Token>): (o: Outcome)
    requires StatementTerminates(rest)
    ensures At(rest, 0).kind !in {Let, Return} ==> o == Outcome(None, 0, [])
  {
    match At(rest, 0).kind
    case Let => ParseLet(rest)
    case Return => ParseReturn(rest)
    case _ => Outcome(None, 0, [])
  }

  function OptionToSeq(o: Option<Statement>): seq<Statement> {
    match o
    case Some(s) => [s]
    case None => []
  }

  /** The result of `parse_program`: the statements, the diagnostics recorded,
      and the stream left over (its current token is Eof). */
  datatype Parsed = Parsed(statements: seq<Statement>, errors: seq<string>, remaining: seq<Token>)

  /** `parse_program` ends on this stream: every statement parser it starts ends. */
  ghost predicate ProgramTerminates(rest: seq<Token>)
    decreases |rest|
  {
    At(rest, 0).kind == Eof ||
    (StatementTerminates(rest) && ProgramTerminates(Drop(rest, ParseStatement(rest).cur + 1)))
  }

  /** `parse_program`: parse a statement where the current token stands, step
      past it, and repeat until the current token is Eof. */
  function ParseProgramFrom(rest: seq<Token>): (p: Parsed)
    requires ProgramTerminates(rest)
    ensures At(p.remaining, 0).kind == Eof
    decreases |rest|
  {
    if At(rest, 0).kind == Eof then Parsed([], [], rest)
    else
      var o := ParseStatement(rest);
      var tail := ParseProgramFrom(Drop(rest, o.cur + 1));
      Parsed(OptionToSeq(o.statement) + tail.statements, o.errors + tail.errors, tail.remaining)
  }

  /** One iteration of `parse_program` on a stream whose current token is not Eof. */
  lemma ParseProgramStep(rest: seq<Token>)
    requires ProgramTerminates(rest) && At(rest, 0).kind != Eof
    ensures StatementTerminates(rest)
    ensures var o := ParseStatement(rest);
      && ProgramTerminates(Drop(rest, o.cur + 1))
      && |Drop(rest, o.cur + 1)| < |rest|
      && var tail := ParseProgramFrom(Drop(rest, o.cur + 1));
      ParseProgramFrom(rest) ==
        Parsed(OptionToSeq(o.statement) + tail.statements, o.errors + tail.errors, tail.remaining)
  {
  }

  /** The converse of ParseProgramStep: when the statement parser ends where the
      current token stands and parsing ends after it, parsing ends here too,
      with that statement first. */
  lemma ParseProgramUnfold(rest: seq<Token>)
    requires At(rest, 0).kind != Eof && StatementTerminates(rest)
    requires ProgramTerminates(Drop(rest, ParseStatement(rest).cur + 1))
    ensures ProgramTerminates(rest)
    ensures var o := ParseStatement(rest);
      var tail := ParseProgramFrom(Drop(rest, o.cur + 1));
      ParseProgramFrom(rest) ==
        Parsed(OptionToSeq(o.statement) + tail.statements, o.errors + tail.errors, tail.remaining)
  {
  }

  /** The state `parse_program`'s loop keeps: what is collected so far,
      followed by what the rest of the stream gives, is the whole result. */
  ghost predicate Collected(whole: Parsed, here: seq<Token>, statements: seq<Statement>,
                            errors0: seq<string>, errors: seq<string>)
  {
    && ProgramTerminates(here)
    && statements + ParseProgramFrom(here).statements == whole.statements
    && errors + ParseProgramFrom(here).errors == errors0 + whole.errors
    && ParseProgramFrom(here).remaining == whole.remaining
  }

  /** Before the loop nothing is collected. */
  lemma CollectedStart(rest: seq<Token>, errors0: seq<string>)
    requires ProgramTerminates(rest)
    ensures Collected(ParseProgramFrom(rest), rest, [], errors0, errors0)
  {
  }

  /** One loop iteration keeps Collected: the statement parsed where the
      current token stands is appended, as are its diagnostics. */
  lemma CollectedStep(whole: Parsed, here: seq<Token>, statements: seq<Statement>,
                      errors0: seq<string>, errors: seq<string>)
    requires Collected(whole, here, statements, errors0, errors) && At(here, 0).kind != Eof
    ensures StatementTerminates(here)
    ensures var o := ParseStatement(here);
      var next := Drop(here, o.cur + 1);
      && |next| < |here|
      && Collected(whole, next, statements + OptionToSeq(o.statement), errors0, errors + o.errors)
  {
    ParseProgramStep(here);
    var o := ParseStatement(here);
    var tail := ParseProgramFrom(Drop(here, o.cur + 1));
    AppendAssociative(statements, OptionToSeq(o.statement), tail.statements);
    AppendAssociative(errors, o.errors, tail.errors);
  }

  /** When the loop stops at Eof, everything has been collected. */
  lemma CollectedEnd(whole: Parsed, here: seq<Token>, statements: seq<Statement>,
                     errors0: seq<string>, errors: seq<string>)
    requires Collected(whole, here, statements, errors0, errors) && At(here, 0).kind == Eof
    ensures statements == whole.statements && errors == errors0 + whole.errors
    ensures here == whole.remaining
  {
  }

  lemma AppendAssociative<T>(a: seq<T>, b: seq<T>, c: seq<T>)
    ensures (a + b) + c == a + (b + c)
  {
  }
}
