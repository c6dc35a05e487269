/**
 * The lexer and the parser put together. The lexer recognises only
 * punctuation, NUL and illegal characters, so the streams it produces hold no
 * `let` or `return` token: every such stream parses, to a program with no
 * statements and no diagnostics.
 */
module Pipeline {
  import opened Tokens
  import opened Lexing
  import opened ParserSpec
  import opened ParserProperties

  lemma {:induction false} CountStartsNone(rest: seq<Token>)
    requires forall i | 0 <= i < |rest| :: !StartsStatement(rest[i])
    ensures CountStarts(rest) == 0
  {
    if rest != [] {
      assert !StartsStatement(rest[0]);
      CountStartsNone(rest[1..]);
    }
  }

  /** No token the lexer returns starts a statement. */
  lemma LexStartsNothing(input: string, n: nat)
    ensures forall i | 0 <= i < n :: !StartsStatement(Lex(input, n)[i])
  {
  }

  /** Whatever the input, the first n tokens of the lexer, followed by Eof,
      parse to the empty program with no diagnostics. */
  lemma LexedProgramIsEmpty(input: string, n: nat)
    ensures ProgramTerminates(Lex(input, n))
    ensures ParseProgramFrom(Lex(input, n)) == Parsed([], [], ParseProgramFrom(Lex(input, n)).remaining)
  {
    var ts := Lex(input, n);
    LexStartsNothing(input, n);
    assert WellTerminated(ts);
    WellTerminatedSuffices(ts);
    CountStartsNone(ts);
    ParsedCount(ts);
  }

  /** The let test's source text as written. */
  const LetTestInput := "\n        let x = 5;\n        let y = 10;\n        let foobar = 838383;\n        "

  /** Run through this lexer, the let test's source gives no statement at all,
      where the test counts three: its letters and digits all lex as Illegal. */
  lemma LetTestThroughLexer()
    ensures ProgramTerminates(Lex(LetTestInput, |LetTestInput| + 1))
    ensures var p := ParseProgramFrom(Lex(LetTestInput, |LetTestInput| + 1));
      |p.statements| == 0 && p.errors == []
  {
    LexedProgramIsEmpty(LetTestInput, |LetTestInput| + 1);
  }
}
