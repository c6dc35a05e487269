# Monkey front end: lexer, syntax tree and statement parser

This project models the front end of a small interpreter for the Monkey
language, written in Rust. It covers four parts:

- **Tokens.** There is a closed set of token kinds, and a token is a
  (kind, literal) pair. The derived `Debug` name of each kind is what
  diagnostics print.
- **Lexer.** A cursor reads one character per call to `next_token` and
  classifies it into one of three groups:
  - one of eight punctuation marks;
  - NUL, which means end of input;
  - anything else, which is an illegal character with literal `"_"`.

  Past the end of the input, the lexer returns `Eof` forever. It does not
  skip whitespace. It does not scan identifiers, keywords, integers or
  two-character operators.
- **Syntax tree.** A program is a list of `let` and `return` statements.
  Every node reports the literal of the token that introduced it.
- **Parser.** The parser keeps a two-token window (current and peek) over a
  token source. It has recursive-descent parsers for `let NAME = ...;` and
  `return ...;`. Each of them skips the right-hand side up to the next
  semicolon. Diagnostics are collected as text of the form
  `expected next token to be K, got G instead`.

## Layout

- `options.dfy`: `Option`.
- `token.dfy`, module `Tokens`: token kinds, tokens, the `Debug` names of
  kinds and how to read those names back.
- `lexer.dfy`, module `Lexing`:
  - the classification function `Classify`;
  - `Lex`, the first n tokens of an input;
  - the `Lexer` class, whose `NextToken` is proved to produce exactly `Lex`.
- `ast.dfy`, module `Ast`: the syntax tree as datatypes.
- `parser_spec.dfy`, module `ParserSpec`: what the parser computes, written as
  functions of the remaining token stream. The current token is at index 0
  and the peek token at index 1; past the end of the sequence the stream
  yields `Eof` forever. The module also holds:
  - the diagnostic format and a decoder for it;
  - the exact conditions under which each parser loop ends.
- `parser.dfy`, module `Parsing`: the `Parser` class.
  - Its token source is a token sequence followed by `Eof` forever, plus a
    count of the tokens pulled so far.
  - The statement and program parsers are proved to follow the matching
    functions in `ParserSpec`; the window operations (`NextToken`,
    `ExpectPeek`, `PeekError`) have direct contracts.
- `parser_props.dfy`, module `ParserProperties`: properties of parsing. They
  cover the shape of every parsed statement, bounds, a sufficient condition
  for parsing to end, the round trip from statements to tokens and back, and
  the parser's test programs.
- `parser_tests.dfy`, module `ParserTests`: the parser's two tests, and one
  case for a missing identifier, written as verified calls on the class.
- `pipeline.dfy`, module `Pipeline`: the lexer and the parser put together.

The parser is verified over an abstract token stream rather than over this
lexer. The lexer never produces `let`, `return`, identifiers or integers, so
every stream it produces parses to the empty program:
`Pipeline.LexedProgramIsEmpty` proves this. In particular,
`Pipeline.LetTestThroughLexer` shows that the source text of
`test_let_statements` yields no statements through this lexer. The parser's
tests are therefore modelled on the token streams that their source texts
denote.

Parsing does not always end. The skip loops
`while !cur_token_is(Semicolon) { next_token() }` do not stop at `Eof`, so a
`let` or `return` with no semicolon after it makes the loop spin forever.
- `ParserSpec.ProgramTerminates` is the exact condition for parsing to end,
  and the program parser requires it. A single let statement requires
  `LetTerminates` instead, and a return statement a semicolon after `return`.
- `ParserProperties.UnterminatedStatementNeverEnds` shows that a `return`, or
  a `let NAME =`, with no semicolon after it breaks that condition.
- `ParserProperties.WellTerminatedSuffices` gives a simple sufficient
  condition: every `let`/`return` token has a semicolon somewhere after it.

## Model

| member | source | states |
|---|---|---|
| Tokens.New | src/token.rs:8-13 | `Token::new`: the token has exactly the kind and the literal given. |
| Tokens.TokenEquality | src/token.rs:1-5 | Two tokens are equal exactly when their kinds and their literals are equal: a token has no identity beyond its two fields. |
| Tokens.KindName | src/token.rs:16-33 | The `Debug` name of every kind is non-empty and made only of ASCII letters, so it never contains the comma that separates the two names in a diagnostic. |
| Tokens.KindNameRoundTrip | src/token.rs:16-33 | Reading back the `Debug` name of any kind gives that kind, so distinct kinds have distinct names. |
| Tokens.KindOfNameSound | src/token.rs:16-33 | Only a kind's own `Debug` name reads back as that kind. |
| Lexing.CharAt | src/lexer.rs:21-25 | The character `read_char` loads is NUL exactly when the position is past the end or the input holds a NUL there. |
| Lexing.NewToken | src/lexer.rs:47-52 | `new_token`: the token has the given kind and a literal of exactly one character, the one given. |
| Lexing.Classify | src/lexer.rs:32-43 | The token has a one-character literal. Its kind is `Eof` exactly when the character is NUL, and `Illegal` exactly when the literal is `"_"`. A recognised token's literal is the character itself. The kind is always one of the ten kinds that `next_token` can produce. |
| Lexing.ClassifyLiteralRoundTrip | src/lexer.rs:30-52 | Classifying a token's own literal gives the same token back. |
| Lexing.Lex | src/lexer.rs:20-44 | The first n tokens the lexer returns: n of them, and the k-th (counting from 0) classifies `input[k]`, or NUL once k is past the end. |
| Lexing.LexEofForever | src/lexer.rs:21-22 | Every token after the end of the input is `Eof` with literal NUL. |
| Lexing.LexEmbeddedNul | src/lexer.rs:41 | A NUL inside the input yields `Eof` at its position, before the real end. |
| Lexing.LexIllegal | src/lexer.rs:42 | Any character other than the eight marks and NUL, whitespace and letters included, yields `Illegal` with literal `"_"`, not the character itself. |
| Lexing.LexPunctuation | src/lexer.rs:58-88 | `=+(){},;` lexes to Assign, Plus, Lparen, Rparen, Lbrace, Rbrace, Comma, Semicolon, then `Eof` with literal NUL. |
| Lexing.Lexer.constructor | src/lexer.rs:11-18 | Needs a non-empty input, because the first character is unwrapped. Starts at position 0 and read position 1, with the first character loaded and nothing emitted yet. |
| Lexing.Lexer.ReadChar | src/lexer.rs:20-28 | Loads the character at `position`, or NUL past the end. Then `position` takes the old read position, and the read position moves one further. |
| Lexing.Lexer.NextToken | src/lexer.rs:30-44 | Keeps `read_position == position + 1` and advances `position` by exactly one. Leaves the character at the old position loaded. Returns the classification of the character at the old position, appends it to the tokens emitted so far (so they are always `Lex(input, position)`), and returns `Eof` once past the end. |
| Lexing.PunctuationClient | src/lexer.rs:58-88 | Nine calls of `NextToken` on `=+(){},;` return exactly the tokens of `LexPunctuation`. |
| Ast.IdentifierLiteralIgnoresValue | src/ast.rs:59-63 | An identifier's token literal comes from its token alone, whatever its value field holds. |
| Ast.ProgramLiteralAfterPush | src/ast.rs:24-31 | The empty program's literal is `""`. Appending a statement makes the program's literal that statement's literal if the program was empty, and leaves it unchanged otherwise. |
| ParserSpec.PeekErrorMessage | src/parser.rs:148-151 | The diagnostic starts with `expected next token to be `, ends with ` instead`, and is longer than those fixed parts; `ParserSpec.PeekErrorRoundTrip` reads both kinds back out of it. |
| ParserSpec.PeekErrorRoundTrip | src/parser.rs:147-153 | A diagnostic can be decoded back into the expected kind and the kind actually found. |
| ParserSpec.DecodeSound | src/parser.rs:147-153 | A diagnostic that decodes to a pair of kinds is exactly the message `peek_error` writes for that pair, so every decodable diagnostic, including each one the parser records, is a `peek_error` message. |
| ParserSpec.PeekErrorInjective | src/parser.rs:147-153 | Different (expected, found) pairs give different diagnostics. |
| ParserSpec.PeekErrorAppend | src/parser.rs:147-153 | Recording one more diagnostic keeps every recorded diagnostic decodable. |
| ParserSpec.SkipToSemicolon | src/parser.rs:94-96 | The skip loop stops on the first semicolon at or after its start, and on no earlier token. |
| ParserSpec.ParseLet | src/parser.rs:62-98 | `parse_let_statement`: a statement is built exactly when no diagnostic is recorded, and at most one diagnostic is recorded. |
| ParserSpec.ParseLetShape | src/parser.rs:62-98 | A statement is built exactly when `let` is followed by an identifier and `=`. The statement's token is the `let` token, its name is the identifier (value equal to the identifier's literal), and its value is the placeholder. There are no diagnostics, and the current token is left on the first semicolon after the `=`. Without an identifier, the current token stays on `let` and the one diagnostic names Ident as expected and the peek kind as found. Without the `=`, the current token stays on the identifier and the one diagnostic names Assign and the kind found. |
| ParserSpec.ParseLetErrors | src/parser.rs:81-92 | Every diagnostic the let parser records decodes as a peek error. |
| ParserSpec.ParseReturn | src/parser.rs:102-122 | Always builds a return statement with the `return` token and the placeholder value, with no diagnostics. It steps at least once and leaves the current token on the first semicolon after `return`. |
| ParserSpec.ParseStatement | src/parser.rs:54-59 | A current token other than `let` or `return` gives no statement, no step and no diagnostic. |
| ParserSpec.ParseProgramFrom | src/parser.rs:39-52 | `parse_program`: when it ends, the current token is `Eof`. |
| ParserSpec.ParseProgramStep | src/parser.rs:44-49 | One iteration: the program's statements and diagnostics are those of the statement at the current token, followed by those of the rest after the token where it stopped. The rest is strictly shorter. |
| ParserSpec.ParseProgramUnfold | src/parser.rs:44-49 | The converse of `ParseProgramStep`: if parsing ends after the first statement, it ends from the current token too, with that statement first. |
| ParserSpec.CollectedStep | src/parser.rs:44-49 | The loop state "collected so far, followed by what the rest gives, is the whole result" survives one iteration. |
| ParserSpec.CollectedEnd | src/parser.rs:44-51 | When the loop stops at `Eof`, the collected statements and diagnostics are the whole result. |
| ParserProperties.ParsedWellFormed | src/parser.rs:39-122 | Every parsed statement is a `let` with an identifier name whose value is its literal, or a `return`, each with the placeholder value. Every diagnostic decodes as a peek error. |
| ParserProperties.ParsedStatementLiteral | src/ast.rs:41-44 | A statement the parser builds reports the literal of the token it started on as its token literal. A let statement's name reports the identifier's literal, which is also its value. |
| ParserProperties.ParsedProgramLiteral | src/ast.rs:24-31 | When the first token yields a statement, the parsed program's token literal is that token's literal. |
| ParserProperties.UnterminatedStatementNeverEnds | src/parser.rs:94-119 | A `return`, or a `let NAME =`, with no semicolon anywhere after it makes `ProgramTerminates` false: the skip loop runs past `Eof` forever. |
| ParserProperties.ParsedCount | src/parser.rs:44-59 | Statements plus diagnostics never outnumber the `let`/`return` tokens of the stream. |
| ParserProperties.WellTerminatedSuffices | src/parser.rs:94-96 | If every `let`/`return` token has a semicolon somewhere after it, parsing ends. |
| ParserProperties.ParseRenderedStatement | src/parser.rs:62-122 | A well-formed statement written out as tokens, with a semicolon-free right-hand side, parses back to itself and stops on its closing semicolon. |
| ParserProperties.ParseRender | src/parser.rs:39-52 | Any list of well-formed statements, written out as tokens, parses back to exactly that list, in order, with no diagnostics and nothing left over. |
| ParserProperties.LetStatementsChecked | src/parser.rs:175-219 | The expected let statements are three, named x, y and foobar. Each has literal `let` and a name whose token literal equals its value. |
| ParserProperties.LetStatementsProgram | src/parser.rs:163-188 | The tokens of `let x = 5; let y = 10; let foobar = 838383;` parse to exactly those three let statements, with no diagnostics. |
| ParserProperties.ReturnStatementsChecked | src/parser.rs:242-260 | The expected return statements are three, each a return statement with literal `return`. |
| ParserProperties.ReturnStatementsProgram | src/parser.rs:230-261 | The tokens of `return 5; return 10; return 993322;` parse to exactly three return statements, with no diagnostics. |
| ParserProperties.StepOver | src/parser.rs:54-59 | A token that starts no statement is stepped over and adds nothing. |
| ParserProperties.LetWithoutIdentifier | src/parser.rs:81-83 | A `let` not followed by an identifier adds one diagnostic (Ident expected, the peek kind found) and no statement, and parsing resumes at the very next token. |
| ParserProperties.IdentAssignMessage | src/parser.rs:147-153 | The diagnostic for an `=` found where an identifier was expected reads `expected next token to be Ident, got Assign instead`. |
| ParserProperties.MissingIdentifierProgram | src/parser.rs:62-92 | `let = 5;` gives no statement and exactly that one diagnostic. |
| Parsing.Parser.constructor | src/parser.rs:16-33 | After priming, the window holds the first two tokens of the source, there are no diagnostics, and the whole source remains. |
| Parsing.Parser.NextToken | src/parser.rs:35-37 | Peek moves into current, and the next token is pulled into peek. The remaining stream loses exactly its first token. |
| Parsing.Parser.CurTokenIs | src/parser.rs:124-126 | True exactly when the first token of the remaining stream has the given kind. |
| Parsing.Parser.PeekTokenIs | src/parser.rs:128-130 | True exactly when the second token of the remaining stream has the given kind. |
| Parsing.Parser.Errors | src/parser.rs:142-145 | Returns the recorded diagnostics, each of which decodes as a peek error. |
| Parsing.Parser.PeekError | src/parser.rs:147-153 | Appends exactly one diagnostic, naming the expected kind and the peek token's kind, and changes nothing else. |
| Parsing.Parser.ExpectPeek | src/parser.rs:132-140 | Succeeds exactly when the peek token has the expected kind, and then advances once with no diagnostic. Otherwise the window is left as it was and exactly one diagnostic is appended. |
| Parsing.Parser.SkipUntilSemicolon | src/parser.rs:94-96 | Steps until the current token is the first semicolon ahead, and stops at no other token. |
| Parsing.Parser.ParseLetStatement | src/parser.rs:62-98 | Follows `ParserSpec.ParseLet` on the old stream: the same statement, the current token at the position it names, and its diagnostics appended. |
| Parsing.Parser.ParseLetBinding | src/parser.rs:85-98 | From the identifier on, it finishes the let statement exactly as `ParserSpec.ParseLet` says. |
| Parsing.Parser.ParseReturnStatement | src/parser.rs:102-122 | Follows `ParserSpec.ParseReturn` on the old stream. |
| Parsing.Parser.ParseStatement | src/parser.rs:54-59 | Follows `ParserSpec.ParseStatement` on the old stream. |
| Parsing.Parser.ParseNext | src/parser.rs:45-48 | One loop body: parse a statement, then step past the token it stopped on. |
| Parsing.Parser.ParseProgram | src/parser.rs:39-52 | The program's statements are those of `ParseProgramFrom` on the old stream. The diagnostics are extended by its diagnostics, and the current token ends as `Eof`. |
| ParserTests.LetTest | src/parser.rs:163-227 | The class, called on the let test's tokens, gives the three expected let statements and no diagnostics. |
| ParserTests.ReturnTest | src/parser.rs:230-261 | The class, called on the return test's tokens, gives three return statements with literal `return` and no diagnostics. |
| ParserTests.MissingIdentifierTest | src/parser.rs:62-83 | Not one of the source's tests: the class, called on `let = 5;`, gives no statement and one diagnostic that decodes to (Ident, Assign). |
| Pipeline.LexStartsNothing | src/lexer.rs:30-44 | No token the lexer returns is `let` or `return`. |
| Pipeline.LexedProgramIsEmpty | src/lexer.rs:30-44 | Any prefix of the lexer's output, followed by `Eof`, parses, and it parses to no statements and no diagnostics. |
| Pipeline.LetTestThroughLexer | src/parser.rs:163-188 | The let test's source text, run through this lexer, gives no statements and no diagnostics, not the three statements the test counts. |

## Left out

- `src/repl.rs` and `src/main.rs`: a read loop and process start-up, which are console I/O only.
- The parser's `l: Lexer` field is modelled as a token sequence followed by `Eof` forever, with a count of tokens pulled. Composing the parser with this lexer gives only empty programs (`Pipeline.LexedProgramIsEmpty`), so the class is not wired to the `Lexer` class.
- Trait objects (`Box<dyn Statement>`, `Node`, `as_any`/`downcast_ref`) become closed datatypes, and a test's downcast becomes a variant test. The marker methods `statement_node` and `expression_node` have no behaviour and are not modelled.
- `Return` is missing from the token-kind enumeration (`src/token.rs:18-33`), and `ReturnStatement` is imported but never defined in `src/ast.rs`. The model adds both, as the parser uses them: a `return` statement with a token and a return value.
- `LetStatement.name` is declared as `Box<Identifier>` but assigned a bare `Identifier` (`src/parser.rs:65-71,85-88`). The model stores the identifier by value.
- The first value given to the let statement's name, `Identifier(Token(Illegal, ""), "")`, is always overwritten before the statement is returned, so the model builds the name directly.
- The placeholder values are kept as in the source. A let statement's value is `Identifier(Token(Illegal, ""), "")`, and a return statement's value is `Identifier(Token(Return, ""), "")`.
- `usize` overflow of `position` and `read_position` is not modelled: the cursors are unbounded naturals.
- The input is assumed to be ASCII and treated as a sequence of characters, so the byte length `input.len()` and the character index `chars().nth` agree. No contract requires it: for non-ASCII input the model reads NUL where the source's `chars().nth(..).unwrap()` would panic, so the lexer lemmas say nothing faithful about such input.
- Parsing can fail to end, because the skip loops never stop at `Eof`. Every parsing operation therefore requires `ProgramTerminates` (or `LetTerminates`/`SemicolonFrom` for one statement). The non-terminating runs are not modelled.
- `Parsing.Parser.ParseLetBinding` and `Parsing.Parser.ParseNext` are parts of `parse_let_statement` and of the `parse_program` loop body, given their own contracts. They do not correspond to separate functions in the source.
- The lexer as written has no whitespace skipping, identifiers, keywords, integers or two-character operators. The model follows the code and does not add them, so the language-level description of a maximal-munch tokenizer is not modelled.
