# Slang front end in Dafny

Slang is a tiny arithmetic language. Its front end has three parts:

- the **tokenizer** turns a source file into a list of tokens, line by line;
- the **token cursor** (`TokenHandle`) lets the parser look ahead without ever running off the end;
- the **recursive-descent parser** turns the tokens into `Print` statements over expression trees, recovering from errors at the next `;`.

Around these sit the position model (`Line`, `Location`, `Error`), which renders three-line caret diagnostics, and a character cursor (`CharHandle`).

The model follows the code. Every record is an immutable datatype and every operation a pure function. The parser's mutable cursor and error list are threaded through as values. Its panics (`ParserPanic`) become the `Errored` outcome of a three-way `ParseResult`: no match, match, or panic with its one error.

Modules:

| file | module | what it models |
|---|---|---|
| `wrappers.dfy` | `Wrappers` | `Option`, for the nullable results |
| `text.dfy` | `Text` | the .NET string primitives used: `Split`, `TrimEnd`, `PadRight`, integer formatting |
| `position.dfy` | `Position` | `Line`, `Location`, `Error` and the diagnostic layout |
| `char_cursor.dfy` | `CharCursor` | `CharHandle` |
| `tokens.dfy` | `Tokens` | token records, expression records, statements |
| `tokenizer.dfy` | `Tokenizer` | `Tokenizer` |
| `token_cursor.dfy` | `TokenCursor` | `TokenHandle` |
| `parser.dfy` | `Parser` | `Parser` |
| `parser_properties.dfy` | `ParserProperties` | an independent description of arithmetic trees, and what the parser does on their renderings |
| `location_independence.dfy` | `LocationIndependence` | token lists that differ only in their tokens' locations parse alike |
| `front_end.dfy` | `FrontEnd` | the tokenizer's output fed to the parser |

Three behaviours of the code shape the model:

- **The tokenizer stops at the first unrecognised character** (`Slang.Core/Tokenizer.cs:65-69`).
  - It records one "Unexpected token" error and returns the tokens read so far.
  - It never produces an `Unknown` token.
  - It appends no end-of-file token after a failure.
- **The tokenizer appends a real `EndOfFile` token on success** (`Slang.Core/Tokenizer.cs:18-19`).
  - That token equals the sentinel `TokenHandle` makes up past the end of a list.
  - `TokenHandle.EndOfStream` counts the appended token as an element.
  - So parsing a successful tokenization always ends with an `Unknown` statement and reports at least one error (`FrontEnd.AcceptedFilesFailToParse`).
  - When every statement before the end-of-file token ends in `;`, that is one extra `Unknown` statement with the error "Expected statement" (`ParserProperties.TrailingEndOfFile`, `LocationIndependence.SimilarTrailingEndOfFile`). Otherwise the last statement's own error is reported, and its recovery consumes the end-of-file token: the file `1` gives only "Expected semicolon" at that token.
- **`CharHandle.Advance` wraps against the line the cursor started on** (`Slang.Core/CharHandle.cs:63`).
  - Its guard reads the receiver's line index, so it always holds.
  - This is modelled as written. See Findings.
  - Reading `CurrentLine` on a cursor past the last line throws, so `CharCursor.Advance` requires an existing line whenever it moves.

## Model

| member | source | states |
|---|---|---|
| Position.CharAt | Slang.Core/Line.cs:12-21 | the line indexer yields a character exactly for an index inside the text, and then the character at that index |
| Position.GetTokenString | Slang.Core/Location.cs:22-25 | the span's text has exactly `Length` characters, and its character `i` is the line's character at `Position + i`; the span must lie inside the text (`Substring` throws otherwise) |
| Position.EnhanceMessage | Slang.Core/Location.cs:11-20 | the diagnostic starts with the `file:line:column: message` line and ends with the caret line and a final newline, with the source line, its trailing `\r`/`\n` trimmed, between |
| Position.RenderedLines | Slang.Core/Location.cs:17-19 | read back line by line, the diagnostic is exactly: header, source line without trailing `\r`/`\n`, `Position` spaces then `Length` carets, and nothing after the last newline; this holds whenever the file name, the message and the trimmed source line have no newline of their own |
| Position.CaretLine | Slang.Core/Location.cs:19 | the caret line is `Position` spaces followed by `Length` carets and nothing else |
| Position.ErrorToString | Slang.Core/Error.cs:11-14 | an error renders as a diagnostic whose header carries the error's message, whose middle line is the trimmed source line of its location, and whose caret line marks the error's span |
| Position.CaretExample | Slang.Core/Error.cs:11-14 | an error at line 3, column 5, length 2 renders as `f:3:5: m`, the line, then four spaces and `^^` |
| Text.TrimEnd | Slang.Core/Location.cs:18 | trimming keeps a prefix, drops only characters of the trim set, and leaves no trim character at the end |
| Text.Repeat | Slang.Core/Location.cs:19 | `PadRight` on the empty string gives exactly `n` copies of the pad character |
| Text.IntToDecimal | Slang.Core/Location.cs:19 | the decimal form of an integer is digits denoting its absolute value, with a leading `-` exactly for negatives, in shortest form: no leading zero except in `0` itself |
| Text.Split | Slang.Core/Tokenizer.cs:250 | splitting always gives at least one piece, and no piece contains the separator |
| Text.JoinSplit | Slang.Core/Tokenizer.cs:250 | joining the pieces with the separator gives back the original string |
| Text.SplitJoin | Slang.Core/Tokenizer.cs:250 | splitting a join of separator-free pieces gives back the pieces |
| CharCursor.CurrentLine | Slang.Core/CharHandle.cs:14-18 | the current line is the one its 1-based line number names; it exists only while the line index is inside the line array, which is indexed without a check; on lines numbered from 1 in order, the line's own number is the cursor's line number |
| CharCursor.NewCharHandle | Slang.Core/CharHandle.cs:18-28 | a new cursor keeps the file and lines and starts at offset 0, line number 1, column 1 |
| CharCursor.Peek | Slang.Core/CharHandle.cs:31-46 | the indexer yields a character exactly when `filePos + offset` is inside the file, and then the file's character there |
| CharCursor.AdvanceLoop | Slang.Core/CharHandle.cs:54-68 | the loop stops at the end of the file, never moves the line back, and within the starting line either moves the column or wraps to column 0 of the next line |
| CharCursor.Advance | Slang.Core/CharHandle.cs:49-75 | the file offset becomes `min(filePos + offset, file length)`, at the end of the file the cursor is unchanged, file and lines are kept, and one step wraps to the next line exactly at the line's length |
| CharCursor.EndOfStream | Slang.Core/CharHandle.cs:78-81 | the stream has ended exactly when the indexer yields nothing at offset 0 |
| CharCursor.Location | Slang.Core/CharHandle.cs:84-104 | the span starts at this cursor's column on its line; it has length 1 without an end, reaches the end's column on the same line, and runs to the end of this line when the end is on another line |
| CharCursor.GetString | Slang.Core/CharHandle.cs:107-114 | the text between two cursors has the length of their offset difference and is what the indexer reads from the first |
| CharCursor.Error | Slang.Core/CharHandle.cs:117-121 | the error carries the message at exactly the span `Location` gives for the same cursor and end: this cursor's column, with length 1 when there is no end |
| CharCursor.NewStartsAtFirstCharacter | Slang.Core/CharHandle.cs:21-46 | a new cursor reads the file from its first character, and has ended exactly for an empty file |
| CharCursor.PeekAfterAdvance | Slang.Core/CharHandle.cs:49-59 | reading at `k` after advancing `n` is reading at `n + k` before it |
| CharCursor.SpanMatchesText | Slang.Core/CharHandle.cs:84-114 | within one line whose text agrees with the file, the span `Location` reports and the text `GetString` returns are the same characters |
| CharCursor.AdvanceUsesStartingLine | Slang.Core/CharHandle.cs:63-67 | advancing 5 at once over `ab\nc\nd` ends on line 1, column 2, while 3 then 2 ends on line 2, column 0 |
| CharCursor.AdvancePastLastLine | Slang.Core/CharHandle.cs:63 | reaching the end of a one-line file moves the cursor to line index 1, which does not exist |
| CharCursor.StepIntended | Slang.Core/CharHandle.cs:56-67 | the corrected step moves one character and always stays on an existing line |
| CharCursor.AdvanceIntended | Slang.Core/CharHandle.cs:54-68 | the corrected advance has the same saturating file offset as the original and always stays on an existing line |
| CharCursor.AdvanceIntendedComposes | Slang.Core/CharHandle.cs:49-75 | under the corrected advance, advancing `a` then `b` is advancing `a + b` |
| CharCursor.AdvanceIntendedOnSamples | Slang.Core/CharHandle.cs:63-67 | the corrected advance puts offset 5 of `ab\nc\nd` on line 2, and keeps a one-line file on its only line |
| Tokenizer.ToLines | Slang.Core/Tokenizer.cs:247-257 | there is at least one line; line `i` is numbered `i + 1`, has the file name and no `\n`; joining the texts with `\n` gives back the file |
| Tokenizer.WhitespaceRunEnd | Slang.Core/Tokenizer.cs:77-89 | the run end is past only whitespace and stops at the end of the text or a non-whitespace character |
| Tokenizer.TryEatWhitespace | Slang.Core/Tokenizer.cs:75-101 | it succeeds exactly on a whitespace character and then moves past the whole whitespace run |
| Tokenizer.DigitRunEnd | Slang.Core/Tokenizer.cs:105-116 | the run end is past only ASCII digits and stops at the end of the text or a non-digit |
| Tokenizer.TryGetNumberLiteral | Slang.Core/Tokenizer.cs:103-134 | it succeeds exactly on a digit and then yields one number literal spanning the whole maximal digit run, spelled by those digits, and the position after it |
| Tokenizer.TryGetPunctuation | Slang.Core/Tokenizer.cs:136-245 | it succeeds exactly on one of `; + - * / ( )` and yields the token of that kind, length 1, at that column |
| Tokenizer.TokenizeLineFrom | Slang.Core/Tokenizer.cs:26-72 | on success the tokens lex the rest of the line; on failure the error sits at an unexpected character and the tokens lex the text up to it |
| Tokenizer.TokenizeLine | Slang.Core/Tokenizer.cs:24-73 | the same, for a whole line |
| Tokenizer.LexedFacts | Slang.Core/Tokenizer.cs:26-70 | a lexing's tokens are spelled on the line, lie within the lexed range, and have increasing, disjoint spans |
| Tokenizer.TokenizeLines | Slang.Core/Tokenizer.cs:10-16 | every token is spelled on its own line, tokens are in source order, and a failure lies after every token |
| Tokenizer.Tokenize | Slang.Core/Tokenizer.cs:5-22 | at most one error; without one, the last token is the end-of-file token after the last line; every other token is spelled on its line; tokens are in source order; an error is an unexpected character after every token |
| Tokenizer.EndOfFileAfter | Slang.Core/Tokenizer.cs:18-19 | the appended token is an end-of-file token on the last line, just past its text, with length 1 |
| Tokenizer.EndOfFileFollows | Slang.Core/Tokenizer.cs:18-19 | the appended end-of-file token comes after every token on the lines |
| Tokenizer.TokenizeLinesCovers | Slang.Core/Tokenizer.cs:10-16 | each line before the failing one is lexed completely by its own tokens, and the failing line up to the error |
| Tokenizer.TokenizeCovers | Slang.Core/Tokenizer.cs:5-22 | after success each line is lexed completely by its tokens; after failure the lines before the error's line are, and the error's line up to the error |
| Tokenizer.StopsAtUnexpectedCharacter | Slang.Core/Tokenizer.cs:65-69 | `1 @ 2;` yields only the literal `1` and one error at column 3, with no end-of-file token |
| TokenCursor.EndOfFileToken | Slang.Core/TokenHandle.cs:20-28 | the sentinel sits just past the text of the last token's line, or at column 1 of the empty `<???>` line when there are no tokens, with length 1 |
| TokenCursor.NewTokenHandle | Slang.Core/TokenHandle.cs:16-19 | a new cursor holds the tokens and starts at position 0 |
| TokenCursor.At | Slang.Core/TokenHandle.cs:31-46 | the indexer reads the token `offset` places ahead, or the sentinel at or past the end |
| TokenCursor.Advance | Slang.Core/TokenHandle.cs:49-52 | advancing keeps the tokens and moves the position by exactly `offset`, without stopping at the end |
| TokenCursor.AdvanceShifts | Slang.Core/TokenHandle.cs:49-52 | after advancing `n`, the read at `k` sees the token at `n + k` |
| TokenCursor.EndOfStream | Slang.Core/TokenHandle.cs:85-88 | the stream has ended exactly when the position has reached the length of the list; then the indexer yields the sentinel, and before that the real token at the position |
| TokenCursor.FirstOfTypes | Slang.Core/TokenHandle.cs:57-65 | the scan result is not before its start, is a token of one of the types when inside the list, and is `max(start, length)` otherwise |
| TokenCursor.FirstOfTypesSkips | Slang.Core/TokenHandle.cs:58-64 | no token between the start and the scan result has one of the types |
| TokenCursor.AdvanceUntil | Slang.Core/TokenHandle.cs:55-67 | the cursor moves forward to a token of one of the types, or to `max(position, length)` |
| TokenCursor.AdvanceUntilSkips | Slang.Core/TokenHandle.cs:55-67 | every token `AdvanceUntil` moves over lacks all of the types |
| TokenCursor.AdvanceThrough | Slang.Core/TokenHandle.cs:70-82 | before the end the cursor moves at least one token, never past the end, and lands just after a matching token unless it reached the end; at the end it stays put |
| TokenCursor.AdvanceThroughSkips | Slang.Core/TokenHandle.cs:70-82 | every token `AdvanceThrough` moves over, except the last one, lacks all of the types |
| TokenCursor.Error | Slang.Core/TokenHandle.cs:91-94 | the error carries the message at the current token's location, which is the sentinel's at the end |
| TokenCursor.ReadsThenSentinel | Slang.Core/TokenHandle.cs:16-46 | a new cursor reads the tokens in order and then only the sentinel |
| Parser.TryParseExpressionAny | Slang.Core/Parser.cs:85-88 | the try contract holds: no match restores the cursor, a match consumes at least one token and is well formed, and a panic carries its one error at its cursor; a match stops before any operator |
| Parser.TryParseExpressionAddSubtract | Slang.Core/Parser.cs:90-135 | the try contract holds, and a match stops at a token that is neither `+ -` nor `* /` |
| Parser.AddSubtractLoop | Slang.Core/Parser.cs:101-134 | the loop never reports no match and never moves back; it ends on a token that is not an operator, or panics |
| Parser.TryParseExpressionMulDiv | Slang.Core/Parser.cs:137-182 | the try contract holds, a match stops at a token that is not `* /`, and a number literal always starts a match or a panic |
| Parser.MulDivLoop | Slang.Core/Parser.cs:148-181 | the loop never reports no match and never moves back; it ends on a token that is not `* /`, or panics |
| Parser.TryParseExpressionLiteralOrParen | Slang.Core/Parser.cs:184-201 | the try contract holds; it is no match unless the token is a literal or `(`, and a literal always matches |
| Parser.TryParseExpressionLiteral | Slang.Core/Parser.cs:203-213 | it matches exactly on a number literal, giving a literal node over that token and moving one token |
| Parser.TryParseExpressionParen | Slang.Core/Parser.cs:215-245 | the try contract holds; without `(` it is no match with the cursor unchanged, and a match ends just after a `)` |
| Parser.ParenOutcomes | Slang.Core/Parser.cs:215-245 | `( e )` yields `e` itself; `(` without an expression is no match with the cursor restored; an inner panic passes through; an expression without `)` panics with "Expected ')'" at that token |
| Parser.Recover | Slang.Core/Parser.cs:77-82 | recovery leaves an unknown statement with the error, moves at least one token before the end and never past it, and stops just after a `;` unless it reached the end |
| Parser.ParseStatement | Slang.Core/Parser.cs:55-83 | a statement moves the cursor forward, and by at least one before the end; it is unknown exactly when one error was recorded, with a statement message; a print statement holds a well-formed expression and ends just after a `;`; recovery stops just after a `;` or at the end |
| Parser.NoExpressionReported | Slang.Core/Parser.cs:61-65 | with no expression at the start of a statement, the error is "Expected statement" at its first token, and recovery starts there |
| Parser.MissingSemicolonReported | Slang.Core/Parser.cs:67-72 | with an expression not followed by `;`, the error is "Expected semicolon" at the token after the expression, and recovery starts there |
| Parser.MissingAddOperandReported | Slang.Core/Parser.cs:113-119 | a `+` or `-` without a product after it panics with "Expected expression" at the token after the operator |
| Parser.MissingMulOperandReported | Slang.Core/Parser.cs:160-166 | a `*` or `/` without an atom after it panics with "Expected expression" at the token after the operator |
| Parser.ParseFrom | Slang.Core/Parser.cs:46-50 | one error per unknown statement, no more statements than tokens left, and at least one before the end |
| Parser.ParseFromStep | Slang.Core/Parser.cs:46-50 | the parse from a token is the statement there followed by the parse from where it left off, with its error first |
| Parser.Parse | Slang.Core/Parser.cs:38-53 | one error per unknown statement, no more statements than tokens, and at least one statement for a non-empty list |
| Parser.ParseFromReports | Slang.Core/Parser.cs:46-82 | every error of a parse carries one of the four statement messages, and every print statement holds a well-formed expression |
| Parser.ParseReports | Slang.Core/Parser.cs:38-53 | the same, for a whole token list |
| ParserProperties.AtomParses | Slang.Core/Parser.cs:184-245 | an atom's rendering parses back as an atom to the same tree, consuming exactly the rendering |
| ParserProperties.NumberParses | Slang.Core/Parser.cs:203-213 | a number's literal token parses as an atom to that literal |
| ParserProperties.ParenParses | Slang.Core/Parser.cs:215-245 | a parenthesised sum parses as an atom to the sum's tree itself, consuming the closing `)` |
| ParserProperties.GroupParses | Slang.Core/Parser.cs:215-245 | extra parentheses around any tree parse as an atom to the tree's own expression, with no node for them |
| ParserProperties.ParenStep | Slang.Core/Parser.cs:226-240 | `(`, a sum whose `+ -` loop ends on `)`, then `)` matches the sum with no wrapper node |
| ParserProperties.LiteralStep | Slang.Core/Parser.cs:203-213 | a literal token matches as a literal and moves one token |
| ParserProperties.ProductToLoop | Slang.Core/Parser.cs:137-182 | a product's rendering takes the `* /` level to its operator loop with the product's tree |
| ParserProperties.ProductOfProduct | Slang.Core/Parser.cs:148-181 | a `*` or `/` node is its left operand's loop followed by one more turn, which folds to the left |
| ParserProperties.ProductOfAtom | Slang.Core/Parser.cs:137-147 | a product that is one atom enters the loop with that atom |
| ParserProperties.ProductOperand | Slang.Core/Parser.cs:157-171 | the right operand after a `*` or `/` parses as an atom, and the loop goes on with the combined node |
| ParserProperties.SumOperand | Slang.Core/Parser.cs:110-124 | the right operand after a `+` or `-` parses as a product, and the loop goes on with the combined node |
| ParserProperties.FirstFactor | Slang.Core/Parser.cs:137-147 | a first atom match hands its tree to the `* /` loop |
| ParserProperties.FirstTerm | Slang.Core/Parser.cs:90-100 | a first product match hands its tree to the `+ -` loop |
| ParserProperties.AddStep | Slang.Core/Parser.cs:101-129 | one turn of the `+ -` loop builds the add or subtract node of the two operands, operand on the left |
| ParserProperties.MulStep | Slang.Core/Parser.cs:148-176 | one turn of the `* /` loop builds the multiply or divide node of the two operands, operand on the left |
| ParserProperties.SumToLoop | Slang.Core/Parser.cs:90-135 | a sum's rendering takes the `+ -` level to its operator loop with the sum's tree |
| ParserProperties.SumOfSum | Slang.Core/Parser.cs:101-134 | a `+` or `-` node is its left operand's loop followed by one more turn |
| ParserProperties.SumOfProduct | Slang.Core/Parser.cs:90-100 | a sum that is one product enters the loop with that product |
| ParserProperties.AnyParses | Slang.Core/Parser.cs:85-88 | a sum's rendering followed by a non-operator parses back to the sum's tree, consuming exactly the rendering |
| ParserProperties.ParseUnparse | Slang.Core/Parser.cs:85-245 | round trip: every tree, rendered with the fewest parentheses plus those its groups ask for, parses back to the same tree without its groups and consumes every token |
| ParserProperties.PrintStatement | Slang.Core/Parser.cs:67-75 | an expression followed by `;` becomes a print statement of it, continuing after the `;` |
| ParserProperties.FailedStatement | Slang.Core/Parser.cs:77-82 | a panicking expression becomes an unknown statement with its error, skipping through the next `;` |
| ParserProperties.ThroughSemicolon | Slang.Core/Parser.cs:80 | recovery from a `;` lands just after it |
| ParserProperties.ParseStarts | Slang.Core/Parser.cs:41-50 | parsing starts its loop at the first token |
| ParserProperties.ParseAtEnd | Slang.Core/Parser.cs:46-52 | nothing is parsed once the cursor is at the end |
| ParserProperties.FirstPrint | Slang.Core/Parser.cs:55-75 | a rendered tree followed by `;` becomes one print statement of that tree |
| ParserProperties.ProgramParses | Slang.Core/Parser.cs:46-50 | a rendered program gives its print statements in order, followed by whatever the tokens after it give |
| ParserProperties.ProgramStep | Slang.Core/Parser.cs:46-50 | the first print statement goes in front of the parse of the rest of the program |
| ParserProperties.ProgramToEnd | Slang.Core/Parser.cs:46-52 | a rendered program that runs to the end of the list parses into exactly its print statements and no error |
| ParserProperties.ParseProgram | Slang.Core/Parser.cs:38-53 | parsing a rendered program reports no errors, and statement `k` prints the `k`-th tree without its groups |
| ParserProperties.RecoversAtSemicolon | Slang.Core/Parser.cs:77-82 | `1 + ;` followed by a program gives one unknown statement and one "Expected expression" error at the `;`, then the program's statements as usual |
| ParserProperties.MissingOperand | Slang.Core/Parser.cs:113-119 | after `1 +`, a `;` is not an operand, so the `+` loop panics with "Expected expression" at the `;` |
| ParserProperties.TrailingEndOfFile | Slang.Core/Parser.cs:46-65 | a program followed by an end-of-file token parses into its statements, then one unknown statement, with one "Expected statement" error at that token |
| ParserProperties.EndOfFileStatement | Slang.Core/Parser.cs:61-65 | an end-of-file token left over is an unknown statement with an "Expected statement" error at it |
| ParserProperties.SubtractionGroupsLeft | Slang.Core/Parser.cs:101-134 | `1 - 2 - 3 ;` parses as `(1 - 2) - 3` |
| ParserProperties.MultiplicationBindsTighter | Slang.Core/Parser.cs:110-124 | `1 + 2 * 3 ;` parses as `1 + (2 * 3)` |
| ParserProperties.ParenthesesGroup | Slang.Core/Parser.cs:236-240 | `( 1 + 2 ) * 3 ;` parses as `(1 + 2) * 3`, with no node for the parentheses |
| ParserProperties.NestedParentheses | Slang.Core/Parser.cs:215-245 | `( ( 1 ) ) ;` parses as the number `1` alone |
| FrontEnd.EndOfFileTokenIsAnElement | Slang.Core/TokenHandle.cs:85-88 | after a successful tokenization the appended end-of-file token equals the cursor's own sentinel, yet at its index the stream has not ended |
| FrontEnd.EndsWithUnknown | Slang.Core/Parser.cs:46-82 | parsing a list that ends with an end-of-file token, from before that token, ends with an unknown statement and reports at least one error |
| FrontEnd.ParseEndsWithUnknown | Slang.Core/Parser.cs:38-82 | parsing any list that ends with an end-of-file token ends with an unknown statement and reports at least one error |
| FrontEnd.AcceptedFilesFailToParse | Slang.Core/Tokenizer.cs:18-19 | for every file the tokenizer accepts, the parser ends with an unknown statement and reports an error |
| LocationIndependence.LiteralSimilar | Slang.Core/Parser.cs:203-213 | in two token lists equal up to locations, a literal attempt at the same index has the same outcome, tree shape and end |
| LocationIndependence.ParenSimilar | Slang.Core/Parser.cs:215-245 | the same for a parenthesised expression, including the panic message |
| LocationIndependence.LiteralOrParenSimilar | Slang.Core/Parser.cs:184-201 | the same for an atom |
| LocationIndependence.MulDivSimilar | Slang.Core/Parser.cs:137-182 | the same for a product |
| LocationIndependence.MulLoopSimilar | Slang.Core/Parser.cs:148-181 | the `* /` loops, entered at the same index with left operands of one shape, end alike |
| LocationIndependence.AddSubtractSimilar | Slang.Core/Parser.cs:90-135 | the same for a sum |
| LocationIndependence.AddLoopSimilar | Slang.Core/Parser.cs:101-134 | the `+ -` loops, entered at the same index with left operands of one shape, end alike |
| LocationIndependence.AnySimilar | Slang.Core/Parser.cs:85-88 | an expression attempt has the same outcome, tree shape, end and panic message |
| LocationIndependence.FirstOfTypesSimilar | Slang.Core/TokenHandle.cs:57-65 | the scan for a token type stops at the same index |
| LocationIndependence.StatementSimilar | Slang.Core/Parser.cs:55-83 | a statement step gives the same kind of statement, tree shape, error message and next index |
| LocationIndependence.ParseFromSimilar | Slang.Core/Parser.cs:46-50 | parsing from the same index gives statements of the same shapes and errors with the same messages, in order |
| LocationIndependence.ParseSimilar | Slang.Core/Parser.cs:38-53 | the same for whole lists |
| LocationIndependence.SimilarProgramParses | Slang.Core/Parser.cs:38-245 | any token list that renders a program up to locations, extra parentheses included, parses with no error into one print statement per tree, of that tree's shape |
| LocationIndependence.SimilarTrailingEndOfFile | Slang.Core/Parser.cs:46-65 | such a list followed by any end-of-file token gives the print statements, then one unknown statement, and the single error "Expected statement" |

## Left out

- `Slang.Core/Evaluator.cs` is not part of this model: `double` arithmetic and console output.
- `Slang/Program.cs` is not part of this model: the command-line driver.
- `Slang.Core/ParserContext.cs` and `Slang.Core/Extensions.cs` are not part of this model: neither is used by the parser.
- `Print` and `Unknown` are modelled from their use in `Parser.cs`.
- The `double` value of a number literal (`double.Parse`, `Slang.Core/Tokenizer.cs:124`) is not modelled. A literal keeps its digit string instead.
- Position.EnhanceMessage: requires a non-negative position and length, because `PadRight` throws `ArgumentOutOfRangeException` on a negative width (`Slang.Core/Location.cs:19`). The source does reach that throw: `CharHandle.Location` gives the length `CurrentLine.Length - _linePos` when the end is on another line (`Slang.Core/CharHandle.cs:93-96`), and a multi-character `Advance` can leave the column past the end of its line: with lines `abc`, `d` and `e`, `Advance(5)` stops on line `d` at column 2, so a span from there to a later line has length -1. The model leaves that throwing path out.
- Position.ErrorToString: requires the same, for the same reason, since it renders through `EnhanceMessage` (`Slang.Core/Error.cs:13`).
- Strings are sequences of Unicode scalar values here, while .NET's `Length`, indexers, `Substring` and `PadRight` count UTF-16 code units (`Slang.Core/Line.cs:12-21`, `Slang.Core/CharHandle.cs:31-46`, `Slang.Core/CharHandle.cs:78-81`, `Slang.Core/CharHandle.cs:107-114`, `Slang.Core/Location.cs:19-24`). On text with a character outside the Basic Multilingual Plane, `CharCursor.Peek`, `Advance`, `EndOfStream` and `GetString`, `Position.CharAt` and `GetTokenString`, and the caret column count differently from the source. The tokenizer's output is unaffected, because it rejects a line at its first character that is not ASCII, so every position it records has only ASCII characters before it on its line (`Slang.Core/Tokenizer.cs:65-69`).
- Negative offsets throw `InvalidOperationException` in both cursors' indexers. Offsets are `nat` here, so these calls cannot be written.
- TokenCursor.Advance: takes a `nat` offset, so moving backwards is not modelled. The parser only ever advances by one.
- The cursor methods that throw on an end before the start (`Location`, `GetString`) take that as a precondition.
- `GetTokenString` requires the span to lie inside the text, where `Substring` would throw.
- Reference identity of shared `Line` objects is not modelled; lines are compared by value.
- Token kinds are matched by reflection (`GetType()`, `typeof`) in the source. Here they are a `TokenType` tag.
- `int` overflow of positions is not modelled; Dafny integers are unbounded.
- The last branches of the operator loops cannot be reached, so they are absent: `throw new Unreachable()` in the `+ -` loop (`Slang.Core/Parser.cs:132`) and `throw new Exception("Shouldn't be able to reach here")` in the `* /` loop (`Slang.Core/Parser.cs:179`).
- CharCursor.Location and CharCursor.Error require the cursor to be on an existing line, because both read `CurrentLine` (`Slang.Core/CharHandle.cs:14`), which indexes the line array and throws past its end.
- CharCursor.Advance: stated for any offset, but the line and column are pinned down only for one step. A multi-character advance across lines of different lengths is shown by `AdvanceUsesStartingLine` instead. Whenever it moves, it requires the cursor to be on an existing line, because the wrap test reads `CurrentLine` (`Slang.Core/CharHandle.cs:63`), which throws past the last line.
- Parser.TryParseExpressionAny: the contracts do not say which tree a match builds on arbitrary tokens. The tree is pinned down on renderings of trees, by `ParserProperties.ParseUnparse` and `ParserProperties.ParseProgram`, and on any token list equal to a rendering up to locations, by `LocationIndependence.SimilarProgramParses`.
- ParserProperties.ParseUnparse: stated for renderings whose tokens all share one location. `LocationIndependence.AnySimilar` carries the outcome to any other locations.
- ParserProperties.ParseProgram: stated for one shared location too. `LocationIndependence.SimilarProgramParses` states the same statements for any locations.
- ParserProperties.TrailingEndOfFile: stated for one shared location too. `LocationIndependence.SimilarTrailingEndOfFile` covers any locations.
- LocationIndependence.SimilarTrailingEndOfFile: states the error's message but not its location. Error locations are not carried across similar lists; the location, the end-of-file token's own, is stated for one shared location by `ParserProperties.TrailingEndOfFile`.
- Parser.ParseFrom: the contract says that errors correspond one to one with unknown statements. Which message each error carries is stated by `Parser.ParseFromReports`.

## Findings

| source | as written | input that shows it | evidently intended | confidence | as-written member | corrected member |
|---|---|---|---|---|---|---|
| Slang.Core/CharHandle.cs:63 | the wrap test compares the running column with the length of the line the cursor started on | `Advance(5)` from the start of `ab\nc\nd` ends on line 1, column 2, although offset 5 is on line 2; `Advance(3)` then `Advance(2)` ends on line 2, column 0 | compare with the length of the line the loop is on, so that advancing composes | not executed | CharCursor.AdvanceUsesStartingLine | CharCursor.AdvanceIntendedComposes |
| Slang.Core/CharHandle.cs:63 | the guard `_line < Lines.Length` reads the receiver's line index, so it always holds | `Advance(1)` on the one-line file `a` moves to line index 1, which has no line | wrap only when there is a next line | not executed | CharCursor.AdvancePastLastLine | CharCursor.AdvanceIntended |
