# rumoca lexer, modelled in Dafny

rumoca is a Modelica compiler written in Rust. Its lexer is one `logos` token
enum, `Token` in `src/tokens.rs`. The enum holds:

- 57 Modelica keywords;
- identifiers, either bare (`[_a-zA-Z][_0-9a-zA-Z]*`) or a single quoted
  symbol (`'+'`);
- unsigned integers (`[1-9][0-9]*`, priority 3, parsed as `i64`);
- unsigned reals (`(0|[1-9]\d*)(\.\d+)?([eE][+-]?\d+)?`);
- a boolean rule;
- thirteen punctuation tokens.

Three skip rules drop blanks, line comments and block comments. The error
type is `LexicalError`, and its `#[default]` variant `InvalidToken` is what
`logos` yields where no rule matches.

The model states that table and the way `logos` scans with it:

- **Rules.** Each rule is a recogniser predicate `Rules.Matches(r, w)` with a
  priority `Rules.Priority(r)`. Priorities follow `logos`: a literal counts 2
  per character, a character class counts 1, and the integer rule has its
  explicit 3.
- **Choosing a rule.** At every position the scanner takes the longest
  prefix any rule matches. Among rules matching that prefix it takes the one
  of highest priority; `Scanner.Chosen` states this choice and
  `Scanner.BestMatch` computes it.
- **Callbacks.** The chosen rule's callback then runs:
  - skip rules discard their text;
  - the integer callback `parse::<i64>().unwrap()`s;
  - the identifier callback keeps the slice.
- **No match.** Where no rule matches, the lexer yields
  `Err(InvalidToken)` for one character and goes on after it.
- **Panics.** Both `unwrap`s can panic: integer overflow, and the boolean
  rule described below. A panic is modelled as the outcome
  `Scanner.Aborted(items, span, cause)`. It carries the items yielded before
  the panic.

Two results carry most of the model:

- `Scanner.Lex` returns only items that are sound. Each token's span is the
  maximal-munch choice, and its payload is what the lexeme denotes. Each
  error is `InvalidToken` on one character at which nothing matches. The
  items are ordered.
- `Properties.ScanDetermined` shows that the sound pass is unique. So those
  properties describe the lexer exactly, with no slack.

`Dispatch.Select` is a second lexer step: a first-character case split, like
a hand-written lexer, over the same per-class scanners that `Rules.Longest`
uses. Only its choice logic is independent of the rule table's fold over
priorities. `Dispatch.SelectAgrees` proves that it always makes the same
choice as the rule table. The scanners themselves are checked separately
against the regex predicates by the `*LongestCorrect` lemmas and
`Numbers.RealLongestMaximal`.

The boolean rule is `#[token(r"(true|false)?")]`. It is a `token`, not a
`regex`, so it matches only the thirteen-character text `(true|false)?`. The
`true` and `false` keyword rules are commented out, so the words `true` and
`false` are lexed as identifiers. When the literal text does occur, its
callback `parse::<bool>().unwrap()` fails.

The model reproduces this behaviour as written:

- `Properties.NoBooleanTokens`: no `Boolean` token is ever produced;
- `Examples.LexTrue`: `true` lexes as an identifier;
- `Examples.LexBooleanText`: the literal text aborts.

Two behaviours of `src/tokens.rs` are easy to misread:

- **Integer overflow** does not surface as `LexicalError::InvalidInteger`.
  The callback `unwrap`s the `ParseIntError`, so the lexer panics. The
  `From<ParseIntError>` conversion exists (`Tokens.FromParseIntError`), but
  nothing in the lexer reaches it (`Properties.ErrorsAreInvalidToken`).
- **Skip rules** are not tried before the token rules. They compete in the
  same longest-match as every other rule, as `logos` does. For example,
  `/**/` is not a comment, because a block comment's body must be non-empty.
  `/**/` lexes as `/`, `*`, `*`, `/` (`Examples.LexEmptyComment`).

All statements below are proved by the Dafny verifier about the model.

## Model

| member | source | states |
|---|---|---|
| Tokens.FromParseIntError | src/tokens.rs:12-16 | converting a `ParseIntError` gives `InvalidInteger` carrying that same error, never the default `InvalidToken` |
| Tokens.Spelling | src/tokens.rs:21-138 | the text of each `#[token("…")]` keyword attribute, one per `Keyword…` variant; `true` and `false` have none because their attributes are commented out |
| Tokens.RecogniseSpelling | src/tokens.rs:21-138 | the keyword trie recognises every keyword's spelling as that keyword |
| Tokens.SpellingInjective | src/tokens.rs:21-138 | no two keywords share a spelling |
| Tokens.SpellingShape | src/tokens.rs:21-138 | every keyword spelling is 2 to 13 characters of the identifier alphabet starting with a letter, so it is also a bare identifier |
| Tokens.KeywordNamed | src/tokens.rs:21-138 | the keyword looked up for a word is one whose spelling is that word |
| Tokens.NamedSpelling | src/tokens.rs:21-138 | looking up a keyword's spelling finds that keyword |
| Tokens.KeywordNamedComplete | src/tokens.rs:21-138 | the lookup finds nothing exactly when the word is no keyword's spelling (`true`/`false` are not keywords: lines 67 and 129 are commented out) |
| Tokens.PunctText | src/tokens.rs:152-179 | every punctuation text is one or two characters and cannot start an identifier, a number, whitespace or a quoted identifier |
| Tokens.PunctTextInjective | src/tokens.rs:152-179 | no two punctuation tokens share a text |
| Chars.InClass | src/tokens.rs:19-146 | the character classes the patterns use: `\d` read as ASCII, `[1-9]`, the identifier's `[_a-zA-Z]` and `[_0-9a-zA-Z]`, the blanks `[ \t\n\f]`, the regex `.` (any character but a newline) and the quoted-symbol class |
| Chars.QuotedSymbols | src/tokens.rs:140 | the characters the bracket class of the quoted alternative admits, with its range `,-.` read as exactly `,`, `-` and `.` |
| Chars.Run | src/tokens.rs:19 | the run of a character class at the front of a word is all in the class and is stopped by a character outside it |
| Chars.RunMaximal | src/tokens.rs:140 | no prefix longer than the run lies wholly in the class |
| Chars.RunExact | src/tokens.rs:140 | a prefix in the class followed by a character outside it (or the end) is exactly the run |
| Numbers.DecimalValuePrefix | src/tokens.rs:143 | a prefix of a digit string never has a larger value than the whole |
| Numbers.ParseI64 | src/tokens.rs:143 | Rust's `str::parse::<i64>`: an optional sign, then digits accumulated with checked arithmetic; empty input, a stray character or an out-of-range value is the matching `ParseIntError` kind |
| Numbers.Accumulate | src/tokens.rs:143 | the checked multiply-by-ten-and-add loop of `parse::<i64>`, failing with `PosOverflow` or `NegOverflow` at the first step that leaves the `i64` range |
| Numbers.ParseBool | src/tokens.rs:149 | Rust's `str::parse::<bool>`: only `true` and `false` parse |
| Numbers.IsIntegerLexeme | src/tokens.rs:143 | the words the integer rule's regex `[1-9][0-9]*` matches |
| Numbers.AccumulateUnsigned | src/tokens.rs:143 | the checked `i64` accumulation of the remaining digits gives the decimal value, or `PosOverflow` exactly when it exceeds `i64::MAX` |
| Numbers.ParseUnsignedDigits | src/tokens.rs:143 | `parse::<i64>` of a digit string is its decimal value when at most `i64::MAX`, and a `PosOverflow` error otherwise |
| Numbers.IntegerLongestCorrect | src/tokens.rs:143 | the integer scanner's length is the longest prefix matching `[1-9][0-9]*` |
| Numbers.IntegerPartMatches | src/tokens.rs:146 | the scanned integer part is `0` or a digit string without a leading zero |
| Numbers.FractionMatches | src/tokens.rs:146 | the scanned fraction matches `(\.\d+)?` |
| Numbers.ExponentMatches | src/tokens.rs:146 | the scanned exponent matches `([eE][+-]?\d+)?` |
| Numbers.IsRealLexeme | src/tokens.rs:146 | the words the real rule's regex matches: integer part `0` or `[1-9]\d*`, optional fraction, optional exponent |
| Numbers.RealPartsMatch | src/tokens.rs:146 | the integer part, fraction and exponent the scanner measures together match the real pattern |
| Numbers.RealLongestMatches | src/tokens.rs:146 | the real scanner's prefix, when non-empty, matches the real pattern |
| Numbers.IntegerPartBound | src/tokens.rs:146 | no integer part is longer than the scanned one |
| Numbers.FractionBound | src/tokens.rs:146 | no fraction is longer than the scanned one |
| Numbers.ExponentBound | src/tokens.rs:146 | no exponent is longer than the scanned one |
| Numbers.RealBoundSplit | src/tokens.rs:146 | any real lexeme split into its three parts is no longer than the real scanner's prefix |
| Numbers.RealLongestMaximal | src/tokens.rs:146 | no prefix longer than the real scanner's matches the real pattern |
| Numbers.WholeRealLexeme | src/tokens.rs:146 | a real lexeme starts with a digit and the real rule takes all of it |
| Numbers.IntegerIsReal | src/tokens.rs:143-146 | every integer lexeme also matches the real pattern, so both rules compete on plain digit strings |
| Numbers.RealIsIntegerIff | src/tokens.rs:143-146 | a real lexeme is an integer lexeme exactly when it is not `0` and has no `.`, `e` or `E` |
| Rules.LiteralLongest | src/tokens.rs:21-179 | a literal rule takes its whole text when the input starts with it, and nothing otherwise |
| Rules.IsBareIdentifier | src/tokens.rs:140 | the words the first identifier alternative `[_a-zA-Z][_0-9a-zA-Z]*` matches |
| Rules.IsQuotedIdentifier | src/tokens.rs:140 | the words the second identifier alternative matches: a quote, one character of the quoted-symbol class, a quote |
| Rules.IsLineComment | src/tokens.rs:19 | the words the skip regex `//.*\n?` matches: `//`, then no newline, then at most one closing newline |
| Rules.IsCommentBody | src/tokens.rs:19 | the words `([^*]|\*[^\/])*` matches: a `*` is always followed by a character other than `/` and consumed with it |
| Rules.IsBlockComment | src/tokens.rs:19 | the words the skip regex `\/\*([^*]|\*[^\/])+\*\/` matches: `/*`, a non-empty comment body, `*/` |
| Rules.Matches | src/tokens.rs:19-179 | which words each rule of the enum and each skip rule matches in full: a keyword or punctuation its literal text, the regex rules their patterns, the boolean rule its literal text `(true|false)?` |
| Rules.Priority | src/tokens.rs:19-179 | the `logos` priorities: twice the length for a literal; for a regex, what `logos` computes from it (1 for those led by a character class, 4 for `//.*\n?`, 9 for the block comment with its literal delimiters); and the 3 declared on the integer rule |
| Rules.Callback | src/tokens.rs:140-149 | what each rule's callback does with its lexeme: skip rules discard it, the identifier keeps the text, the integer and boolean callbacks `unwrap` their parses, the real carries its text, the rest yield their unit variant |
| Rules.Carries | src/tokens.rs:140-149 | the payload each token must hold for its lexeme: an identifier its text, an integer the decimal value of a `[1-9][0-9]*` lexeme, a real its text in place of the `f64`; keywords and punctuation hold nothing, and no `Boolean` fits any lexeme, since that callback cannot succeed on the rule's literal text |
| Rules.IdentifierLongestCorrect | src/tokens.rs:140 | the identifier scanner's length is the longest prefix matching either identifier alternative |
| Rules.LineCommentLongestCorrect | src/tokens.rs:19 | the line-comment scanner's length is the longest prefix matching `//.*\n?` |
| Rules.CloseAfterSound | src/tokens.rs:19 | the closing position found ends in `*/`, and the text before it matches `([^*]|\*[^\/])*`: read in units where a `*` always takes the next character with it, no unit is `*/` |
| Rules.CloseAfterUnique | src/tokens.rs:19 | any `*/` enclosing a well-formed body is the one found, so a block comment ends at the first `*/` that starts at a unit boundary of its body |
| Rules.BlockCommentUnique | src/tokens.rs:19 | any block comment at the front of the input is exactly the one the scanner finds, so block comments never nest and end at the first `*/` at a unit boundary (in `/***/*/` the `**` pair is one unit, so the comment runs to the second `*/`) |
| Rules.BlockCommentLongestCorrect | src/tokens.rs:19 | the block-comment scanner's length is the longest prefix matching the block-comment pattern of the skip rules |
| Rules.Longest | src/tokens.rs:19-179 | every rule's longest matching prefix: it matches, and no longer prefix does |
| Rules.NeverEmpty | src/tokens.rs:19-179 | no rule matches the empty word, so every step advances |
| Rules.KeywordIndex | src/tokens.rs:21-138 | every keyword is in the rule table |
| Rules.PunctIndex | src/tokens.rs:152-179 | every punctuation token is in the rule table |
| Rules.AllRulesListed | src/tokens.rs:19-179 | the rule table lists every rule of the enum and every skip rule |
| Rules.FirstChar | src/tokens.rs:19-179 | what a rule matches begins with a character that rule can start with |
| Rules.LetterLed | src/tokens.rs:21-140 | a word starting with a letter or `_` can only be matched by a keyword or the identifier rule |
| Rules.NoTies | src/tokens.rs:19-179 | two distinct rules matching the same word never have equal priority, so the maximal-munch choice is unique |
| Rules.CallbackOnMatch | src/tokens.rs:19-179 | skip rules discard, the integer callback aborts exactly above `i64::MAX` with `PosOverflow`, the boolean callback always aborts, and every other callback yields a token of its own rule carrying what the lexeme denotes |
| Scanner.BestInSpec | src/tokens.rs:19-179 | the best entry of a rule list is a longest match, preferred over every equally long entry of no greater priority |
| Scanner.BestIn | src/tokens.rs:19-179 | a scan of a rule list keeping the longest match, an equally long one only when of higher priority |
| Scanner.BestInComplete | src/tokens.rs:19-179 | over a list holding every rule, the best entry is the maximal-munch choice, or nothing matches |
| Scanner.NoLongerMatch | src/tokens.rs:19-179 | when no listed rule's longest match exceeds a length, no rule matches any longer prefix |
| Scanner.NoHigherPriority | src/tokens.rs:19-179 | the best entry beats every other rule matching the same prefix |
| Scanner.Chosen | src/tokens.rs:19-179 | the `logos` choice at a position: a rule matching a non-empty prefix, no rule matching a longer one, and every other rule matching the same prefix of lower priority |
| Scanner.BestMatch | src/tokens.rs:19-179 | the lexer's chosen match takes a non-empty prefix of the remaining input |
| Scanner.BestMatchSound | src/tokens.rs:19-179 | the chosen match is the maximal-munch choice, and no choice means no rule matches |
| Scanner.BestMatchIs | src/tokens.rs:19-179 | the maximal-munch choice, when it exists, is what the lexer picks |
| Scanner.BestMatchNone | src/tokens.rs:5-10 | where no rule matches, the lexer picks nothing (the error path) |
| Scanner.AllSoundMembers | src/tokens.rs:19-179 | every segment of a sound list is sound |
| Scanner.Sound | src/tokens.rs:5-179 | what one segment of the output must be: a skip rule's or a token rule's maximal-munch choice at its start, a token carrying what its lexeme denotes, or `InvalidToken` on one character at which no rule matches |
| Scanner.PanicSound | src/tokens.rs:143-149 | when a callback's `unwrap` panics: the integer rule chose a lexeme above `i64::MAX` (`PosOverflow`), or the boolean rule chose its literal text |
| Scanner.PassSound | src/tokens.rs:5-179 | what a pass from a position must be: sound segments tiling the input from there to where it stopped, ended by a sound panic if it panicked |
| Scanner.ScanFrom | src/tokens.rs:5-179 | the lexer's pass from a position: finish at the end, else take the chosen rule's lexeme, or `InvalidToken` on one character when nothing matches, and go on after it |
| Scanner.Consume | src/tokens.rs:19-179 | one chosen step: run the rule's callback on the lexeme, then skip, emit the token, or abort on the callback's panic |
| Scanner.ScanFromChosen | src/tokens.rs:19-179 | where a rule is the maximal-munch choice, the pass runs that rule's callback on its lexeme |
| Scanner.DiscardSound | src/tokens.rs:19 | a skip rule's chosen lexeme yields a sound skipped segment |
| Scanner.ProduceSound | src/tokens.rs:21-179 | a token rule's chosen lexeme yields a sound token segment |
| Scanner.AbortSound | src/tokens.rs:143-149 | a callback's panic is at a sound span and for a sound cause |
| Scanner.ScanFromSound | src/tokens.rs:19-179 | every pass is sound: its segments tile the input from the start position, and each is the maximal-munch choice or an unmatched character |
| Scanner.NoMatchSound | src/tokens.rs:5-10 | an error step preserves the soundness of the pass after it |
| Scanner.ConsumeSound | src/tokens.rs:19-179 | a chosen step preserves the soundness of the pass after it |
| Scanner.EmittedItemsSpec | src/tokens.rs:19 | the lexer yields exactly the emitted segments, in order, and skipped text yields nothing |
| Scanner.TilesOrdered | src/tokens.rs:19-179 | segments that tile a range are non-empty, in order and inside the range |
| Scanner.Lex | src/tokens.rs:5-179 | every item is a sound token or `InvalidToken`, items are in input order, and an abort happens at a sound panic after every item yielded |
| Scanner.TilesCover | src/tokens.rs:19-179 | every position of a tiled range lies in some segment |
| Scanner.Coverage | src/tokens.rs:19-179 | every input position before the pass stops lies in exactly one token, error or skipped segment |
| Dispatch.ChooseAmong | src/tokens.rs:19-179 | it is enough to compare the rules that can start with the first character |
| Dispatch.ChooseNone | src/tokens.rs:5-10 | when no rule that can start with the first character matches, the lexer picks nothing |
| Dispatch.Select | src/tokens.rs:19-179 | a hand-written lexer step: a case split on the first character, each case comparing only the rules that can start there |
| Dispatch.KeywordWithinRun | src/tokens.rs:21-140 | a keyword found at the front of an identifier-led input lies within the identifier run |
| Dispatch.LetterStarts | src/tokens.rs:21-140 | only keywords and identifiers start with a letter or `_` |
| Dispatch.LetterBounds | src/tokens.rs:21-140 | at a letter, the identifier takes the whole identifier run and a keyword either takes exactly that run or less |
| Dispatch.LetterKeyword | src/tokens.rs:21-140 | an identifier run that spells a keyword is lexed as the keyword |
| Dispatch.LetterIdentifier | src/tokens.rs:21-140 | an identifier run that spells no keyword is lexed as an identifier |
| Dispatch.QuoteCase | src/tokens.rs:140 | at a quote, the lexer takes a three-character quoted identifier or nothing |
| Dispatch.DigitStarts | src/tokens.rs:143-146 | only the integer and real rules start with a digit |
| Dispatch.DigitBounds | src/tokens.rs:143-146 | the integer rule never matches more than the real rule, and nothing after a leading `0` |
| Dispatch.DigitCase | src/tokens.rs:143-146 | at a digit, the number takes the longest real prefix and is an integer exactly when the integer rule matches that whole prefix |
| Dispatch.IntegerChosen | src/tokens.rs:143 | when both number rules match equally far, the integer rule wins on its priority 3 |
| Dispatch.RealChosen | src/tokens.rs:146 | when the real rule matches further, it wins |
| Dispatch.WhitespaceCase | src/tokens.rs:19 | at a blank, the lexer skips the whole run of blanks |
| Dispatch.SlashStarts | src/tokens.rs:19-169 | only the division operator and the two comment rules start with `/` |
| Dispatch.SlashCase | src/tokens.rs:19-169 | at `/`: a line comment after `//`, else a block comment if one closes, else division |
| Dispatch.ParenCase | src/tokens.rs:149-153 | at `(`: the boolean rule's whole literal text if present, else the parenthesis |
| Dispatch.ColonCase | src/tokens.rs:158-159 | at `:`: the assignment `:=`, else nothing |
| Dispatch.DotStarts | src/tokens.rs:172-179 | only the element-wise operators start with `.` |
| Dispatch.DotCase | src/tokens.rs:172-179 | at `.`: the element-wise operator when an arithmetic operator follows, else nothing |
| Dispatch.SingleCharCase | src/tokens.rs:152-170 | a single-character operator is taken alone |
| Dispatch.OtherCase | src/tokens.rs:5-10 | a character that starts no rule is matched by nothing |
| Dispatch.SelectAgrees | src/tokens.rs:19-179 | the first-character reference step chooses exactly what maximal munch over the rule table chooses |
| Properties.StepEmit | src/tokens.rs:21-179 | a chosen token rule yields its token and the pass continues after the lexeme |
| Properties.StepSkip | src/tokens.rs:19 | a chosen skip rule yields nothing visible and the pass continues after it |
| Properties.StepAbort | src/tokens.rs:143-149 | a panicking callback ends the pass |
| Properties.StepError | src/tokens.rs:5-10 | an unmatched character yields `InvalidToken` and the pass continues after it |
| Properties.CallbackOfCarried | src/tokens.rs:140-179 | a token carrying what its lexeme denotes is what its rule's callback yields |
| Properties.PanicCallback | src/tokens.rs:143-149 | a sound panic is what the callback at its span does |
| Properties.EndDetermined | src/tokens.rs:19-179 | a sound ending is the ending the pass produces |
| Properties.SegmentDetermined | src/tokens.rs:19-179 | a sound segment is the step the pass takes at its start |
| Properties.ScanDetermined | src/tokens.rs:19-179 | a sound pass from a position is the pass the lexer produces, so soundness determines the lexer's output |
| Properties.AllSoundFromMembers | src/tokens.rs:19-179 | a list whose members are all sound is sound |
| Properties.LexComplete | src/tokens.rs:19-179 | a sound tiling of the whole input, with no panic, is what the lexer yields |
| Properties.LexAborted | src/tokens.rs:143-149 | a sound tiling up to a sound panic gives an aborted lex with exactly the items before it |
| Properties.SelectChosen | src/tokens.rs:19-179 | the reference step's choice is the maximal-munch choice |
| Properties.SingleScan | src/tokens.rs:21-179 | an input that is one whole token is scanned as exactly that one segment, and the pass finishes |
| Properties.LexSingle | src/tokens.rs:21-179 | an input that is one whole token lexes to exactly that token |
| Properties.NoBooleanTokens | src/tokens.rs:149-150 | the lexer never yields a `Boolean` token |
| Properties.ErrorsAreInvalidToken | src/tokens.rs:5-16 | every error the lexer yields is `InvalidToken` on one character at which no rule matches; `InvalidInteger` never appears |
| Properties.WordRun | src/tokens.rs:140 | a bare identifier that no identifier character continues is exactly the identifier run |
| Properties.SpellingRun | src/tokens.rs:21-140 | a keyword spelling that no identifier character continues is exactly the identifier run |
| Properties.KeywordShadowing | src/tokens.rs:21-140 | a keyword's spelling that no identifier character continues is lexed as the keyword, never as an identifier |
| Properties.LexKeyword | src/tokens.rs:21-138 | every keyword alone lexes to its keyword token |
| Properties.IdentifierMunch | src/tokens.rs:140 | a bare identifier that is no keyword's spelling, and that no identifier character continues, is lexed as one identifier |
| Properties.EmptyCommentIsDivision | src/tokens.rs:19 | `/**/` starts with the division operator, not a comment |
| Segments.PunctSegment | src/tokens.rs:152-170 | a single-character operator is a segment of its own |
| Segments.ErrorSegment | src/tokens.rs:5-10 | a character that starts no rule is an `InvalidToken` segment |
| Segments.KeywordSegment | src/tokens.rs:21-138 | a keyword's spelling that no identifier character continues is a keyword segment |
| Segments.WhitespaceSegment | src/tokens.rs:19 | a maximal run of blanks, tabs, newlines and form feeds is skipped whole |
| Segments.LineCommentSegment | src/tokens.rs:19 | a line comment runs from `//` through the first newline, or to the end of the input |
| Segments.NumberChoice | src/tokens.rs:143-146 | a number is the longest real prefix, lexed by the integer rule exactly when it is an integer lexeme |
| Segments.IntegerSegment | src/tokens.rs:143 | an integer lexeme within the `i64` range yields its value |
| Segments.RealSegment | src/tokens.rs:146-147 | any other number is a real carrying its lexeme |
| Segments.OverflowPanic | src/tokens.rs:143 | an integer lexeme above `i64::MAX` panics in the `unwrap` with `PosOverflow` |
| Segments.IdentifierSegment | src/tokens.rs:140 | a bare identifier that is no keyword's spelling is an identifier carrying its text |
| Segments.QuotedSegment | src/tokens.rs:140 | a quoted symbol is an identifier whose name keeps both quotes |
| Segments.StrayQuote | src/tokens.rs:140 | a quote that opens no quoted identifier is an `InvalidToken` |
| Segments.BooleanPanic | src/tokens.rs:149 | the boolean rule's literal text panics in the `bool` parse |
| Segments.AssignSegment | src/tokens.rs:158-159 | `:=` is the assignment operator |
| Segments.ElemSegment | src/tokens.rs:172-179 | a dot and an arithmetic operator form the element-wise operator |
| Segments.LoneColonOrDot | src/tokens.rs:158-179 | a colon without `=`, or a dot without an arithmetic operator, is an `InvalidToken` |
| Segments.BlockCommentSegment | src/tokens.rs:19 | a block comment is skipped up to the first `*/` that starts at a unit boundary of its body, a `*` always taking the character after it |
| Segments.DivisionSegment | src/tokens.rs:19-169 | a slash that starts no comment is the division operator |
| Segments.ParenSegment | src/tokens.rs:149-153 | a `(` that does not start the boolean text is the parenthesis token |
| Examples.EmptyCommentSound | src/tokens.rs:19 | the four one-character segments of `/**/` are sound and tile it |
| Examples.EmptyCommentItems | src/tokens.rs:163-169 | those segments yield division, product, product, division |
| Examples.LexEmptyComment | src/tokens.rs:19 | `/**/` lexes to two divisions around two products |
| Examples.CommentedSound | src/tokens.rs:19 | the segments of `model // comment` + newline + `end` (keyword, blank, comment with its newline, keyword) are sound and tile it |
| Examples.CommentedWords | src/tokens.rs:21-138 | its first and last segments are the keywords |
| Examples.CommentedGap | src/tokens.rs:19 | its middle segments are a blank, then the comment with its newline |
| Examples.CommentedItems | src/tokens.rs:19 | only the two keywords are yielded |
| Examples.LexCommented | src/tokens.rs:19 | a line comment takes its closing newline and yields nothing |
| Examples.LexOne | src/tokens.rs:19-179 | an input that is one sound segment lexes to that segment's item, if it emits one |
| Examples.LexCarriageReturn | src/tokens.rs:19 | a carriage return is outside the skipped blanks and is an `InvalidToken` |
| Examples.LexBlockComment | src/tokens.rs:19 | a block comment with a body yields nothing |
| Examples.LexStarPair | src/tokens.rs:19 | in `/***/*/` the first `*/` lies inside the unit `**`, so the whole input is one block comment and yields nothing |
| Examples.TrueNotReserved | src/tokens.rs:129-130 | `true` is no keyword's spelling |
| Examples.LexTrue | src/tokens.rs:129-149 | `true` lexes as an identifier |
| Examples.FalseNotReserved | src/tokens.rs:67-68 | `false` is no keyword's spelling |
| Examples.LexFalse | src/tokens.rs:67-149 | `false` lexes as an identifier |
| Examples.LexQuotedPlus | src/tokens.rs:140 | `'+'` is one identifier with its quotes |
| Examples.LexAssign | src/tokens.rs:158-159 | `:=` is one token |
| Examples.LexColon | src/tokens.rs:158-159 | a lone colon is an `InvalidToken` |
| Examples.LexElemMul | src/tokens.rs:176-177 | `.*` is the element-wise product |
| Examples.LexInteger | src/tokens.rs:143 | any input matching `[1-9][0-9]*` whose value is at most `i64::MAX` lexes to one integer token of that value |
| Examples.LexReal | src/tokens.rs:146-147 | any input matching the real pattern but not `[1-9][0-9]*` lexes to one real token carrying its text |
| Examples.LexFortyTwo | src/tokens.rs:143 | `42` is the integer 42 |
| Examples.LexZero | src/tokens.rs:143-147 | `0` is a real, since the integer pattern excludes a leading zero |
| Examples.LexFraction | src/tokens.rs:146-147 | `3.14` is a real |
| Examples.LexExponent | src/tokens.rs:146-147 | `1e10` is a real |
| Examples.QuotedLetterSound | src/tokens.rs:140 | the segments of a quoted letter are sound and tile it |
| Examples.QuotedLetterItems | src/tokens.rs:140 | they yield an error, an identifier and an error |
| Examples.LexQuotedLetter | src/tokens.rs:140 | a letter between quotes is not a quoted identifier: each quote is an `InvalidToken` |
| Examples.LexBooleanText | src/tokens.rs:149 | the boolean rule's literal text aborts in the `bool` parse before yielding anything |
| Examples.LexOverflow | src/tokens.rs:143 | any input matching `[1-9][0-9]*` whose value exceeds `i64::MAX` aborts with `PosOverflow` before yielding anything |

## Left out

- The `f64` decoding of reals is left out: `UnsignedReal` carries its lexeme. Floating point is outside the model. For lexemes of ASCII digits the real pattern's shape guarantees that Rust's `parse::<f64>` succeeds, so under the model's reading of `\d` the `unwrap` in that callback never fails.
- `ParseIntError` is reduced to its kind. Only `PosOverflow` can reach the integer callback, because the lexeme is a non-empty string of ASCII digits.
- The `logos` DFA is left out. Rule selection is stated directly as longest match, then priority. On an unmatched character the model advances by one character, and the error width for multi-character garbage that `logos` may report is not modelled.
- The `Display` implementation (`src/tokens.rs:182-186`) and the derived `Debug`, `Clone`, `PartialEq` and `Default` traits are left out. `Default` is modelled only as the constant `Tokens.DefaultError`.
- UTF-8 is not modelled: input is a sequence of characters, and `\d` is taken as the ASCII digits `0-9`. Model spans count characters, while `logos` spans are byte offsets, so every span after a non-ASCII character (in a comment, or an `InvalidToken`) differs from the program's.
- Unicode digits are left out. `logos` reads `\d` as any Unicode decimal digit, so in `1١` (a `1` followed by ARABIC-INDIC DIGIT ONE) the real rule matches both characters, `parse::<f64>` rejects them and the callback's `unwrap` panics. The model reads `\d` as ASCII and lexes the same input as `UnsignedInteger(1)` followed by `InvalidToken`.
- Rules.Priority uses the `logos` priority numbers. Only their order among rules matching the same text matters, and `Rules.NoTies` shows there are no ties.
- The iterator's laziness is not modelled: the lexer is a function of the whole input. An abort ends the outcome as a Rust panic would end the caller.
