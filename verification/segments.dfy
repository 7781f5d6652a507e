/** What the lexer does with the common shapes of text, stated as sound
    segments: a segment that is sound where it starts is the step the pass
    takes there. */
module Segments {
  import opened Results
  import opened Chars
  import opened Tokens
  import opened Numbers
  import opened Rules
  import opened Scanner
  import opened Dispatch
  import opened Properties

  /** A one-character operator is taken alone. */
  lemma {:induction false} PunctSegment(s: string, pos: nat, p: Punct)
    requires pos < |s| && SingleCharPunct(s[pos]) == Some(p)
    ensures Sound(s, Segment(Span(pos, pos + 1), Emitted(Ok(Punctuation(p)))))
  {
    var rest := s[pos..];
    assert rest[0] == s[pos];
    SingleCharCase(rest, p);
    BestMatchSound(rest);
    assert s[pos..pos + 1] == PunctText(p);
  }

  /** A character that starts no rule is an `InvalidToken` of its own. */
  lemma {:induction false} ErrorSegment(s: string, pos: nat)
    requires pos < |s| && StartsNothing(s[pos])
    ensures Sound(s, Segment(Span(pos, pos + 1), Emitted(Err(InvalidToken))))
  {
    SelectChosen(s[pos..]);
  }

  /** A keyword's spelling that no identifier character continues is the
      keyword. */
  lemma {:induction false} KeywordSegment(s: string, pos: nat, k: Reserved)
    requires pos + |Spelling(k)| <= |s| && s[pos..pos + |Spelling(k)|] == Spelling(k)
    requires pos + |Spelling(k)| == |s| || !InClass(IdentChar, s[pos + |Spelling(k)|])
    ensures Sound(s, Segment(Span(pos, pos + |Spelling(k)|), Emitted(Ok(Keyword(k)))))
  {
    var rest, n := s[pos..], |Spelling(k)|;
    assert rest[..n] == s[pos..pos + n];
    assert n < |rest| ==> rest[n] == s[pos + n];
    KeywordShadowing(rest, k);
    BestMatchSound(rest);
  }

  /** A maximal run of blanks, tabs, newlines and form feeds is skipped
      whole. */
  lemma {:induction false} WhitespaceSegment(s: string, pos: nat, end: nat)
    requires pos < end <= |s| && All(Whitespace, s[pos..end])
    requires end == |s| || !InClass(Whitespace, s[end])
    ensures Sound(s, Segment(Span(pos, end), Skipped(WhitespaceSkip)))
  {
    var rest := s[pos..];
    assert rest[..end - pos] == s[pos..end];
    assert end < |s| ==> rest[end - pos] == s[end];
    RunExact(Whitespace, rest, end - pos);
    assert InClass(Whitespace, rest[0]);
    SelectChosen(rest);
  }

  /** A line comment runs from `//` up to and including the first newline,
      or to the end of the input when there is none. */
  lemma {:induction false} LineCommentSegment(s: string, pos: nat, nl: nat)
    requires pos + 2 <= nl <= |s| && s[pos] == '/' && s[pos + 1] == '/'
    requires All(NotNewline, s[pos + 2..nl]) && (nl == |s| || s[nl] == '\n')
    ensures Sound(s, Segment(Span(pos, if nl < |s| then nl + 1 else nl), Skipped(LineCommentSkip)))
  {
    var rest := s[pos..];
    assert rest[2..][..nl - pos - 2] == s[pos + 2..nl];
    assert nl < |s| ==> rest[2..][nl - pos - 2] == s[nl];
    RunExact(NotNewline, rest[2..], nl - pos - 2);
    SelectChosen(rest);
  }

  /** A number is the longest prefix of the real pattern; it is lexed by
      the integer rule exactly when that prefix is also an integer lexeme
      (no leading zero, no fraction, no exponent), by the real rule
      otherwise. */
  lemma {:induction false} NumberChoice(rest: string)
    requires |rest| > 0 && InClass(Digit, rest[0])
    ensures 0 < RealLongest(rest)
    ensures var n := RealLongest(rest);
      Chosen(rest, n, if IsIntegerLexeme(rest[..n]) then IntegerRule else RealRule)
  {
    var n := RealLongest(rest);
    var k := IntegerLongest(rest);
    SelectChosen(rest);
    IntegerLongestCorrect(rest);
    if k > 0 {
      IntegerIsReal(rest[..k]);
      RealLongestMaximal(rest, k);
    }
  }

  /** An integer lexeme within the `i64` range yields its value. */
  lemma {:induction false} IntegerSegment(s: string, pos: nat, end: nat)
    requires pos < |s| && InClass(Digit, s[pos]) && end == pos + RealLongest(s[pos..])
    requires IsIntegerLexeme(s[pos..end]) && DecimalValue(s[pos..end]) <= I64Max
    ensures Sound(s, Segment(Span(pos, end), Emitted(Ok(UnsignedInteger(DecimalValue(s[pos..end]) as i64)))))
  {
    assert s[pos..][..end - pos] == s[pos..end];
    NumberChoice(s[pos..]);
  }

  /** Any other number is a real, carried as its lexeme. */
  lemma {:induction false} RealSegment(s: string, pos: nat, end: nat)
    requires pos < |s| && InClass(Digit, s[pos]) && end == pos + RealLongest(s[pos..])
    requires !IsIntegerLexeme(s[pos..end])
    ensures Sound(s, Segment(Span(pos, end), Emitted(Ok(UnsignedReal(s[pos..end])))))
  {
    assert s[pos..][..end - pos] == s[pos..end];
    NumberChoice(s[pos..]);
  }

  /** An integer lexeme above the `i64` range is the panic of the integer
      callback's `unwrap`. */
  lemma {:induction false} OverflowPanic(s: string, pos: nat, end: nat)
    requires pos < |s| && InClass(Digit, s[pos]) && end == pos + RealLongest(s[pos..])
    requires IsIntegerLexeme(s[pos..end]) && DecimalValue(s[pos..end]) > I64Max
    ensures PanicSound(s, Span(pos, end), UnwrapParseInt(ParseIntError(PosOverflow)))
  {
    assert s[pos..][..end - pos] == s[pos..end];
    NumberChoice(s[pos..]);
  }

  /** A bare identifier that is not a keyword's spelling, and that no
      identifier character continues, is an identifier carrying its text. */
  lemma {:induction false} IdentifierSegment(s: string, pos: nat, end: nat)
    requires pos < end <= |s| && IsBareIdentifier(s[pos..end]) && !IsReserved(s[pos..end])
    requires end == |s| || !InClass(IdentChar, s[end])
    ensures Sound(s, Segment(Span(pos, end), Emitted(Ok(Identifier(s[pos..end])))))
  {
    var rest, n := s[pos..], end - pos;
    assert rest[..n] == s[pos..end];
    assert rest[1..][..n - 1] == rest[..n][1..];
    assert end < |s| ==> rest[1..][n - 1] == s[end];
    RunExact(IdentChar, rest[1..], n - 1);
    KeywordNamedComplete(rest[..n]);
    SelectChosen(rest);
  }

  /** A quote, one symbol of the quoted class and a quote form an
      identifier whose name keeps both quotes. */
  lemma {:induction false} QuotedSegment(s: string, pos: nat)
    requires pos + 3 <= |s| && IsQuotedIdentifier(s[pos..pos + 3])
    ensures Sound(s, Segment(Span(pos, pos + 3), Emitted(Ok(Identifier(s[pos..pos + 3])))))
  {
    assert s[pos..][..3] == s[pos..pos + 3];
    SelectChosen(s[pos..]);
  }

  /** A quote that does not open a quoted identifier starts nothing. */
  lemma {:induction false} StrayQuote(s: string, pos: nat)
    requires pos < |s| && s[pos] == '\''
    requires !(pos + 3 <= |s| && IsQuotedIdentifier(s[pos..pos + 3]))
    ensures Sound(s, Segment(Span(pos, pos + 1), Emitted(Err(InvalidToken))))
  {
    assert pos + 3 <= |s| ==> s[pos..][..3] == s[pos..pos + 3];
    SelectChosen(s[pos..]);
  }

  /** The literal text of the boolean rule is the panic of its callback's
      `unwrap`. */
  lemma {:induction false} BooleanPanic(s: string, pos: nat)
    requires pos + |BooleanText| <= |s| && s[pos..pos + |BooleanText|] == BooleanText
    ensures PanicSound(s, Span(pos, pos + |BooleanText|), UnwrapParseBool)
  {
    assert s[pos..][..|BooleanText|] == s[pos..pos + |BooleanText|];
    SelectChosen(s[pos..]);
  }

  /** `:=` is the assignment operator. */
  lemma {:induction false} AssignSegment(s: string, pos: nat)
    requires pos + 2 <= |s| && s[pos] == ':' && s[pos + 1] == '='
    ensures Sound(s, Segment(Span(pos, pos + 2), Emitted(Ok(Punctuation(Assign)))))
  {
    SelectChosen(s[pos..]);
  }

  /** A dot and an arithmetic operator form the element-wise operator. */
  lemma {:induction false} ElemSegment(s: string, pos: nat, p: Punct)
    requires pos + 2 <= |s| && s[pos] == '.' && ElemOperator(s[pos + 1]) == Some(p)
    ensures Sound(s, Segment(Span(pos, pos + 2), Emitted(Ok(Punctuation(p)))))
  {
    SelectChosen(s[pos..]);
  }

  /** A colon not followed by `=`, or a dot not followed by an arithmetic
      operator, starts nothing. */
  lemma {:induction false} LoneColonOrDot(s: string, pos: nat)
    requires pos < |s|
    requires || (s[pos] == ':' && (pos + 1 == |s| || s[pos + 1] != '='))
             || (s[pos] == '.' && (pos + 1 == |s| || ElemOperator(s[pos + 1]).None?))
    ensures Sound(s, Segment(Span(pos, pos + 1), Emitted(Err(InvalidToken))))
  {
    SelectChosen(s[pos..]);
  }

  // A block comment with a non-empty body is skipped up to and including
  // the first `*/` that starts at a unit boundary of the body, where a `*`
  // always takes the character after it as one unit.
  lemma {:induction false} BlockCommentSegment(s: string, pos: nat)
    requires pos < |s| && BlockCommentLongest(s[pos..]) > 0
    ensures Sound(s, Segment(Span(pos, pos + BlockCommentLongest(s[pos..])), Skipped(BlockCommentSkip)))
  {
    SelectChosen(s[pos..]);
  }

  /** A slash that starts no comment is the division operator. */
  lemma {:induction false} DivisionSegment(s: string, pos: nat)
    requires pos < |s| && s[pos] == '/' && (pos + 1 == |s| || s[pos + 1] != '/')
    requires BlockCommentLongest(s[pos..]) == 0
    ensures Sound(s, Segment(Span(pos, pos + 1), Emitted(Ok(Punctuation(OperatorDiv)))))
  {
    SelectChosen(s[pos..]);
  }

  /** An opening parenthesis that does not start the boolean rule's text
      is the parenthesis token. */
  lemma {:induction false} ParenSegment(s: string, pos: nat)
    requires pos < |s| && s[pos] == '('
    requires !(pos + |BooleanText| <= |s| && s[pos..pos + |BooleanText|] == BooleanText)
    ensures Sound(s, Segment(Span(pos, pos + 1), Emitted(Ok(Punctuation(LParen)))))
  {
    assert pos + |BooleanText| <= |s| ==> s[pos..][..|BooleanText|] == s[pos..pos + |BooleanText|];
    SelectChosen(s[pos..]);
  }
}
