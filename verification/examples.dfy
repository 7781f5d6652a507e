/** Whole inputs worked through the lexer. */
module Examples {
  import opened Results
  import opened Chars
  import opened Tokens
  import opened Numbers
  import opened Rules
  import opened Scanner
  import opened Dispatch
  import opened Properties
  import opened Segments

  // ---------------------------------------------------------------------------
  // An empty block comment

  const EmptyComment: string := "/**/"
  const EmptyCommentSegments: seq<Segment> := [
    Segment(Span(0, 1), Emitted(Ok(Punctuation(OperatorDiv)))),
    Segment(Span(1, 2), Emitted(Ok(Punctuation(OperatorMul)))),
    Segment(Span(2, 3), Emitted(Ok(Punctuation(OperatorMul)))),
    Segment(Span(3, 4), Emitted(Ok(Punctuation(OperatorDiv))))]

  lemma {:induction false} EmptyCommentSound()
    ensures Tiles(EmptyCommentSegments, 0, |EmptyComment|)
    ensures forall i :: 0 <= i < |EmptyCommentSegments| ==> Sound(EmptyComment, EmptyCommentSegments[i])
  {
    var s := EmptyComment;
    assert s[0..] == s;
    EmptyCommentIsDivision(s);
    PunctSegment(s, 1, OperatorMul);
    PunctSegment(s, 2, OperatorMul);
    assert s[3..] == "/";
    DivisionSegment(s, 3);
  }

  /** The body of a block comment must not be empty, so `/**/` is two
      divisions around two multiplications. */
  lemma {:induction false} LexEmptyComment()
    ensures Lex(EmptyComment) == Complete([
      Item(Ok(Punctuation(OperatorDiv)), Span(0, 1)),
      Item(Ok(Punctuation(OperatorMul)), Span(1, 2)),
      Item(Ok(Punctuation(OperatorMul)), Span(2, 3)),
      Item(Ok(Punctuation(OperatorDiv)), Span(3, 4))])
  {
    EmptyCommentSound();
    EmptyCommentItems();
    LexComplete(EmptyComment, EmptyCommentSegments);
  }

  lemma {:induction false} EmptyCommentItems()
    ensures EmittedItems(EmptyCommentSegments) == [
      Item(Ok(Punctuation(OperatorDiv)), Span(0, 1)),
      Item(Ok(Punctuation(OperatorMul)), Span(1, 2)),
      Item(Ok(Punctuation(OperatorMul)), Span(2, 3)),
      Item(Ok(Punctuation(OperatorDiv)), Span(3, 4))]
  {
    var segs := EmptyCommentSegments;
    EmittedCons(segs[3], []);
    EmittedCons(segs[2], segs[3..]);
    EmittedCons(segs[1], segs[2..]);
    EmittedCons(segs[0], segs[1..]);
    assert segs == [segs[0]] + segs[1..];
  }

  // ---------------------------------------------------------------------------
  // A line comment between two keywords

  const Commented: string := "model // comment\nend"
  const CommentedSegments: seq<Segment> := [
    Segment(Span(0, 5), Emitted(Ok(Keyword(Model)))),
    Segment(Span(5, 6), Skipped(WhitespaceSkip)),
    Segment(Span(6, 17), Skipped(LineCommentSkip)),
    Segment(Span(17, 20), Emitted(Ok(Keyword(End))))]

  lemma {:induction false} CommentedSound()
    ensures Tiles(CommentedSegments, 0, |Commented|)
    ensures forall i :: 0 <= i < |CommentedSegments| ==> Sound(Commented, CommentedSegments[i])
  {
    CommentedWords();
    CommentedGap();
  }

  lemma {:induction false} CommentedWords()
    ensures Sound(Commented, CommentedSegments[0]) && Sound(Commented, CommentedSegments[3])
  {
    var s := Commented;
    assert s[0..5] == Spelling(Model);
    KeywordSegment(s, 0, Model);
    assert s[17..20] == Spelling(End);
    KeywordSegment(s, 17, End);
  }

  lemma {:induction false} CommentedGap()
    ensures Sound(Commented, CommentedSegments[1]) && Sound(Commented, CommentedSegments[2])
  {
    var s := Commented;
    assert s[5..6] == " ";
    WhitespaceSegment(s, 5, 6);
    assert s[8..16] == " comment";
    LineCommentSegment(s, 6, 16);
  }

  lemma {:induction false} CommentedItems()
    ensures EmittedItems(CommentedSegments) == [Item(Ok(Keyword(Model)), Span(0, 5)), Item(Ok(Keyword(End)), Span(17, 20))]
  {
    var segs := CommentedSegments;
    EmittedCons(segs[3], []);
    EmittedCons(segs[2], segs[3..]);
    EmittedCons(segs[1], segs[2..]);
    EmittedCons(segs[0], segs[1..]);
    assert segs == [segs[0]] + segs[1..];
  }

  /** A line comment takes its closing newline with it. */
  lemma {:induction false} LexCommented()
    ensures Lex(Commented) == Complete([Item(Ok(Keyword(Model)), Span(0, 5)), Item(Ok(Keyword(End)), Span(17, 20))])
  {
    CommentedSound();
    CommentedItems();
    LexComplete(Commented, CommentedSegments);
  }

  // ---------------------------------------------------------------------------
  // Inputs that are a single segment

  /** An input covered by one sound segment lexes to that segment's item, if
      it emits one. */
  lemma {:induction false} LexOne(s: string, seg: Segment)
    requires seg.span == Span(0, |s|) && Sound(s, seg)
    ensures Lex(s) == Complete(if seg.kind.Emitted? then [Item(seg.kind.result, seg.span)] else [])
  {
    EmittedCons(seg, []);
    assert [seg] + [] == [seg];
    assert [seg][1..] == [];
    LexComplete(s, [seg]);
  }

  /** A carriage return is not in the whitespace class: it is an invalid token. */
  lemma {:induction false} LexCarriageReturn()
    ensures Lex("\r") == Complete([Item(Err(InvalidToken), Span(0, 1))])
  {
    ErrorSegment("\r", 0);
    LexOne("\r", Segment(Span(0, 1), Emitted(Err(InvalidToken))));
  }

  /** A block comment with a body is skipped whole. */
  lemma {:induction false} LexBlockComment()
    ensures Lex("/* x */") == Complete([])
  {
    var s := "/* x */";
    assert BlockCommentLongest(s) == 7;
    assert s[0..] == s;
    BlockCommentSegment(s, 0);
    LexOne(s, Segment(Span(0, 7), Skipped(BlockCommentSkip)));
  }

  // Inside a comment body a `*` takes the character after it, so the
  // star-slash at index 3 of the input is no closing: the comment runs to the end.
  lemma {:induction false} LexStarPair()
    ensures Lex("/***/*/") == Complete([])
  {
    var s := "/***/*/";
    assert BlockCommentLongest(s) == 7;
    assert s[0..] == s;
    BlockCommentSegment(s, 0);
    LexOne(s, Segment(Span(0, 7), Skipped(BlockCommentSkip)));
  }

  /** With their keyword rules disabled, `true` and `false` are identifiers. */
  lemma {:induction false} TrueNotReserved()
    ensures !IsReserved("true")
  {
    forall k: Reserved
      ensures Spelling(k) != "true"
    {
    }
  }

  lemma {:induction false} LexTrue()
    ensures Lex("true") == Complete([Item(Ok(Identifier("true")), Span(0, 4))])
  {
    var s := "true";
    TrueNotReserved();
    assert s[0..4] == s;
    IdentifierSegment(s, 0, 4);
    LexOne(s, Segment(Span(0, 4), Emitted(Ok(Identifier(s)))));
  }

  lemma {:induction false} FalseNotReserved()
    ensures !IsReserved("false")
  {
    forall k: Reserved
      ensures Spelling(k) != "false"
    {
    }
  }

  lemma {:induction false} LexFalse()
    ensures Lex("false") == Complete([Item(Ok(Identifier("false")), Span(0, 5))])
  {
    var s := "false";
    FalseNotReserved();
    assert s[0..5] == s;
    IdentifierSegment(s, 0, 5);
    LexOne(s, Segment(Span(0, 5), Emitted(Ok(Identifier(s)))));
  }

  /** A quoted symbol keeps its quotes in the identifier. */
  lemma {:induction false} LexQuotedPlus()
    ensures Lex("'+'") == Complete([Item(Ok(Identifier("'+'")), Span(0, 3))])
  {
    var s := "'+'";
    assert s[0..3] == s;
    QuotedSegment(s, 0);
    LexOne(s, Segment(Span(0, 3), Emitted(Ok(Identifier(s)))));
  }

  /** The assignment operator is one token, not a colon and an equals sign. */
  lemma {:induction false} LexAssign()
    ensures Lex(":=") == Complete([Item(Ok(Punctuation(Assign)), Span(0, 2))])
  {
    AssignSegment(":=", 0);
    LexOne(":=", Segment(Span(0, 2), Emitted(Ok(Punctuation(Assign)))));
  }

  /** A lone colon starts no token. */
  lemma {:induction false} LexColon()
    ensures Lex(":") == Complete([Item(Err(InvalidToken), Span(0, 1))])
  {
    LoneColonOrDot(":", 0);
    LexOne(":", Segment(Span(0, 1), Emitted(Err(InvalidToken))));
  }

  /** A dot followed by a star is the element-wise product. */
  lemma {:induction false} LexElemMul()
    ensures Lex(".*") == Complete([Item(Ok(Punctuation(OperatorElemMul)), Span(0, 2))])
  {
    ElemSegment(".*", 0, OperatorElemMul);
    LexOne(".*", Segment(Span(0, 2), Emitted(Ok(Punctuation(OperatorElemMul)))));
  }

  /** A digit-led input that is one whole number lexeme is one number token:
      an integer when it matches `[1-9][0-9]*` and fits an `i64`. */
  lemma {:induction false} LexInteger(s: string)
    requires IsIntegerLexeme(s) && DecimalValue(s) <= I64Max
    ensures Lex(s) == Complete([Item(Ok(UnsignedInteger(DecimalValue(s) as i64)), Span(0, |s|))])
  {
    IntegerIsReal(s);
    WholeRealLexeme(s);
    assert s[0..] == s && s[0..|s|] == s;
    IntegerSegment(s, 0, |s|);
    LexOne(s, Segment(Span(0, |s|), Emitted(Ok(UnsignedInteger(DecimalValue(s) as i64)))));
  }

  /** ... and a real, carrying its text, when it does not match the integer pattern. */
  lemma {:induction false} LexReal(s: string)
    requires IsRealLexeme(s) && !IsIntegerLexeme(s)
    ensures Lex(s) == Complete([Item(Ok(UnsignedReal(s)), Span(0, |s|))])
  {
    WholeRealLexeme(s);
    assert s[0..] == s && s[0..|s|] == s;
    RealSegment(s, 0, |s|);
    LexOne(s, Segment(Span(0, |s|), Emitted(Ok(UnsignedReal(s)))));
  }

  lemma {:induction false} LexFortyTwo()
    ensures Lex("42") == Complete([Item(Ok(UnsignedInteger(42)), Span(0, 2))])
  {
    assert DecimalValue("42") == 42 by {
      assert "42"[..1] == "4";
    }
    LexInteger("42");
  }

  /** `0` is outside the integer pattern `[1-9][0-9]*`: it lexes as a real. */
  lemma {:induction false} LexZero()
    ensures Lex("0") == Complete([Item(Ok(UnsignedReal("0")), Span(0, 1))])
  {
    assert "0"[..1] == "0" && "0"[1..1] == "";
    RealFromParts("0", 1, 1, 1);
    LexReal("0");
  }

  lemma {:induction false} LexFraction()
    ensures Lex("3.14") == Complete([Item(Ok(UnsignedReal("3.14")), Span(0, 4))])
  {
    var s := "3.14";
    assert IntegerPartLength(s) == 1 && FractionLength(s, 1) == 3 && ExponentLength(s, 4) == 0;
    RealLongestMatches(s);
    assert s[..RealLongest(s)] == s;
    LexReal(s);
  }

  lemma {:induction false} LexExponent()
    ensures Lex("1e10") == Complete([Item(Ok(UnsignedReal("1e10")), Span(0, 4))])
  {
    var s := "1e10";
    assert IntegerPartLength(s) == 1 && FractionLength(s, 1) == 0 && ExponentLength(s, 1) == 3;
    RealLongestMatches(s);
    assert s[..RealLongest(s)] == s;
    LexReal(s);
  }

  // ---------------------------------------------------------------------------
  // A letter between quotes

  /** Only the symbols of the quoted class may stand between quotes: in
      `'a'` each quote is an invalid token of its own. */
  const QuotedLetter: string := "'a'"
  const QuotedLetterSegments: seq<Segment> := [
    Segment(Span(0, 1), Emitted(Err(InvalidToken))),
    Segment(Span(1, 2), Emitted(Ok(Identifier("a")))),
    Segment(Span(2, 3), Emitted(Err(InvalidToken)))]

  lemma {:induction false} QuotedLetterSound()
    ensures Tiles(QuotedLetterSegments, 0, |QuotedLetter|)
    ensures forall i :: 0 <= i < |QuotedLetterSegments| ==> Sound(QuotedLetter, QuotedLetterSegments[i])
  {
    var s := QuotedLetter;
    assert s[0..3] == s && 'a' !in QuotedSymbols;
    StrayQuote(s, 0);
    forall k: Reserved
      ensures Spelling(k) != "a"
    {
      SpellingShape(k);
    }
    assert s[1..2] == "a";
    IdentifierSegment(s, 1, 2);
    StrayQuote(s, 2);
  }

  lemma {:induction false} QuotedLetterItems()
    ensures EmittedItems(QuotedLetterSegments) == [
      Item(Err(InvalidToken), Span(0, 1)), Item(Ok(Identifier("a")), Span(1, 2)), Item(Err(InvalidToken), Span(2, 3))]
  {
    var segs := QuotedLetterSegments;
    EmittedCons(segs[2], []);
    EmittedCons(segs[1], segs[2..]);
    EmittedCons(segs[0], segs[1..]);
    assert segs == [segs[0]] + segs[1..];
  }

  lemma {:induction false} LexQuotedLetter()
    ensures Lex(QuotedLetter) == Complete([
      Item(Err(InvalidToken), Span(0, 1)), Item(Ok(Identifier("a")), Span(1, 2)), Item(Err(InvalidToken), Span(2, 3))])
  {
    QuotedLetterSound();
    QuotedLetterItems();
    LexComplete(QuotedLetter, QuotedLetterSegments);
  }

  // ---------------------------------------------------------------------------
  // Inputs that panic

  /** The boolean rule's literal text reaches `bool` parsing, which fails. */
  lemma {:induction false} LexBooleanText()
    ensures Lex(BooleanText) == Aborted([], Span(0, 13), UnwrapParseBool)
  {
    var s := BooleanText;
    assert s[0..13] == s;
    BooleanPanic(s, 0);
    assert EmittedItems([]) == [];
    LexAborted(s, [], Span(0, 13), UnwrapParseBool);
  }

  /** A digit string that is all one integer lexeme above the `i64` range
      panics at once. */
  lemma {:induction false} LexOverflow(s: string)
    requires IsIntegerLexeme(s) && DecimalValue(s) > I64Max
    ensures Lex(s) == Aborted([], Span(0, |s|), UnwrapParseInt(ParseIntError(PosOverflow)))
  {
    IntegerIsReal(s);
    WholeRealLexeme(s);
    assert s[0..] == s && s[0..|s|] == s;
    OverflowPanic(s, 0, |s|);
    assert EmittedItems([]) == [];
    LexAborted(s, [], Span(0, |s|), UnwrapParseInt(ParseIntError(PosOverflow)));
  }
}
