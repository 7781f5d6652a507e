/** What the lexer does, step by step and on whole inputs. */
module Properties {
  import opened Results
  import opened Chars
  import opened Tokens
  import opened Numbers
  import opened Rules
  import opened Scanner
  import opened Dispatch

  // ---------------------------------------------------------------------------
  // One step of a pass

  /** Where rule `r` is chosen for the lexeme `s[a..b]` and its callback
      yields a token, the pass contributes one item for the lexeme and
      resumes right after it. */
  lemma {:induction false} StepEmit(s: string, a: nat, b: nat, r: Rule, t: Token)
    requires a < b <= |s| && Chosen(s[a..], b - a, r)
    requires Callback(r, s[a..b]) == Produce(t)
    ensures ScanFrom(s, a) == Cons(Segment(Span(a, b), Emitted(Ok(t))), ScanFrom(s, b))
  {
    ScanFromChosen(s, a, b, r);
  }

  /** A chosen skip rule consumes its lexeme and yields nothing. */
  lemma {:induction false} StepSkip(s: string, a: nat, b: nat, r: Rule)
    requires a < b <= |s| && Chosen(s[a..], b - a, r) && IsSkip(r)
    ensures ScanFrom(s, a) == Cons(Segment(Span(a, b), Skipped(r)), ScanFrom(s, b))
  {
    ChosenLexeme(s, a, b, r);
    CallbackOnMatch(r, s[a..b]);
    ScanFromChosen(s, a, b, r);
  }

  /** Where no rule matches, the error covers one character and scanning
      resumes at the next one. */
  lemma {:induction false} StepError(s: string, pos: nat)
    requires pos < |s| && NothingMatches(s[pos..])
    ensures ScanFrom(s, pos) == Cons(Segment(Span(pos, pos + 1), Emitted(Err(InvalidToken))), ScanFrom(s, pos + 1))
  {
    BestMatchNone(s[pos..]);
  }

  /** A panicking callback ends the pass at the start of its lexeme, with
      nothing after the items already produced. */
  lemma {:induction false} StepAbort(s: string, a: nat, b: nat, r: Rule, cause: Panic)
    requires a < b <= |s| && Chosen(s[a..], b - a, r)
    requires Callback(r, s[a..b]) == Abort(cause)
    ensures ScanFrom(s, a) == Scanned([], Panicked(Span(a, b), cause))
  {
    ScanFromChosen(s, a, b, r);
  }

  lemma {:induction false} StepEnd(s: string)
    ensures ScanFrom(s, |s|) == Scanned([], Finished)
  {
  }

  /** A token is what its rule's callback makes of a lexeme it carries. */
  lemma {:induction false} CallbackOfCarried(t: Token, w: string)
    requires Matches(RuleOf(t), w) && Carries(t, w)
    ensures Callback(RuleOf(t), w) == Produce(t)
  {
    if t.UnsignedInteger? {
      ParseUnsignedDigits(w);
    }
  }

  /** A panic the pass could report is the one the callback raises. */
  lemma {:induction false} PanicCallback(s: string, at: Span, cause: Panic)
    requires PanicSound(s, at, cause)
    ensures Callback(if cause.UnwrapParseInt? then IntegerRule else BooleanRule, s[at.start..at.end]) == Abort(cause)
  {
    if cause.UnwrapParseInt? {
      ParseUnsignedDigits(s[at.start..at.end]);
    }
  }

  /** A pass that reaches `pos` without any segment ends as soundly told. */
  lemma {:induction false} EndDetermined(s: string, pos: nat, ending: Ending)
    requires pos <= |s| && pos == Reached(Scanned([], ending), s)
    requires ending.Panicked? ==> PanicSound(s, ending.at, ending.cause)
    ensures ScanFrom(s, pos) == Scanned([], ending)
  {
    if ending.Finished? {
      StepEnd(s);
    } else {
      PanicCallback(s, ending.at, ending.cause);
      StepAbort(s, pos, ending.at.end, if ending.cause.UnwrapParseInt? then IntegerRule else BooleanRule, ending.cause);
    }
  }

  /** A sound segment is the step the pass takes where the segment starts. */
  lemma {:induction false} SegmentDetermined(s: string, seg: Segment, tail: Scanned)
    requires Sound(s, seg) && ScanFrom(s, seg.span.end) == tail
    ensures ScanFrom(s, seg.span.start) == Cons(seg, tail)
  {
    var a, b := seg.span.start, seg.span.end;
    match seg.kind
    case Skipped(r) =>
      StepSkip(s, a, b, r);
    case Emitted(Ok(t)) =>
      ChosenLexeme(s, a, b, RuleOf(t));
      CallbackOfCarried(t, s[a..b]);
      StepEmit(s, a, b, RuleOf(t), t);
    case Emitted(Err(_)) =>
      StepError(s, a);
  }

  /** The contract of a pass determines it: any tiling of the input from
      `pos` by sound segments, ended soundly, is the pass from `pos`. */
  lemma {:induction false} ScanDetermined(s: string, pos: nat, sc: Scanned)
    requires PassSound(s, pos, sc)
    ensures ScanFrom(s, pos) == sc
    decreases |sc.segments|
  {
    if |sc.segments| == 0 {
      EndDetermined(s, pos, sc.ending);
    } else {
      var tail := Scanned(sc.segments[1..], sc.ending);
      TilesOrdered(tail.segments, sc.segments[0].span.end, Reached(sc, s));
      ScanDetermined(s, sc.segments[0].span.end, tail);
      SegmentDetermined(s, sc.segments[0], tail);
      assert sc == Cons(sc.segments[0], tail);
    }
  }

  lemma {:induction false} AllSoundFromMembers(s: string, segs: seq<Segment>)
    requires forall i :: 0 <= i < |segs| ==> Sound(s, segs[i])
    ensures AllSound(s, segs)
    decreases |segs|
  {
    if |segs| > 0 {
      assert Sound(s, segs[0]);
      AllSoundFromMembers(s, segs[1..]);
    }
  }

  /** The items of a run of segments, one segment at a time. */
  lemma {:induction false} EmittedCons(seg: Segment, segs: seq<Segment>)
    ensures EmittedItems([seg] + segs) ==
      (if seg.kind.Emitted? then [Item(seg.kind.result, seg.span)] else []) + EmittedItems(segs)
  {
    assert ([seg] + segs)[1..] == segs;
  }

  /** The outcome of lexing is determined by its contract: a tiling of the
      whole input by sound segments yields exactly their items. */
  lemma {:induction false} LexComplete(s: string, segs: seq<Segment>)
    requires Tiles(segs, 0, |s|) && forall i :: 0 <= i < |segs| ==> Sound(s, segs[i])
    ensures Lex(s) == Complete(EmittedItems(segs))
  {
    AllSoundFromMembers(s, segs);
    ScanDetermined(s, 0, Scanned(segs, Finished));
    LexOfScan(s);
  }

  /** A tiling up to a sound panic yields the items before it and the panic. */
  lemma {:induction false} LexAborted(s: string, segs: seq<Segment>, at: Span, cause: Panic)
    requires Tiles(segs, 0, at.start) && forall i :: 0 <= i < |segs| ==> Sound(s, segs[i])
    requires PanicSound(s, at, cause)
    ensures Lex(s) == Aborted(EmittedItems(segs), at, cause)
  {
    AllSoundFromMembers(s, segs);
    ScanDetermined(s, 0, Scanned(segs, Panicked(at, cause)));
    LexOfScan(s);
  }

  /** The reference step's choice is the maximal-munch choice. */
  lemma {:induction false} SelectChosen(rest: string)
    ensures Select(rest).Some? ==> 0 < Select(rest).value.len <= |rest| && Chosen(rest, Select(rest).value.len, Select(rest).value.rule)
    ensures Select(rest).None? ==> NothingMatches(rest)
  {
    SelectAgrees(rest);
    BestMatchSound(rest);
  }

  /** The outcome of a pass is read off its segments and ending. */
  lemma {:induction false} LexOfScan(s: string)
    ensures Scan(s).ending.Finished? ==> Lex(s) == Complete(EmittedItems(Scan(s).segments))
    ensures Scan(s).ending.Panicked? ==> Lex(s) == Aborted(EmittedItems(Scan(s).segments), Scan(s).ending.at, Scan(s).ending.cause)
  {
  }

  /** An input that is one whole token is scanned as that one segment. */
  lemma {:induction false} SingleScan(w: string, r: Rule, t: Token)
    requires |w| > 0 && Chosen(w, |w|, r) && Callback(r, w) == Produce(t)
    ensures Scan(w) == Scanned([Segment(Span(0, |w|), Emitted(Ok(t)))], Finished)
  {
    BestMatchIs(w, r, |w|);
    assert w[0..] == w && w[0..0 + |w|] == w;
    ScanFromMatch(w, 0);
    StepEnd(w);
  }

  /** An input that is one whole token lexes to exactly that token. */
  lemma {:induction false} LexSingle(w: string, r: Rule, t: Token)
    requires |w| > 0 && Chosen(w, |w|, r) && Callback(r, w) == Produce(t)
    ensures Lex(w) == Complete([Item(Ok(t), Span(0, |w|))])
  {
    var seg := Segment(Span(0, |w|), Emitted(Ok(t)));
    SingleScan(w, r, t);
    LexOfScan(w);
    assert EmittedItems([seg]) == [Item(Ok(t), Span(0, |w|))] by {
      assert [seg][1..] == [];
    }
  }

  // ---------------------------------------------------------------------------
  // Properties of every pass

  /** The lexer never yields a `Boolean` token: the boolean rule's text is
      the literal `(true|false)?` and its callback panics on it. */
  lemma {:induction false} NoBooleanTokens(s: string)
    ensures forall i :: 0 <= i < |Lex(s).items| ==> !(Lex(s).items[i].result.Ok? && Lex(s).items[i].result.value.Boolean?)
  {
    var items := Lex(s).items;
    forall i | 0 <= i < |items|
      ensures !(items[i].result.Ok? && items[i].result.value.Boolean?)
    {
      assert ItemSound(s, items[i]);
    }
  }

  /** Every error is `InvalidToken` on a single character at which no rule
      matches: the integer-parse error never reaches the output. */
  lemma {:induction false} ErrorsAreInvalidToken(s: string)
    ensures forall i :: 0 <= i < |Lex(s).items| && Lex(s).items[i].result.Err? ==>
      var it := Lex(s).items[i];
      && it.result.error == InvalidToken
      && it.span.end == it.span.start + 1 <= |s|
      && Select(s[it.span.start..]).None?
  {
    var items := Lex(s).items;
    forall i | 0 <= i < |items| && items[i].result.Err?
      ensures items[i].result.error == InvalidToken && items[i].span.end == items[i].span.start + 1 <= |s|
      ensures Select(s[items[i].span.start..]).None?
    {
      var a := items[i].span.start;
      assert ItemSound(s, items[i]);
      BestMatchNone(s[a..]);
      SelectAgrees(s[a..]);
    }
  }

  // ---------------------------------------------------------------------------
  // Keywords and identifiers

  /** A word that is a bare identifier, followed by a character that cannot
      continue an identifier, is exactly the identifier run at the front. */
  lemma {:induction false} WordRun(rest: string, w: string)
    requires 0 < |w| <= |rest| && rest[..|w|] == w
    requires InClass(IdentStart, w[0]) && All(IdentChar, w)
    requires |w| == |rest| || !InClass(IdentChar, rest[|w|])
    ensures InClass(IdentStart, rest[0]) && 1 + Run(IdentChar, rest[1..]) == |w|
  {
    var n := |w|;
    assert rest[0] == w[0];
    assert rest[1..][..n - 1] == w[1..];
    RunExact(IdentChar, rest[1..], n - 1);
  }

  lemma {:induction false} SpellingRun(rest: string, k: Reserved)
    requires |Spelling(k)| <= |rest| && rest[..|Spelling(k)|] == Spelling(k)
    requires |Spelling(k)| == |rest| || !InClass(IdentChar, rest[|Spelling(k)|])
    ensures |rest| > 0 && InClass(IdentStart, rest[0]) && 1 + Run(IdentChar, rest[1..]) == |Spelling(k)|
  {
    SpellingShape(k);
    WordRun(rest, Spelling(k));
  }

  /** A keyword's spelling followed by a character that cannot continue an
      identifier is lexed as the keyword, never as an identifier. */
  lemma {:induction false} KeywordShadowing(rest: string, k: Reserved)
    requires |Spelling(k)| <= |rest| && rest[..|Spelling(k)|] == Spelling(k)
    requires |Spelling(k)| == |rest| || !InClass(IdentChar, rest[|Spelling(k)|])
    ensures BestMatch(rest) == Some(Match(KeywordRule(k), |Spelling(k)|))
  {
    var n := |Spelling(k)|;
    SpellingRun(rest, k);
    NamedSpelling(k);
    LetterKeyword(rest, n, k);
  }

  /** Every keyword, alone, lexes to its keyword token. */
  lemma {:induction false} LexKeyword(k: Reserved)
    ensures Lex(Spelling(k)) == Complete([Item(Ok(Keyword(k)), Span(0, |Spelling(k)|))])
  {
    var w := Spelling(k);
    SpellingShape(k);
    assert w[..|w|] == w;
    KeywordShadowing(w, k);
    BestMatchSound(w);
    assert Chosen(w, |w|, KeywordRule(k));
    assert Callback(KeywordRule(k), w) == Produce(Keyword(k));
    LexSingle(w, KeywordRule(k), Keyword(k));
  }

  /** A bare identifier that is not a keyword's spelling, followed by a
      character that cannot continue it, is lexed as one identifier. */
  lemma {:induction false} IdentifierMunch(rest: string, n: nat)
    requires 0 < n <= |rest| && IsBareIdentifier(rest[..n]) && !IsReserved(rest[..n])
    requires n == |rest| || !InClass(IdentChar, rest[n])
    ensures BestMatch(rest) == Some(Match(IdentifierRule, n))
  {
    assert rest[1..][..n - 1] == rest[..n][1..];
    RunExact(IdentChar, rest[1..], n - 1);
    KeywordNamedComplete(rest[..n]);
    LetterIdentifier(rest, n);
  }

  // ---------------------------------------------------------------------------
  // Operators and skipped text

  lemma {:induction false} CloseAt(w: string, i: nat)
    requires i + 1 < |w| && w[i] == '*' && w[i + 1] == '/'
    ensures CloseAfter(w, i) == i + 2
  {
  }

  /** `/*` followed directly by `*/` is not a comment: the body of a block
      comment must be non-empty, so the slash is a division operator. */
  lemma {:induction false} EmptyCommentIsDivision(rest: string)
    requires |rest| >= 4 && rest[..4] == "/**/"
    ensures Chosen(rest, 1, PunctRule(OperatorDiv))
  {
    assert rest[0] == '/' && rest[1] == '*' && rest[2] == '*' && rest[3] == '/';
    CloseAt(rest, 2);
    SelectChosen(rest);
  }
}
