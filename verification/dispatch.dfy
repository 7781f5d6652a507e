/** A hand-written lexer step that decides by the first character, and the
    proof that it makes the same choice as maximal munch over the rule
    table. */
module Dispatch {
  import opened Results
  import opened Chars
  import opened Tokens
  import opened Numbers
  import opened Rules
  import opened Scanner

  // ---------------------------------------------------------------------------
  // Choosing among the rules a character can start

  /** To establish the maximal-munch choice it is enough to look at the
      rules that can start with the first character. */
  lemma {:induction false} ChooseAmong(rest: string, n: nat, r: Rule)
    requires 0 < n <= |rest| && Matches(r, rest[..n])
    requires forall r' :: CanStart(r', rest[0]) ==> Longest(r', rest) <= n
    requires forall r' :: CanStart(r', rest[0]) && r' != r && Longest(r', rest) == n ==> Priority(r') < Priority(r)
    ensures BestMatch(rest) == Some(Match(r, n))
  {
    forall r', m | n < m <= |rest|
      ensures !Matches(r', rest[..m])
    {
      if Matches(r', rest[..m]) {
        assert rest[..m][0] == rest[0];
        FirstChar(r', rest[..m]);
      }
    }
    forall r' | r' != r && Matches(r', rest[..n])
      ensures Priority(r') < Priority(r)
    {
      FirstChar(r', rest[..n]);
      assert rest[..n][0] == rest[0];
    }
    BestMatchIs(rest, r, n);
  }

  /** No rule matches when none of those that can start with the first
      character matches anything. */
  lemma {:induction false} ChooseNone(rest: string)
    requires |rest| > 0
    requires forall r' :: CanStart(r', rest[0]) ==> Longest(r', rest) == 0
    ensures BestMatch(rest) == None
  {
    BestMatchSound(rest);
    var b := BestMatch(rest);
    if b.Some? {
      var r, n := b.value.rule, b.value.len;
      assert rest[..n][0] == rest[0];
      FirstChar(r, rest[..n]);
    }
  }

  // ---------------------------------------------------------------------------
  // The reference step

  /** The single-character operators other than `(` and `/`, which begin
      longer tokens too. */
  function SingleCharPunct(c: char): Option<Punct> {
    if c == ')' then Some(RParen)
    else if c == '=' then Some(Equal)
    else if c == ';' then Some(Semicolon)
    else if c == '+' then Some(OperatorAdd)
    else if c == '-' then Some(OperatorSub)
    else if c == '*' then Some(OperatorMul)
    else None
  }

  /** The element-wise operator `.c`, for `c` one of `+ - * /`. */
  function ElemOperator(c: char): Option<Punct> {
    if c == '+' then Some(OperatorElemAdd)
    else if c == '-' then Some(OperatorElemSub)
    else if c == '*' then Some(OperatorElemMul)
    else if c == '/' then Some(OperatorElemDiv)
    else None
  }

  /** What the lexer takes at the front of `rest`, decided the way a
      hand-written lexer would: by the first character, then by the longest
      run of the token class it begins. */
  function Select(rest: string): Option<Match> {
    if |rest| == 0 then None
    else
      var c := rest[0];
      if InClass(IdentStart, c) then
        var n := 1 + Run(IdentChar, rest[1..]);
        match KeywordNamed(rest[..n])
        case Some(k) => Some(Match(KeywordRule(k), n))
        case None => Some(Match(IdentifierRule, n))
      else if c == '\'' then
        if |rest| >= 3 && InClass(QuotedSymbol, rest[1]) && rest[2] == '\'' then Some(Match(IdentifierRule, 3))
        else None
      else if InClass(Digit, c) then
        var n := RealLongest(rest);
        if c != '0' && n == IntegerLongest(rest) then Some(Match(IntegerRule, n))
        else Some(Match(RealRule, n))
      else if InClass(Whitespace, c) then
        Some(Match(WhitespaceSkip, Run(Whitespace, rest)))
      else if c == '/' then
        if |rest| >= 2 && rest[1] == '/' then Some(Match(LineCommentSkip, LineCommentLongest(rest)))
        else if BlockCommentLongest(rest) > 0 then Some(Match(BlockCommentSkip, BlockCommentLongest(rest)))
        else Some(Match(PunctRule(OperatorDiv), 1))
      else if c == '(' then
        if |rest| >= |BooleanText| && rest[..|BooleanText|] == BooleanText then Some(Match(BooleanRule, |BooleanText|))
        else Some(Match(PunctRule(LParen), 1))
      else if c == ':' then
        if |rest| >= 2 && rest[1] == '=' then Some(Match(PunctRule(Assign), 2)) else None
      else if c == '.' then
        if |rest| >= 2 && ElemOperator(rest[1]).Some? then Some(Match(PunctRule(ElemOperator(rest[1]).value), 2))
        else None
      else
        match SingleCharPunct(c)
        case Some(p) => Some(Match(PunctRule(p), 1))
        case None => None
  }

  // ---------------------------------------------------------------------------
  // Agreement, case by case

  /** A keyword found at the front of an identifier-led input lies within
      the identifier run. */
  lemma {:induction false} KeywordWithinRun(rest: string, k: Reserved)
    requires |rest| > 0
    ensures var l := Longest(KeywordRule(k), rest);
      l <= 1 + Run(IdentChar, rest[1..]) && (l > 0 ==> rest[..l] == Spelling(k))
  {
    var l := Longest(KeywordRule(k), rest);
    if l > 0 {
      SpellingShape(k);
      assert rest[1..][..l - 1] == rest[..l][1..];
      RunMaximal(IdentChar, rest[1..], l - 1);
    }
  }

  /** Only keywords and identifiers begin with a letter or `_`. */
  lemma {:induction false} LetterStarts(c: char, r: Rule)
    requires InClass(IdentStart, c) && CanStart(r, c)
    ensures r.KeywordRule? || r == IdentifierRule
  {
    if r.PunctRule? {
      var w := PunctText(r.symbol);
    }
  }

  /** The bounds both letter cases rely on. */
  lemma {:induction false} LetterBounds(rest: string, n: nat)
    requires |rest| > 0 && InClass(IdentStart, rest[0]) && n == 1 + Run(IdentChar, rest[1..])
    ensures forall r' :: CanStart(r', rest[0]) ==> Longest(r', rest) <= n
    ensures forall k :: Longest(KeywordRule(k), rest) == n ==> Spelling(k) == rest[..n]
    ensures Longest(IdentifierRule, rest) == n
  {
    forall r' | CanStart(r', rest[0])
      ensures Longest(r', rest) <= n
    {
      LetterStarts(rest[0], r');
      if r'.KeywordRule? {
        KeywordWithinRun(rest, r'.word);
      }
    }
    forall k | Longest(KeywordRule(k), rest) == n
      ensures Spelling(k) == rest[..n]
    {
      KeywordWithinRun(rest, k);
    }
  }

  lemma {:induction false} LetterKeyword(rest: string, n: nat, k0: Reserved)
    requires |rest| > 0 && InClass(IdentStart, rest[0]) && n == 1 + Run(IdentChar, rest[1..])
    requires KeywordNamed(rest[..n]) == Some(k0)
    ensures BestMatch(rest) == Some(Match(KeywordRule(k0), n))
  {
    LetterBounds(rest, n);
    forall r' | CanStart(r', rest[0]) && r' != KeywordRule(k0) && Longest(r', rest) == n
      ensures Priority(r') < Priority(KeywordRule(k0))
    {
      LetterStarts(rest[0], r');
      if r'.KeywordRule? {
        SpellingInjective(r'.word, k0);
      }
    }
    ChooseAmong(rest, n, KeywordRule(k0));
  }

  lemma {:induction false} LetterIdentifier(rest: string, n: nat)
    requires |rest| > 0 && InClass(IdentStart, rest[0]) && n == 1 + Run(IdentChar, rest[1..])
    requires KeywordNamed(rest[..n]).None?
    ensures BestMatch(rest) == Some(Match(IdentifierRule, n))
  {
    LetterBounds(rest, n);
    KeywordNamedComplete(rest[..n]);
    forall r' | CanStart(r', rest[0]) && r' != IdentifierRule
      ensures Longest(r', rest) != n
    {
      LetterStarts(rest[0], r');
    }
    ChooseAmong(rest, n, IdentifierRule);
  }

  lemma {:induction false} QuoteCase(rest: string)
    requires |rest| > 0 && rest[0] == '\''
    ensures BestMatch(rest) == Select(rest)
  {
    forall r' | CanStart(r', rest[0])
      ensures r' == IdentifierRule
    {
      if r'.PunctRule? {
        var w := PunctText(r'.symbol);
      }
    }
    if |rest| >= 3 && InClass(QuotedSymbol, rest[1]) && rest[2] == '\'' {
      assert Longest(IdentifierRule, rest) == 3;
      ChooseAmong(rest, 3, IdentifierRule);
    } else {
      assert Longest(IdentifierRule, rest) == 0;
      ChooseNone(rest);
    }
  }

  /** Only the integer and real rules begin with a digit. */
  lemma {:induction false} DigitStarts(c: char, r: Rule)
    requires InClass(Digit, c) && CanStart(r, c)
    ensures r == IntegerRule || r == RealRule
  {
    if r.PunctRule? {
      var w := PunctText(r.symbol);
    }
  }

  /** The integer and real rules' longest matches on a digit-led input. */
  lemma {:induction false} DigitBounds(rest: string)
    requires |rest| > 0 && InClass(Digit, rest[0])
    ensures Longest(RealRule, rest) == RealLongest(rest) > 0
    ensures Longest(IntegerRule, rest) == IntegerLongest(rest) <= RealLongest(rest)
    ensures rest[0] == '0' ==> IntegerLongest(rest) == 0
  {
    assert IntegerPartLength(rest) > 0;
    if rest[0] != '0' {
      assert IntegerPartLength(rest) == IntegerLongest(rest);
    }
  }

  lemma {:induction false} DigitCase(rest: string)
    requires |rest| > 0 && InClass(Digit, rest[0])
    ensures BestMatch(rest) ==
      Some(Match(if rest[0] != '0' && RealLongest(rest) == IntegerLongest(rest) then IntegerRule else RealRule, RealLongest(rest)))
  {
    var n := RealLongest(rest);
    DigitBounds(rest);
    if rest[0] != '0' && n == IntegerLongest(rest) {
      IntegerChosen(rest, n);
    } else {
      RealChosen(rest, n);
    }
  }

  lemma {:induction false} IntegerChosen(rest: string, n: nat)
    requires |rest| > 0 && InClass(Digit, rest[0]) && n == RealLongest(rest) > 0
    requires Longest(RealRule, rest) == n && Longest(IntegerRule, rest) == n
    ensures BestMatch(rest) == Some(Match(IntegerRule, n))
  {
    forall r' | CanStart(r', rest[0])
      ensures Longest(r', rest) <= n
      ensures r' != IntegerRule ==> Priority(r') < Priority(IntegerRule)
    {
      DigitStarts(rest[0], r');
    }
    ChooseAmong(rest, n, IntegerRule);
  }

  lemma {:induction false} RealChosen(rest: string, n: nat)
    requires |rest| > 0 && InClass(Digit, rest[0]) && n == RealLongest(rest) > 0
    requires Longest(RealRule, rest) == n && Longest(IntegerRule, rest) < n
    ensures BestMatch(rest) == Some(Match(RealRule, n))
  {
    forall r' | CanStart(r', rest[0])
      ensures Longest(r', rest) <= n
      ensures r' != RealRule ==> Longest(r', rest) < n
    {
      DigitStarts(rest[0], r');
    }
    ChooseAmong(rest, n, RealRule);
  }

  lemma {:induction false} WhitespaceCase(rest: string)
    requires |rest| > 0 && InClass(Whitespace, rest[0])
    ensures BestMatch(rest) == Select(rest)
  {
    var n := Run(Whitespace, rest);
    forall r' | CanStart(r', rest[0])
      ensures r' == WhitespaceSkip
    {
      if r'.PunctRule? {
        var w := PunctText(r'.symbol);
      }
    }
    assert Longest(WhitespaceSkip, rest) == n > 0;
    ChooseAmong(rest, n, WhitespaceSkip);
  }

  /** The rules that begin with `/`. */
  lemma {:induction false} SlashStarts(r: Rule)
    requires CanStart(r, '/')
    ensures r == PunctRule(OperatorDiv) || r == LineCommentSkip || r == BlockCommentSkip
  {
  }

  lemma {:induction false} SlashCase(rest: string)
    requires |rest| > 0 && rest[0] == '/'
    ensures BestMatch(rest) == Select(rest)
  {
    assert Longest(PunctRule(OperatorDiv), rest) == 1;
    var line, block := Longest(LineCommentSkip, rest), Longest(BlockCommentSkip, rest);
    assert line == LineCommentLongest(rest) && block == BlockCommentLongest(rest);
    if |rest| >= 2 && rest[1] == '/' {
      assert block == 0 && line >= 2;
      forall r' | CanStart(r', rest[0])
        ensures Longest(r', rest) <= line
      {
        SlashStarts(r');
      }
      forall r' | CanStart(r', rest[0]) && r' != LineCommentSkip
        ensures Longest(r', rest) < line
      {
        SlashStarts(r');
      }
      ChooseAmong(rest, line, LineCommentSkip);
    } else if block > 0 {
      assert line == 0 && block >= 5;
      forall r' | CanStart(r', rest[0])
        ensures Longest(r', rest) <= block
      {
        SlashStarts(r');
      }
      forall r' | CanStart(r', rest[0]) && r' != BlockCommentSkip
        ensures Longest(r', rest) < block
      {
        SlashStarts(r');
      }
      ChooseAmong(rest, block, BlockCommentSkip);
    } else {
      assert line == 0;
      forall r' | CanStart(r', rest[0])
        ensures Longest(r', rest) <= 1
      {
        SlashStarts(r');
      }
      forall r' | CanStart(r', rest[0]) && r' != PunctRule(OperatorDiv)
        ensures Longest(r', rest) == 0
      {
        SlashStarts(r');
      }
      ChooseAmong(rest, 1, PunctRule(OperatorDiv));
    }
  }

  /** The rules that begin with `(`: the boolean rule's literal text and the
      left parenthesis. */
  lemma {:induction false} ParenCase(rest: string)
    requires |rest| > 0 && rest[0] == '('
    ensures BestMatch(rest) ==
      if |rest| >= |BooleanText| && rest[..|BooleanText|] == BooleanText then Some(Match(BooleanRule, |BooleanText|))
      else Some(Match(PunctRule(LParen), 1))
  {
    var b := Longest(BooleanRule, rest);
    assert Longest(PunctRule(LParen), rest) == 1;
    forall r' | CanStart(r', rest[0])
      ensures r' == BooleanRule || r' == PunctRule(LParen)
    {
    }
    if |rest| >= |BooleanText| && rest[..|BooleanText|] == BooleanText {
      assert b == |BooleanText|;
      ChooseAmong(rest, b, BooleanRule);
    } else {
      assert b == 0;
      ChooseAmong(rest, 1, PunctRule(LParen));
    }
  }

  lemma {:induction false} ColonCase(rest: string)
    requires |rest| > 0 && rest[0] == ':'
    ensures BestMatch(rest) == if |rest| >= 2 && rest[1] == '=' then Some(Match(PunctRule(Assign), 2)) else None
  {
    forall r' | CanStart(r', rest[0])
      ensures r' == PunctRule(Assign)
    {
    }
    if |rest| >= 2 && rest[1] == '=' {
      assert rest[..2] == ":=";
      assert Longest(PunctRule(Assign), rest) == 2;
      ChooseAmong(rest, 2, PunctRule(Assign));
    } else {
      assert Longest(PunctRule(Assign), rest) == 0;
      ChooseNone(rest);
    }
  }

  /** The rules that begin with `.`: the four element-wise operators. */
  lemma {:induction false} DotStarts(r: Rule)
    requires CanStart(r, '.')
    ensures r.PunctRule? && |PunctText(r.symbol)| == 2 && ElemOperator(PunctText(r.symbol)[1]) == Some(r.symbol)
  {
  }

  lemma {:induction false} DotCase(rest: string)
    requires |rest| > 0 && rest[0] == '.'
    ensures BestMatch(rest) ==
      if |rest| >= 2 && ElemOperator(rest[1]).Some? then Some(Match(PunctRule(ElemOperator(rest[1]).value), 2))
      else None
  {
    forall r' | CanStart(r', rest[0])
      ensures Longest(r', rest) > 0 <==> |rest| >= 2 && ElemOperator(rest[1]) == Some(r'.symbol)
      ensures Longest(r', rest) <= 2
    {
      DotStarts(r');
      var w := PunctText(r'.symbol);
      if |rest| >= 2 && rest[..2] == w {
        assert rest[1] == w[1];
      }
      if |rest| >= 2 && ElemOperator(rest[1]) == Some(r'.symbol) {
        assert rest[..2] == w;
      }
    }
    if |rest| >= 2 && ElemOperator(rest[1]).Some? {
      var p := ElemOperator(rest[1]).value;
      assert rest[..2] == PunctText(p);
      ChooseAmong(rest, 2, PunctRule(p));
    } else {
      ChooseNone(rest);
    }
  }

  lemma {:induction false} SingleCharCase(rest: string, p: Punct)
    requires |rest| > 0 && SingleCharPunct(rest[0]) == Some(p)
    ensures BestMatch(rest) == Some(Match(PunctRule(p), 1))
  {
    forall r' | CanStart(r', rest[0])
      ensures r' == PunctRule(p)
    {
    }
    assert rest[..1] == PunctText(p);
    ChooseAmong(rest, 1, PunctRule(p));
  }

  /** A character that begins no token. */
  predicate StartsNothing(c: char) {
    && !InClass(IdentStart, c) && c != '\'' && !InClass(Digit, c) && !InClass(Whitespace, c)
    && c != '/' && c != '(' && c != ':' && c != '.' && SingleCharPunct(c).None?
  }

  lemma {:induction false} OtherCase(rest: string)
    requires |rest| > 0 && StartsNothing(rest[0])
    ensures BestMatch(rest) == None
  {
    assert forall r' :: !CanStart(r', rest[0]);
    ChooseNone(rest);
  }

  /** Maximal munch over the whole rule table makes exactly the choice of
      the first-character reference step, on every input. */
  lemma {:induction false} SelectAgrees(rest: string)
    ensures BestMatch(rest) == Select(rest)
  {
    if |rest| > 0 {
      var c := rest[0];
      if InClass(IdentStart, c) {
        var n := 1 + Run(IdentChar, rest[1..]);
        match KeywordNamed(rest[..n])
        case Some(k) => LetterKeyword(rest, n, k);
        case None => LetterIdentifier(rest, n);
      } else if c == '\'' {
        QuoteCase(rest);
      } else if InClass(Digit, c) {
        DigitCase(rest);
      } else if InClass(Whitespace, c) {
        WhitespaceCase(rest);
      } else if c == '/' {
        SlashCase(rest);
      } else if c == '(' {
        ParenCase(rest);
      } else if c == ':' {
        ColonCase(rest);
      } else if c == '.' {
        DotCase(rest);
      } else if SingleCharPunct(c).Some? {
        SingleCharCase(rest, SingleCharPunct(c).value);
      } else {
        OtherCase(rest);
      }
    }
  }
}
