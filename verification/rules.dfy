/** The rule table of the lexer: one recogniser, priority and callback per
    `#[token]`, `#[regex]` and `skip` rule of the token enum. */
module Rules {
  import opened Results
  import opened Chars
  import opened Tokens
  import opened Numbers

  /** One row of the rule table. */
  datatype Rule =
    | KeywordRule(word: Reserved)
    | IdentifierRule
    | IntegerRule
    | RealRule
    | BooleanRule
    | PunctRule(symbol: Punct)
    | WhitespaceSkip
    | LineCommentSkip
    | BlockCommentSkip

  /** The literal text of the `Boolean` token rule: the thirteen characters
      `(true|false)?`, not a pattern over `true` and `false`. */
  const BooleanText: string := "(true|false)?"

  /** The three rules whose matches are discarded. */
  predicate IsSkip(r: Rule) {
    r.WhitespaceSkip? || r.LineCommentSkip? || r.BlockCommentSkip?
  }

  // ---------------------------------------------------------------------------
  // Recognisers

  /** `[_a-zA-Z][_0-9a-zA-Z]*` */
  predicate IsBareIdentifier(w: string) {
    |w| > 0 && InClass(IdentStart, w[0]) && All(IdentChar, w)
  }

  /** `'` then one character of the quoted-symbol class, then `'`. */
  predicate IsQuotedIdentifier(w: string) {
    |w| == 3 && w[0] == '\'' && InClass(QuotedSymbol, w[1]) && w[2] == '\''
  }

  /** `//.*\n?`: two slashes, characters other than a newline, and at most
      one closing newline. */
  predicate IsLineComment(w: string) {
    && |w| >= 2 && w[0] == '/' && w[1] == '/'
    && (All(NotNewline, w[2..]) || (w[|w| - 1] == '\n' && All(NotNewline, w[2..|w| - 1])))
  }

  /** `([^*]|\*[^\/])*`: read in units, where a `*` always takes the
      character after it, and that character may not be `/`. */
  predicate IsCommentBody(b: string)
    decreases |b|
  {
    if |b| == 0 then true
    else if b[0] != '*' then IsCommentBody(b[1..])
    else |b| >= 2 && b[1] != '/' && IsCommentBody(b[2..])
  }

  /** `\/\*([^*]|\*[^\/])+\*\/`: the body between the delimiters is non-empty. */
  predicate IsBlockComment(w: string) {
    && |w| >= 5 && w[0] == '/' && w[1] == '*' && w[|w| - 2] == '*' && w[|w| - 1] == '/'
    && IsCommentBody(w[2..|w| - 2])
  }

  /** The word `w` is matched, in full, by rule `r`. */
  predicate Matches(r: Rule, w: string) {
    match r
    case KeywordRule(k) => w == Spelling(k)
    case IdentifierRule => IsBareIdentifier(w) || IsQuotedIdentifier(w)
    case IntegerRule => IsIntegerLexeme(w)
    case RealRule => IsRealLexeme(w)
    case BooleanRule => w == BooleanText
    case PunctRule(p) => w == PunctText(p)
    case WhitespaceSkip => |w| > 0 && All(Whitespace, w)
    case LineCommentSkip => IsLineComment(w)
    case BlockCommentSkip => IsBlockComment(w)
  }

  /** The priority that breaks ties between rules matching the same length:
      two per character for literal rules, one for a character class, three
      as declared for the integer rule. */
  function Priority(r: Rule): nat {
    match r
    case KeywordRule(k) => 2 * |Spelling(k)|
    case IdentifierRule => 1
    case IntegerRule => 3
    case RealRule => 1
    case BooleanRule => 2 * |BooleanText|
    case PunctRule(p) => 2 * |PunctText(p)|
    case WhitespaceSkip => 1
    case LineCommentSkip => 4
    case BlockCommentSkip => 9
  }

  // ---------------------------------------------------------------------------
  // Longest prefixes, rule by rule

  function LiteralLongest(text: string, rest: string): (n: nat)
    requires |text| > 0
    ensures n <= |rest|
    ensures n > 0 ==> rest[..n] == text
    ensures forall m :: n < m <= |rest| ==> rest[..m] != text
  {
    if |text| <= |rest| && rest[..|text|] == text then |text| else 0
  }

  function IdentifierLongest(rest: string): (n: nat)
    ensures n <= |rest|
  {
    if |rest| == 0 then 0
    else if InClass(IdentStart, rest[0]) then 1 + Run(IdentChar, rest[1..])
    else if |rest| >= 3 && IsQuotedIdentifier(rest[..3]) then 3
    else 0
  }

  lemma {:induction false} IdentifierLongestCorrect(rest: string)
    ensures IdentifierLongest(rest) > 0 ==> Matches(IdentifierRule, rest[..IdentifierLongest(rest)])
    ensures forall m :: IdentifierLongest(rest) < m <= |rest| ==> !Matches(IdentifierRule, rest[..m])
  {
    var n := IdentifierLongest(rest);
    if n > 0 && InClass(IdentStart, rest[0]) {
      assert rest[..n] == [rest[0]] + rest[1..][..n - 1];
    }
    forall m | n < m <= |rest|
      ensures !Matches(IdentifierRule, rest[..m])
    {
      assert rest[..m][1..] == rest[1..][..m - 1];
      RunMaximal(IdentChar, rest[1..], m - 1);
    }
  }

  function LineCommentLongest(rest: string): (n: nat)
    ensures n <= |rest|
  {
    if |rest| >= 2 && rest[0] == '/' && rest[1] == '/' then
      var k := Run(NotNewline, rest[2..]);
      if 2 + k < |rest| then 3 + k else 2 + k
    else 0
  }

  lemma {:induction false} LineCommentLongestCorrect(rest: string)
    ensures LineCommentLongest(rest) > 0 ==> IsLineComment(rest[..LineCommentLongest(rest)])
    ensures forall m :: LineCommentLongest(rest) < m <= |rest| ==> !IsLineComment(rest[..m])
  {
    var n := LineCommentLongest(rest);
    if n > 0 {
      var k := Run(NotNewline, rest[2..]);
      if 2 + k < |rest| {
        assert rest[..n][2..n - 1] == rest[2..][..k];
      } else {
        assert rest[..n][2..] == rest[2..][..k];
      }
    }
    forall m | n < m <= |rest|
      ensures !IsLineComment(rest[..m])
    {
      if m >= 3 && rest[0] == '/' && rest[1] == '/' {
        var w := rest[..m];
        assert w[2..] == rest[2..][..m - 2];
        assert w[2..m - 1] == rest[2..][..m - 3];
        RunMaximal(NotNewline, rest[2..], m - 2);
        RunMaximal(NotNewline, rest[2..], m - 3);
      }
    }
  }

  // Scanning a comment body from index `i`: the end of the first closing
  // star-slash met at a unit boundary, or 0 when the input ends first.
  function CloseAfter(w: string, i: nat): (e: nat)
    requires i <= |w|
    ensures e == 0 || i + 2 <= e <= |w|
    decreases |w| - i
  {
    if i + 1 < |w| && w[i] == '*' && w[i + 1] == '/' then i + 2
    else if i >= |w| then 0
    else if w[i] != '*' then CloseAfter(w, i + 1)
    else if i + 1 < |w| then CloseAfter(w, i + 2)
    else 0
  }

  lemma {:induction false} CloseAfterSound(w: string, i: nat)
    requires i <= |w| && CloseAfter(w, i) > 0
    ensures var e := CloseAfter(w, i); w[e - 2] == '*' && w[e - 1] == '/' && IsCommentBody(w[i..e - 2])
    decreases |w| - i
  {
    var e := CloseAfter(w, i);
    if i + 1 < |w| && w[i] == '*' && w[i + 1] == '/' {
    } else if w[i] != '*' {
      CloseAfterSound(w, i + 1);
      assert w[i..e - 2][1..] == w[i + 1..e - 2];
    } else {
      CloseAfterSound(w, i + 2);
      assert w[i..e - 2][2..] == w[i + 2..e - 2];
    }
  }

  lemma {:induction false} CloseAfterUnique(w: string, i: nat, e: nat)
    requires i + 2 <= e <= |w| && w[e - 2] == '*' && w[e - 1] == '/' && IsCommentBody(w[i..e - 2])
    ensures CloseAfter(w, i) == e
    decreases e - i
  {
    if i + 2 == e {
    } else {
      var b := w[i..e - 2];
      if w[i] != '*' {
        assert b[1..] == w[i + 1..e - 2];
        CloseAfterUnique(w, i + 1, e);
      } else {
        assert b[2..] == w[i + 2..e - 2];
        CloseAfterUnique(w, i + 2, e);
      }
    }
  }

  function BlockCommentLongest(rest: string): (n: nat)
    ensures n <= |rest|
  {
    if |rest| >= 2 && rest[0] == '/' && rest[1] == '*' then
      var e := CloseAfter(rest, 2);
      if e >= 5 then e else 0
    else 0
  }

  lemma {:induction false} BlockCommentLongestCorrect(rest: string)
    ensures BlockCommentLongest(rest) > 0 ==> IsBlockComment(rest[..BlockCommentLongest(rest)])
    ensures forall m :: BlockCommentLongest(rest) < m <= |rest| ==> !IsBlockComment(rest[..m])
  {
    var n := BlockCommentLongest(rest);
    if n > 0 {
      CloseAfterSound(rest, 2);
      assert rest[..n][2..n - 2] == rest[2..n - 2];
    }
    forall m | n < m <= |rest|
      ensures !IsBlockComment(rest[..m])
    {
      BlockCommentUnique(rest, m);
    }
  }

  /** A block comment at the front of `rest` is the one the scanner finds. */
  lemma {:induction false} BlockCommentUnique(rest: string, m: nat)
    requires m <= |rest|
    ensures IsBlockComment(rest[..m]) ==> BlockCommentLongest(rest) == m
  {
    if IsBlockComment(rest[..m]) {
      assert rest[..m][2..m - 2] == rest[2..m - 2];
      CloseAfterUnique(rest, 2, m);
    }
  }

  /** Length of the longest prefix of `rest` that rule `r` matches, 0 if none. */
  function Longest(r: Rule, rest: string): (n: nat)
    ensures n <= |rest|
    ensures n > 0 ==> Matches(r, rest[..n])
    ensures forall m :: n < m <= |rest| ==> !Matches(r, rest[..m])
  {
    match r
    case KeywordRule(k) =>
      SpellingShape(k);
      LiteralLongest(Spelling(k), rest)
    case IdentifierRule =>
      IdentifierLongestCorrect(rest);
      IdentifierLongest(rest)
    case IntegerRule =>
      IntegerLongestCorrect(rest);
      IntegerLongest(rest)
    case RealRule =>
      var n := RealLongest(rest);
      if n > 0 then RealLongestMatches(rest); assert forall m :: n < m <= |rest| ==> !IsRealLexeme(rest[..m]) by {
        forall m | n < m <= |rest| ensures !IsRealLexeme(rest[..m]) { RealLongestMaximal(rest, m); }
      } n
      else n
    case BooleanRule => LiteralLongest(BooleanText, rest)
    case PunctRule(p) => LiteralLongest(PunctText(p), rest)
    case WhitespaceSkip =>
      var n := Run(Whitespace, rest);
      assert forall m :: n < m <= |rest| ==> !All(Whitespace, rest[..m]) by {
        forall m | n < m <= |rest| ensures !All(Whitespace, rest[..m]) { RunMaximal(Whitespace, rest, m); }
      }
      n
    case LineCommentSkip =>
      LineCommentLongestCorrect(rest);
      LineCommentLongest(rest)
    case BlockCommentSkip =>
      BlockCommentLongestCorrect(rest);
      BlockCommentLongest(rest)
  }

  /** No rule matches the empty word. */
  lemma {:induction false} NeverEmpty(r: Rule)
    ensures !Matches(r, [])
  {
    if r.KeywordRule? {
      SpellingShape(r.word);
    }
  }

  // ---------------------------------------------------------------------------
  // The table

  /** The keywords in declaration order. */
  function KeywordAt(i: nat): Reserved
    requires i < 57
  {
    match i
    case 0 => Algorithm
    case 1 => And
    case 2 => Annotation
    case 3 => Block
    case 4 => Break
    case 5 => Class
    case 6 => Connect
    case 7 => Connector
    case 8 => Constant
    case 9 => Constrainedby
    case 10 => Der
    case 11 => Discrete
    case 12 => Each
    case 13 => Else
    case 14 => Elseif
    case 15 => Elsewhen
    case 16 => Encapsulated
    case 17 => End
    case 18 => Enumeration
    case 19 => Equation
    case 20 => Expandable
    case 21 => Extends
    case 22 => External
    case 23 => Final
    case 24 => Flow
    case 25 => For
    case 26 => Function
    case 27 => If
    case 28 => Import
    case 29 => Impure
    case 30 => In
    case 31 => Initial
    case 32 => Inner
    case 33 => Input
    case 34 => Loop
    case 35 => Model
    case 36 => Not
    case 37 => Operator
    case 38 => Or
    case 39 => Outer
    case 40 => Output
    case 41 => Package
    case 42 => Parameter
    case 43 => Partial
    case 44 => Protected
    case 45 => Public
    case 46 => Pure
    case 47 => Record
    case 48 => Redeclare
    case 49 => Replaceable
    case 50 => Return
    case 51 => Stream
    case 52 => Then
    case 53 => Type
    case 54 => When
    case 55 => While
    case _ => Within
  }

  function KeywordIndex(k: Reserved): (i: nat)
    ensures i < 57 && KeywordAt(i) == k
  {
    match k
    case Algorithm => 0
    case And => 1
    case Annotation => 2
    case Block => 3
    case Break => 4
    case Class => 5
    case Connect => 6
    case Connector => 7
    case Constant => 8
    case Constrainedby => 9
    case Der => 10
    case Discrete => 11
    case Each => 12
    case Else => 13
    case Elseif => 14
    case Elsewhen => 15
    case Encapsulated => 16
    case End => 17
    case Enumeration => 18
    case Equation => 19
    case Expandable => 20
    case Extends => 21
    case External => 22
    case Final => 23
    case Flow => 24
    case For => 25
    case Function => 26
    case If => 27
    case Import => 28
    case Impure => 29
    case In => 30
    case Initial => 31
    case Inner => 32
    case Input => 33
    case Loop => 34
    case Model => 35
    case Not => 36
    case Operator => 37
    case Or => 38
    case Outer => 39
    case Output => 40
    case Package => 41
    case Parameter => 42
    case Partial => 43
    case Protected => 44
    case Public => 45
    case Pure => 46
    case Record => 47
    case Redeclare => 48
    case Replaceable => 49
    case Return => 50
    case Stream => 51
    case Then => 52
    case Type => 53
    case When => 54
    case While => 55
    case Within => 56
  }

  /** The punctuation and operators in declaration order. */
  function PunctAt(i: nat): Punct
    requires i < 13
  {
    match i
    case 0 => LParen
    case 1 => RParen
    case 2 => Equal
    case 3 => Assign
    case 4 => Semicolon
    case 5 => OperatorAdd
    case 6 => OperatorSub
    case 7 => OperatorMul
    case 8 => OperatorDiv
    case 9 => OperatorElemAdd
    case 10 => OperatorElemSub
    case 11 => OperatorElemMul
    case _ => OperatorElemDiv
  }

  function PunctIndex(p: Punct): (i: nat)
    ensures i < 13 && PunctAt(i) == p
  {
    match p
    case LParen => 0
    case RParen => 1
    case Equal => 2
    case Assign => 3
    case Semicolon => 4
    case OperatorAdd => 5
    case OperatorSub => 6
    case OperatorMul => 7
    case OperatorDiv => 8
    case OperatorElemAdd => 9
    case OperatorElemSub => 10
    case OperatorElemMul => 11
    case OperatorElemDiv => 12
  }

  /** The rule table, in the order the rules are declared. */
  function AllRules(): seq<Rule> {
    seq(57, i requires 0 <= i < 57 => KeywordRule(KeywordAt(i)))
    + [IdentifierRule, IntegerRule, RealRule, BooleanRule]
    + seq(13, i requires 0 <= i < 13 => PunctRule(PunctAt(i)))
    + [WhitespaceSkip, LineCommentSkip, BlockCommentSkip]
  }

  /** The table lists every rule. */
  lemma {:induction false} AllRulesListed(r: Rule)
    ensures r in AllRules()
  {
    match r
    case KeywordRule(k) =>
      assert AllRules()[KeywordIndex(k)] == r;
    case PunctRule(p) =>
      assert AllRules()[61 + PunctIndex(p)] == r;
    case IdentifierRule => assert AllRules()[57] == r;
    case IntegerRule => assert AllRules()[58] == r;
    case RealRule => assert AllRules()[59] == r;
    case BooleanRule => assert AllRules()[60] == r;
    case WhitespaceSkip => assert AllRules()[74] == r;
    case LineCommentSkip => assert AllRules()[75] == r;
    case BlockCommentSkip => assert AllRules()[76] == r;
  }

  // ---------------------------------------------------------------------------
  // Shape facts

  /** The characters a match of rule `r` can begin with. */
  predicate CanStart(r: Rule, c: char) {
    match r
    case KeywordRule(k) => 'a' <= c <= 'z'
    case IdentifierRule => InClass(IdentStart, c) || c == '\''
    case IntegerRule => InClass(NonZeroDigit, c)
    case RealRule => InClass(Digit, c)
    case BooleanRule => c == '('
    case PunctRule(p) => c == PunctText(p)[0]
    case WhitespaceSkip => InClass(Whitespace, c)
    case LineCommentSkip => c == '/'
    case BlockCommentSkip => c == '/'
  }

  lemma {:induction false} FirstChar(r: Rule, w: string)
    requires Matches(r, w)
    ensures |w| > 0 && CanStart(r, w[0])
  {
    match r
    case KeywordRule(k) => SpellingShape(k);
    case RealRule =>
      var i, j :| 0 < i <= j <= |w| && IsIntegerPart(w[..i]) && IsFraction(w[i..j]) && IsExponent(w[j..]);
      assert w[..i][0] == w[0];
    case _ =>
  }

  /** A match that begins with a letter or `_` is a keyword or a bare
      identifier, and consists of identifier characters only. */
  lemma {:induction false} LetterLed(r: Rule, w: string)
    requires Matches(r, w) && |w| > 0 && InClass(IdentStart, w[0])
    ensures r.KeywordRule? || r == IdentifierRule
    ensures All(IdentChar, w)
  {
    FirstChar(r, w);
    if r.KeywordRule? {
      SpellingShape(r.word);
    }
  }

  /** Distinct rules that match the same word have distinct priorities, so
      longest match followed by priority always selects a single rule. */
  lemma {:induction false} NoTies(r1: Rule, r2: Rule, w: string)
    requires Matches(r1, w) && Matches(r2, w) && Priority(r1) == Priority(r2)
    ensures r1 == r2
  {
    FirstChar(r1, w);
    FirstChar(r2, w);
    if r1.KeywordRule? {
      SpellingShape(r1.word);
    }
    if r2.KeywordRule? {
      SpellingShape(r2.word);
    }
    if r1.KeywordRule? && r2.KeywordRule? {
      SpellingInjective(r1.word, r2.word);
    } else if r1.PunctRule? && r2.PunctRule? {
      PunctTextInjective(r1.symbol, r2.symbol);
    }
  }

  // ---------------------------------------------------------------------------
  // Callbacks

  /** Why the lexer panics: the callback `unwrap`s a failed parse. */
  datatype Panic = UnwrapParseInt(error: ParseIntError) | UnwrapParseBool

  /** What a rule's callback does with the matched text. */
  datatype Action = Produce(token: Token) | Discard | Abort(cause: Panic)

  function Callback(r: Rule, lexeme: string): Action {
    match r
    case KeywordRule(k) => Produce(Keyword(k))
    case IdentifierRule => Produce(Identifier(lexeme))
    case IntegerRule =>
      (match ParseI64(lexeme)
       case Ok(v) => Produce(UnsignedInteger(v))
       case Err(e) => Abort(UnwrapParseInt(e)))
    case RealRule => Produce(UnsignedReal(lexeme))
    case BooleanRule =>
      (match ParseBool(lexeme)
       case Some(b) => Produce(Boolean(b))
       case None => Abort(UnwrapParseBool))
    case PunctRule(p) => Produce(Punctuation(p))
    case WhitespaceSkip => Discard
    case LineCommentSkip => Discard
    case BlockCommentSkip => Discard
  }

  /** The rule a token comes from. */
  function RuleOf(t: Token): Rule {
    match t
    case Keyword(k) => KeywordRule(k)
    case Identifier(_) => IdentifierRule
    case UnsignedInteger(_) => IntegerRule
    case UnsignedReal(_) => RealRule
    case Boolean(_) => BooleanRule
    case Punctuation(p) => PunctRule(p)
  }

  /** The token's payload is what its lexeme denotes. */
  predicate Carries(t: Token, lexeme: string) {
    match t
    case Keyword(_) => true
    case Identifier(name) => name == lexeme
    case UnsignedInteger(v) => IsIntegerLexeme(lexeme) && v as int == DecimalValue(lexeme)
    case UnsignedReal(text) => text == lexeme
    case Boolean(_) => false
    case Punctuation(_) => true
  }

  /** What the callbacks do with a matched lexeme: skip rules discard it,
      the integer rule aborts exactly on values above the `i64` range, the
      boolean rule always aborts, and every other rule produces a token of
      its own kind carrying the lexeme's meaning. */
  lemma {:induction false} CallbackOnMatch(r: Rule, w: string)
    requires Matches(r, w)
    ensures Callback(r, w).Discard? <==> IsSkip(r)
    ensures Callback(r, w).Produce? ==> RuleOf(Callback(r, w).token) == r && Carries(Callback(r, w).token, w)
    ensures Callback(r, w).Abort? <==> r == BooleanRule || (r == IntegerRule && DecimalValue(w) > I64Max)
    ensures r == IntegerRule && Callback(r, w).Abort? ==> Callback(r, w).cause == UnwrapParseInt(ParseIntError(PosOverflow))
    ensures r == BooleanRule ==> Callback(r, w) == Abort(UnwrapParseBool)
  {
    if r == IntegerRule {
      ParseUnsignedDigits(w);
    }
  }
}
