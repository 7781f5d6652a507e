/** The token and error types of the lexer: the reserved words, the
    punctuation and operator symbols, `Token` and `LexicalError`. */
module Tokens {
  import opened Results
  import opened Chars

  /** The reserved words, one variant per keyword rule. `true` and `false`
      have no variant: their keyword rules are commented out in the source. */
  datatype Reserved =
    | Algorithm
    | And
    | Annotation
    | Block
    | Break
    | Class
    | Connect
    | Connector
    | Constant
    | Constrainedby
    | Der
    | Discrete
    | Each
    | Else
    | Elseif
    | Elsewhen
    | Encapsulated
    | End
    | Enumeration
    | Equation
    | Expandable
    | Extends
    | External
    | Final
    | Flow
    | For
    | Function
    | If
    | Import
    | Impure
    | In
    | Initial
    | Inner
    | Input
    | Loop
    | Model
    | Not
    | Operator
    | Or
    | Outer
    | Output
    | Package
    | Parameter
    | Partial
    | Protected
    | Public
    | Pure
    | Record
    | Redeclare
    | Replaceable
    | Return
    | Stream
    | Then
    | Type
    | When
    | While
    | Within

  /** A lower-case ASCII letter. */
  type Letter = c: char | 'a' <= c <= 'z' witness 'a'

  /** The exact text each keyword rule matches: a lower-case word of 2 to
      13 letters. */
  function Spelling(k: Reserved): (w: seq<Letter>)
    ensures 2 <= |w| <= 13
  {
    match k
    case Algorithm => "algorithm"
    case And => "and"
    case Annotation => "annotation"
    case Block => "block"
    case Break => "break"
    case Class => "class"
    case Connect => "connect"
    case Connector => "connector"
    case Constant => "constant"
    case Constrainedby => "constrainedby"
    case Der => "der"
    case Discrete => "discrete"
    case Each => "each"
    case Else => "else"
    case Elseif => "elseif"
    case Elsewhen => "elsewhen"
    case Encapsulated => "encapsulated"
    case End => "end"
    case Enumeration => "enumeration"
    case Equation => "equation"
    case Expandable => "expandable"
    case Extends => "extends"
    case External => "external"
    case Final => "final"
    case Flow => "flow"
    case For => "for"
    case Function => "function"
    case If => "if"
    case Import => "import"
    case Impure => "impure"
    case In => "in"
    case Initial => "initial"
    case Inner => "inner"
    case Input => "input"
    case Loop => "loop"
    case Model => "model"
    case Not => "not"
    case Operator => "operator"
    case Or => "or"
    case Outer => "outer"
    case Output => "output"
    case Package => "package"
    case Parameter => "parameter"
    case Partial => "partial"
    case Protected => "protected"
    case Public => "public"
    case Pure => "pure"
    case Record => "record"
    case Redeclare => "redeclare"
    case Replaceable => "replaceable"
    case Return => "return"
    case Stream => "stream"
    case Then => "then"
    case Type => "type"
    case When => "when"
    case While => "while"
    case Within => "within"
  }

  /** Tells the keywords apart by their initial and length, and where those
      coincide by their second or last letter: a left inverse of `Spelling`. */
  function Recognise(w: string): Option<Reserved> {
    if |w| < 2 then None
    else
      var n, second, last := |w|, w[1], w[|w| - 1];
      match w[0]
      case 'a' =>
        (match n
         case 3 => Some(And)
         case 9 => Some(Algorithm)
         case 10 => Some(Annotation)
         case _ => None)
      case 'b' =>
        (match n
         case 5 => (match second case 'l' => Some(Block) case 'r' => Some(Break) case _ => None)
         case _ => None)
      case 'c' =>
        (match n
         case 5 => Some(Class)
         case 7 => Some(Connect)
         case 8 => Some(Constant)
         case 9 => Some(Connector)
         case 13 => Some(Constrainedby)
         case _ => None)
      case 'd' =>
        (match n
         case 3 => Some(Der)
         case 8 => Some(Discrete)
         case _ => None)
      case 'e' =>
        (match n
         case 3 => Some(End)
         case 4 => (match second case 'a' => Some(Each) case 'l' => Some(Else) case _ => None)
         case 6 => Some(Elseif)
         case 7 => Some(Extends)
         case 8 => (match second case 'l' => Some(Elsewhen) case 'q' => Some(Equation) case 'x' => Some(External) case _ => None)
         case 10 => Some(Expandable)
         case 11 => Some(Enumeration)
         case 12 => Some(Encapsulated)
         case _ => None)
      case 'f' =>
        (match n
         case 3 => Some(For)
         case 4 => Some(Flow)
         case 5 => Some(Final)
         case 8 => Some(Function)
         case _ => None)
      case 'i' =>
        (match n
         case 2 => (match second case 'f' => Some(If) case 'n' => Some(In) case _ => None)
         case 5 => (match last case 'r' => Some(Inner) case 't' => Some(Input) case _ => None)
         case 6 => (match last case 't' => Some(Import) case 'e' => Some(Impure) case _ => None)
         case 7 => Some(Initial)
         case _ => None)
      case 'l' =>
        (match n
         case 4 => Some(Loop)
         case _ => None)
      case 'm' =>
        (match n
         case 5 => Some(Model)
         case _ => None)
      case 'n' =>
        (match n
         case 3 => Some(Not)
         case _ => None)
      case 'o' =>
        (match n
         case 2 => Some(Or)
         case 5 => Some(Outer)
         case 6 => Some(Output)
         case 8 => Some(Operator)
         case _ => None)
      case 'p' =>
        (match n
         case 4 => Some(Pure)
         case 6 => Some(Public)
         case 7 => (match last case 'e' => Some(Package) case 'l' => Some(Partial) case _ => None)
         case 9 => (match second case 'a' => Some(Parameter) case 'r' => Some(Protected) case _ => None)
         case _ => None)
      case 'r' =>
        (match n
         case 6 => (match last case 'd' => Some(Record) case 'n' => Some(Return) case _ => None)
         case 9 => Some(Redeclare)
         case 11 => Some(Replaceable)
         case _ => None)
      case 's' =>
        (match n
         case 6 => Some(Stream)
         case _ => None)
      case 't' =>
        (match n
         case 4 => (match second case 'h' => Some(Then) case 'y' => Some(Type) case _ => None)
         case _ => None)
      case 'w' =>
        (match n
         case 4 => Some(When)
         case 5 => Some(While)
         case 6 => Some(Within)
         case _ => None)
      case _ => None
  }

  // `RecogniseSpelling` is proved a few keywords at a time: each group's
  // spellings are evaluated in a proof of its own.

  lemma {:induction false} RecogniseAlgorithmToClass(k: Reserved)
    requires
         k.Algorithm? || k.And? || k.Annotation? || k.Block?
      || k.Break? || k.Class?
    ensures Recognise(Spelling(k)) == Some(k)
  {
  }

  lemma {:induction false} RecogniseConnectToDiscrete(k: Reserved)
    requires
         k.Connect? || k.Connector? || k.Constant? || k.Constrainedby?
      || k.Der? || k.Discrete?
    ensures Recognise(Spelling(k)) == Some(k)
  {
  }

  lemma {:induction false} RecogniseEachToEnd(k: Reserved)
    requires
         k.Each? || k.Else? || k.Elseif? || k.Elsewhen?
      || k.Encapsulated? || k.End?
    ensures Recognise(Spelling(k)) == Some(k)
  {
  }

  lemma {:induction false} RecogniseEnumerationToFinal(k: Reserved)
    requires
         k.Enumeration? || k.Equation? || k.Expandable? || k.Extends?
      || k.External? || k.Final?
    ensures Recognise(Spelling(k)) == Some(k)
  {
  }

  lemma {:induction false} RecogniseFlowToImpure(k: Reserved)
    requires
         k.Flow? || k.For? || k.Function? || k.If?
      || k.Import? || k.Impure?
    ensures Recognise(Spelling(k)) == Some(k)
  {
  }

  lemma {:induction false} RecogniseInToModel(k: Reserved)
    requires
         k.In? || k.Initial? || k.Inner? || k.Input?
      || k.Loop? || k.Model?
    ensures Recognise(Spelling(k)) == Some(k)
  {
  }

  lemma {:induction false} RecogniseNotToPackage(k: Reserved)
    requires
         k.Not? || k.Operator? || k.Or? || k.Outer?
      || k.Output? || k.Package?
    ensures Recognise(Spelling(k)) == Some(k)
  {
  }

  lemma {:induction false} RecogniseParameterToRecord(k: Reserved)
    requires
         k.Parameter? || k.Partial? || k.Protected? || k.Public?
      || k.Pure? || k.Record?
    ensures Recognise(Spelling(k)) == Some(k)
  {
  }

  lemma {:induction false} RecogniseRedeclareToType(k: Reserved)
    requires
         k.Redeclare? || k.Replaceable? || k.Return? || k.Stream?
      || k.Then? || k.Type?
    ensures Recognise(Spelling(k)) == Some(k)
  {
  }

  lemma {:induction false} RecogniseWhenToWithin(k: Reserved)
    requires
         k.When? || k.While? || k.Within?
    ensures Recognise(Spelling(k)) == Some(k)
  {
  }
  /** `Recognise` undoes `Spelling`. */
  lemma {:induction false} RecogniseSpelling(k: Reserved)
    ensures Recognise(Spelling(k)) == Some(k)
  {
    if k.Algorithm? || k.And? || k.Annotation? || k.Block? || k.Break? || k.Class? {
      RecogniseAlgorithmToClass(k);
    } else if k.Connect? || k.Connector? || k.Constant? || k.Constrainedby? || k.Der? || k.Discrete? {
      RecogniseConnectToDiscrete(k);
    } else if k.Each? || k.Else? || k.Elseif? || k.Elsewhen? || k.Encapsulated? || k.End? {
      RecogniseEachToEnd(k);
    } else if k.Enumeration? || k.Equation? || k.Expandable? || k.Extends? || k.External? || k.Final? {
      RecogniseEnumerationToFinal(k);
    } else if k.Flow? || k.For? || k.Function? || k.If? || k.Import? || k.Impure? {
      RecogniseFlowToImpure(k);
    } else if k.In? || k.Initial? || k.Inner? || k.Input? || k.Loop? || k.Model? {
      RecogniseInToModel(k);
    } else if k.Not? || k.Operator? || k.Or? || k.Outer? || k.Output? || k.Package? {
      RecogniseNotToPackage(k);
    } else if k.Parameter? || k.Partial? || k.Protected? || k.Public? || k.Pure? || k.Record? {
      RecogniseParameterToRecord(k);
    } else if k.Redeclare? || k.Replaceable? || k.Return? || k.Stream? || k.Then? || k.Type? {
      RecogniseRedeclareToType(k);
    } else {
      RecogniseWhenToWithin(k);
    }
  }

  /** Distinct keyword variants have distinct spellings. */
  lemma {:induction false} SpellingInjective(k1: Reserved, k2: Reserved)
    requires Spelling(k1) == Spelling(k2)
    ensures k1 == k2
  {
    RecogniseSpelling(k1);
    RecogniseSpelling(k2);
  }

  /** Every spelling is also a bare identifier. */
  lemma {:induction false} SpellingShape(k: Reserved)
    ensures 2 <= |Spelling(k)| <= 13
    ensures InClass(IdentStart, Spelling(k)[0]) && All(IdentChar, Spelling(k))
  {
  }

  /** `w` is the exact spelling of some keyword. */
  ghost predicate IsReserved(w: string) {
    exists k :: Spelling(k) == w
  }

  /** The keyword spelled exactly `w`, if any. */
  function KeywordNamed(w: string): (r: Option<Reserved>)
    ensures r.Some? ==> Spelling(r.value) == w
  {
    match Recognise(w)
    case Some(k) => if Spelling(k) == w then Some(k) else None
    case None => None
  }

  /** The lookup finds each keyword from its spelling. */
  lemma {:induction false} NamedSpelling(k: Reserved)
    ensures KeywordNamed(Spelling(k)) == Some(k)
  {
    RecogniseSpelling(k);
  }

  /** The lookup fails exactly on the words that are not reserved. */
  lemma {:induction false} KeywordNamedComplete(w: string)
    ensures KeywordNamed(w).None? <==> !IsReserved(w)
  {
    if IsReserved(w) {
      var k :| Spelling(k) == w;
      NamedSpelling(k);
    }
  }

  /** The fixed-text punctuation and operator tokens. */
  datatype Punct =
    | LParen
    | RParen
    | Equal
    | Assign
    | Semicolon
    | OperatorAdd
    | OperatorSub
    | OperatorMul
    | OperatorDiv
    | OperatorElemAdd
    | OperatorElemSub
    | OperatorElemMul
    | OperatorElemDiv

  /** The exact text each punctuation or operator rule matches. */
  function PunctText(p: Punct): (w: string)
    ensures 1 <= |w| <= 2
    ensures !InClass(IdentChar, w[0]) && !InClass(Digit, w[0]) && !InClass(Whitespace, w[0]) && w[0] != '\''
  {
    match p
    case LParen => "("
    case RParen => ")"
    case Equal => "="
    case Assign => ":="
    case Semicolon => ";"
    case OperatorAdd => "+"
    case OperatorSub => "-"
    case OperatorMul => "*"
    case OperatorDiv => "/"
    case OperatorElemAdd => ".+"
    case OperatorElemSub => ".-"
    case OperatorElemMul => ".*"
    case OperatorElemDiv => "./"
  }

  lemma {:induction false} PunctTextInjective(p1: Punct, p2: Punct)
    requires PunctText(p1) == PunctText(p2)
    ensures p1 == p2
  {
  }

  /** A 64-bit signed integer, the payload type of `UnsignedInteger`. */
  newtype i64 = x: int | -0x8000_0000_0000_0000 <= x < 0x8000_0000_0000_0000

  const I64Max: int := 0x7FFF_FFFF_FFFF_FFFF
  const I64Min: int := -0x8000_0000_0000_0000

  /** The tokens. `UnsignedReal` carries its lexeme instead of the decoded
      64-bit float. */
  datatype Token =
    | Keyword(word: Reserved)
    | Identifier(name: string)
    | UnsignedInteger(value: i64)
    | UnsignedReal(lexeme: string)
    | Boolean(truth: bool)
    | Punctuation(symbol: Punct)

  /** The kinds of `std::num::ParseIntError` that parsing an `i64` can report. */
  datatype IntErrorKind = Empty | InvalidDigit | PosOverflow | NegOverflow

  datatype ParseIntError = ParseIntError(kind: IntErrorKind)

  /** The lexer's error type. */
  datatype LexicalError = InvalidInteger(cause: ParseIntError) | InvalidToken

  /** The `#[default]` variant, reported where no rule matches. */
  const DefaultError: LexicalError := InvalidToken

  /** `From<ParseIntError>`: every parse failure becomes an `InvalidInteger`
      that keeps the failure, never the default `InvalidToken`. */
  function FromParseIntError(e: ParseIntError): (r: LexicalError)
    ensures r != DefaultError
    ensures r.InvalidInteger? && r.cause == e
  {
    InvalidInteger(e)
  }
}
