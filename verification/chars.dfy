/** The character classes the lexer's patterns are built from, and runs of them. */
module Chars {

  /** Character classes appearing in the token patterns.
      `Digit` is `\d` restricted to ASCII; `Whitespace` is `[ \t\n\f]`;
      `NotNewline` is the regex `.`; `QuotedSymbol` is the class allowed
      between the quotes of a quoted identifier. */
  datatype CharClass =
    | Digit
    | NonZeroDigit
    | IdentStart
    | IdentChar
    | Whitespace
    | NotNewline
    | QuotedSymbol

  const FormFeed: char := '\U{000C}'

  /** The set `[!#$%&()&*+,-./:;<>=?@\[\]^{}\|~ "]`; the range `,-.` in it
      denotes exactly the three characters `,`, `-` and `.`. */
  const QuotedSymbols: string := "!#$%&()*+,-./:;<>=?@[]^{}|~ \""

  predicate IsLetter(c: char) {
    'a' <= c <= 'z' || 'A' <= c <= 'Z'
  }

  predicate InClass(cls: CharClass, c: char) {
    match cls
    case Digit => '0' <= c <= '9'
    case NonZeroDigit => '1' <= c <= '9'
    case IdentStart => c == '_' || IsLetter(c)
    case IdentChar => c == '_' || IsLetter(c) || '0' <= c <= '9'
    case Whitespace => c == ' ' || c == '\t' || c == '\n' || c == FormFeed
    case NotNewline => c != '\n'
    case QuotedSymbol => c in QuotedSymbols
  }

  /** Every character of `w` is in the class. */
  predicate All(cls: CharClass, w: string) {
    forall i :: 0 <= i < |w| ==> InClass(cls, w[i])
  }

  /** Length of the longest prefix of `w` made of characters of the class. */
  function Run(cls: CharClass, w: string): (n: nat)
    ensures n <= |w|
    ensures All(cls, w[..n])
    ensures n < |w| ==> !InClass(cls, w[n])
    decreases |w|
  {
    if |w| == 0 || !InClass(cls, w[0]) then 0
    else
      var k := Run(cls, w[1..]);
      assert w[..1 + k] == [w[0]] + w[1..][..k];
      1 + k
  }

  /** No prefix longer than the run is made of characters of the class. */
  lemma {:induction false} RunMaximal(cls: CharClass, w: string, m: nat)
    requires m <= |w|
    ensures All(cls, w[..m]) ==> m <= Run(cls, w)
  {
  }

  /** A run is pinned down by where the class stops. */
  lemma {:induction false} RunExact(cls: CharClass, w: string, n: nat)
    requires n <= |w| && All(cls, w[..n]) && (n == |w| || !InClass(cls, w[n]))
    ensures Run(cls, w) == n
  {
    RunMaximal(cls, w, n);
  }
}
