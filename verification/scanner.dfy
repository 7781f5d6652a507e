/** The scanner: maximal munch over the rule table, and the lexer built on it. */
module Scanner {
  import opened Results
  import opened Chars
  import opened Tokens
  import opened Numbers
  import opened Rules

  /** A rule together with the length of the prefix it takes. */
  datatype Match = Match(rule: Rule, len: nat)

  /** Rule `r` is the maximal-munch choice for the first `n` characters of
      `rest`: it matches them, no rule matches a longer prefix, and every
      other rule matching the same prefix has a lower priority. */
  ghost predicate Chosen(rest: string, n: nat, r: Rule)
    requires 0 < n <= |rest|
  {
    && Matches(r, rest[..n])
    && (forall r', m :: n < m <= |rest| ==> !Matches(r', rest[..m]))
    && (forall r' :: r' != r && Matches(r', rest[..n]) ==> Priority(r') < Priority(r))
  }

  /** No rule matches any non-empty prefix of `rest`. */
  ghost predicate NothingMatches(rest: string) {
    forall r, m :: 0 < m <= |rest| ==> !Matches(r, rest[..m])
  }

  /** The best entry of `rules` at the front of `rest`: the longest match,
      and among equally long ones the one of highest priority. */
  function BestIn(rules: seq<Rule>, rest: string): Option<Match>
    decreases |rules|, |rest|
  {
    if |rules| == 0 then None
    else Prefer(rules[0], Longest(rules[0], rest), BestIn(rules[1..], rest))
  }

  /** What `BestIn` finds: an entry of `rules` with the longest match, of
      the highest priority among those as long; `None` when no entry
      matches at all. */
  lemma {:induction false} BestInSpec(rules: seq<Rule>, rest: string)
    ensures var m := BestIn(rules, rest);
      m.Some? ==> m.value.rule in rules && 0 < m.value.len == Longest(m.value.rule, rest)
    ensures var m := BestIn(rules, rest);
      m.Some? ==> forall r :: r in rules ==>
        Longest(r, rest) < m.value.len || (Longest(r, rest) == m.value.len && Priority(r) <= Priority(m.value.rule))
    ensures BestIn(rules, rest).None? ==> forall r :: r in rules ==> Longest(r, rest) == 0
    decreases |rules|
  {
    if |rules| > 0 {
      BestInSpec(rules[1..], rest);
      assert forall r :: r in rules ==> r == rules[0] || r in rules[1..];
    }
  }

  /** The better of a candidate of length `len` and the best so far. */
  function Prefer(r: Rule, len: nat, best: Option<Match>): Option<Match> {
    if len == 0 then best
    else if best.None? then Some(Match(r, len))
    else if len > best.value.len || (len == best.value.len && Priority(r) > Priority(best.value.rule)) then Some(Match(r, len))
    else best
  }

  /** Over a table listing every rule, the best entry is the maximal-munch
      choice. */
  lemma {:induction false} BestInComplete(rules: seq<Rule>, rest: string, m: Option<Match>)
    requires forall r :: r in rules
    requires m == BestIn(rules, rest)
    ensures m.Some? ==> 0 < m.value.len <= |rest| && Chosen(rest, m.value.len, m.value.rule)
    ensures m.None? ==> NothingMatches(rest)
  {
    BestInSpec(rules, rest);
    if m.Some? {
      NoLongerMatch(rules, rest, m.value);
      NoHigherPriority(rules, rest, m.value);
    } else {
      forall r, n | 0 < n <= |rest|
        ensures !Matches(r, rest[..n])
      {
        assert r in rules;
      }
    }
  }

  lemma {:induction false} NoLongerMatch(rules: seq<Rule>, rest: string, best: Match)
    requires forall r :: r in rules
    requires forall r :: r in rules ==> Longest(r, rest) <= best.len
    ensures forall r, n :: best.len < n <= |rest| ==> !Matches(r, rest[..n])
  {
    forall r, n | best.len < n <= |rest|
      ensures !Matches(r, rest[..n])
    {
      assert r in rules;
    }
  }

  lemma {:induction false} NoHigherPriority(rules: seq<Rule>, rest: string, best: Match)
    requires forall r :: r in rules
    requires 0 < best.len <= |rest| && Matches(best.rule, rest[..best.len])
    requires forall r :: r in rules ==>
      Longest(r, rest) < best.len || (Longest(r, rest) == best.len && Priority(r) <= Priority(best.rule))
    ensures forall r :: r != best.rule && Matches(r, rest[..best.len]) ==> Priority(r) < Priority(best.rule)
  {
    forall r | r != best.rule && Matches(r, rest[..best.len])
      ensures Priority(r) < Priority(best.rule)
    {
      assert r in rules;
      if Priority(r) == Priority(best.rule) {
        NoTies(r, best.rule, rest[..best.len]);
      }
    }
  }

  /** The scanner's step: the best rule of the whole table at the front of
      `rest`, with the length it takes. */
  function BestMatch(rest: string): (m: Option<Match>)
    ensures m.Some? ==> 0 < m.value.len <= |rest|
  {
    BestInSpec(AllRules(), rest);
    BestIn(AllRules(), rest)
  }

  /** Maximal munch: the chosen rule matches the chosen prefix, no rule
      matches a longer prefix, and every other rule matching the same prefix
      has a lower priority; `None` exactly when no rule matches any
      non-empty prefix. */
  lemma {:induction false} BestMatchSound(rest: string)
    ensures BestMatch(rest).Some? ==> Chosen(rest, BestMatch(rest).value.len, BestMatch(rest).value.rule)
    ensures BestMatch(rest).None? ==> NothingMatches(rest)
  {
    forall r: Rule
      ensures r in AllRules()
    {
      AllRulesListed(r);
    }
    BestInComplete(AllRules(), rest, BestIn(AllRules(), rest));
  }

  /** The maximal-munch choice is determined by the three conditions alone. */
  lemma {:induction false} BestMatchIs(rest: string, r: Rule, n: nat)
    requires 0 < n <= |rest| && Chosen(rest, n, r)
    ensures BestMatch(rest) == Some(Match(r, n))
  {
    BestMatchSound(rest);
    var m := BestMatch(rest);
    assert m.Some?;
    assert m.value.len == n;
  }

  /** Conversely, where no rule matches, no rule is selected. */
  lemma {:induction false} BestMatchNone(rest: string)
    requires NothingMatches(rest)
    ensures BestMatch(rest).None?
  {
    BestMatchSound(rest);
  }

  // ---------------------------------------------------------------------------
  // Segments of the input

  /** Half-open range `[start, end)` of input positions. */
  datatype Span = Span(start: nat, end: nat)

  datatype SegmentKind = Skipped(rule: Rule) | Emitted(result: Result<Token, LexicalError>)

  /** A stretch of input the scanner consumed in one step. */
  datatype Segment = Segment(span: Span, kind: SegmentKind)

  datatype Ending = Finished | Panicked(at: Span, cause: Panic)

  /** Everything one pass consumes: the segments in order, and whether the
      pass ran to the end of the input or panicked in a callback. */
  datatype Scanned = Scanned(segments: seq<Segment>, ending: Ending)

  /** What a segment says about the input it covers. */
  ghost predicate Sound(s: string, seg: Segment) {
    var a, b := seg.span.start, seg.span.end;
    && a < b <= |s|
    && match seg.kind
       case Skipped(r) => IsSkip(r) && Chosen(s[a..], b - a, r)
       case Emitted(Ok(t)) => Chosen(s[a..], b - a, RuleOf(t)) && Carries(t, s[a..b])
       case Emitted(Err(e)) => e == InvalidToken && b == a + 1 && NothingMatches(s[a..])
  }

  /** What a panic says about the input: the integer rule took a value above
      the `i64` range, or the boolean rule took its literal text. */
  ghost predicate PanicSound(s: string, at: Span, cause: Panic) {
    && at.start < at.end <= |s|
    && match cause
       case UnwrapParseInt(e) =>
         && Chosen(s[at.start..], at.end - at.start, IntegerRule)
         && e == ParseIntError(PosOverflow)
         && IsIntegerLexeme(s[at.start..at.end])
         && DecimalValue(s[at.start..at.end]) > I64Max
       case UnwrapParseBool =>
         Chosen(s[at.start..], at.end - at.start, BooleanRule) && s[at.start..at.end] == BooleanText
  }

  /** Every segment of `segs` is sound. */
  ghost predicate AllSound(s: string, segs: seq<Segment>)
    decreases |segs|
  {
    |segs| > 0 ==> Sound(s, segs[0]) && AllSound(s, segs[1..])
  }

  lemma {:induction false} AllSoundMembers(s: string, segs: seq<Segment>)
    requires AllSound(s, segs)
    ensures forall seg :: seg in segs ==> Sound(s, seg)
    decreases |segs|
  {
    if |segs| > 0 {
      AllSoundMembers(s, segs[1..]);
      forall seg | seg in segs
        ensures Sound(s, seg)
      {
        if seg != segs[0] {
          assert seg in segs[1..];
        }
      }
    }
  }

  /** The segments are non-empty and follow each other without gap or
      overlap from `from` to `to`. */
  predicate Tiles(segs: seq<Segment>, from: nat, to: nat)
    decreases |segs|
  {
    if |segs| == 0 then from == to
    else segs[0].span.start == from < segs[0].span.end && Tiles(segs[1..], segs[0].span.end, to)
  }

  /** How far a pass got: the whole input, or the start of the panicking lexeme. */
  function Reached(sc: Scanned, s: string): nat {
    match sc.ending
    case Finished => |s|
    case Panicked(at, _) => at.start
  }

  /** `seg` followed by the pass `tail`. */
  function Cons(seg: Segment, tail: Scanned): Scanned {
    Scanned([seg] + tail.segments, tail.ending)
  }

  /** One pass of the scanner from position `pos`: at each position take
      the maximal-munch rule, run its callback, and continue after the
      lexeme; where nothing matches, report `InvalidToken` for one
      character and continue after it. */
  function ScanFrom(s: string, pos: nat): Scanned
    requires pos <= |s|
    decreases |s| - pos, 1
  {
    if pos == |s| then Scanned([], Finished)
    else
      match BestMatch(s[pos..])
      case None => Cons(Segment(Span(pos, pos + 1), Emitted(Err(DefaultError))), ScanFrom(s, pos + 1))
      case Some(m) => Consume(s, pos, pos + m.len, m.rule)
  }

  /** The step after rule `r` was chosen for the lexeme `s[pos..end]`: its
      callback decides whether the lexeme is skipped, yields a token, or
      panics. */
  function Consume(s: string, pos: nat, end: nat, r: Rule): Scanned
    requires pos < end <= |s|
    decreases |s| - pos, 0
  {
    match Callback(r, s[pos..end])
    case Discard => Cons(Segment(Span(pos, end), Skipped(r)), ScanFrom(s, end))
    case Produce(t) => Cons(Segment(Span(pos, end), Emitted(Ok(t))), ScanFrom(s, end))
    case Abort(cause) => Scanned([], Panicked(Span(pos, end), cause))
  }

  /** Where rule `r` is chosen for the lexeme `s[a..b]`, the pass from `a`
      is the step that consumes that lexeme. */
  lemma {:induction false} ScanFromChosen(s: string, a: nat, b: nat, r: Rule)
    requires a < b <= |s| && Chosen(s[a..], b - a, r)
    ensures ScanFrom(s, a) == Consume(s, a, b, r)
  {
    BestMatchIs(s[a..], r, b - a);
    ScanFromBest(s, a, b, r);
  }

  /** The pass from `a` consumes the best match there. */
  lemma {:induction false} ScanFromBest(s: string, a: nat, b: nat, r: Rule)
    requires a < b <= |s| && BestMatch(s[a..]) == Some(Match(r, b - a))
    ensures ScanFrom(s, a) == Consume(s, a, b, r)
  {
  }

  /** The pass from `a` takes the best match there, if there is one ... */
  lemma {:induction false} ScanFromMatch(s: string, a: nat)
    requires a < |s| && BestMatch(s[a..]).Some?
    ensures ScanFrom(s, a) == Consume(s, a, a + BestMatch(s[a..]).value.len, BestMatch(s[a..]).value.rule)
  {
  }

  /** ... and otherwise reports the character at `a` and moves past it. */
  lemma {:induction false} ScanFromNoMatch(s: string, a: nat)
    requires a < |s| && BestMatch(s[a..]).None?
    ensures ScanFrom(s, a) == Cons(Segment(Span(a, a + 1), Emitted(Err(DefaultError))), ScanFrom(s, a + 1))
  {
  }

  /** What every pass from `pos` is: sound segments tiling the input from
      `pos` up to where the pass got, and a sound panic if it panicked. */
  ghost predicate PassSound(s: string, pos: nat, sc: Scanned) {
    && pos <= Reached(sc, s) <= |s|
    && Tiles(sc.segments, pos, Reached(sc, s))
    && AllSound(s, sc.segments)
    && (sc.ending.Panicked? ==> PanicSound(s, sc.ending.at, sc.ending.cause))
  }

  /** The lexeme a chosen rule takes is a match of that rule. */
  lemma {:induction false} ChosenLexeme(s: string, a: nat, b: nat, r: Rule)
    requires a < b <= |s| && Chosen(s[a..], b - a, r)
    ensures Matches(r, s[a..b])
  {
    assert s[a..][..b - a] == s[a..b];
  }

  lemma {:induction false} ErrorSound(s: string, pos: nat)
    requires pos < |s| && NothingMatches(s[pos..])
    ensures Sound(s, Segment(Span(pos, pos + 1), Emitted(Err(DefaultError))))
  {
  }

  lemma {:induction false} DiscardSound(s: string, a: nat, b: nat, r: Rule)
    requires a < b <= |s| && Chosen(s[a..], b - a, r)
    requires Callback(r, s[a..b]).Discard?
    ensures Sound(s, Segment(Span(a, b), Skipped(r)))
  {
    ChosenLexeme(s, a, b, r);
    CallbackOnMatch(r, s[a..b]);
  }

  lemma {:induction false} ProduceSound(s: string, a: nat, b: nat, r: Rule, t: Token)
    requires a < b <= |s| && Chosen(s[a..], b - a, r)
    requires Callback(r, s[a..b]) == Produce(t)
    ensures Sound(s, Segment(Span(a, b), Emitted(Ok(t))))
  {
    ChosenLexeme(s, a, b, r);
    CallbackOnMatch(r, s[a..b]);
    assert RuleOf(t) == r;
  }

  lemma {:induction false} AbortSound(s: string, a: nat, b: nat, r: Rule, cause: Panic)
    requires a < b <= |s| && Chosen(s[a..], b - a, r)
    requires Callback(r, s[a..b]) == Abort(cause)
    ensures PanicSound(s, Span(a, b), cause)
  {
    ChosenLexeme(s, a, b, r);
    CallbackOnMatch(r, s[a..b]);
  }

  /** A sound segment in front of a sound pass that starts where it ends. */
  lemma {:induction false} ConsSound(s: string, seg: Segment, tail: Scanned)
    requires Sound(s, seg) && PassSound(s, seg.span.end, tail)
    ensures PassSound(s, seg.span.start, Cons(seg, tail))
  {
    assert Cons(seg, tail).segments[1..] == tail.segments;
  }

  /** Every pass is sound. */
  lemma {:induction false} ScanFromSound(s: string, pos: nat)
    requires pos <= |s|
    ensures PassSound(s, pos, ScanFrom(s, pos))
    decreases |s| - pos, 1
  {
    if pos < |s| {
      match BestMatch(s[pos..])
      case None =>
        NoMatchSound(s, pos);
        ScanFromSound(s, pos + 1);
      case Some(m) =>
        ScanFromMatch(s, pos);
        assert (pos + m.len) - pos == m.len;
        ConsumeSound(s, pos, pos + m.len, m.rule);
    }
  }

  /** Where nothing matches, a sound pass from the next position extends
      to a sound pass from this one. */
  lemma {:induction false} NoMatchSound(s: string, pos: nat)
    requires pos < |s| && BestMatch(s[pos..]).None?
    ensures PassSound(s, pos + 1, ScanFrom(s, pos + 1)) ==> PassSound(s, pos, ScanFrom(s, pos))
  {
    if PassSound(s, pos + 1, ScanFrom(s, pos + 1)) {
      BestMatchSound(s[pos..]);
      ScanFromNoMatch(s, pos);
      ErrorSound(s, pos);
      ConsSound(s, Segment(Span(pos, pos + 1), Emitted(Err(DefaultError))), ScanFrom(s, pos + 1));
    }
  }

  lemma {:induction false} ConsumeSound(s: string, pos: nat, end: nat, r: Rule)
    requires pos < end <= |s| && BestMatch(s[pos..]) == Some(Match(r, end - pos))
    ensures PassSound(s, pos, Consume(s, pos, end, r))
    decreases |s| - pos, 0
  {
    BestMatchSound(s[pos..]);
    match Callback(r, s[pos..end])
    case Discard =>
      var seg := Segment(Span(pos, end), Skipped(r));
      assert Consume(s, pos, end, r) == Cons(seg, ScanFrom(s, end));
      DiscardSound(s, pos, end, r);
      ScanFromSound(s, end);
      ConsSound(s, seg, ScanFrom(s, end));
    case Produce(t) =>
      var seg := Segment(Span(pos, end), Emitted(Ok(t)));
      assert Consume(s, pos, end, r) == Cons(seg, ScanFrom(s, end));
      ProduceSound(s, pos, end, r, t);
      ScanFromSound(s, end);
      ConsSound(s, seg, ScanFrom(s, end));
    case Abort(cause) =>
      assert Consume(s, pos, end, r) == Scanned([], Panicked(Span(pos, end), cause));
      AbortSound(s, pos, end, r, cause);
  }

  function Scan(s: string): Scanned {
    ScanFrom(s, 0)
  }

  // ---------------------------------------------------------------------------
  // The lexer's output

  /** One element the token iterator yields: a token or an error, with its span. */
  datatype Item = Item(result: Result<Token, LexicalError>, span: Span)

  /** The items of a whole pass; `Aborted` when a callback panicked after
      the items before it had been yielded. */
  datatype LexOutcome =
    | Complete(items: seq<Item>)
    | Aborted(items: seq<Item>, at: Span, cause: Panic)

  ghost predicate ItemSound(s: string, it: Item) {
    Sound(s, Segment(it.span, Emitted(it.result)))
  }

  predicate SegmentsOrdered(segs: seq<Segment>) {
    forall i, j :: 0 <= i < j < |segs| ==> segs[i].span.end <= segs[j].span.start
  }

  predicate ItemsOrdered(items: seq<Item>) {
    forall i, j :: 0 <= i < j < |items| ==> items[i].span.end <= items[j].span.start
  }

  /** The emitted segments, in order, as items; skipped segments vanish. */
  function EmittedItems(segs: seq<Segment>): seq<Item>
    decreases |segs|
  {
    if |segs| == 0 then []
    else
      match segs[0].kind
      case Skipped(_) => EmittedItems(segs[1..])
      case Emitted(res) => [Item(res, segs[0].span)] + EmittedItems(segs[1..])
  }

  /** Exactly the emitted segments become items, and the items keep the
      segments' order. */
  lemma {:induction false} EmittedItemsSpec(segs: seq<Segment>)
    ensures forall it :: it in EmittedItems(segs) ==> Segment(it.span, Emitted(it.result)) in segs
    ensures forall seg :: seg in segs && seg.kind.Emitted? ==> Item(seg.kind.result, seg.span) in EmittedItems(segs)
    ensures SegmentsOrdered(segs) ==> ItemsOrdered(EmittedItems(segs))
    decreases |segs|
  {
    if |segs| > 0 {
      var tail := EmittedItems(segs[1..]);
      EmittedItemsSpec(segs[1..]);
      assert forall seg :: seg in segs[1..] ==> seg in segs;
      assert forall seg :: seg in segs ==> seg == segs[0] || seg in segs[1..];
      assert SegmentsOrdered(segs) ==> SegmentsOrdered(segs[1..]);
      if segs[0].kind.Emitted? {
        var items := EmittedItems(segs);
        assert items == [Item(segs[0].kind.result, segs[0].span)] + tail;
        if SegmentsOrdered(segs) {
          forall j | 0 < j < |items|
            ensures items[0].span.end <= items[j].span.start
          {
            assert items[j] in tail;
            var k :| 0 <= k < |segs[1..]| && segs[1..][k] == Segment(items[j].span, Emitted(items[j].result));
            assert segs[k + 1] == segs[1..][k];
          }
        }
      }
    }
  }

  lemma {:induction false} TilesOrdered(segs: seq<Segment>, from: nat, to: nat)
    requires Tiles(segs, from, to)
    ensures from <= to
    ensures SegmentsOrdered(segs)
    ensures forall i :: 0 <= i < |segs| ==> from <= segs[i].span.start < segs[i].span.end <= to
    decreases |segs|
  {
    if |segs| > 0 {
      TilesOrdered(segs[1..], segs[0].span.end, to);
      forall i, j | 0 <= i < j < |segs|
        ensures segs[i].span.end <= segs[j].span.start
      {
        assert segs[j] == segs[1..][j - 1];
        if i > 0 {
          assert segs[i] == segs[1..][i - 1];
        }
      }
      forall i | 0 <= i < |segs|
        ensures from <= segs[i].span.start < segs[i].span.end <= to
      {
        if i > 0 {
          assert segs[i] == segs[1..][i - 1];
        }
      }
    }
  }

  /** The lexer: the items one pass yields, in input order, each sound with
      respect to the input, and the panic, if any, after all of them. */
  function Lex(s: string): (out: LexOutcome)
    ensures forall i :: 0 <= i < |out.items| ==> ItemSound(s, out.items[i])
    ensures ItemsOrdered(out.items)
    ensures out.Aborted? ==> PanicSound(s, out.at, out.cause)
    ensures out.Aborted? ==> forall i :: 0 <= i < |out.items| ==> out.items[i].span.end <= out.at.start
  {
    var sc := Scan(s);
    ScanFromSound(s, 0);
    TilesOrdered(sc.segments, 0, Reached(sc, s));
    AllSoundMembers(s, sc.segments);
    var items := EmittedItems(sc.segments);
    EmittedItemsSpec(sc.segments);
    assert forall i :: 0 <= i < |items| ==> ItemSound(s, items[i]) && items[i].span.end <= Reached(sc, s) by {
      forall i | 0 <= i < |items|
        ensures ItemSound(s, items[i]) && items[i].span.end <= Reached(sc, s)
      {
        assert items[i] in items;
      }
    }
    match sc.ending
    case Finished => Complete(items)
    case Panicked(at, cause) => Aborted(items, at, cause)
  }

  /** Position `p` lies inside span `sp`. */
  predicate Covers(sp: Span, p: nat) {
    sp.start <= p < sp.end
  }

  lemma {:induction false} TilesCover(segs: seq<Segment>, from: nat, to: nat, p: nat)
    requires Tiles(segs, from, to) && from <= p < to
    ensures exists i :: 0 <= i < |segs| && Covers(segs[i].span, p)
    decreases |segs|
  {
    if p >= segs[0].span.end {
      TilesCover(segs[1..], segs[0].span.end, to, p);
      var i :| 0 <= i < |segs[1..]| && Covers(segs[1..][i].span, p);
      assert segs[i + 1] == segs[1..][i];
    } else {
      assert Covers(segs[0].span, p);
    }
  }

  /** Every position before the point a pass reached lies in exactly one
      segment: the input up to there is consumed without gap or overlap. */
  lemma {:induction false} Coverage(s: string, p: nat)
    requires p < Reached(Scan(s), s)
    ensures exists i :: 0 <= i < |Scan(s).segments| && Covers(Scan(s).segments[i].span, p)
    ensures forall i, j ::
      (0 <= i < |Scan(s).segments| && 0 <= j < |Scan(s).segments| &&
       Covers(Scan(s).segments[i].span, p) && Covers(Scan(s).segments[j].span, p)) ==> i == j
  {
    var sc := Scan(s);
    ScanFromSound(s, 0);
    TilesCover(sc.segments, 0, Reached(sc, s), p);
    TilesOrdered(sc.segments, 0, Reached(sc, s));
  }
}
