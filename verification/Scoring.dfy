/** `score_decomp_text`: every gold expectation becomes one fact, and hits become the score. */
module Scoring {
  import opened Decimals
  import opened Prelude
  import opened Lexer
  import opened Pseudocode
  import opened Scorecard
  import opened Matching

  datatype GoldCallFact = GoldCallFact(aliases: seq<string>, arguments: Option<seq<string>>)

  datatype GoldFunction = GoldFunction(
    mustTokens: seq<string>,
    control: seq<string>,
    minParams: nat,
    calls: seq<string>,
    callFacts: seq<GoldCallFact>,
    callsComplete: bool,
    strings: seq<string>,
    stringsComplete: bool,
    quality: seq<string>)

  datatype Fact = Fact(kind: string, expected: string, hit: bool)

  datatype Unexpected = InvalidText | UnexpectedCall(call: CallSite) | UnexpectedString(text: string)

  datatype EngineScore = EngineScore(
    hits: nat,
    possible: nat,
    recall: real,
    precision: real,
    score: real,
    hitDetail: seq<(string, string)>,
    missDetail: seq<(string, string)>,
    unexpected: seq<Unexpected>,
    facts: seq<Fact>)

  // ---------------------------------------------------------------- expectations

  predicate IsTrimmed(c: char) { IsSpace(c) || c == '\U{0B}' }

  function TrimStart(s: string): string {
    if s != "" && IsTrimmed(s[0]) then TrimStart(s[1..]) else s
  }

  function TrimEnd(s: string): string {
    if s != "" && IsTrimmed(s[|s| - 1]) then TrimEnd(s[..|s| - 1]) else s
  }

  function Trim(s: string): string { TrimEnd(TrimStart(s)) }

  function SplitBar(s: string): seq<string>
    decreases |s|
  {
    var at := Find(s, '|');
    if at < 0 then [s] else [s[..at]] + SplitBar(s[at + 1..])
  }

  /** Trimmed, optionally lower-cased, without empty names. */
  function Names(parts: seq<string>, lower: bool): seq<string> {
    if parts == [] then []
    else
      var name := if lower then Lower(Trim(parts[0])) else Trim(parts[0]);
      (if name == "" then [] else [name]) + Names(parts[1..], lower)
  }

  function LegacyFacts(calls: seq<string>): seq<GoldCallFact> {
    seq(|calls|, i requires 0 <= i < |calls| => GoldCallFact(Names(SplitBar(calls[i]), false), None))
  }

  /** Structured call facts replace the legacy list as soon as there is one. */
  function ExpectedCalls(gold: GoldFunction): seq<GoldCallFact> {
    if gold.callFacts != [] then gold.callFacts else LegacyFacts(gold.calls)
  }

  function Aliases(facts: seq<GoldCallFact>): (r: seq<seq<string>>)
    ensures |r| == |facts|
  {
    seq(|facts|, i requires 0 <= i < |facts| => Names(facts[i].aliases, true))
  }

  function TargetsOf(calls: seq<CallSite>): (r: seq<string>)
    ensures |r| == |calls|
  {
    seq(|calls|, i requires 0 <= i < |calls| => calls[i].target)
  }

  function Label(aliases: seq<string>): string {
    if aliases == [] then "<missing-alias>" else Concat(aliases, "|")
  }

  // ---------------------------------------------------------------- observations

  predicate SameToken(actual: Token, wanted: Token) {
    actual.kind == wanted.kind && NormalizedToken(actual) == NormalizedToken(wanted)
  }

  predicate WindowAt(body: seq<Token>, wanted: seq<Token>, at: nat)
    requires at + |wanted| <= |body|
  {
    forall k :: 0 <= k < |wanted| ==> SameToken(body[at + k], wanted[k])
  }

  predicate TokenSequencePresent(body: seq<Token>, expected: string) {
    var wanted := Lex(expected);
    wanted != [] && exists at | 0 <= at <= |body| - |wanted| :: WindowAt(body, wanted, at)
  }

  predicate AnyToken(body: seq<Token>, words: seq<string>) {
    exists t, w | t in body && w in words :: TokenIs(t, w)
  }

  predicate ControlPresent(body: seq<Token>, expected: string) {
    var word := Lower(expected);
    if word in ["if", "else", "switch", "for", "break", "continue", "return"] then AnyToken(body, [word])
    else if word == "loop" then AnyToken(body, ["while", "for", "do", "loop"])
    else TokenSequencePresent(body, word)
  }

  function LiteralsOf(body: seq<Token>): seq<string> {
    if body == [] then []
    else
      var value := if body[0].kind.StringLiteral? then DecodeStringLiteral(body[0].text) else None;
      (if value.Some? then [value.value] else []) + LiteralsOf(body[1..])
  }

  predicate OnlyVarargs(segment: seq<Token>) {
    forall t :: t in segment ==> TokenIs(t, "...")
  }

  /** Formals among the parameter tokens from `index`, the current one having started at `start`. */
  function CountParams(params: seq<Token>, start: nat, index: nat, nested: nat): nat
    requires start <= index <= |params|
    decreases |params| - index
  {
    var one := if index > start && !OnlyVarargs(params[start..index]) then 1 else 0;
    if index == |params| then one
    else
      var t := params[index];
      if nested == 0 && TokenIs(t, ",") then one + CountParams(params, index + 1, index + 1, nested)
      else if TokenIs(t, "(") || TokenIs(t, "[") then CountParams(params, start, index + 1, nested + 1)
      else if TokenIs(t, ")") || TokenIs(t, "]") then
        CountParams(params, start, index + 1, if nested > 0 then nested - 1 else 0)
      else CountParams(params, start, index + 1, nested)
  }

  function FormalParams(header: seq<Token>): nat {
    var range := LastRange(header);
    if range.None? then 0
    else
      var params := header[range.value.0 + 1..range.value.1];
      if params == [] || (|params| == 1 && TokenIs(params[0], "void")) then 0 else CountParams(params, 0, 0, 0)
  }

  // ---------------------------------------------------------------- one fact per expectation

  function TokenFacts(body: seq<Token>, tokens: seq<string>): seq<Fact> {
    seq(|tokens|, i requires 0 <= i < |tokens| => Fact("token", tokens[i], TokenSequencePresent(body, tokens[i])))
  }

  function ControlFacts(body: seq<Token>, words: seq<string>): seq<Fact> {
    seq(|words|, i requires 0 <= i < |words| => Fact("control", words[i], ControlPresent(body, words[i])))
  }

  function NormalizedArguments(arguments: seq<string>): seq<string> {
    seq(|arguments|, i requires 0 <= i < |arguments| => NormalizedText(Lex(arguments[i])))
  }

  /** The call fact and, when arguments are expected, the argument fact of one expectation. */
  function FactsOfCall(call: GoldCallFact, calls: seq<CallSite>, found: Option<nat>): seq<Fact>
    requires found.Some? ==> found.value < |calls|
  {
    var name := Label(Names(call.aliases, true));
    [Fact("call", name, found.Some?)] +
    (if call.arguments.None? then []
     else
       var expected := NormalizedArguments(call.arguments.value);
       [Fact("call_args", name + "(" + Concat(expected, ", ") + ")",
             found.Some? && calls[found.value].arguments == expected)])
  }

  ghost function CallFacts(expected: seq<GoldCallFact>, calls: seq<CallSite>, matches: seq<Option<nat>>): seq<Fact>
    requires |matches| == |expected|
    requires forall m :: m in matches && m.Some? ==> m.value < |calls|
  {
    if expected == [] then []
    else CallFacts(expected[..|expected| - 1], calls, matches[..|matches| - 1])
         + FactsOfCall(expected[|expected| - 1], calls, matches[|matches| - 1])
  }

  function StringFacts(literals: seq<string>, strings: seq<string>): seq<Fact> {
    seq(|strings|, i requires 0 <= i < |strings| => Fact("string", strings[i], strings[i] in literals))
  }

  function ParamFacts(header: seq<Token>, minParams: nat): seq<Fact> {
    if minParams == 0 then [] else [Fact("params", ">=" + Decimal(minParams), FormalParams(header) >= minParams)]
  }

  function QualityFacts(body: seq<Token>, quality: seq<string>, gate: (seq<Token>, string) -> bool): seq<Fact> {
    seq(|quality|, i requires 0 <= i < |quality| => Fact("quality", quality[i], gate(body, quality[i])))
  }

  /** Direct calls that no expectation consumed, in body order. */
  function UnexpectedCalls(calls: seq<CallSite>, consumed: seq<bool>, n: nat): seq<Unexpected>
    requires n <= |calls| == |consumed|
  {
    if n == 0 then []
    else UnexpectedCalls(calls, consumed, n - 1) + (if consumed[n - 1] then [] else [UnexpectedCall(calls[n - 1])])
  }

  function UnexpectedStrings(literals: seq<string>, strings: seq<string>): seq<Unexpected> {
    if literals == [] then []
    else (if literals[0] in strings then [] else [UnexpectedString(literals[0])]) + UnexpectedStrings(literals[1..], strings)
  }

  // ---------------------------------------------------------------- the ledger

  function Hits(facts: seq<Fact>): seq<(string, string)> {
    if facts == [] then []
    else
      var last := facts[|facts| - 1];
      Hits(facts[..|facts| - 1]) + (if last.hit then [(last.kind, last.expected)] else [])
  }

  function Misses(facts: seq<Fact>): seq<(string, string)> {
    if facts == [] then []
    else
      var last := facts[|facts| - 1];
      Misses(facts[..|facts| - 1]) + (if last.hit then [] else [(last.kind, last.expected)])
  }

  /** The counters and detail lists that `record_fact` maintains. */
  class Ledger {
    var hits: nat
    var possible: nat
    var hitDetail: seq<(string, string)>
    var missDetail: seq<(string, string)>
    var facts: seq<Fact>

    /** Conservation: each recorded fact is counted once, and listed as a hit or as a miss. */
    ghost predicate Valid()
      reads this
    {
      && hits == |hitDetail| && possible == |facts| == |hitDetail| + |missDetail|
      && hitDetail == Hits(facts) && missDetail == Misses(facts)
    }

    constructor ()
      ensures Valid() && facts == []
    {
      hits, possible := 0, 0;
      hitDetail, missDetail, facts := [], [], [];
    }

    method RecordFact(fact: Fact)
      requires Valid()
      modifies this
      ensures Valid() && facts == old(facts) + [fact]
    {
      possible := possible + 1;
      if fact.hit {
        hits := hits + 1;
        hitDetail := hitDetail + [(fact.kind, fact.expected)];
      } else {
        missDetail := missDetail + [(fact.kind, fact.expected)];
      }
      facts := facts + [fact];
      assert facts[..|facts| - 1] == old(facts);
    }

    method RecordAll(more: seq<Fact>)
      requires Valid()
      modifies this
      ensures Valid() && facts == old(facts) + more
    {
      var n := 0;
      while n < |more|
        invariant n <= |more| && Valid() && facts == old(facts) + more[..n]
      {
        RecordFact(more[n]);
        assert more[..n + 1] == more[..n] + [more[n]];
        n := n + 1;
      }
      assert more[..n] == more;
    }
  }

  // ---------------------------------------------------------------- scoring

  /** Positions marked consumed. */
  ghost function Marked(consumed: seq<bool>): set<nat> {
    set k | k in Positions(|consumed|) && consumed[k]
  }

  lemma {:induction false} GreedyAppend(
    facts: seq<seq<string>>, aliases: seq<string>, targets: seq<string>, consumed: set<nat>)
    ensures
      var before := Greedy(facts, targets, consumed);
      Greedy(facts + [aliases], targets, consumed) ==
        before + [FirstMatch(aliases, targets, consumed + Used(before), 0)]
    decreases |facts|
  {
    var all := facts + [aliases];
    if facts == [] {
      assert all[1..] == [];
      assert consumed + Used([]) == consumed;
    } else {
      var found := FirstMatch(facts[0], targets, consumed, 0);
      var next := if found.Some? then consumed + {found.value} else consumed;
      var rest := Greedy(facts[1..], targets, next);
      GreedyAppend(facts[1..], aliases, targets, next);
      assert all[1..] == facts[1..] + [aliases];
      UsedCons(found, rest);
      assert next + Used(rest) == consumed + Used([found] + rest);
    }
  }

  lemma UsedCons(m: Option<nat>, rest: seq<Option<nat>>)
    ensures Used([m] + rest) == Used(rest) + (if m.Some? then {m.value} else {})
    ensures Used(rest + [m]) == Used(rest) + (if m.Some? then {m.value} else {})
  {
  }

  /** The search `find_map` makes for one expectation among the calls not yet consumed. */
  method FindCall(aliases: seq<string>, calls: seq<CallSite>, consumed: seq<bool>) returns (found: Option<nat>)
    requires |consumed| == |calls|
    ensures found == FirstMatch(aliases, TargetsOf(calls), Marked(consumed), 0)
    ensures found.Some? ==> found.value < |calls|
  {
    var k := 0;
    while k < |calls|
      invariant k <= |calls|
      invariant FirstMatch(aliases, TargetsOf(calls), Marked(consumed), 0) ==
        FirstMatch(aliases, TargetsOf(calls), Marked(consumed), k)
    {
      if !consumed[k] && calls[k].target in aliases {
        return Some(k);
      }
      k := k + 1;
    }
    found := None;
  }

  /** The state of the call loop after `expected`: what is matched, what is marked, what is recorded. */
  ghost predicate Scored(
    expected: seq<GoldCallFact>, calls: seq<CallSite>, matches: seq<Option<nat>>, consumed: seq<bool>, facts: seq<Fact>)
  {
    && matches == Greedy(Aliases(expected), TargetsOf(calls), {})
    && |consumed| == |calls| && Marked(consumed) == Used(matches)
    && (forall m :: m in matches && m.Some? ==> m.value < |calls|)
    && facts == CallFacts(expected, calls, matches)
  }

  lemma MarkedUpdate(consumed: seq<bool>, k: nat)
    requires k < |consumed|
    ensures Marked(consumed[k := true]) == Marked(consumed) + {k}
  {
  }

  lemma ScoredStep(
    expected: seq<GoldCallFact>, call: GoldCallFact, calls: seq<CallSite>, matches: seq<Option<nat>>,
    consumed: seq<bool>, facts: seq<Fact>, found: Option<nat>)
    requires Scored(expected, calls, matches, consumed, facts)
    requires found == FirstMatch(Names(call.aliases, true), TargetsOf(calls), Marked(consumed), 0)
    ensures Scored(
      expected + [call], calls, matches + [found],
      if found.Some? then consumed[found.value := true] else consumed, facts + FactsOfCall(call, calls, found))
  {
    hide FirstMatch, Names, FactsOfCall, Marked, Used;
    GreedyAppend(Aliases(expected), Names(call.aliases, true), TargetsOf(calls), {});
    assert Aliases(expected + [call]) == Aliases(expected) + [Names(call.aliases, true)];
    assert {} + Used(matches) == Marked(consumed);
    UsedCons(found, matches);
    if found.Some? {
      MarkedUpdate(consumed, found.value);
    }
    assert (expected + [call])[..|expected|] == expected && (matches + [found])[..|matches|] == matches;
  }

  lemma NothingScored(calls: seq<CallSite>, consumed: seq<bool>)
    requires |consumed| == |calls| && forall k :: 0 <= k < |consumed| ==> !consumed[k]
    ensures Scored([], calls, [], consumed, [])
  {
    assert Aliases([]) == [];
    assert Marked(consumed) == {} == Used([]);
  }

  /** The call loop of `score_decomp_text`: each expectation takes the first fitting unused call. */
  method ScoreCalls(ledger: Ledger, expected: seq<GoldCallFact>, calls: seq<CallSite>)
    returns (consumed: seq<bool>, ghost matches: seq<Option<nat>>, ghost recorded: seq<Fact>)
    requires ledger.Valid()
    modifies ledger
    ensures ledger.Valid() && ledger.facts == old(ledger.facts) + recorded
    ensures Scored(expected, calls, matches, consumed, recorded)
  {
    hide Scored, FirstMatch, FactsOfCall, Ledger.Valid;
    consumed, matches, recorded := seq(|calls|, _ => false), [], [];
    NothingScored(calls, consumed);
    var n := 0;
    while n < |expected|
      invariant n <= |expected| && ledger.Valid() && ledger.facts == old(ledger.facts) + recorded
      invariant Scored(expected[..n], calls, matches, consumed, recorded)
    {
      ScoredShape(expected[..n], calls, matches, consumed, recorded);
      var found := FindCall(Names(expected[n].aliases, true), calls, consumed);
      ScoredStep(expected[..n], expected[n], calls, matches, consumed, recorded, found);
      ledger.RecordAll(FactsOfCall(expected[n], calls, found));
      recorded := recorded + FactsOfCall(expected[n], calls, found);
      matches := matches + [found];
      if found.Some? {
        consumed := consumed[found.value := true];
      }
      assert expected[..n + 1] == expected[..n] + [expected[n]];
      n := n + 1;
    }
    assert expected[..n] == expected;
  }

  lemma ScoredShape(
    expected: seq<GoldCallFact>, calls: seq<CallSite>, matches: seq<Option<nat>>, consumed: seq<bool>, facts: seq<Fact>)
    requires Scored(expected, calls, matches, consumed, facts)
    ensures |consumed| == |calls|
  {
  }

  function Recall(hits: nat, possible: nat): real {
    if possible == 0 then 0.0 else hits as real / possible as real
  }

  function Precision(hits: nat, unexpected: nat): real {
    if hits == 0 then 0.0 else hits as real / (hits + unexpected) as real
  }

  lemma RatioRange(a: nat, b: nat)
    requires a <= b && b > 0
    ensures 0.0 <= a as real / b as real <= 1.0
    ensures a as real / b as real == 1.0 <==> a == b
  {
    var q := a as real / b as real;
    assert q * b as real == a as real;
  }

  lemma ProductRange(x: real, y: real)
    requires 0.0 <= x <= 1.0 && 0.0 <= y <= 1.0
    ensures 0.0 <= x * y <= 1.0
    ensures x * y == 1.0 <==> x == 1.0 && y == 1.0
  {
    assert x * y <= x * 1.0;
    assert x * y <= 1.0 * y;
  }

  /** The score stays in the unit interval and is 1 exactly for a complete answer without extras. */
  lemma ScoreRange(hits: nat, possible: nat, unexpected: nat)
    requires hits <= possible
    ensures var score := Recall(hits, possible) * Precision(hits, unexpected);
      && 0.0 <= score <= 1.0
      && (score == 1.0 <==> possible > 0 && hits == possible && unexpected == 0)
  {
    if possible > 0 {
      RatioRange(hits, possible);
    }
    if hits > 0 {
      RatioRange(hits, hits + unexpected);
    }
    ProductRange(Recall(hits, possible), Precision(hits, unexpected));
  }

  /** The facts of a text, in the order in which they are recorded. */
  ghost function AllFacts(
    text: string, gold: GoldFunction, matches: seq<Option<nat>>, gate: (seq<Token>, string) -> bool): seq<Fact>
    requires |matches| == |ExpectedCalls(gold)|
    requires forall m :: m in matches && m.Some? ==> m.value < |DirectCalls(ParsedOrEmpty(text).body)|
  {
    var parsed := ParsedOrEmpty(text);
    TokenFacts(parsed.body, gold.mustTokens)
    + ControlFacts(parsed.body, gold.control)
    + CallFacts(ExpectedCalls(gold), DirectCalls(parsed.body), matches)
    + StringFacts(LiteralsOf(parsed.body), gold.strings)
    + ParamFacts(parsed.header, gold.minParams)
    + QualityFacts(parsed.body, gold.quality, gate)
  }

  function ParsedOrEmpty(text: string): ParsedFunction {
    var parsed := ParseTokens(Lex(text));
    if parsed.Some? then parsed.value else ParsedFunction([], [])
  }

  function CallsOf(text: string): seq<CallSite> {
    DirectCalls(ParsedOrEmpty(text).body)
  }

  /** The extras that lower precision. */
  ghost function AllUnexpected(text: string, gold: GoldFunction, consumed: seq<bool>): seq<Unexpected>
    requires |consumed| == |CallsOf(text)|
  {
    (if ParseTokens(Lex(text)).None? then [InvalidText] else [])
    + (if gold.callsComplete then UnexpectedCalls(CallsOf(text), consumed, |consumed|) else [])
    + (if gold.stringsComplete then UnexpectedStrings(LiteralsOf(ParsedOrEmpty(text).body), gold.strings) else [])
  }

  /**
   * `score_decomp_text`. Every expectation is one fact, every fact is a hit or a miss, calls are
   * matched greedily without reuse, and the score is recall times precision.
   */
  method ScoreDecompText(text: string, gold: GoldFunction, gate: (seq<Token>, string) -> bool)
    returns (r: EngineScore, ghost matches: seq<Option<nat>>, consumed: seq<bool>)
    ensures matches == Greedy(Aliases(ExpectedCalls(gold)), TargetsOf(CallsOf(text)), {})
    ensures |consumed| == |CallsOf(text)| && Marked(consumed) == Used(matches)
    ensures forall m :: m in matches && m.Some? ==> m.value < |CallsOf(text)|
    ensures r.facts == AllFacts(text, gold, matches, gate)
    ensures r.unexpected == AllUnexpected(text, gold, consumed)
    ensures r.hitDetail == Hits(r.facts) && r.missDetail == Misses(r.facts)
    ensures r.hits == |r.hitDetail| && r.possible == |r.facts| == r.hits + |r.missDetail|
    ensures r.recall == Recall(r.hits, r.possible) && r.precision == Precision(r.hits, |r.unexpected|)
    ensures r.score == r.recall * r.precision
    ensures 0.0 <= r.score <= 1.0
    ensures r.score == 1.0 <==> r.possible > 0 && r.hits == r.possible && r.unexpected == []
  {
    hide Greedy, Hits, Misses, DirectCalls, ParseTokens, LiteralsOf, Aliases, CallFacts, TokenFacts, ControlFacts,
      StringFacts, ParamFacts, QualityFacts, UnexpectedCalls, UnexpectedStrings, Recall, Precision, Marked, Used,
      ExpectedCalls, Lex;
    var ledger := new Ledger();
    var tokens := LexCode(text);
    var parsed := ParsedOrEmpty(text);
    var unexpected := if ParseTokens(tokens).None? then [InvalidText] else [];
    ledger.RecordAll(TokenFacts(parsed.body, gold.mustTokens));
    assert ledger.facts == TokenFacts(parsed.body, gold.mustTokens);
    ledger.RecordAll(ControlFacts(parsed.body, gold.control));
    var calls := ExtractDirectCalls(parsed.body);
    ghost var recorded;
    consumed, matches, recorded := ScoreCalls(ledger, ExpectedCalls(gold), calls);
    if gold.callsComplete {
      unexpected := unexpected + UnexpectedCalls(calls, consumed, |consumed|);
    }
    var literals := LiteralsOf(parsed.body);
    ledger.RecordAll(StringFacts(literals, gold.strings));
    if gold.stringsComplete {
      unexpected := unexpected + UnexpectedStrings(literals, gold.strings);
    }
    ledger.RecordAll(ParamFacts(parsed.header, gold.minParams));
    ledger.RecordAll(QualityFacts(parsed.body, gold.quality, gate));
    var recall, precision := Recall(ledger.hits, ledger.possible), Precision(ledger.hits, |unexpected|);
    ScoreRange(ledger.hits, ledger.possible, |unexpected|);
    r := EngineScore(ledger.hits, ledger.possible, recall, precision, recall * precision,
                     ledger.hitDetail, ledger.missDetail, unexpected, ledger.facts);
  }

  lemma {:induction false} UnexpectedCallsCount(calls: seq<CallSite>, consumed: seq<bool>, n: nat)
    requires n <= |calls| == |consumed|
    ensures |UnexpectedCalls(calls, consumed, n)| == |Positions(n) - Marked(consumed)|
  {
    hide Marked, Positions;
    PositionsStep(n);
    if n > 0 {
      UnexpectedCallsCount(calls, consumed, n - 1);
      var below, marked := Positions(n - 1), Marked(consumed);
      PositionsStep(n);
      MarkedIff(consumed, n - 1);
      SplitDifference(below, n - 1, marked);
    }
  }

  lemma PositionsStep(n: nat)
    ensures n == 0 ==> Positions(n) == {}
    ensures n > 0 ==> Positions(n) == Positions(n - 1) + {n - 1}
  {
  }

  lemma MarkedIff(consumed: seq<bool>, k: nat)
    requires k < |consumed|
    ensures k in Marked(consumed) <==> consumed[k]
  {
  }

  lemma SplitDifference(below: set<nat>, k: nat, marked: set<nat>)
    requires k !in below
    ensures |(below + {k}) - marked| == |below - marked| + (if k in marked then 0 else 1)
  {
    if k in marked {
      assert (below + {k}) - marked == below - marked;
    } else {
      assert (below + {k}) - marked == (below - marked) + {k};
    }
  }

  /** With complete gold calls, every direct call is matched exactly once or reported unexpected. */
  lemma CallsConserved(aliases: seq<seq<string>>, calls: seq<CallSite>, consumed: seq<bool>)
    requires |consumed| == |calls| && Marked(consumed) == Used(Greedy(aliases, TargetsOf(calls), {}))
    ensures Count(Greedy(aliases, TargetsOf(calls), {})) + |UnexpectedCalls(calls, consumed, |calls|)| == |calls|
  {
    var matches := Greedy(aliases, TargetsOf(calls), {});
    GreedyIsMatching(aliases, TargetsOf(calls), {});
    MatchedOrLeft(aliases, TargetsOf(calls), matches);
    UnexpectedCallsCount(calls, consumed, |calls|);
  }
}
