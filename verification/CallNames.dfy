/** The names direct calls can have, and greedy matching on the calls of a text. */
module CallNames {
  import opened Prelude
  import opened Lexer
  import opened Grammar
  import opened Pseudocode
  import opened Scorecard
  import opened Matching
  import opened Scoring

  /** A lower-case identifier. */
  predicate CallName(name: string) {
    name != "" && IsIdentStart(name[0]) && AllFrom(name, 1, IsIdentContinue) && Lower(name) == name
  }

  /** The targets of the direct calls in a text. */
  function CallsOf(text: string): seq<string> {
    TargetsOf(DirectCalls(Lex(text)))
  }

  // ---------------------------------------------------------------- nothing but names

  lemma LowerIsName(t: Token)
    requires t.kind.Identifier? && Shaped(t)
    ensures CallName(Lower(t.text))
  {
    var name := Lower(t.text);
    assert forall k :: 0 <= k < |name| ==> name[k] == LowerChar(t.text[k]);
  }

  lemma {:induction false} SitesAreNames(body: seq<Token>, index: nat)
    requires index <= |body| && forall t :: t in body ==> Shaped(t)
    ensures forall site :: site in Sites(CallsFrom(body, index)) ==> CallName(site.target)
    decreases |body| - index
  {
    hide Shaped, CallName, Pseudocode.Matching, Lower, TokenIs, Split;
    if index < |body| {
      var found := CallAt(body, index);
      if found.None? {
        SitesAreNames(body, index + 1);
      } else {
        var rest := CallsFrom(body, found.value.to);
        SitesAreNames(body, found.value.to);
        assert ([found.value] + rest)[1..] == rest;
        if found.value.site.Some? {
          var target := found.value.site.value.target;
          assert exists k :: 0 <= k < |body| && body[k].kind.Identifier? && target == Lower(body[k].text) by {
            if target == Lower(body[index].text) {
            } else {
              assert target == Lower(body[index + 2].text);
            }
          }
          var k :| 0 <= k < |body| && body[k].kind.Identifier? && target == Lower(body[k].text);
          LowerIsName(body[k]);
        }
      }
    }
  }

  /** Every call of a text, or of any part of one, has a lower-case identifier for its target. */
  lemma TargetsAreNames(body: seq<Token>)
    requires forall t :: t in body ==> Shaped(t)
    ensures forall target :: target in TargetsOf(DirectCalls(body)) ==> CallName(target)
  {
    SitesAreNames(body, 0);
    var calls := DirectCalls(body);
    forall target | target in TargetsOf(calls) ensures CallName(target) {
      var k :| 0 <= k < |calls| && calls[k].target == target;
      assert calls[k] in calls;
    }
  }

  // ---------------------------------------------------------------- every list of names

  /** A direct call written as `call(name)`. */
  function OneCall(target: string): seq<Token> {
    [Token(Identifier, "call"), Token(Punct, "("), Token(Identifier, target), Token(Punct, ")")]
  }

  function Calling(targets: seq<string>): seq<Token> {
    if targets == [] then [] else OneCall(targets[0]) + Calling(targets[1..])
  }

  lemma Punctuation(name: string)
    requires CallName(name)
    ensures Lower("call") == "call" && Lower("(") == "(" && Lower(")") == ")" && Lower("call") != "("
    ensures Lower(name) == name && name != "(" && name != ")"
  {
    assert Lower("call")[0] == 'c' && Lower("call")[1] == 'a' && Lower("call")[2] == 'l' && Lower("call")[3] == 'l';
    assert Lower("(")[0] == '(' && Lower(")")[0] == ')';
  }

  lemma OneCallFound(before: seq<Token>, target: string, more: seq<Token>)
    requires CallName(target)
    ensures CallAt(before + OneCall(target) + more, |before|) ==
      Some(Found(|before|, |before| + 4, Some(CallSite(target, []))))
  {
    hide CallName, Lower;
    Punctuation(target);
    var body, at := before + OneCall(target) + more, |before|;
    assert body[at..at + 4] == OneCall(target);
    assert body[at] == OneCall(target)[0] && body[at + 1] == OneCall(target)[1];
    assert body[at + 2] == OneCall(target)[2] && body[at + 3] == OneCall(target)[3];
    assert MatchingFrom(body, at + 3, 1, "(", ")") == Some(at + 3);
    assert MatchingFrom(body, at + 2, 1, "(", ")") == Some(at + 3);
    assert Pseudocode.Matching(body, at + 1, "(", ")") == Some(at + 3);
    assert body[at + 2..at + 3] == [OneCall(target)[2]];
  }

  lemma {:induction false} CallingFound(before: seq<Token>, targets: seq<string>)
    requires forall t :: t in targets ==> CallName(t)
    ensures TargetsOf(Sites(CallsFrom(before + Calling(targets), |before|))) == targets
    decreases |targets|
  {
    hide CallAt, CallName, OneCall;
    var body := before + Calling(targets);
    if targets == [] {
      assert body == before;
    } else {
      var one, more := OneCall(targets[0]), Calling(targets[1..]);
      assert body == before + one + more;
      OneCallFound(before, targets[0], more);
      assert |one| == 4 by { FourTokens(targets[0]); }
      CallingFound(before + one, targets[1..]);
      var found, rest := CallAt(body, |before|).value, CallsFrom(body, |before| + 4);
      assert CallsFrom(body, |before|) == [found] + rest;
      assert ([found] + rest)[1..] == rest;
      assert Sites([found] + rest) == [CallSite(targets[0], [])] + Sites(rest);
      assert TargetsOf([CallSite(targets[0], [])] + Sites(rest)) == [targets[0]] + TargetsOf(Sites(rest));
    }
  }

  lemma FourTokens(target: string)
    ensures |OneCall(target)| == 4
  {
  }

  // ---------------------------------------------------------------- as a text

  /** The token lexes as itself in front of a space. */
  predicate Alone(t: Token) {
    t.text != "" && Scan(t.text) == Lexed(t) && !Open(t.text)
  }

  /** Printing such tokens and lexing the text gives them back. */
  lemma {:induction false} PrintedLexes(tokens: seq<Token>)
    requires forall t :: t in tokens ==> Alone(t)
    ensures Lex(Print(tokens)) == tokens
  {
    hide Scan, Open;
    if tokens != [] {
      var rest := tokens[1..];
      assert tokens == [tokens[0]] + rest;
      PrintedLexes(rest);
      assert Alone(tokens[0]) by { assert tokens[0] in tokens; }
      var w := if rest == [] then "" else " " + Print(rest);
      LexCons(tokens[0].text, w);
      SpaceSkipped(Print(rest));
      PrintCons(tokens[0], rest);
    }
  }

  lemma {:induction false} RunWhole(s: string, i: nat, p: char -> bool)
    requires i <= |s| && AllFrom(s, i, p)
    ensures RunEnd(s, i, p) == |s|
    decreases |s| - i
  {
    if i < |s| {
      RunWhole(s, i + 1, p);
    }
  }

  lemma WordAlone(name: string)
    requires name != "" && IsIdentStart(name[0]) && AllFrom(name, 1, IsIdentContinue)
    ensures Alone(Token(Identifier, name))
  {
    RunWhole(name, 1, IsIdentContinue);
    assert forall k :: 0 <= k < |name| ==> name[k] != '"';
    assert QuoteIndex(name) < 0;
  }

  lemma PunctAlone(c: char)
    requires c == '(' || c == ')'
    ensures Alone(Token(Punct, [c]))
  {
    hide MULTI_OPERATORS;
    var op := FindOperator([c], 0);
    if op >= 0 {
      OperatorShape(op);
    }
    assert op < 0;
    assert !("//" <= [c]) && !("/*" <= [c]) && QuoteIndex([c]) < 0;
  }

  lemma {:induction false} CallingAlone(targets: seq<string>)
    requires forall t :: t in targets ==> CallName(t)
    ensures forall t :: t in Calling(targets) ==> Alone(t)
  {
    hide Alone;
    if targets != [] {
      CallingAlone(targets[1..]);
      WordAlone("call");
      assert CallName(targets[0]);
      WordAlone(targets[0]);
      PunctAlone('(');
      PunctAlone(')');
    }
  }

  /** Whatever lower-case identifiers they are, some text has calls to exactly these targets. */
  lemma NamesAreTargets(targets: seq<string>)
    requires forall t :: t in targets ==> CallName(t)
    ensures CallsOf(Print(Calling(targets))) == targets
  {
    CallingAlone(targets);
    PrintedLexes(Calling(targets));
    CallingFound([], targets);
    assert [] + Calling(targets) == Calling(targets);
  }

  // ---------------------------------------------------------------- greedy matching of calls

  /** The aliases a call can have. */
  function Nameable(aliases: seq<string>): (r: seq<string>)
    ensures forall a :: a in r <==> a in aliases && CallName(a)
  {
    if aliases == [] then []
    else (if CallName(aliases[0]) then [aliases[0]] else []) + Nameable(aliases[1..])
  }

  function AllNameable(facts: seq<seq<string>>): (r: seq<seq<string>>)
    ensures |r| == |facts| && forall i :: 0 <= i < |facts| ==> r[i] == Nameable(facts[i])
  {
    seq(|facts|, i requires 0 <= i < |facts| => Nameable(facts[i]))
  }

  lemma {:induction false} FirstNameable(aliases: seq<string>, targets: seq<string>, consumed: set<nat>, i: nat)
    requires i <= |targets| && forall t :: t in targets ==> CallName(t)
    ensures FirstMatch(Nameable(aliases), targets, consumed, i) == FirstMatch(aliases, targets, consumed, i)
    decreases |targets| - i
  {
    hide CallName;
    if i < |targets| {
      assert targets[i] in targets;
      FirstNameable(aliases, targets, consumed, i + 1);
    }
  }

  /** On names the other aliases make no difference. */
  lemma {:induction false} GreedyNameable(facts: seq<seq<string>>, targets: seq<string>, consumed: set<nat>)
    requires forall t :: t in targets ==> CallName(t)
    ensures Greedy(AllNameable(facts), targets, consumed) == Greedy(facts, targets, consumed)
    decreases |facts|
  {
    hide CallName, FirstMatch;
    if facts != [] {
      var found := FirstMatch(facts[0], targets, consumed, 0);
      FirstNameable(facts[0], targets, consumed, 0);
      GreedyNameable(facts[1..], targets, if found.Some? then consumed + {found.value} else consumed);
      assert AllNameable(facts)[1..] == AllNameable(facts[1..]);
    }
  }

  lemma OptimalNameable(facts: seq<seq<string>>, targets: seq<string>)
    requires forall t :: t in targets ==> CallName(t)
    ensures OptimalOn(AllNameable(facts), targets) <==> OptimalOn(facts, targets)
  {
    hide CallName, Greedy;
    GreedyNameable(facts, targets, {});
    forall other ensures IsMatching(AllNameable(facts), targets, {}, other) == IsMatching(facts, targets, {}, other) {
      assert forall i :: 0 <= i < |facts| ==> forall t :: t in targets ==>
        (t in AllNameable(facts)[i] <==> t in facts[i]);
    }
  }

  /**
   * Greedy matching is optimal on the calls of every text exactly when, of two expectations that share
   * an alias some call can have, the later accepts every such alias of the earlier.
   */
  lemma TextOptimalIff(facts: seq<seq<string>>)
    ensures (forall text :: OptimalOn(facts, CallsOf(text))) <==> Matching.Nested(AllNameable(facts))
  {
    hide CallName, Greedy, OptimalOn, Shaped, IsMatching;
    var named := AllNameable(facts);
    if Matching.Nested(named) {
      forall text ensures OptimalOn(facts, CallsOf(text)) {
        TokensShaped(text);
        TargetsAreNames(Lex(text));
        GreedyOptimalIff(named);
        OptimalNameable(facts, CallsOf(text));
      }
    } else {
      var i, j, a :| 0 <= i < j < |named| && a in named[i] && a in named[j] && !forall b :: b in named[i] ==> b in named[j];
      var b :| b in named[i] && b !in named[j];
      var targets, other := NotNestedMisses(named, i, j, a, b);
      NamesAreTargets(targets);
      assert !OptimalOn(named, targets) by { Beaten(named, targets, other); }
      OptimalNameable(facts, targets);
      assert !OptimalOn(facts, CallsOf(Print(Calling(targets))));
    }
  }

  lemma Beaten(facts: seq<seq<string>>, targets: seq<string>, other: seq<Option<nat>>)
    requires IsMatching(facts, targets, {}, other) && Count(other) > Count(Greedy(facts, targets, {}))
    ensures !OptimalOn(facts, targets)
  {
  }
}
