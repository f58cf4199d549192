/** Direct calls, fact matching and the recall-times-precision score of a decompilation. */
module Scorecard {
  import opened Prelude
  import opened Lexer
  import opened Pseudocode

  // ---------------------------------------------------------------- direct calls

  datatype CallSite = CallSite(target: string, arguments: seq<string>)

  /** Identifiers that look like calls in front of `(` but are not. */
  const NON_CALLS: seq<string> := [
    "if", "for", "while", "switch", "return", "sizeof", "alignof", "typeof", "decltype", "catch",
    "int", "char", "short", "long", "float", "double", "bool", "void", "signed", "unsigned",
    "const", "volatile", "struct", "union", "enum", "class",
    "u8", "u16", "u32", "u64", "i8", "i16", "i32", "i64",
    "uint8", "uint16", "uint32", "uint64", "int8", "int16", "int32", "int64",
    "undefined", "undefined4", "undefined8",
    "reinterpret_cast", "static_cast", "dynamic_cast", "const_cast", "phi"]

  predicate Opens(t: Token) { TokenIs(t, "(") || TokenIs(t, "[") || TokenIs(t, "{") }

  predicate ClosesAny(t: Token) { TokenIs(t, ")") || TokenIs(t, "]") || TokenIs(t, "}") }

  /** Nesting after one more token; an unmatched closer is ignored. */
  function Nested(nested: nat, t: Token): nat {
    if Opens(t) then nested + 1
    else if ClosesAny(t) then (if nested > 0 then nested - 1 else 0)
    else nested
  }

  /** The argument token lists of the text from `index`, the current one having started at `start`. */
  function SplitFrom(tokens: seq<Token>, start: nat, index: nat, nested: nat): seq<seq<Token>>
    requires start <= index <= |tokens|
    decreases |tokens| - index
  {
    if index == |tokens| then [tokens[start..]]
    else if nested == 0 && TokenIs(tokens[index], ",") then
      [tokens[start..index]] + SplitFrom(tokens, index + 1, index + 1, nested)
    else SplitFrom(tokens, start, index + 1, Nested(nested, tokens[index]))
  }

  function Split(tokens: seq<Token>): seq<seq<Token>> {
    if tokens == [] then [] else SplitFrom(tokens, 0, 0, 0)
  }

  function Normalized(parts: seq<seq<Token>>): seq<string> {
    seq(|parts|, i requires 0 <= i < |parts| => NormalizedText(parts[i]))
  }

  /** `split_call_arguments`. */
  method SplitCallArguments(tokens: seq<Token>) returns (arguments: seq<string>)
    ensures arguments == Normalized(Split(tokens))
  {
    hide Nested, Normalized, NormalizedText, TokenIs;
    NormalizedNothing();
    if tokens == [] {
      return [];
    }
    arguments := [];
    ghost var parts: seq<seq<Token>> := [];
    var start, nested, index := 0, 0, 0;
    while index < |tokens|
      invariant start <= index <= |tokens|
      invariant arguments == Normalized(parts)
      invariant Split(tokens) == parts + SplitFrom(tokens, start, index, nested)
    {
      if nested == 0 && TokenIs(tokens[index], ",") {
        NormalizedAppend(parts, tokens[start..index]);
        arguments := arguments + [NormalizedText(tokens[start..index])];
        ghost var rest := SplitFrom(tokens, index + 1, index + 1, nested);
        assert parts + ([tokens[start..index]] + rest) == (parts + [tokens[start..index]]) + rest;
        parts := parts + [tokens[start..index]];
        start := index + 1;
      } else {
        nested := Nested(nested, tokens[index]);
      }
      index := index + 1;
    }
    NormalizedAppend(parts, tokens[start..]);
    arguments := arguments + [NormalizedText(tokens[start..])];
  }

  lemma NormalizedNothing()
    ensures Normalized([]) == []
  {
  }

  lemma NormalizedAppend(parts: seq<seq<Token>>, part: seq<Token>)
    ensures Normalized(parts + [part]) == Normalized(parts) + [NormalizedText(part)]
  {
    hide NormalizedText;
  }

  /** The parts with the tokens that separated them. */
  function Rejoined(parts: seq<seq<Token>>, commas: seq<Token>): seq<Token>
    requires |parts| == |commas| + 1
  {
    if commas == [] then parts[0] else parts[0] + [commas[0]] + Rejoined(parts[1..], commas[1..])
  }

  /** Splitting loses nothing: the arguments and the top-level commas between them are the whole text. */
  lemma {:induction false} SplitTiles(tokens: seq<Token>, start: nat, index: nat, nested: nat) returns (commas: seq<Token>)
    requires start <= index <= |tokens|
    ensures |SplitFrom(tokens, start, index, nested)| == |commas| + 1
    ensures Rejoined(SplitFrom(tokens, start, index, nested), commas) == tokens[start..]
    ensures forall c :: c in commas ==> TokenIs(c, ",")
    decreases |tokens| - index
  {
    if index == |tokens| {
      commas := [];
    } else if nested == 0 && TokenIs(tokens[index], ",") {
      var rest := SplitTiles(tokens, index + 1, index + 1, nested);
      commas := [tokens[index]] + rest;
      assert tokens[start..] == tokens[start..index] + [tokens[index]] + tokens[index + 1..];
    } else {
      commas := SplitTiles(tokens, start, index + 1, Nested(nested, tokens[index]));
    }
  }

  /** Nesting in front of token `index`. */
  function Level(tokens: seq<Token>, index: nat): nat
    requires index <= |tokens|
  {
    if index == 0 then 0 else Nested(Level(tokens, index - 1), tokens[index - 1])
  }

  /** Token `k` is a comma outside all brackets. */
  predicate TopComma(tokens: seq<Token>, k: nat)
    requires k < |tokens|
  {
    TokenIs(tokens[k], ",") && Level(tokens, k) == 0
  }

  /** Positions that ascend and are exactly the top-level commas from `index` on. */
  ghost predicate AreCuts(tokens: seq<Token>, index: nat, cuts: seq<nat>) {
    && (forall i, j :: 0 <= i < j < |cuts| ==> cuts[i] < cuts[j])
    && (forall k :: k in cuts <==> index <= k < |tokens| && TopComma(tokens, k))
  }

  /** `part` is the stretch of tokens between cut `i - 1`, or `start`, and cut `i`, or the end. */
  predicate IsStretch(tokens: seq<Token>, start: nat, cuts: seq<nat>, i: nat, part: seq<Token>)
    requires i <= |cuts|
  {
    var from := if i == 0 then start else cuts[i - 1] + 1;
    var to := if i < |cuts| then cuts[i] else |tokens|;
    from <= to <= |tokens| && part == tokens[from..to]
  }

  /** The parts are the stretches between the cuts, the first one starting at `start`. */
  ghost predicate CutAt(tokens: seq<Token>, start: nat, cuts: seq<nat>, parts: seq<seq<Token>>) {
    |parts| == |cuts| + 1 && forall i :: 0 <= i < |parts| ==> IsStretch(tokens, start, cuts, i, parts[i])
  }

  lemma CommaKeepsLevel(nested: nat, t: Token)
    requires TokenIs(t, ",")
    ensures Nested(nested, t) == nested
  {
    assert Lower(",")[0] == ',';
    assert Lower("(")[0] == '(' && Lower("[")[0] == '[' && Lower("{")[0] == '{';
    assert Lower(")")[0] == ')' && Lower("]")[0] == ']' && Lower("}")[0] == '}';
  }

  lemma CutsCons(tokens: seq<Token>, index: nat, rest: seq<nat>)
    requires index < |tokens| && TopComma(tokens, index) && AreCuts(tokens, index + 1, rest)
    ensures AreCuts(tokens, index, [index] + rest)
  {
    hide TopComma;
    var cuts := [index] + rest;
    forall i, j | 0 <= i < j < |cuts| ensures cuts[i] < cuts[j] {
      assert cuts[j] == rest[j - 1] && rest[j - 1] in rest;
      if i > 0 {
        assert cuts[i] == rest[i - 1];
      }
    }
    forall k ensures k in cuts <==> index <= k < |tokens| && TopComma(tokens, k) {
      assert k in cuts <==> k == index || k in rest;
    }
  }

  lemma CutsSkip(tokens: seq<Token>, index: nat, cuts: seq<nat>)
    requires index < |tokens| && !TopComma(tokens, index) && AreCuts(tokens, index + 1, cuts)
    ensures AreCuts(tokens, index, cuts)
  {
    hide TopComma;
  }

  lemma PartsCons(tokens: seq<Token>, start: nat, index: nat, rest: seq<nat>, parts: seq<seq<Token>>)
    requires start <= index < |tokens| && CutAt(tokens, index + 1, rest, parts)
    ensures CutAt(tokens, start, [index] + rest, [tokens[start..index]] + parts)
  {
    var cuts, all := [index] + rest, [tokens[start..index]] + parts;
    forall i | 0 <= i < |all| ensures IsStretch(tokens, start, cuts, i, all[i]) {
      if i > 0 {
        assert all[i] == parts[i - 1] && IsStretch(tokens, index + 1, rest, i - 1, parts[i - 1]);
        assert i > 1 ==> cuts[i - 1] == rest[i - 2];
        assert i < |cuts| ==> cuts[i] == rest[i - 1];
      }
    }
  }

  lemma {:induction false} SplitFromCuts(tokens: seq<Token>, start: nat, index: nat) returns (cuts: seq<nat>)
    requires start <= index <= |tokens|
    ensures AreCuts(tokens, index, cuts)
    ensures CutAt(tokens, start, cuts, SplitFrom(tokens, start, index, Level(tokens, index)))
    decreases |tokens| - index
  {
    if index == |tokens| {
      cuts := [];
    } else {
      hide AreCuts, CutAt, Nested;
      if TopComma(tokens, index) {
        CommaKeepsLevel(0, tokens[index]);
        var rest := SplitFromCuts(tokens, index + 1, index + 1);
        cuts := [index] + rest;
        CutsCons(tokens, index, rest);
        PartsCons(tokens, start, index, rest, SplitFrom(tokens, index + 1, index + 1, 0));
      } else {
        cuts := SplitFromCuts(tokens, start, index + 1);
        CutsSkip(tokens, index, cuts);
      }
    }
  }

  /** The arguments are exactly the stretches between all the commas outside brackets. */
  lemma SplitAtTopCommas(tokens: seq<Token>) returns (cuts: seq<nat>)
    requires tokens != []
    ensures AreCuts(tokens, 0, cuts) && CutAt(tokens, 0, cuts, Split(tokens))
  {
    cuts := SplitFromCuts(tokens, 0, 0);
  }

  /** A call found in a body: the tokens `from..to` it covers and what it says, if it counts. */
  datatype Found = Found(from: nat, to: nat, site: Option<CallSite>)

  /** The call that starts at identifier `index`, if a balanced argument list follows it. */
  function CallAt(body: seq<Token>, index: nat): (r: Option<Found>)
    requires index < |body|
    ensures r.Some? ==> r.value.from == index < r.value.to <= |body|
  {
    if !body[index].kind.Identifier? || index + 1 >= |body| || !TokenIs(body[index + 1], "(") then None
    else
      var target := Lower(body[index].text);
      var close := Matching(body, index + 1, "(", ")");
      if close.None? || close.value < index + 2 then None
      else if target == "call" && index + 2 < |body| then
        var inner := body[index + 2..close.value];
        Some(Found(index, close.value + 1,
          if |inner| == 1 && inner[0].kind.Identifier? then Some(CallSite(Lower(inner[0].text), [])) else None))
      else if target in NON_CALLS then None
      else Some(Found(index, close.value + 1,
        Some(CallSite(target, Normalized(Split(body[index + 2..close.value]))))))
  }

  /** All calls from `index` on; arguments of a call are not searched again. */
  function CallsFrom(body: seq<Token>, index: nat): seq<Found>
    requires index <= |body|
    decreases |body| - index
  {
    if index == |body| then []
    else
      var found := CallAt(body, index);
      if found.None? then CallsFrom(body, index + 1) else [found.value] + CallsFrom(body, found.value.to)
  }

  function Sites(found: seq<Found>): seq<CallSite> {
    if found == [] then []
    else (if found[0].site.Some? then [found[0].site.value] else []) + Sites(found[1..])
  }

  function DirectCalls(body: seq<Token>): seq<CallSite> {
    Sites(CallsFrom(body, 0))
  }

  /** `extract_direct_calls`. */
  method ExtractDirectCalls(body: seq<Token>) returns (calls: seq<CallSite>)
    ensures calls == DirectCalls(body)
  {
    hide CallAt;
    calls := [];
    var index := 0;
    while index < |body|
      invariant index <= |body|
      invariant calls + Sites(CallsFrom(body, index)) == DirectCalls(body)
    {
      var found := CallAt(body, index);
      if found.None? {
        index := index + 1;
      } else {
        var rest := CallsFrom(body, found.value.to);
        assert ([found.value] + rest)[1..] == rest;
        if found.value.site.Some? {
          assert calls + ([found.value.site.value] + Sites(rest)) == (calls + [found.value.site.value]) + Sites(rest);
          calls := calls + [found.value.site.value];
        }
        index := found.value.to;
      }
    }
  }

  /** `f` is an identifier with a balanced argument list, at or after `index`. */
  ghost predicate IsCall(body: seq<Token>, index: nat, f: Found) {
    && index <= f.from && f.from + 2 <= f.to <= |body|
    && body[f.from].kind.Identifier?
    && Closes(body, f.from + 1, f.to - 1, "(", ")")
  }

  /** Found calls cover disjoint stretches of the body, in order, each a balanced argument list. */
  lemma {:induction false} CallsDisjoint(body: seq<Token>, index: nat)
    requires index <= |body|
    ensures forall f :: f in CallsFrom(body, index) ==> IsCall(body, index, f)
    ensures forall i, j :: 0 <= i < j < |CallsFrom(body, index)| ==>
      CallsFrom(body, index)[i].to <= CallsFrom(body, index)[j].from
    decreases |body| - index
  {
    hide CallAt, Closes;
    if index < |body| {
      var found, all := CallAt(body, index), CallsFrom(body, index);
      if found.None? {
        CallsDisjoint(body, index + 1);
        assert all == CallsFrom(body, index + 1);
      } else {
        var rest := CallsFrom(body, found.value.to);
        CallsDisjoint(body, found.value.to);
        CallBalanced(body, index);
        assert all == [found.value] + rest;
        forall i, j | 0 <= i < j < |all| ensures all[i].to <= all[j].from {
          assert all[j] == rest[j - 1] && all[j] in rest;
        }
      }
    }
  }

  lemma CallBalanced(body: seq<Token>, index: nat)
    requires index < |body| && CallAt(body, index).Some?
    ensures IsCall(body, index, CallAt(body, index).value)
  {
    hide Matching, Closes, Lower, Split;
    ParensDiffer();
    MatchingIffCloses(body, index + 1, "(", ")", Matching(body, index + 1, "(", ")").value);
  }

  /** An identifier that is not a keyword, a type or a cast, with an argument list that closes at `c`. */
  ghost predicate Callable(body: seq<Token>, i: nat, c: nat) {
    && i + 1 < |body| && body[i].kind.Identifier? && TokenIs(body[i + 1], "(")
    && Closes(body, i + 1, c, "(", ")")
    && (Lower(body[i].text) == "call" || Lower(body[i].text) !in NON_CALLS)
  }

  /** A call is recognised at an identifier exactly when it is callable, and reaches to its parenthesis. */
  lemma CallAtIff(body: seq<Token>, i: nat, c: nat)
    requires i < |body|
    ensures CallAt(body, i).Some? && CallAt(body, i).value.to == c + 1 <==> Callable(body, i, c)
  {
    hide Matching, Closes, Lower, Split;
    ParensDiffer();
    if i + 1 < |body| && TokenIs(body[i + 1], "(") {
      MatchingIffCloses(body, i + 1, "(", ")", c);
      assert Closes(body, i + 1, c, "(", ")") ==> c >= i + 2 by { ClosesLater(body, i + 1, c); }
    }
  }

  lemma ClosesLater(body: seq<Token>, from: nat, at: nat)
    requires from < |body| && TokenIs(body[from], "(")
    ensures Closes(body, from, at, "(", ")") ==> at > from
  {
    ParensDiffer();
  }

  /** No callable identifier is missed, except inside a call that was found before it. */
  lemma {:induction false} CallsComplete(body: seq<Token>, index: nat, i: nat, c: nat)
    requires index <= i < |body| && Callable(body, i, c)
    requires forall f :: f in CallsFrom(body, index) ==> !(f.from < i < f.to)
    ensures exists f :: f in CallsFrom(body, index) && f.from == i && f.to == c + 1
    decreases |body| - index
  {
    hide CallAt, Callable;
    var found, all := CallAt(body, index), CallsFrom(body, index);
    if index == i {
      CallAtIff(body, i, c);
      CallAtStarts(body, i);
      assert found.value in all;
    } else if found.None? {
      CallsComplete(body, index + 1, i, c);
    } else {
      CallAtStarts(body, index);
      assert found.value in all;
      var rest := CallsFrom(body, found.value.to);
      assert all == [found.value] + rest;
      CallsComplete(body, found.value.to, i, c);
      var f :| f in rest && f.from == i && f.to == c + 1;
      assert f in all;
    }
  }

  lemma CallAtStarts(body: seq<Token>, i: nat)
    requires i < |body|
    ensures CallAt(body, i).Some? ==> CallAt(body, i).value.from == i < CallAt(body, i).value.to <= |body|
  {
  }
}
