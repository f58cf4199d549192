/** Structure of lexed pseudocode: balanced spans, the function shape and string normalisation. */
module Pseudocode {
  import opened Prelude
  import opened Lexer

  // ---------------------------------------------------------------- text helpers

  function LowerChar(c: char): char { if 'A' <= c <= 'Z' then c + 32 as char else c }

  /** `to_ascii_lowercase`. */
  function Lower(s: string): (r: string)
    ensures |r| == |s|
  {
    seq(|s|, i requires 0 <= i < |s| => LowerChar(s[i]))
  }

  predicate TokenIs(t: Token, text: string) { Lower(t.text) == Lower(text) }

  function Concat(parts: seq<string>, separator: string): string {
    if parts == [] then "" else if |parts| == 1 then parts[0] else parts[0] + separator + Concat(parts[1..], separator)
  }

  /** First and last position of a character. */
  function Find(s: string, c: char): (r: int)
    ensures -1 <= r < |s|
  {
    if s == "" then -1 else if s[0] == c then 0
    else var rest := Find(s[1..], c); if rest < 0 then -1 else rest + 1
  }

  function RFind(s: string, c: char): (r: int)
    ensures -1 <= r < |s|
  {
    if s == "" then -1 else if s[|s| - 1] == c then |s| - 1 else RFind(s[..|s| - 1], c)
  }

  function Unescaped(s: string): string {
    if s == "" then ""
    else if s[0] != '\\' then [s[0]] + Unescaped(s[1..])
    else if |s| == 1 then "\\"
    else
      var c := if s[1] == 'n' then '\n' else if s[1] == 'r' then '\r' else if s[1] == 't' then '\t'
               else if s[1] == '0' then '\0' else s[1];
      [c] + Unescaped(s[2..])
  }

  function DecodeStringLiteral(raw: string): Option<string> {
    var first, last := Find(raw, '"'), RFind(raw, '"');
    if first < 0 || first >= last then None else Some(Unescaped(raw[first + 1..last]))
  }

  function NormalizedToken(t: Token): string {
    match t.kind
    case Identifier | Number => Lower(t.text)
    case StringLiteral =>
      var value := DecodeStringLiteral(t.text);
      if value.Some? then "\"" + value.value + "\"" else t.text
    case _ => t.text
  }

  function NormalizedText(tokens: seq<Token>): string {
    if tokens == [] then "" else NormalizedToken(tokens[0]) + NormalizedText(tokens[1..])
  }

  // ---------------------------------------------------------------- balanced spans

  /** Change of nesting depth at one token. */
  function Delta(t: Token, open: string, close: string): int {
    if TokenIs(t, open) then 1 else if TokenIs(t, close) then -1 else 0
  }

  /** Nesting depth after the tokens `from..to`. */
  function Depth(tokens: seq<Token>, from: nat, to: nat, open: string, close: string): int
    requires from <= to <= |tokens|
  {
    if from == to then 0 else Depth(tokens, from, to - 1, open, close) + Delta(tokens[to - 1], open, close)
  }

  /** The bracket at `from` closes at `at`: depth stays positive up to there and returns to zero. */
  ghost predicate Closes(tokens: seq<Token>, from: nat, at: nat, open: string, close: string) {
    && from < at < |tokens|
    && Depth(tokens, from, at + 1, open, close) == 0
    && forall k :: from < k <= at ==> Depth(tokens, from, k, open, close) > 0
  }

  /** The search of `find_matching` from `index` on, at nesting depth `depth`. */
  function MatchingFrom(tokens: seq<Token>, index: nat, depth: nat, open: string, close: string): (r: Option<nat>)
    requires index <= |tokens|
    ensures r.Some? ==> index <= r.value < |tokens|
    decreases |tokens| - index
  {
    if index == |tokens| then None
    else if TokenIs(tokens[index], open) then MatchingFrom(tokens, index + 1, depth + 1, open, close)
    else if TokenIs(tokens[index], close) then
      if depth == 0 then None
      else if depth == 1 then Some(index)
      else MatchingFrom(tokens, index + 1, depth - 1, open, close)
    else MatchingFrom(tokens, index + 1, depth, open, close)
  }

  /** The closing partner of the bracket at `from`. */
  function Matching(tokens: seq<Token>, from: nat, open: string, close: string): (r: Option<nat>)
    requires from <= |tokens|
    ensures r.Some? ==> from <= r.value < |tokens|
  {
    MatchingFrom(tokens, from, 0, open, close)
  }

  /** `find_matching`. */
  method FindMatching(tokens: seq<Token>, from: nat, open: string, close: string) returns (r: Option<nat>)
    requires from <= |tokens|
    ensures r == Matching(tokens, from, open, close)
  {
    var depth, index := 0, from;
    while index < |tokens|
      invariant from <= index <= |tokens| && 0 <= depth
      invariant MatchingFrom(tokens, index, depth, open, close) == Matching(tokens, from, open, close)
    {
      if TokenIs(tokens[index], open) {
        depth := depth + 1;
      } else if TokenIs(tokens[index], close) {
        if depth == 0 {
          return None;
        }
        depth := depth - 1;
        if depth == 0 {
          return Some(index);
        }
      }
      index := index + 1;
    }
    r := None;
  }

  lemma {:induction false} MatchingFromCloses(
    tokens: seq<Token>, from: nat, index: nat, open: string, close: string, at: nat)
    requires from < index <= |tokens| && Lower(open) != Lower(close)
    requires Depth(tokens, from, index, open, close) > 0
    requires forall k :: from < k <= index ==> Depth(tokens, from, k, open, close) > 0
    ensures MatchingFrom(tokens, index, Depth(tokens, from, index, open, close), open, close) == Some(at) <==>
      index <= at && Closes(tokens, from, at, open, close)
    decreases |tokens| - index
  {
    if index < |tokens| {
      var next := Depth(tokens, from, index + 1, open, close);
      if next > 0 {
        MatchingFromCloses(tokens, from, index + 1, open, close, at);
      }
      if index < at && Closes(tokens, from, at, open, close) {
        assert Depth(tokens, from, index + 1, open, close) > 0;
      }
    }
  }

  /** The search from an opening bracket finds exactly the position where that bracket closes. */
  lemma MatchingIffCloses(tokens: seq<Token>, from: nat, open: string, close: string, at: nat)
    requires from < |tokens| && TokenIs(tokens[from], open) && Lower(open) != Lower(close)
    ensures Matching(tokens, from, open, close) == Some(at) <==> Closes(tokens, from, at, open, close)
  {
    assert Depth(tokens, from, from + 1, open, close) == Depth(tokens, from, from, open, close) + 1;
    MatchingFromCloses(tokens, from, from + 1, open, close, at);
  }

  lemma {:induction false} DepthSplit(tokens: seq<Token>, a: nat, b: nat, c: nat, open: string, close: string)
    requires a <= b <= c <= |tokens|
    ensures Depth(tokens, a, c, open, close) == Depth(tokens, a, b, open, close) + Depth(tokens, b, c, open, close)
    decreases c
  {
    if b < c {
      DepthSplit(tokens, a, b, c - 1, open, close);
    }
  }

  /** `(open, close)` is the balanced pair of parentheses that ends at the last `)`. */
  ghost predicate IsLastRange(tokens: seq<Token>, open: nat, close: nat) {
    && Closes(tokens, open, close, "(", ")")
    && TokenIs(tokens[close], ")")
    && forall k :: close < k < |tokens| ==> !TokenIs(tokens[k], ")")
  }

  /** Number of tokens up to and including the last `)`, or 0. */
  function LastCloseEnd(tokens: seq<Token>, n: nat): (r: nat)
    requires n <= |tokens|
    ensures r <= n
    ensures r > 0 ==> TokenIs(tokens[r - 1], ")")
    ensures forall k :: r <= k < n ==> !TokenIs(tokens[k], ")")
  {
    if n == 0 || TokenIs(tokens[n - 1], ")") then n else LastCloseEnd(tokens, n - 1)
  }

  /** The backward scan below `index`, with `depth` parentheses waiting for their partner. */
  function RangeOpen(tokens: seq<Token>, index: nat, depth: nat): (r: Option<nat>)
    requires index <= |tokens|
    ensures r.Some? ==> r.value < index
  {
    if index == 0 then None
    else if TokenIs(tokens[index - 1], ")") then RangeOpen(tokens, index - 1, depth + 1)
    else if TokenIs(tokens[index - 1], "(") then
      if depth == 0 then None else if depth == 1 then Some(index - 1) else RangeOpen(tokens, index - 1, depth - 1)
    else RangeOpen(tokens, index - 1, depth)
  }

  function LastRange(tokens: seq<Token>): (r: Option<(nat, nat)>)
    ensures r.Some? ==> r.value.0 < r.value.1 < |tokens|
  {
    var end := LastCloseEnd(tokens, |tokens|);
    if end == 0 then None
    else
      var open := RangeOpen(tokens, end - 1, 1);
      if open.None? then None else Some((open.value, end - 1))
  }

  /** `last_parenthesized_range`. */
  method LastParenthesizedRange(tokens: seq<Token>) returns (r: Option<(nat, nat)>)
    ensures r == LastRange(tokens)
  {
    var end := |tokens|;
    while end > 0 && !TokenIs(tokens[end - 1], ")")
      invariant 0 <= end <= |tokens|
      invariant LastCloseEnd(tokens, |tokens|) == LastCloseEnd(tokens, end)
    {
      end := end - 1;
    }
    if end == 0 {
      return None;
    }
    var depth, index := 1, end - 1;
    while index > 0
      invariant 0 <= index < end && depth > 0
      invariant RangeOpen(tokens, end - 1, 1) == RangeOpen(tokens, index, depth)
    {
      index := index - 1;
      if TokenIs(tokens[index], ")") {
        depth := depth + 1;
      } else if TokenIs(tokens[index], "(") {
        depth := depth - 1;
        if depth == 0 {
          return Some((index, end - 1));
        }
      }
    }
    r := None;
  }

  lemma ParensDiffer()
    ensures Lower("(") != Lower(")") && Lower("{") != Lower("}")
  {
    assert Lower("(")[0] != Lower(")")[0];
    assert Lower("{")[0] != Lower("}")[0];
  }

  lemma {:induction false} RangeOpenCloses(tokens: seq<Token>, index: nat, end: nat, open: nat)
    requires index < end <= |tokens| && Depth(tokens, index, end, "(", ")") < 0
    requires forall k :: index <= k < end ==> Depth(tokens, k, end, "(", ")") < 0
    ensures RangeOpen(tokens, index, -Depth(tokens, index, end, "(", ")")) == Some(open) <==>
      open < index && Closes(tokens, open, end - 1, "(", ")")
    decreases index
  {
    ParensDiffer();
    if index > 0 {
      DepthSplit(tokens, index - 1, index, end, "(", ")");
      assert Depth(tokens, index - 1, index, "(", ")") == Delta(tokens[index - 1], "(", ")");
      var next := Depth(tokens, index - 1, end, "(", ")");
      if next < 0 {
        RangeOpenCloses(tokens, index - 1, end, open);
      } else {
        BackwardCloses(tokens, index - 1, end);
      }
      if open < index {
        NoEarlierOpen(tokens, open, index, end);
      }
    }
  }

  /** Where the backward depth first returns to zero, the forward depth stays positive. */
  lemma BackwardCloses(tokens: seq<Token>, open: nat, end: nat)
    requires open + 1 < end <= |tokens| && Depth(tokens, open, end, "(", ")") == 0
    requires forall k :: open < k < end ==> Depth(tokens, k, end, "(", ")") < 0
    ensures Closes(tokens, open, end - 1, "(", ")")
  {
    forall k | open < k < end ensures Depth(tokens, open, k, "(", ")") > 0 {
      DepthSplit(tokens, open, k, end, "(", ")");
    }
  }

  /** A pair that closes at the end has no smaller one inside it: backward depths are negative. */
  lemma NoEarlierOpen(tokens: seq<Token>, open: nat, index: nat, end: nat)
    requires open < index < end <= |tokens|
    ensures Closes(tokens, open, end - 1, "(", ")") ==> Depth(tokens, index, end, "(", ")") < 0
    ensures Closes(tokens, open, end - 1, "(", ")") && open < index - 1 ==> Depth(tokens, index - 1, end, "(", ")") < 0
  {
    DepthSplit(tokens, open, index, end, "(", ")");
    if open < index - 1 {
      DepthSplit(tokens, open, index - 1, end, "(", ")");
    }
  }

  /** Scanning backwards from the last `)` finds the pair that scanning forwards would close there. */
  lemma LastRangeIff(tokens: seq<Token>, open: nat, close: nat)
    ensures LastRange(tokens) == Some((open, close)) <==> IsLastRange(tokens, open, close)
  {
    ParensDiffer();
    var end := LastCloseEnd(tokens, |tokens|);
    if end > 0 {
      assert Depth(tokens, end - 1, end, "(", ")") == Depth(tokens, end - 1, end - 1, "(", ")") - 1;
      RangeOpenCloses(tokens, end - 1, end, open);
    }
  }

  // ---------------------------------------------------------------- functions

  datatype ParsedFunction = ParsedFunction(header: seq<Token>, body: seq<Token>)

  /** Position of the first token that is `text`, or the length. */
  function FirstToken(tokens: seq<Token>, text: string): (r: nat)
    ensures r <= |tokens|
    ensures r < |tokens| ==> TokenIs(tokens[r], text)
    ensures forall k :: 0 <= k < r ==> !TokenIs(tokens[k], text)
  {
    if tokens == [] || TokenIs(tokens[0], text) then 0 else FirstToken(tokens[1..], text) + 1
  }

  /** `parse_function` on the lexed text. */
  function ParseTokens(tokens: seq<Token>): Option<ParsedFunction> {
    var open := FirstToken(tokens, "{");
    if open == |tokens| then None
    else
      var params := LastRange(tokens[..open]);
      var close := Matching(tokens, open, "{", "}");
      if params.None? || !(exists k | 0 <= k < params.value.0 :: tokens[k].kind.Identifier?)
         || close.None? || close.value <= open then None
      else Some(ParsedFunction(tokens[..open], tokens[open + 1..close.value]))
  }

  /** `p` is a named header with parameters before the first brace, and the body that brace opens. */
  ghost predicate IsFunction(tokens: seq<Token>, p: ParsedFunction) {
    var open := |p.header|;
    var close := open + 1 + |p.body|;
    && close < |tokens| && p.header == tokens[..open] && p.body == tokens[open + 1..close]
    && TokenIs(tokens[open], "{") && (forall k :: 0 <= k < open ==> !TokenIs(tokens[k], "{"))
    && Closes(tokens, open, close, "{", "}")
    && exists o: nat, c: nat, k: nat :: IsLastRange(p.header, o, c) && k < o && p.header[k].kind.Identifier?
  }

  lemma ParsedIsFunction(tokens: seq<Token>, p: ParsedFunction)
    requires ParseTokens(tokens) == Some(p)
    ensures IsFunction(tokens, p)
  {
    hide LastRange, Matching, Closes, IsLastRange, Lower;
    ParensDiffer();
    var open := FirstToken(tokens, "{");
    var params := LastRange(tokens[..open]).value;
    LastRangeIff(tokens[..open], params.0, params.1);
    MatchingIffCloses(tokens, open, "{", "}", Matching(tokens, open, "{", "}").value);
    var k :| 0 <= k < params.0 && tokens[k].kind.Identifier?;
    assert p.header[k].kind.Identifier?;
  }

  lemma FunctionIsParsed(tokens: seq<Token>, p: ParsedFunction)
    requires IsFunction(tokens, p)
    ensures ParseTokens(tokens) == Some(p)
  {
    hide LastRange, Matching, Lower, Depth;
    ParensDiffer();
    var o: nat, c: nat, k: nat :| IsLastRange(p.header, o, c) && k < o && p.header[k].kind.Identifier?;
    var open := FirstToken(tokens, "{");
    assert TokenIs(tokens[|p.header|], "{");
    assert open == |p.header| && tokens[..open] == p.header;
    LastRangeIff(p.header, o, c);
    MatchingIffCloses(tokens, open, "{", "}", open + 1 + |p.body|);
    assert tokens[k].kind.Identifier?;
  }

  /** A text parses exactly when it has that shape, and then the shape is unique. */
  lemma ParseTokensIff(tokens: seq<Token>, p: ParsedFunction)
    ensures ParseTokens(tokens) == Some(p) <==> IsFunction(tokens, p)
  {
    hide ParseTokens, IsFunction;
    if ParseTokens(tokens) == Some(p) {
      ParsedIsFunction(tokens, p);
    }
    if IsFunction(tokens, p) {
      FunctionIsParsed(tokens, p);
    }
  }
}
