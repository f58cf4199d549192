/** The C-like lexer of the decompilation scorecard, over ASCII text. */
module Lexer {
  import opened Decimals

  datatype TokenKind = Identifier | Number | StringLiteral | CharLiteral | Operator | Punct

  datatype Token = Token(kind: TokenKind, text: string)

  /** One lexing step: either text that yields no token or exactly one token. */
  datatype Segment = Skipped(skipped: string) | Lexed(token: Token)
  {
    function Text(): string {
      if Skipped? then skipped else token.text
    }
  }

  const MULTI_OPERATORS: seq<string> := [
    "<<=", ">>=", "...", "->", "==", "!=", "<=", ">=", "&&", "||", "++", "--", "<<", ">>",
    "+=", "-=", "*=", "/=", "%=", "&=", "|=", "^="]

  predicate IsSpace(c: char) { c == ' ' || c == '\t' || c == '\n' || c == '\U{0C}' || c == '\r' }

  predicate IsAlpha(c: char) { 'a' <= c <= 'z' || 'A' <= c <= 'Z' }

  predicate IsIdentStart(c: char) { IsAlpha(c) || c == '_' || c == '$' }

  predicate IsIdentContinue(c: char) { IsIdentStart(c) || IsDigit(c) }

  predicate IsNumberContinue(c: char) { IsAlpha(c) || IsDigit(c) || c == '_' || c == '.' }

  predicate IsPunct(c: char) { c in "{}()[],;:.?" }

  // ---------------------------------------------------------------- where a segment ends

  /** `consume_quoted` from just after the opening quote; the end of input closes an open literal. */
  function QuotedEnd(s: string, i: nat, quote: char): (r: nat)
    requires i <= |s|
    ensures i <= r <= |s|
    decreases |s| - i
  {
    if i == |s| then |s|
    else if s[i] == '\\' then QuotedEnd(s, if i + 2 < |s| then i + 2 else |s|, quote)
    else if s[i] == quote then i + 1
    else QuotedEnd(s, i + 1, quote)
  }

  /** The literal scanned from `i` runs into the end of input without its closing quote. */
  predicate Unterminated(s: string, i: nat, quote: char)
    requires i <= |s|
    decreases |s| - i
  {
    if i == |s| then true
    else if s[i] == '\\' then Unterminated(s, if i + 2 < |s| then i + 2 else |s|, quote)
    else if s[i] == quote then false
    else Unterminated(s, i + 1, quote)
  }

  function LineEnd(s: string, i: nat): (r: nat)
    requires i <= |s|
    ensures i <= r <= |s|
    decreases |s| - i
  {
    if i == |s| || s[i] == '\n' then i else LineEnd(s, i + 1)
  }

  function CommentEnd(s: string, i: nat): (r: nat)
    requires i <= |s|
    ensures i <= r <= |s|
    decreases |s| - i
  {
    if i + 1 < |s| && !("*/" <= s[i..]) then CommentEnd(s, i + 1)
    else if i + 2 < |s| then i + 2 else |s|
  }

  /** End of the longest run of characters accepted by `p`. */
  function RunEnd(s: string, i: nat, p: char -> bool): (r: nat)
    requires i <= |s|
    ensures i <= r <= |s|
    ensures forall k :: i <= k < r ==> p(s[k])
    ensures r < |s| ==> !p(s[r])
    decreases |s| - i
  {
    if i < |s| && p(s[i]) then RunEnd(s, i + 1, p) else i
  }

  /** Index of the opening quote of a string literal at the start of `s`, after an optional prefix. */
  function QuoteIndex(s: string): (r: int)
    requires s != ""
    ensures -1 <= r < |s|
  {
    if s[0] == '"' then 0
    else if "u8\"" <= s then 2
    else if (s[0] == 'u' || s[0] == 'U' || s[0] == 'L') && |s| > 1 && s[1] == '"' then 1
    else -1
  }

  /** The first operator of the table that `s` starts with. */
  function FindOperator(s: string, n: nat): (r: int)
    requires n <= |MULTI_OPERATORS|
    ensures -1 <= r < |MULTI_OPERATORS|
    ensures r >= 0 ==> n <= r && MULTI_OPERATORS[r] <= s
    ensures forall k :: n <= k < (if r >= 0 then r else |MULTI_OPERATORS|) ==> !(MULTI_OPERATORS[k] <= s)
    decreases |MULTI_OPERATORS| - n
  {
    if n == |MULTI_OPERATORS| then -1
    else if MULTI_OPERATORS[n] <= s then n
    else FindOperator(s, n + 1)
  }

  /** The segment at the start of non-empty text: it is a non-empty prefix of that text. */
  function Scan(s: string): (r: Segment)
    requires s != ""
    ensures r.Text() != "" && r.Text() <= s
  {
    if IsSpace(s[0]) then Skipped(s[..1])
    else if "//" <= s then Skipped(s[..LineEnd(s, 2)])
    else if "/*" <= s then Skipped(s[..CommentEnd(s, 2)])
    else if QuoteIndex(s) >= 0 then Lexed(Token(StringLiteral, s[..QuotedEnd(s, QuoteIndex(s) + 1, '"')]))
    else if s[0] == '\'' then Lexed(Token(CharLiteral, s[..QuotedEnd(s, 1, '\'')]))
    else if IsIdentStart(s[0]) then Lexed(Token(Identifier, s[..RunEnd(s, 1, IsIdentContinue)]))
    else if IsDigit(s[0]) then Lexed(Token(Number, s[..RunEnd(s, 1, IsNumberContinue)]))
    else
      var op := FindOperator(s, 0);
      if op >= 0 then
        assert |MULTI_OPERATORS[op]| >= 2 by { OperatorShape(op); }
        Lexed(Token(Operator, MULTI_OPERATORS[op]))
      else Lexed(Token(if IsPunct(s[0]) then Punct else Operator, s[..1]))
  }

  lemma OperatorShape(k: nat)
    requires k < |MULTI_OPERATORS|
    ensures 2 <= |MULTI_OPERATORS[k]| <= 3
    ensures ' ' !in MULTI_OPERATORS[k]
    ensures |MULTI_OPERATORS[k]| == 3 <==> k < 3
  {
  }

  /** All segments of a text, in order. */
  function Segments(s: string): seq<Segment>
    decreases |s|
  {
    if s == "" then []
    else
      var seg := Scan(s);
      [seg] + Segments(s[|seg.Text()|..])
  }

  /** `lex_code`: the tokens of a text. */
  function Lex(s: string): seq<Token>
    decreases |s|
  {
    if s == "" then []
    else
      var seg := Scan(s);
      var rest := Lex(s[|seg.Text()|..]);
      if seg.Lexed? then [seg.token] + rest else rest
  }

  // ---------------------------------------------------------------- the loops

  method ConsumeQuoted(s: string, quoteIndex: nat, quote: char) returns (index: nat)
    requires quoteIndex < |s|
    ensures index == QuotedEnd(s, quoteIndex + 1, quote)
  {
    index := quoteIndex + 1;
    while index < |s|
      invariant quoteIndex + 1 <= index <= |s|
      invariant QuotedEnd(s, quoteIndex + 1, quote) == QuotedEnd(s, index, quote)
    {
      if s[index] == '\\' {
        index := if index + 2 < |s| then index + 2 else |s|;
      } else if s[index] == quote {
        return index + 1;
      } else {
        index := index + 1;
      }
    }
  }

  method SkipLine(s: string) returns (index: nat)
    requires |s| >= 2
    ensures index == LineEnd(s, 2)
  {
    index := 2;
    while index < |s| && s[index] != '\n'
      invariant 2 <= index <= |s|
      invariant LineEnd(s, 2) == LineEnd(s, index)
    {
      index := index + 1;
    }
  }

  method SkipComment(s: string) returns (index: nat)
    requires |s| >= 2
    ensures index == CommentEnd(s, 2)
  {
    index := 2;
    while index + 1 < |s| && !("*/" <= s[index..])
      invariant 2 <= index <= |s|
      invariant CommentEnd(s, 2) == CommentEnd(s, index)
    {
      index := index + 1;
    }
    index := if index + 2 < |s| then index + 2 else |s|;
  }

  method TakeRun(s: string, p: char -> bool) returns (index: nat)
    requires s != ""
    ensures index == RunEnd(s, 1, p)
  {
    index := 1;
    while index < |s| && p(s[index])
      invariant 1 <= index <= |s|
      invariant RunEnd(s, 1, p) == RunEnd(s, index, p)
    {
      index := index + 1;
    }
  }

  /** The branches of the main loop for the text that is left. */
  method NextSegment(rest: string) returns (seg: Segment)
    requires rest != ""
    ensures seg == Scan(rest)
  {
    hide QuotedEnd, RunEnd, LineEnd, CommentEnd;
    var byte := rest[0];
    if IsSpace(byte) {
      return Skipped(rest[..1]);
    }
    if "//" <= rest {
      var end := SkipLine(rest);
      return Skipped(rest[..end]);
    }
    if "/*" <= rest {
      var end := SkipComment(rest);
      return Skipped(rest[..end]);
    }
    if QuoteIndex(rest) >= 0 {
      var end := ConsumeQuoted(rest, QuoteIndex(rest), '"');
      return Lexed(Token(StringLiteral, rest[..end]));
    }
    if byte == '\'' {
      var end := ConsumeQuoted(rest, 0, '\'');
      return Lexed(Token(CharLiteral, rest[..end]));
    }
    if IsIdentStart(byte) {
      var end := TakeRun(rest, IsIdentContinue);
      return Lexed(Token(Identifier, rest[..end]));
    }
    if IsDigit(byte) {
      var end := TakeRun(rest, IsNumberContinue);
      return Lexed(Token(Number, rest[..end]));
    }
    var op := FindOperator(rest, 0);
    if op >= 0 {
      return Lexed(Token(Operator, MULTI_OPERATORS[op]));
    }
    return Lexed(Token(if IsPunct(byte) then Punct else Operator, rest[..1]));
  }

  method LexCode(source: string) returns (tokens: seq<Token>)
    ensures tokens == Lex(source)
  {
    hide Scan;
    tokens := [];
    var index := 0;
    assert source[0..] == source;
    while index < |source|
      invariant index <= |source|
      invariant tokens + Lex(source[index..]) == Lex(source)
    {
      var rest := source[index..];
      var seg := NextSegment(rest);
      StepLexed(rest, seg, tokens);
      assert rest[|seg.Text()|..] == source[index + |seg.Text()|..];
      if seg.Lexed? {
        tokens := tokens + [seg.token];
      }
      index := index + |seg.Text()|;
    }
    assert source[index..] == "";
  }

  /** One loop iteration moves one segment from the text to the tokens. */
  lemma StepLexed(rest: string, seg: Segment, before: seq<Token>)
    requires rest != "" && seg == Scan(rest)
    ensures |seg.Text()| <= |rest|
    ensures (if seg.Lexed? then before + [seg.token] else before) + Lex(rest[|seg.Text()|..]) == before + Lex(rest)
  {
    hide Scan;
    var tail := Lex(rest[|seg.Text()|..]);
    if seg.Lexed? {
      assert Lex(rest) == [seg.token] + tail;
      Regroup(before, seg.token, tail);
    } else {
      assert Lex(rest) == tail;
    }
  }

  lemma Regroup(before: seq<Token>, token: Token, tail: seq<Token>)
    ensures (before + [token]) + tail == before + ([token] + tail)
  {
  }

  // ---------------------------------------------------------------- tiling

  function Joined(segments: seq<Segment>): string {
    if segments == [] then "" else segments[0].Text() + Joined(segments[1..])
  }

  function TokensOf(segments: seq<Segment>): seq<Token> {
    if segments == [] then []
    else (if segments[0].Lexed? then [segments[0].token] else []) + TokensOf(segments[1..])
  }

  /** Tokens and skipped text tile the source: nothing is lost, repeated or reordered. */
  lemma {:induction false} SegmentsTile(s: string)
    ensures Joined(Segments(s)) == s
    ensures TokensOf(Segments(s)) == Lex(s)
    ensures forall seg :: seg in Segments(s) ==> seg.Text() != ""
    decreases |s|
  {
    if s != "" {
      var seg := Scan(s);
      SegmentsTile(s[|seg.Text()|..]);
      assert s == seg.Text() + s[|seg.Text()|..];
    }
  }

  // ---------------------------------------------------------------- printing and lexing again

  /** The tokens separated by single spaces. */
  function Print(tokens: seq<Token>): string {
    if tokens == [] then ""
    else if |tokens| == 1 then tokens[0].text
    else tokens[0].text + " " + Print(tokens[1..])
  }

  /** The segment at the start of `s` is a literal that never closes. */
  predicate Open(s: string)
    requires s != ""
  {
    && !IsSpace(s[0]) && !("//" <= s) && !("/*" <= s)
    && (if QuoteIndex(s) >= 0 then Unterminated(s, QuoteIndex(s) + 1, '"')
        else s[0] == '\'' && Unterminated(s, 1, '\''))
  }

  /** `w` may follow a token without being absorbed into it. */
  predicate Separates(w: string) {
    w == "" || w[0] == ' '
  }

  lemma {:induction false} UnterminatedReachesEnd(s: string, i: nat, quote: char)
    requires i <= |s| && Unterminated(s, i, quote)
    ensures QuotedEnd(s, i, quote) == |s|
    decreases |s| - i
  {
    if i < |s| {
      UnterminatedReachesEnd(s, if s[i] == '\\' then if i + 2 < |s| then i + 2 else |s| else i + 1, quote);
    }
  }

  /** A closed literal ends at the same place whatever follows it. */
  lemma {:induction false} QuotedStable(s: string, i: nat, quote: char, e: nat, w: string)
    requires i <= |s| && !Unterminated(s, i, quote) && e == QuotedEnd(s, i, quote)
    ensures QuotedEnd(s[..e] + w, i, quote) == e && i < e
    decreases |s| - i
  {
    var t := s[..e] + w;
    if s[i] == '\\' {
      QuotedStable(s, if i + 2 < |s| then i + 2 else |s|, quote, e, w);
    } else if s[i] != quote {
      QuotedStable(s, i + 1, quote, e, w);
    }
    assert t[i] == s[i];
  }

  /** A run of accepted characters ends at a separator. */
  lemma {:induction false} RunStable(s: string, i: nat, p: char -> bool, e: nat, w: string)
    requires i <= |s| && e == RunEnd(s, i, p) && Separates(w) && !p(' ')
    ensures RunEnd(s[..e] + w, i, p) == e
    decreases |s| - i
  {
    var t := s[..e] + w;
    if i < e {
      assert t[i] == s[i];
      RunStable(s, i + 1, p, e, w);
    }
  }

  /** A token followed by a separator scans as itself, unless it is a literal left open. */
  lemma ScanStable(s: string, w: string)
    requires s != "" && Scan(s).Lexed? && Separates(w)
    requires Open(s) ==> w == ""
    ensures Scan(Scan(s).token.text + w) == Scan(s)
  {
    hide QuotedEnd, RunEnd, Unterminated, FindOperator;
    var text := Scan(s).token.text;
    var t := text + w;
    assert t[0] == s[0];
    if QuoteIndex(s) >= 0 {
      LiteralStable(s, QuoteIndex(s), '"', w);
      assert forall k :: 0 <= k < |text| ==> t[k] == s[k];
      assert QuoteIndex(t) == QuoteIndex(s);
    } else if s[0] == '\'' {
      LiteralStable(s, 0, '\'', w);
    } else if IsIdentStart(s[0]) {
      RunStable(s, 1, IsIdentContinue, |text|, w);
      IdentifierHasNoQuote(s, w);
    } else if IsDigit(s[0]) {
      RunStable(s, 1, IsNumberContinue, |text|, w);
    } else {
      OperatorStable(s, w);
    }
  }

  lemma LiteralStable(s: string, q: nat, quote: char, w: string)
    requires q < |s| && (Unterminated(s, q + 1, quote) ==> w == "")
    ensures var e := QuotedEnd(s, q + 1, quote); q < e && QuotedEnd(s[..e] + w, q + 1, quote) == e
  {
    var e := QuotedEnd(s, q + 1, quote);
    if Unterminated(s, q + 1, quote) {
      UnterminatedReachesEnd(s, q + 1, quote);
      assert s[..e] + w == s;
    } else {
      QuotedStable(s, q + 1, quote, e, w);
    }
  }

  lemma IdentifierHasNoQuote(s: string, w: string)
    requires s != "" && QuoteIndex(s) < 0 && IsIdentStart(s[0]) && Separates(w)
    ensures QuoteIndex(s[..RunEnd(s, 1, IsIdentContinue)] + w) < 0
  {
    var e := RunEnd(s, 1, IsIdentContinue);
    var t := s[..e] + w;
    assert t[0] == s[0];
    assert forall k :: 1 <= k < e ==> t[k] == s[k] && t[k] != '"';
    assert e < |t| ==> t[e] == ' ';
    assert |t| >= 3 ==> t[1] != '8' || t[2] != '"';
  }

  /** The first operator that starts the text is found again in front of a separator. */
  lemma FoundAgain(s: string, w: string, op: int)
    requires s != "" && Separates(w) && op == FindOperator(s, 0)
    ensures FindOperator((if op >= 0 then MULTI_OPERATORS[op] else s[..1]) + w, 0) == op
  {
    hide FindOperator;
    var text := if op >= 0 then MULTI_OPERATORS[op] else s[..1];
    forall k | 0 <= k < |MULTI_OPERATORS|
      ensures MULTI_OPERATORS[k] <= text + w ==> MULTI_OPERATORS[k] <= s && |MULTI_OPERATORS[k]| <= |text|
    {
      PrefixBeforeSeparator(MULTI_OPERATORS[k], text, w, k);
    }
    forall k | 0 <= k < |MULTI_OPERATORS| ensures |MULTI_OPERATORS[k]| >= 2 {
      OperatorShape(k);
    }
    var again := FindOperator(text + w, 0);
    if op >= 0 {
      assert MULTI_OPERATORS[op] <= text + w;
    }
    assert again >= 0 ==> MULTI_OPERATORS[again] <= text + w;
  }

  /** No operator contains a space, so a separator never lengthens or changes the match. */
  lemma OperatorStable(s: string, w: string)
    requires s != "" && Scan(s).Lexed? && Separates(w)
    requires QuoteIndex(s) < 0 && s[0] != '\'' && !IsIdentStart(s[0]) && !IsDigit(s[0])
    ensures Scan(Scan(s).token.text + w) == Scan(s)
  {
    hide FindOperator, RunEnd, QuotedEnd, LineEnd, CommentEnd;
    var text := Scan(s).token.text;
    var t := text + w;
    assert t[0] == s[0];
    FoundAgain(s, w, FindOperator(s, 0));
    assert |text| == 1 && |t| > 1 ==> t[1] == ' ';
    assert |text| >= 2 ==> t[1] == s[1];
  }

  lemma PrefixBeforeSeparator(op: string, text: string, w: string, k: nat)
    requires k < |MULTI_OPERATORS| && op == MULTI_OPERATORS[k] && Separates(w)
    ensures op <= text + w <==> op <= text
  {
    OperatorShape(k);
    if |text| < |op| && w != "" {
      assert op[|text|] in op;
      assert (text + w)[|text|] == ' ';
    }
  }

  /** A token in front of a separated rest is lexed first. */
  lemma LexCons(s: string, w: string)
    requires s != "" && Scan(s).Lexed? && Separates(w)
    requires Open(s) ==> w == ""
    ensures Lex(Scan(s).token.text + w) == [Scan(s).token] + Lex(w)
  {
    ScanStable(s, w);
    hide Scan, Open;
    var text := Scan(s).token.text;
    assert (text + w)[|text|..] == w;
  }

  /** Printing the tokens of any text and lexing the result gives the same tokens back. */
  lemma {:induction false} PrintLexRoundTrip(s: string)
    ensures Lex(Print(Lex(s))) == Lex(s)
    decreases |s|
  {
    hide Scan, Open;
    if s != "" {
      var seg := Scan(s);
      var rest := s[|seg.Text()|..];
      PrintLexRoundTrip(rest);
      if seg.Lexed? {
        var tokens := Lex(rest);
        var w := if tokens == [] then "" else " " + Print(tokens);
        if Open(s) {
          OpenIsLast(s);
          assert rest == "";
        }
        LexCons(s, w);
        SpaceSkipped(Print(tokens));
        PrintCons(seg.token, tokens);
      }
    }
  }

  lemma PrintCons(token: Token, tokens: seq<Token>)
    ensures Print([token] + tokens) == token.text + (if tokens == [] then "" else " " + Print(tokens))
  {
    assert ([token] + tokens)[1..] == tokens;
    assert token.text + "" == token.text;
    assert token.text + " " + Print(tokens) == token.text + (" " + Print(tokens));
  }

  lemma OpenIsLast(s: string)
    requires s != "" && Open(s)
    ensures Scan(s).Text() == s
  {
    if QuoteIndex(s) >= 0 {
      UnterminatedReachesEnd(s, QuoteIndex(s) + 1, '"');
    } else {
      UnterminatedReachesEnd(s, 1, '\'');
    }
  }

  lemma SpaceSkipped(s: string)
    ensures Lex(" " + s) == Lex(s)
  {
    assert (" " + s)[1..] == s;
  }

  /** The operator chosen is the longest one the text starts with. */
  lemma LongestOperator(s: string, k: nat)
    requires s != "" && Scan(s).Lexed? && Scan(s).token.kind.Operator?
    requires k < |MULTI_OPERATORS| && MULTI_OPERATORS[k] <= s
    ensures |MULTI_OPERATORS[k]| <= |Scan(s).token.text|
  {
    hide QuotedEnd, RunEnd, LineEnd, CommentEnd;
    var op := FindOperator(s, 0);
    OperatorShape(k);
    OperatorShape(op);
  }
}
