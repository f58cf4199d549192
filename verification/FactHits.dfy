/** What makes a fact of a score a hit, said of the text without following the scoring functions. */
module FactHits {
  import opened Prelude
  import opened Lexer
  import opened Pseudocode
  import opened Scorecard
  import opened Scoring

  // ---------------------------------------------------------------- words

  /** Equal but for the case of ASCII letters. */
  predicate SameLetters(a: string, b: string) {
    |a| == |b| && forall k :: 0 <= k < |a| ==> SameLetter(a[k], b[k])
  }

  predicate SameLetter(a: char, b: char) {
    a == b || ('A' <= a <= 'Z' && b as int == a as int + 32) || ('A' <= b <= 'Z' && a as int == b as int + 32)
  }

  lemma LowerIff(a: string, b: string)
    ensures Lower(a) == Lower(b) <==> SameLetters(a, b)
  {
    if Lower(a) == Lower(b) {
      forall k | 0 <= k < |a| ensures SameLetter(a[k], b[k]) {
        assert Lower(a)[k] == Lower(b)[k];
      }
    }
  }

  /** Punctuation has no case. */
  lemma PunctuationIs(t: Token, c: char)
    requires c in "()[]{},."
    ensures TokenIs(t, [c]) <==> t.text == [c]
  {
    LowerIff(t.text, [c]);
  }

  lemma DotsAre(t: Token)
    ensures TokenIs(t, "...") <==> t.text == "..."
  {
    LowerIff(t.text, "...");
  }

  // ---------------------------------------------------------------- literals

  /** A character of a literal as written: by itself or behind a backslash. */
  datatype Piece = Plain(c: char) | Escaped(c: char)

  function Meaning(p: Piece): char {
    match p
    case Plain(c) => c
    case Escaped(c) => if c == 'n' then '\n' else if c == 'r' then '\r' else if c == 't' then '\t' else if c == '0' then '\0' else c
  }

  predicate Writable(pieces: seq<Piece>) {
    forall p :: p in pieces && p.Plain? ==> p.c != '\\'
  }

  function Written(pieces: seq<Piece>): string {
    if pieces == [] then ""
    else (if pieces[0].Plain? then [pieces[0].c] else ['\\', pieces[0].c]) + Written(pieces[1..])
  }

  function Value(pieces: seq<Piece>): string {
    seq(|pieces|, i requires 0 <= i < |pieces| => Meaning(pieces[i]))
  }

  /** A backslash at the very end, with nothing to escape, stands for itself. */
  function Tail(open: bool): string { if open then "\\" else "" }

  /** One piece at the front is one character of the value. */
  lemma PieceUnescapes(p: Piece, more: string)
    requires p.Plain? ==> p.c != '\\'
    ensures Unescaped((if p.Plain? then [p.c] else ['\\', p.c]) + more) == [Meaning(p)] + Unescaped(more)
  {
    var text := (if p.Plain? then [p.c] else ['\\', p.c]) + more;
    assert text[if p.Plain? then 1 else 2..] == more;
  }

  lemma {:induction false} WrittenUnescapes(pieces: seq<Piece>, open: bool)
    requires Writable(pieces)
    ensures Unescaped(Written(pieces) + Tail(open)) == Value(pieces) + Tail(open)
    decreases |pieces|
  {
    hide Meaning;
    if pieces == [] {
      assert "" + Tail(open) == Tail(open) == Value([]) + Tail(open);
    } else {
      hide Unescaped, Tail;
      var p, rest := pieces[0], pieces[1..];
      assert p in pieces;
      WrittenUnescapes(rest, open);
      PieceUnescapes(p, Written(rest) + Tail(open));
      assert Written(pieces) + Tail(open) ==
        (if p.Plain? then [p.c] else ['\\', p.c]) + (Written(rest) + Tail(open));
      assert Value(pieces) == [Meaning(p)] + Value(rest);
    }
  }

  /** Every content of a literal is written in pieces. */
  lemma {:induction false} ContentInPieces(content: string) returns (pieces: seq<Piece>, open: bool)
    ensures Writable(pieces) && content == Written(pieces) + Tail(open)
    decreases |content|
  {
    if content == "" {
      pieces, open := [], false;
    } else if content == "\\" {
      pieces, open := [], true;
    } else {
      var piece := if content[0] == '\\' then Escaped(content[1]) else Plain(content[0]);
      var from := if content[0] == '\\' then 2 else 1;
      var rest;
      rest, open := ContentInPieces(content[from..]);
      pieces := [piece] + rest;
      assert pieces[1..] == rest;
    }
  }

  /** The text is a literal of this value: what stands between its first and its last quote, with its escapes. */
  ghost predicate Encodes(text: string, value: string) {
    exists prefix, pieces, open, suffix ::
      && '"' !in prefix && '"' !in suffix && Writable(pieces)
      && text == prefix + "\"" + (Written(pieces) + Tail(open)) + "\"" + suffix
      && value == Value(pieces) + Tail(open)
  }

  lemma {:induction false} FindFirst(s: string, c: char, k: nat)
    requires k < |s| && s[k] == c && c !in s[..k]
    ensures Find(s, c) == k
    decreases k
  {
    if k > 0 {
      assert s[..k][0] == s[0] && s[1..][..k - 1] == s[..k][1..];
      FindFirst(s[1..], c, k - 1);
    }
  }

  lemma {:induction false} FindMeans(s: string, c: char)
    ensures Find(s, c) < 0 ==> c !in s
    ensures Find(s, c) >= 0 ==> s[Find(s, c)] == c && c !in s[..Find(s, c)]
  {
    if s != "" && s[0] != c {
      FindMeans(s[1..], c);
      var at := Find(s[1..], c);
      if at >= 0 {
        assert s[..at + 1] == [s[0]] + s[1..][..at];
      } else {
        assert s == [s[0]] + s[1..];
      }
    }
  }

  lemma {:induction false} FindLast(s: string, c: char, k: nat)
    requires k < |s| && s[k] == c && c !in s[k + 1..]
    ensures RFind(s, c) == k
    decreases |s|
  {
    var front := s[..|s| - 1];
    if k < |s| - 1 {
      assert s[k + 1..][|s| - k - 2] == s[|s| - 1];
      assert front[k + 1..] == s[k + 1..][..|s| - k - 2];
      FindLast(front, c, k);
    }
  }

  lemma {:induction false} FindLastMeans(s: string, c: char)
    ensures RFind(s, c) < 0 ==> c !in s
    ensures RFind(s, c) >= 0 ==> s[RFind(s, c)] == c && c !in s[RFind(s, c) + 1..]
    decreases |s|
  {
    if s != "" && s[|s| - 1] != c {
      var front, last := s[..|s| - 1], s[|s| - 1];
      FindLastMeans(front, c);
      var at := RFind(front, c);
      assert s == front + [last];
      if at >= 0 {
        assert s[at + 1..] == front[at + 1..] + [last];
      }
    }
  }

  lemma DecodedEncodes(text: string, value: string)
    requires DecodeStringLiteral(text) == Some(value)
    ensures Encodes(text, value)
  {
    hide Find, RFind, Unescaped, Writable, Written, Value, Tail;
    var first, last := Find(text, '"'), RFind(text, '"');
    FindMeans(text, '"');
    FindLastMeans(text, '"');
    var content := text[first + 1..last];
    var pieces, open := ContentInPieces(content);
    WrittenUnescapes(pieces, open);
    assert text == text[..first] + "\"" + content + "\"" + text[last + 1..];
  }

  lemma QuotesFound(prefix: string, content: string, suffix: string)
    requires '"' !in prefix && '"' !in suffix
    ensures DecodeStringLiteral(prefix + "\"" + content + "\"" + suffix) == Some(Unescaped(content))
  {
    hide Find, RFind, Unescaped;
    var text, end := prefix + "\"" + content + "\"" + suffix, |prefix| + 1 + |content|;
    assert text[..|prefix|] == prefix && text[|prefix|] == '"';
    FindFirst(text, '"', |prefix|);
    assert text[end + 1..] == suffix && text[end] == '"';
    FindLast(text, '"', end);
    assert text[|prefix| + 1..end] == content;
  }

  /** A literal decodes to a value exactly when it encodes it. */
  lemma DecodesIff(text: string, value: string)
    ensures DecodeStringLiteral(text) == Some(value) <==> Encodes(text, value)
  {
    hide DecodeStringLiteral, Unescaped, Writable, Written, Value, Tail;
    if DecodeStringLiteral(text) == Some(value) {
      DecodedEncodes(text, value);
    }
    if Encodes(text, value) {
      var prefix, pieces, open, suffix :|
        && '"' !in prefix && '"' !in suffix && Writable(pieces)
        && text == prefix + "\"" + (Written(pieces) + Tail(open)) + "\"" + suffix
        && value == Value(pieces) + Tail(open);
      QuotesFound(prefix, Written(pieces) + Tail(open), suffix);
      WrittenUnescapes(pieces, open);
    }
  }

  // ---------------------------------------------------------------- tokens

  /**
   * Two tokens of a kind that count as the same: words and numbers but for case, string literals by the
   * value they encode, anything else as it is written.
   */
  ghost predicate Alike(a: Token, b: Token) {
    && a.kind == b.kind
    && match a.kind
       case Identifier | Number => SameLetters(a.text, b.text)
       case StringLiteral => a.text == b.text || exists value :: Encodes(a.text, value) && Encodes(b.text, value)
       case _ => a.text == b.text
  }

  lemma LiteralsAlike(a: string, b: string)
    ensures
      var x, y := DecodeStringLiteral(a), DecodeStringLiteral(b);
      (if x.Some? then "\"" + x.value + "\"" else a) == (if y.Some? then "\"" + y.value + "\"" else b) <==>
        a == b || exists value :: Encodes(a, value) && Encodes(b, value)
  {
    hide DecodeStringLiteral, Encodes;
    var x, y := DecodeStringLiteral(a), DecodeStringLiteral(b);
    if x.Some? {
      DecodesIff(a, x.value);
      DecodesIff(b, x.value);
    }
    if x.Some? && y.Some? {
      assert ("\"" + x.value + "\"")[1..|x.value| + 1] == x.value && ("\"" + y.value + "\"")[1..|y.value| + 1] == y.value;
    }
    if value :| Encodes(a, value) && Encodes(b, value) {
      DecodesIff(a, value);
      DecodesIff(b, value);
    }
    if x.Some? && y.None? {
      QuotedDecodes(x.value);
    }
    if x.None? && y.Some? {
      QuotedDecodes(y.value);
    }
  }

  /** A text between quotes is a literal of something. */
  lemma QuotedDecodes(s: string)
    ensures DecodeStringLiteral("\"" + s + "\"").Some?
  {
    QuotesFound("", s, "");
    assert "" + "\"" + s + "\"" + "" == "\"" + s + "\"";
  }

  lemma SameTokenIff(a: Token, b: Token)
    ensures SameToken(a, b) <==> Alike(a, b)
  {
    hide DecodeStringLiteral, Encodes;
    match a.kind
    case Identifier => LowerIff(a.text, b.text);
    case Number => LowerIff(a.text, b.text);
    case StringLiteral => LiteralsAlike(a.text, b.text);
    case _ =>
  }

  ghost predicate AllAlike(a: seq<Token>, b: seq<Token>) {
    |a| == |b| && forall k :: 0 <= k < |a| ==> Alike(a[k], b[k])
  }

  /** The body has the tokens of the expected text somewhere, one after another. */
  ghost predicate HasTokens(body: seq<Token>, expected: string) {
    Lex(expected) != [] && exists a, w, b :: body == a + w + b && AllAlike(w, Lex(expected))
  }

  lemma TokenHitIff(body: seq<Token>, expected: string)
    ensures TokenSequencePresent(body, expected) <==> HasTokens(body, expected)
  {
    hide Lex, SameToken, Alike;
    var wanted := Lex(expected);
    forall a, b ensures SameToken(a, b) <==> Alike(a, b) {
      SameTokenIff(a, b);
    }
    if TokenSequencePresent(body, expected) {
      var at :| 0 <= at <= |body| - |wanted| && WindowAt(body, wanted, at);
      var w := body[at..at + |wanted|];
      assert body == body[..at] + w + body[at + |wanted|..];
      assert AllAlike(w, wanted) by {
        forall k | 0 <= k < |w| ensures Alike(w[k], wanted[k]) {
          assert SameToken(body[at + k], wanted[k]);
        }
      }
    }
    if HasTokens(body, expected) {
      var a, w, b :| body == a + w + b && AllAlike(w, wanted);
      assert WindowAt(body, wanted, |a|) by {
        forall k | 0 <= k < |wanted| ensures SameToken(body[|a| + k], wanted[k]) {
          assert body[|a| + k] == w[k];
        }
      }
    }
  }

  ghost predicate HasWord(body: seq<Token>, word: string) {
    exists t :: t in body && SameLetters(t.text, word)
  }

  /** The expected control flow is there: a keyword, one of four for a loop, or else a sequence of tokens. */
  ghost predicate HasControl(body: seq<Token>, expected: string) {
    if SameLetters(expected, "loop") then
      HasWord(body, "while") || HasWord(body, "for") || HasWord(body, "do") || HasWord(body, "loop")
    else if exists w :: w in {"if", "else", "switch", "for", "break", "continue", "return"} && SameLetters(expected, w) then
      HasWord(body, expected)
    else HasTokens(body, Lower(expected))
  }

  lemma WordIff(body: seq<Token>, word: string)
    ensures AnyToken(body, [word]) <==> HasWord(body, word)
  {
    hide Lower, SameLetters;
    forall t ensures TokenIs(t, word) <==> SameLetters(t.text, word) {
      LowerIff(t.text, word);
    }
    if HasWord(body, word) {
      var t :| t in body && SameLetters(t.text, word);
      assert t in body && word in [word] && TokenIs(t, word);
    }
  }

  lemma {:induction false} AnyWord(body: seq<Token>, words: seq<string>)
    ensures AnyToken(body, words) <==> exists w :: w in words && HasWord(body, w)
  {
    hide Lower, SameLetters;
    forall t: Token, word ensures TokenIs(t, word) <==> SameLetters(t.text, word) {
      LowerIff(t.text, word);
    }
    if w :| w in words && HasWord(body, w) {
      var t :| t in body && SameLetters(t.text, w);
      assert t in body && w in words && TokenIs(t, w);
    }
  }

  lemma LowerWords()
    ensures forall w :: w in {"if", "else", "switch", "for", "break", "continue", "return", "loop"} ==> Lower(w) == w
  {
    LowerLetters("if");
    LowerLetters("else");
    LowerLetters("switch");
    LowerLetters("for");
    LowerLetters("break");
    LowerLetters("continue");
    LowerLetters("return");
    LowerLetters("loop");
  }

  lemma LowerLetters(w: string)
    requires forall k :: 0 <= k < |w| ==> 'a' <= w[k] <= 'z'
    ensures Lower(w) == w
  {
  }

  lemma LowerTwice(s: string)
    ensures Lower(Lower(s)) == Lower(s)
  {
  }

  lemma ControlHitIff(body: seq<Token>, expected: string)
    ensures ControlPresent(body, expected) <==> HasControl(body, expected)
  {
    hide Lower, SameLetters, AnyToken, TokenSequencePresent, HasTokens, HasWord;
    var word := Lower(expected);
    LowerWords();
    forall w | w in {"if", "else", "switch", "for", "break", "continue", "return", "loop"}
      ensures word == w <==> SameLetters(expected, w)
    {
      LowerIff(expected, w);
    }
    if word == "loop" {
      var loops := ["while", "for", "do", "loop"];
      AnyWord(body, loops);
      assert forall w :: w in loops <==> w == "while" || w == "for" || w == "do" || w == "loop";
      assert ControlPresent(body, expected) == AnyToken(body, loops);
    } else if word in ["if", "else", "switch", "for", "break", "continue", "return"] {
      WordIff(body, word);
      LowerTwice(expected);
      SameWord(body, word, expected);
      assert word in {"if", "else", "switch", "for", "break", "continue", "return"} && SameLetters(expected, word);
    } else {
      TokenHitIff(body, word);
    }
  }

  lemma SameWord(body: seq<Token>, a: string, b: string)
    requires Lower(a) == Lower(b)
    ensures HasWord(body, a) <==> HasWord(body, b)
  {
    hide Lower, SameLetters;
    forall t: Token ensures SameLetters(t.text, a) <==> SameLetters(t.text, b) {
      LowerIff(t.text, a);
      LowerIff(t.text, b);
    }
  }

  // ---------------------------------------------------------------- strings

  /** Some string literal of the body encodes the value. */
  ghost predicate HasString(body: seq<Token>, value: string) {
    exists t :: t in body && t.kind.StringLiteral? && Encodes(t.text, value)
  }

  lemma {:induction false} StringHitIff(body: seq<Token>, value: string)
    ensures value in LiteralsOf(body) <==> HasString(body, value)
    decreases |body|
  {
    hide DecodeStringLiteral, Encodes;
    if body != [] {
      var t, rest := body[0], body[1..];
      DecodesIff(t.text, value);
      StringHitIff(rest, value);
      assert body == [t] + rest;
    }
  }

  // ---------------------------------------------------------------- brackets and commas

  /** Opening less closing brackets among the tokens `from..to`. */
  function Balance(tokens: seq<Token>, from: nat, to: nat, opening: set<string>, closing: set<string>): int
    requires from <= to <= |tokens|
  {
    if from == to then 0
    else
      Balance(tokens, from, to - 1, opening, closing) +
      (if tokens[to - 1].text in opening then 1 else if tokens[to - 1].text in closing then -1 else 0)
  }

  /** No bracket that opened in front of token `k` is still open there; surplus closers count for nothing. */
  ghost predicate Outside(tokens: seq<Token>, k: nat, opening: set<string>, closing: set<string>)
    requires k <= |tokens|
  {
    forall j :: 0 <= j <= k ==> Balance(tokens, j, k, opening, closing) <= 0
  }

  const OPENING := {"(", "[", "{"}
  const CLOSING := {")", "]", "}"}

  lemma NestedIs(nested: nat, t: Token)
    ensures Nested(nested, t) ==
      if t.text in OPENING then nested + 1
      else if t.text in CLOSING && nested > 0 then nested - 1 else nested
  {
    hide Lower;
    PunctuationIs(t, '(');
    PunctuationIs(t, '[');
    PunctuationIs(t, '{');
    PunctuationIs(t, ')');
    PunctuationIs(t, ']');
    PunctuationIs(t, '}');
  }

  /** The nesting in front of a token is the most that is open since any token before it. */
  lemma {:induction false} LevelIsMost(tokens: seq<Token>, k: nat)
    requires k <= |tokens|
    ensures forall j :: 0 <= j <= k ==> Balance(tokens, j, k, OPENING, CLOSING) <= Level(tokens, k)
    ensures exists j :: 0 <= j <= k && Balance(tokens, j, k, OPENING, CLOSING) == Level(tokens, k)
    decreases k
  {
    hide Nested;
    if k > 0 {
      LevelIsMost(tokens, k - 1);
      NestedIs(Level(tokens, k - 1), tokens[k - 1]);
      assert Balance(tokens, k, k, OPENING, CLOSING) == 0;
      var j :| 0 <= j <= k - 1 && Balance(tokens, j, k - 1, OPENING, CLOSING) == Level(tokens, k - 1);
      assert Balance(tokens, j, k, OPENING, CLOSING) ==
        Level(tokens, k - 1) + (if tokens[k - 1].text in OPENING then 1 else if tokens[k - 1].text in CLOSING then -1 else 0);
    } else {
      assert Balance(tokens, 0, 0, OPENING, CLOSING) == 0;
    }
  }

  /** A comma separates arguments exactly when no bracket is open around it. */
  lemma TopCommaIff(tokens: seq<Token>, k: nat)
    requires k < |tokens|
    ensures TopComma(tokens, k) <==> tokens[k].text == "," && Outside(tokens, k, OPENING, CLOSING)
  {
    hide Level, Balance, Lower;
    PunctuationIs(tokens[k], ',');
    LevelIsMost(tokens, k);
  }

  // ---------------------------------------------------------------- formal parameters

  const PARAM_OPENING := {"(", "["}
  const PARAM_CLOSING := {")", "]"}

  /** The nesting that counting parameters keeps: braces do not count. */
  function ParamLevel(params: seq<Token>, k: nat): nat
    requires k <= |params|
  {
    if k == 0 then 0
    else
      var before, t := ParamLevel(params, k - 1), params[k - 1];
      if t.text in PARAM_OPENING then before + 1
      else if t.text in PARAM_CLOSING && before > 0 then before - 1 else before
  }

  lemma {:induction false} ParamLevelIsMost(params: seq<Token>, k: nat)
    requires k <= |params|
    ensures forall j :: 0 <= j <= k ==> Balance(params, j, k, PARAM_OPENING, PARAM_CLOSING) <= ParamLevel(params, k)
    ensures exists j :: 0 <= j <= k && Balance(params, j, k, PARAM_OPENING, PARAM_CLOSING) == ParamLevel(params, k)
    decreases k
  {
    if k > 0 {
      ParamLevelIsMost(params, k - 1);
      assert Balance(params, k, k, PARAM_OPENING, PARAM_CLOSING) == 0;
      var j :| 0 <= j <= k - 1 && Balance(params, j, k - 1, PARAM_OPENING, PARAM_CLOSING) == ParamLevel(params, k - 1);
      assert Balance(params, j, k, PARAM_OPENING, PARAM_CLOSING) ==
        ParamLevel(params, k - 1) +
        (if params[k - 1].text in PARAM_OPENING then 1 else if params[k - 1].text in PARAM_CLOSING then -1 else 0);
    } else {
      assert Balance(params, 0, 0, PARAM_OPENING, PARAM_CLOSING) == 0;
    }
  }

  /** A comma between two parameters. */
  ghost predicate Separator(params: seq<Token>, k: nat)
    requires k < |params|
  {
    params[k].text == "," && Outside(params, k, PARAM_OPENING, PARAM_CLOSING)
  }

  /** The separators from `from` on, in order. */
  ghost function Separators(params: seq<Token>, from: nat): (r: seq<nat>)
    requires from <= |params|
    ensures forall i, j :: 0 <= i < j < |r| ==> r[i] < r[j]
    ensures forall k :: k in r <==> from <= k < |params| && Separator(params, k)
    decreases |params| - from
  {
    if from == |params| then []
    else
      var rest := Separators(params, from + 1);
      assert forall i :: 0 <= i < |rest| ==> rest[i] in rest;
      if Separator(params, from) then [from] + rest else rest
  }

  /** Positions in `start..|params|` that ascend. */
  ghost predicate Fit(params: seq<Token>, start: nat, cuts: seq<nat>) {
    && start <= |params|
    && (forall i, j :: 0 <= i < j < |cuts| ==> cuts[i] < cuts[j])
    && forall i :: 0 <= i < |cuts| ==> start <= cuts[i] < |params|
  }

  /** The stretches between the cuts, the first one starting at `start`. */
  ghost function Stretches(params: seq<Token>, start: nat, cuts: seq<nat>): seq<seq<Token>>
    requires Fit(params, start, cuts)
    decreases |cuts|
  {
    if cuts == [] then [params[start..]]
    else [params[start..cuts[0]]] + Stretches(params, cuts[0] + 1, cuts[1..])
  }

  /** How many of the stretches declare a parameter: have a token other than dots. */
  ghost function Declared(stretches: seq<seq<Token>>): nat {
    if stretches == [] then 0
    else (if exists t :: t in stretches[0] && t.text != "..." then 1 else 0) + Declared(stretches[1..])
  }

  lemma SeparatorsFit(params: seq<Token>, start: nat, from: nat)
    requires start <= from <= |params|
    ensures Fit(params, start, Separators(params, from))
  {
    hide Separator;
    var cuts := Separators(params, from);
    forall i | 0 <= i < |cuts| ensures start <= cuts[i] < |params| {
      assert cuts[i] in cuts;
    }
  }

  lemma OnlyDots(segment: seq<Token>)
    ensures OnlyVarargs(segment) <==> forall t :: t in segment ==> t.text == "..."
  {
    hide Lower;
    forall t: Token ensures TokenIs(t, "...") <==> t.text == "..." {
      DotsAre(t);
    }
  }

  lemma SeparatorIff(params: seq<Token>, k: nat)
    requires k < |params|
    ensures Separator(params, k) <==> params[k].text == "," && ParamLevel(params, k) == 0
  {
    hide Balance, ParamLevel;
    ParamLevelIsMost(params, k);
  }

  lemma ParamTokens(t: Token)
    ensures TokenIs(t, ",") <==> t.text == ","
    ensures TokenIs(t, "(") || TokenIs(t, "[") <==> t.text in PARAM_OPENING
    ensures TokenIs(t, ")") || TokenIs(t, "]") <==> t.text in PARAM_CLOSING
  {
    hide Lower;
    PunctuationIs(t, ',');
    PunctuationIs(t, '(');
    PunctuationIs(t, '[');
    PunctuationIs(t, ')');
    PunctuationIs(t, ']');
  }

  /** One token further, with the nesting it leaves. */
  lemma CountStep(params: seq<Token>, start: nat, index: nat)
    requires start <= index < |params|
    ensures CountParams(params, start, index, ParamLevel(params, index)) ==
      if Separator(params, index) then
        (if exists t :: t in params[start..index] && t.text != "..." then 1 else 0)
        + CountParams(params, index + 1, index + 1, ParamLevel(params, index + 1))
      else CountParams(params, start, index + 1, ParamLevel(params, index + 1))
  {
    hide Separator, TokenIs, OnlyVarargs;
    OnlyDots(params[start..index]);
    ParamTokens(params[index]);
    SeparatorIff(params, index);
  }

  lemma CountEnd(params: seq<Token>, start: nat)
    requires start <= |params|
    ensures CountParams(params, start, |params|, ParamLevel(params, |params|)) ==
      if exists t :: t in params[start..] && t.text != "..." then 1 else 0
  {
    hide TokenIs, OnlyVarargs;
    assert params[start..|params|] == params[start..];
    OnlyDots(params[start..]);
  }

  lemma StretchesCons(params: seq<Token>, start: nat, cut: nat, rest: seq<nat>)
    requires start <= cut < |params| && Fit(params, start, [cut] + rest) && Fit(params, cut + 1, rest)
    ensures Stretches(params, start, [cut] + rest) == [params[start..cut]] + Stretches(params, cut + 1, rest)
  {
    assert ([cut] + rest)[1..] == rest;
  }

  lemma SeparatorsStep(params: seq<Token>, index: nat)
    requires index < |params|
    ensures Separators(params, index) ==
      (if Separator(params, index) then [index] else []) + Separators(params, index + 1)
  {
  }

  lemma SeparatorsEnd(params: seq<Token>, start: nat)
    requires Fit(params, start, [])
    ensures Separators(params, |params|) == [] && Stretches(params, start, []) == [params[start..]]
  {
  }

  lemma {:induction false} CountIsDeclared(params: seq<Token>, start: nat, index: nat)
    requires start <= index <= |params|
    ensures Fit(params, start, Separators(params, index))
    ensures CountParams(params, start, index, ParamLevel(params, index)) ==
      Declared(Stretches(params, start, Separators(params, index)))
    decreases |params| - index
  {
    hide Separator, CountParams, ParamLevel, Fit, Declared, Separators, Stretches;
    SeparatorsFit(params, start, index);
    if index == |params| {
      CountEnd(params, start);
      assert Fit(params, start, []) by { FitNothing(params, start); }
      SeparatorsEnd(params, start);
      DeclaredCons(params[start..], []);
      assert Declared([]) == 0 by { NothingDeclared(); }
      assert [params[start..]] + [] == [params[start..]];
    } else {
      CountStep(params, start, index);
      if Separator(params, index) {
        CountIsDeclared(params, index + 1, index + 1);
        var rest := Separators(params, index + 1);
        SeparatorsStep(params, index);
        StretchesCons(params, start, index, rest);
        DeclaredCons(params[start..index], Stretches(params, index + 1, rest));
      } else {
        CountIsDeclared(params, start, index + 1);
        SeparatorsStep(params, index);
        assert [] + Separators(params, index + 1) == Separators(params, index + 1);
      }
    }
  }

  lemma FitNothing(params: seq<Token>, start: nat)
    requires start <= |params|
    ensures Fit(params, start, [])
  {
  }

  lemma NothingDeclared()
    ensures Declared([]) == 0
  {
  }

  lemma DeclaredCons(first: seq<Token>, rest: seq<seq<Token>>)
    ensures Declared([first] + rest) == (if exists t :: t in first && t.text != "..." then 1 else 0) + Declared(rest)
  {
    assert ([first] + rest)[1..] == rest;
  }

  /** How many parameters these tokens declare: none if there is only `void`, else one for each stretch of more than dots. */
  ghost function DeclaredParams(params: seq<Token>): nat {
    if params == [] || (|params| == 1 && SameLetters(params[0].text, "void")) then 0
    else
      SeparatorsFit(params, 0, 0);
      Declared(Stretches(params, 0, Separators(params, 0)))
  }

  /** Between the last pair of parentheses of the header at least `n` parameters are declared. */
  ghost predicate HasParams(header: seq<Token>, n: nat) {
    exists open: nat, close: nat ::
      IsLastRange(header, open, close) && open < close < |header| && n <= DeclaredParams(header[open + 1..close])
  }

  lemma ParamHitIff(header: seq<Token>, n: nat)
    requires n > 0
    ensures FormalParams(header) >= n <==> HasParams(header, n)
  {
    hide IsLastRange, LastRange, CountParams, Lower, Separators, Stretches, SameLetters, Declared;
    forall open: nat, close: nat ensures LastRange(header) == Some((open, close)) <==> IsLastRange(header, open, close) {
      LastRangeIff(header, open, close);
    }
    var range := LastRange(header);
    if range.Some? {
      var params := header[range.value.0 + 1..range.value.1];
      if |params| == 1 {
        LowerIff(params[0].text, "void");
      }
      CountIsDeclared(params, 0, 0);
      assert FormalParams(header) == DeclaredParams(params);
    }
  }

  // ---------------------------------------------------------------- arguments

  /** How a token reads once normalised: words in lower case, string literals by their value between quotes. */
  ghost predicate Reads(t: Token, s: string) {
    match t.kind
    case Identifier | Number => SameLetters(t.text, s) && forall k :: 0 <= k < |s| ==> !('A' <= s[k] <= 'Z')
    case StringLiteral =>
      if exists value :: Encodes(t.text, value) then exists value :: Encodes(t.text, value) && s == "\"" + value + "\""
      else s == t.text
    case _ => s == t.text
  }

  lemma ReadsIff(t: Token, s: string)
    ensures NormalizedToken(t) == s <==> Reads(t, s)
  {
    hide DecodeStringLiteral, Encodes;
    match t.kind
    case Identifier => LowerReads(t.text, s);
    case Number => LowerReads(t.text, s);
    case StringLiteral =>
      forall value ensures DecodeStringLiteral(t.text) == Some(value) <==> Encodes(t.text, value) {
        DecodesIff(t.text, value);
      }
    case _ =>
  }

  lemma LowerReads(a: string, s: string)
    ensures Lower(a) == s <==> SameLetters(a, s) && forall k :: 0 <= k < |s| ==> !('A' <= s[k] <= 'Z')
  {
    if SameLetters(a, s) && forall k :: 0 <= k < |s| ==> !('A' <= s[k] <= 'Z') {
      forall k | 0 <= k < |s| ensures Lower(a)[k] == s[k] {
        assert SameLetter(a[k], s[k]);
      }
    }
    if Lower(a) == s {
      forall k | 0 <= k < |s| ensures SameLetter(a[k], s[k]) && !('A' <= s[k] <= 'Z') {
        assert Lower(a)[k] == s[k];
      }
    }
  }

  /** The tokens read as this text, one after another. */
  ghost predicate Spells(tokens: seq<Token>, s: string) {
    if tokens == [] then s == ""
    else exists first, rest :: s == first + rest && Reads(tokens[0], first) && Spells(tokens[1..], rest)
  }

  lemma {:induction false} SpellsIff(tokens: seq<Token>, s: string)
    ensures NormalizedText(tokens) == s <==> Spells(tokens, s)
    decreases |tokens|
  {
    hide NormalizedToken, Reads;
    if tokens != [] {
      var first, rest := NormalizedToken(tokens[0]), NormalizedText(tokens[1..]);
      ReadsIff(tokens[0], first);
      SpellsIff(tokens[1..], rest);
      if Spells(tokens, s) {
        var a, b :| s == a + b && Reads(tokens[0], a) && Spells(tokens[1..], b);
        ReadsIff(tokens[0], a);
        SpellsIff(tokens[1..], b);
      }
      if NormalizedText(tokens) == s {
        assert s == first + rest;
      }
    }
  }

  /** The comma positions of an argument list: those outside all brackets. */
  ghost predicate AreCommas(tokens: seq<Token>, cuts: seq<nat>) {
    && (forall i, j :: 0 <= i < j < |cuts| ==> cuts[i] < cuts[j])
    && (forall k :: k in cuts <==> 0 <= k < |tokens| && tokens[k].text == "," && Outside(tokens, k, OPENING, CLOSING))
  }

  /** The arguments are what stands between the commas outside all brackets; an empty list has none. */
  ghost predicate AreArguments(tokens: seq<Token>, arguments: seq<string>) {
    if tokens == [] then arguments == []
    else exists cuts ::
      && AreCommas(tokens, cuts) && |arguments| == |cuts| + 1
      && forall i :: 0 <= i < |arguments| ==> IsArgument(tokens, cuts, i, arguments[i])
  }

  ghost predicate IsArgument(tokens: seq<Token>, cuts: seq<nat>, i: nat, argument: string)
    requires i <= |cuts|
  {
    exists part :: IsStretch(tokens, 0, cuts, i, part) && Spells(part, argument)
  }

  lemma ArgumentsAre(tokens: seq<Token>)
    ensures AreArguments(tokens, Normalized(Split(tokens)))
  {
    hide TopComma, Level, Outside, Spells, NormalizedText, IsStretch;
    if tokens != [] {
      var cuts := SplitAtTopCommas(tokens);
      forall k: nat | k < |tokens|
        ensures TopComma(tokens, k) <==> tokens[k].text == "," && Outside(tokens, k, OPENING, CLOSING)
      {
        TopCommaIff(tokens, k);
      }
      var parts := Split(tokens);
      forall i | 0 <= i < |parts| ensures IsArgument(tokens, cuts, i, Normalized(parts)[i]) {
        SpellsIff(parts[i], NormalizedText(parts[i]));
        assert IsStretch(tokens, 0, cuts, i, parts[i]);
      }
    }
  }

  /**
   * What a call that closes at `c` says: its name in lower case and its arguments; but `call(name)` is a
   * call of that name, and nothing if there is anything else in it.
   */
  lemma SiteMeans(body: seq<Token>, i: nat, c: nat)
    requires i < |body| && Callable(body, i, c)
    ensures CallAt(body, i).Some? && CallAt(body, i).value.to == c + 1
    ensures i + 2 <= c < |body|
    ensures
      var site := CallAt(body, i).value.site;
      if SameLetters(body[i].text, "call") then
        if c == i + 3 && body[i + 2].kind.Identifier? then site == Some(CallSite(Lower(body[i + 2].text), [])) else site.None?
      else site.Some? && site.value.target == Lower(body[i].text) && AreArguments(body[i + 2..c], site.value.arguments)
  {
    hide Callable, Pseudocode.Matching, Lower, Split, AreArguments, Normalized;
    CallAtIff(body, i, c);
    LowerIff(body[i].text, "call");
    LowerWord();
    ArgumentsAre(body[i + 2..c]);
    if c == i + 3 {
      assert body[i + 2..c] == [body[i + 2]];
    }
  }

  lemma LowerWord()
    ensures Lower("call") == "call"
  {
    LowerLetters("call");
  }

  // ---------------------------------------------------------------- the report

  ghost predicate IsFact(f: Fact, kind: string, expected: string, hit: bool) {
    f.kind == kind && f.expected == expected && (f.hit <==> hit)
  }

  /** The call has the expected arguments, each reading the same. */
  ghost predicate HasArguments(call: CallSite, expected: seq<string>) {
    && |call.arguments| == |expected|
    && forall k :: 0 <= k < |expected| ==> Spells(Lex(expected[k]), call.arguments[k])
  }

  lemma ArgumentHitIff(call: CallSite, expected: seq<string>)
    ensures call.arguments == NormalizedArguments(expected) <==> HasArguments(call, expected)
  {
    hide Spells, NormalizedText, Lex;
    forall k | 0 <= k < |expected| && k < |call.arguments|
      ensures call.arguments[k] == NormalizedArguments(expected)[k] <==> Spells(Lex(expected[k]), call.arguments[k])
    {
      SpellsIff(Lex(expected[k]), call.arguments[k]);
    }
  }

  /** How many facts the first `n` expected calls give: one each, and one more where arguments are expected. */
  function CallFactsBefore(expected: seq<GoldCallFact>, n: nat): nat
    requires n <= |expected|
  {
    if n == 0 then 0 else CallFactsBefore(expected, n - 1) + (if expected[n - 1].arguments.Some? then 2 else 1)
  }

  /** The facts of one expected call, from position `at` of the report on. */
  ghost predicate CallReported(
    facts: seq<Fact>, at: nat, call: GoldCallFact, calls: seq<CallSite>, found: Option<nat>)
    requires found.Some? ==> found.value < |calls|
  {
    var name := Label(Names(call.aliases, true));
    && at < |facts| && IsFact(facts[at], "call", name, found.Some?)
    && (call.arguments.Some? ==>
         && at + 1 < |facts| && facts[at + 1].kind == "call_args"
         && (facts[at + 1].hit <==> found.Some? && HasArguments(calls[found.value], call.arguments.value)))
  }

  lemma FactsOfCallReported(call: GoldCallFact, calls: seq<CallSite>, found: Option<nat>)
    requires found.Some? ==> found.value < |calls|
    ensures |FactsOfCall(call, calls, found)| == if call.arguments.Some? then 2 else 1
    ensures CallReported(FactsOfCall(call, calls, found), 0, call, calls, found)
  {
    hide Label, Names, HasArguments, NormalizedArguments, Concat;
    if found.Some? && call.arguments.Some? {
      ArgumentHitIff(calls[found.value], call.arguments.value);
    }
  }

  lemma ReportedWithin(
    before: seq<Fact>, facts: seq<Fact>, after: seq<Fact>, at: nat, call: GoldCallFact, calls: seq<CallSite>, found: Option<nat>)
    requires (found.Some? ==> found.value < |calls|) && CallReported(facts, at, call, calls, found)
    ensures CallReported(before + facts + after, |before| + at, call, calls, found)
  {
    hide Label, Names, HasArguments;
    var all := before + facts + after;
    assert all[|before| + at] == facts[at];
    if at + 1 < |facts| {
      assert all[|before| + at + 1] == facts[at + 1];
    }
  }

  lemma {:induction false} CallFactsCount(expected: seq<GoldCallFact>, calls: seq<CallSite>, matches: seq<Option<nat>>)
    requires |matches| == |expected|
    requires forall m :: m in matches && m.Some? ==> m.value < |calls|
    ensures |CallFacts(expected, calls, matches)| == CallFactsBefore(expected, |expected|)
    decreases |expected|
  {
    hide FactsOfCall;
    if expected != [] {
      var k := |expected| - 1;
      CallFactsCount(expected[..k], calls, matches[..k]);
      FactsOfCallReported(expected[k], calls, matches[k]);
      BeforeSame(expected, k, k);
    }
  }

  /** Every expected call is reported, in its place. */
  lemma {:induction false} CallsReported(
    expected: seq<GoldCallFact>, calls: seq<CallSite>, matches: seq<Option<nat>>, n: nat)
    requires |matches| == |expected| && n < |expected|
    requires forall m :: m in matches && m.Some? ==> m.value < |calls|
    ensures CallReported(CallFacts(expected, calls, matches), CallFactsBefore(expected, n), expected[n], calls, matches[n])
    decreases |expected|
  {
    hide CallReported, FactsOfCall, CallFactsBefore;
    var k := |expected| - 1;
    var front, last := CallFacts(expected[..k], calls, matches[..k]), FactsOfCall(expected[k], calls, matches[k]);
    CallFactsCount(expected[..k], calls, matches[..k]);
    BeforeSame(expected, k, k);
    BeforeSame(expected, k, if n < k then n else k);
    if n < k {
      CallsReported(expected[..k], calls, matches[..k], n);
      ReportedWithin([], front, last, CallFactsBefore(expected, n), expected[n], calls, matches[n]);
      assert [] + front + last == front + last;
    } else {
      FactsOfCallReported(expected[k], calls, matches[k]);
      ReportedWithin(front, last, [], 0, expected[n], calls, matches[n]);
      assert front + last + [] == front + last;
    }
  }

  lemma {:induction false} BeforeSame(expected: seq<GoldCallFact>, k: nat, n: nat)
    requires n <= k <= |expected|
    ensures CallFactsBefore(expected[..k], n) == CallFactsBefore(expected, n)
  {
    if n > 0 {
      BeforeSame(expected, k, n - 1);
    }
  }

  ghost predicate TokensReported(facts: seq<Fact>, at: nat, body: seq<Token>, tokens: seq<string>) {
    && at + |tokens| <= |facts|
    && forall i: nat :: i < |tokens| ==> IsFact(facts[at + i], "token", tokens[i], HasTokens(body, tokens[i]))
  }

  ghost predicate ControlReported(facts: seq<Fact>, at: nat, body: seq<Token>, words: seq<string>) {
    && at + |words| <= |facts|
    && forall i: nat :: i < |words| ==> IsFact(facts[at + i], "control", words[i], HasControl(body, words[i]))
  }

  ghost predicate CallsAllReported(
    facts: seq<Fact>, at: nat, expected: seq<GoldCallFact>, calls: seq<CallSite>, matches: seq<Option<nat>>)
    requires |matches| == |expected|
    requires forall m :: m in matches && m.Some? ==> m.value < |calls|
  {
    forall n: nat :: n < |expected| ==>
      CallReported(facts, at + CallFactsBefore(expected, n), expected[n], calls, matches[n])
  }

  ghost predicate StringsReported(facts: seq<Fact>, at: nat, body: seq<Token>, strings: seq<string>) {
    && at + |strings| <= |facts|
    && forall i: nat :: i < |strings| ==> IsFact(facts[at + i], "string", strings[i], HasString(body, strings[i]))
  }

  ghost predicate ParamsReported(facts: seq<Fact>, at: nat, header: seq<Token>, minParams: nat) {
    minParams > 0 ==> at < |facts| && facts[at].kind == "params" && (facts[at].hit <==> HasParams(header, minParams))
  }

  ghost predicate QualityReported(
    facts: seq<Fact>, at: nat, body: seq<Token>, quality: seq<string>, gate: (seq<Token>, string) -> bool)
  {
    && at + |quality| <= |facts|
    && forall i: nat :: i < |quality| ==> IsFact(facts[at + i], "quality", quality[i], gate(body, quality[i]))
  }

  /** Where the facts of each kind are in a report, and when they are hits. */
  ghost predicate Reported(
    facts: seq<Fact>, gold: GoldFunction, parsed: ParsedFunction, matches: seq<Option<nat>>,
    gate: (seq<Token>, string) -> bool)
    requires |matches| == |ExpectedCalls(gold)|
    requires forall m :: m in matches && m.Some? ==> m.value < |DirectCalls(parsed.body)|
  {
    var expected := ExpectedCalls(gold);
    var control := |gold.mustTokens|;
    var calls := control + |gold.control|;
    var strings := calls + CallFactsBefore(expected, |expected|);
    var params := strings + |gold.strings|;
    var quality := params + if gold.minParams > 0 then 1 else 0;
    && |facts| == quality + |gold.quality|
    && TokensReported(facts, 0, parsed.body, gold.mustTokens)
    && ControlReported(facts, control, parsed.body, gold.control)
    && CallsAllReported(facts, calls, expected, DirectCalls(parsed.body), matches)
    && StringsReported(facts, strings, parsed.body, gold.strings)
    && ParamsReported(facts, params, parsed.header, gold.minParams)
    && QualityReported(facts, quality, parsed.body, gold.quality, gate)
  }

  /** Elements of the middle part of a report. */
  lemma Middle(a: seq<Fact>, b: seq<Fact>, c: seq<Fact>, i: nat)
    requires i < |b|
    ensures (a + b + c)[|a| + i] == b[i]
  {
  }

  lemma TokensWithin(a: seq<Fact>, c: seq<Fact>, body: seq<Token>, tokens: seq<string>)
    ensures TokensReported(a + TokenFacts(body, tokens) + c, |a|, body, tokens)
  {
    hide TokenSequencePresent, HasTokens;
    var b := TokenFacts(body, tokens);
    forall i: nat | i < |tokens| ensures IsFact((a + b + c)[|a| + i], "token", tokens[i], HasTokens(body, tokens[i])) {
      Middle(a, b, c, i);
      TokenHitIff(body, tokens[i]);
    }
  }

  lemma ControlWithin(a: seq<Fact>, c: seq<Fact>, body: seq<Token>, words: seq<string>)
    ensures ControlReported(a + ControlFacts(body, words) + c, |a|, body, words)
  {
    hide ControlPresent, HasControl;
    var b := ControlFacts(body, words);
    forall i: nat | i < |words| ensures IsFact((a + b + c)[|a| + i], "control", words[i], HasControl(body, words[i])) {
      Middle(a, b, c, i);
      ControlHitIff(body, words[i]);
    }
  }

  lemma CallsWithin(
    a: seq<Fact>, c: seq<Fact>, expected: seq<GoldCallFact>, calls: seq<CallSite>, matches: seq<Option<nat>>)
    requires |matches| == |expected|
    requires forall m :: m in matches && m.Some? ==> m.value < |calls|
    ensures CallsAllReported(a + CallFacts(expected, calls, matches) + c, |a|, expected, calls, matches)
  {
    hide CallFacts, CallReported, CallFactsBefore;
    forall n: nat | n < |expected|
      ensures CallReported(a + CallFacts(expected, calls, matches) + c, |a| + CallFactsBefore(expected, n), expected[n],
                           calls, matches[n])
    {
      CallsReported(expected, calls, matches, n);
      ReportedWithin(a, CallFacts(expected, calls, matches), c, CallFactsBefore(expected, n), expected[n], calls, matches[n]);
    }
  }

  lemma StringsWithin(a: seq<Fact>, c: seq<Fact>, body: seq<Token>, strings: seq<string>)
    ensures StringsReported(a + StringFacts(LiteralsOf(body), strings) + c, |a|, body, strings)
  {
    hide LiteralsOf, HasString;
    var b := StringFacts(LiteralsOf(body), strings);
    forall i: nat | i < |strings| ensures IsFact((a + b + c)[|a| + i], "string", strings[i], HasString(body, strings[i])) {
      Middle(a, b, c, i);
      StringHitIff(body, strings[i]);
    }
  }

  lemma ParamsWithin(a: seq<Fact>, c: seq<Fact>, header: seq<Token>, minParams: nat)
    ensures ParamsReported(a + ParamFacts(header, minParams) + c, |a|, header, minParams)
  {
    hide FormalParams, HasParams;
    if minParams > 0 {
      ParamHitIff(header, minParams);
      Middle(a, ParamFacts(header, minParams), c, 0);
    }
  }

  lemma QualityWithin(a: seq<Fact>, body: seq<Token>, quality: seq<string>, gate: (seq<Token>, string) -> bool)
    ensures QualityReported(a + QualityFacts(body, quality, gate), |a|, body, quality, gate)
  {
  }

  /** The facts of a text are reported kind by kind, and each is a hit exactly when the text has what it expects. */
  lemma FactsReported(
    text: string, gold: GoldFunction, matches: seq<Option<nat>>, gate: (seq<Token>, string) -> bool)
    requires |matches| == |ExpectedCalls(gold)|
    requires forall m :: m in matches && m.Some? ==> m.value < |DirectCalls(ParsedOrEmpty(text).body)|
    ensures Reported(AllFacts(text, gold, matches, gate), gold, ParsedOrEmpty(text), matches, gate)
  {
    hide ExpectedCalls, DirectCalls, ParsedOrEmpty, CallFacts, CallFactsBefore, TokensReported, ControlReported,
      CallsAllReported, StringsReported, ParamsReported, QualityReported, TokenSequencePresent, ControlPresent,
      LiteralsOf, FormalParams;
    var parsed, expected := ParsedOrEmpty(text), ExpectedCalls(gold);
    var sites := DirectCalls(parsed.body);
    var a, b := TokenFacts(parsed.body, gold.mustTokens), ControlFacts(parsed.body, gold.control);
    var c, d := CallFacts(expected, sites, matches), StringFacts(LiteralsOf(parsed.body), gold.strings);
    var e, f := ParamFacts(parsed.header, gold.minParams), QualityFacts(parsed.body, gold.quality, gate);
    var facts := AllFacts(text, gold, matches, gate);
    CallFactsCount(expected, sites, matches);
    assert facts == a + b + c + d + e + f;
    hide TokenFacts, ControlFacts, StringFacts, ParamFacts, QualityFacts;
    TokensWithin([], b + c + d + e + f, parsed.body, gold.mustTokens);
    assert facts == [] + a + (b + c + d + e + f);
    ControlWithin(a, c + d + e + f, parsed.body, gold.control);
    assert facts == a + b + (c + d + e + f);
    CallsWithin(a + b, d + e + f, expected, sites, matches);
    assert facts == (a + b) + c + (d + e + f);
    StringsWithin(a + b + c, e + f, parsed.body, gold.strings);
    assert facts == (a + b + c) + d + (e + f);
    ParamsWithin(a + b + c + d, f, parsed.header, gold.minParams);
    assert facts == (a + b + c + d) + e + f;
    QualityWithin(a + b + c + d + e, parsed.body, gold.quality, gate);
    PartLengths(parsed, gold, gate);
  }

  lemma PartLengths(parsed: ParsedFunction, gold: GoldFunction, gate: (seq<Token>, string) -> bool)
    ensures |TokenFacts(parsed.body, gold.mustTokens)| == |gold.mustTokens|
    ensures |ControlFacts(parsed.body, gold.control)| == |gold.control|
    ensures |StringFacts(LiteralsOf(parsed.body), gold.strings)| == |gold.strings|
    ensures |ParamFacts(parsed.header, gold.minParams)| == if gold.minParams > 0 then 1 else 0
    ensures |QualityFacts(parsed.body, gold.quality, gate)| == |gold.quality|
  {
  }
}
