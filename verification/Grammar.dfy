/** What the lexer's tokens are, said without following its loops. */
module Grammar {
  import opened Decimals
  import opened Lexer

  // ---------------------------------------------------------------- literals

  /** Length of the run of backslashes that ends just before `k`, looking back no further than `from`. */
  function Slashes(s: string, from: nat, k: nat): nat
    requires from <= k <= |s|
    decreases k
  {
    if k == from || s[k - 1] != '\\' then 0 else Slashes(s, from, k - 1) + 1
  }

  /** The quote at `k` closes a literal whose content starts at `from`: it is not escaped. */
  predicate Closing(s: string, from: nat, quote: char, k: nat)
    requires from <= k < |s|
  {
    s[k] == quote && Slashes(s, from, k) % 2 == 0
  }

  predicate NoneCloses(s: string, from: nat, quote: char, e: nat)
    requires e <= |s|
  {
    forall k :: from <= k < e ==> !Closing(s, from, quote, k)
  }

  /** Skipping an escaped pair does not change which later quotes are escaped. */
  lemma {:induction false} SlashesSkip(s: string, from: nat, k: nat)
    requires from + 2 <= k <= |s| && s[from] == '\\'
    ensures Slashes(s, from, k) % 2 == Slashes(s, from + 2, k) % 2
    decreases k
  {
    if k > from + 2 && s[k - 1] == '\\' {
      SlashesSkip(s, from, k - 1);
    } else if k == from + 2 && s[from + 1] == '\\' {
      assert Slashes(s, from, from + 1) == Slashes(s, from, from) + 1 == 1;
      assert Slashes(s, from, from + 2) == 2;
    }
  }

  lemma {:induction false} SlashesStep(s: string, from: nat, k: nat)
    requires from + 1 <= k <= |s| && s[from] != '\\'
    ensures Slashes(s, from, k) == Slashes(s, from + 1, k)
    decreases k
  {
    if k > from + 1 && s[k - 1] == '\\' {
      SlashesStep(s, from, k - 1);
    }
  }

  /** Past an escaped pair, or an ordinary character, the same quotes close. */
  lemma ClosingAhead(s: string, from: nat, quote: char, e: nat)
    requires from < e <= |s| && quote != '\\'
    requires s[from] != quote
    ensures var next := if s[from] == '\\' then from + 2 else from + 1;
      && (NoneCloses(s, from, quote, e) <==> NoneCloses(s, next, quote, e))
      && (forall k :: next <= k < e ==> (Closing(s, from, quote, k) <==> Closing(s, next, quote, k)))
      && (forall k :: from <= k < next && k < e ==> !Closing(s, from, quote, k))
  {
    var next := if s[from] == '\\' then from + 2 else from + 1;
    forall k | next <= k < e ensures Closing(s, from, quote, k) <==> Closing(s, next, quote, k) {
      if s[from] == '\\' {
        SlashesSkip(s, from, k);
      } else {
        SlashesStep(s, from, k);
      }
    }
    forall k | from <= k < next && k < e ensures !Closing(s, from, quote, k) {
      if k == from + 1 {
        assert Slashes(s, from, from + 1) == Slashes(s, from, from) + 1 == 1;
      }
    }
    if NoneCloses(s, from, quote, e) {
      forall k | next <= k < e ensures !Closing(s, next, quote, k) {
        assert !Closing(s, from, quote, k);
      }
    }
    if NoneCloses(s, next, quote, e) {
      forall k | from <= k < e ensures !Closing(s, from, quote, k) {
        if k >= next {
          assert !Closing(s, next, quote, k);
        }
      }
    }
  }

  /** A literal ends just after the first quote that an even number of backslashes precedes. */
  lemma {:induction false} QuotedIff(s: string, from: nat, quote: char, e: nat)
    requires from <= e < |s| && quote != '\\'
    ensures !Unterminated(s, from, quote) && QuotedEnd(s, from, quote) == e + 1 <==>
      Closing(s, from, quote, e) && NoneCloses(s, from, quote, e)
    decreases |s| - from
  {
    hide NoneCloses, Closing;
    if s[from] == quote {
      assert Closing(s, from, quote, from) by { QuoteCloses(s, from, quote); }
      assert from < e ==> !NoneCloses(s, from, quote, e) by { FirstCloses(s, from, quote, e); }
      assert from == e ==> NoneCloses(s, from, quote, e) by { NothingCloses(s, from, quote, e); }
    } else {
      var next := if s[from] == '\\' then from + 2 else from + 1;
      ClosingAhead(s, from, quote, e + 1);
      if next <= e {
        ClosingAhead(s, from, quote, e);
        QuotedIff(s, next, quote, e);
      } else {
        QuotedAhead(s, if next < |s| then next else |s|, quote);
      }
    }
  }

  lemma QuoteCloses(s: string, from: nat, quote: char)
    requires from < |s| && s[from] == quote
    ensures Closing(s, from, quote, from)
  {
  }

  lemma FirstCloses(s: string, from: nat, quote: char, e: nat)
    requires from < |s| && s[from] == quote && e <= |s|
    ensures from < e ==> !NoneCloses(s, from, quote, e)
  {
    if from < e {
      assert Closing(s, from, quote, from);
    }
  }

  lemma NothingCloses(s: string, from: nat, quote: char, e: nat)
    requires e <= |s|
    ensures e <= from ==> NoneCloses(s, from, quote, e)
  {
  }

  lemma {:induction false} QuotedAhead(s: string, from: nat, quote: char)
    requires from <= |s|
    ensures !Unterminated(s, from, quote) ==> QuotedEnd(s, from, quote) > from
    decreases |s| - from
  {
    if from < |s| && s[from] == '\\' {
      QuotedAhead(s, if from + 2 < |s| then from + 2 else |s|, quote);
    } else if from < |s| && s[from] != quote {
      QuotedAhead(s, from + 1, quote);
    }
  }

  /** A literal stays open exactly when no quote in the rest of the text closes it. */
  lemma {:induction false} OpenIff(s: string, from: nat, quote: char)
    requires from <= |s| && quote != '\\'
    ensures Unterminated(s, from, quote) <==> NoneCloses(s, from, quote, |s|)
    decreases |s| - from
  {
    hide NoneCloses, Closing;
    if from == |s| {
      NothingCloses(s, from, quote, |s|);
    } else if s[from] == quote {
      FirstCloses(s, from, quote, |s|);
    } else {
      var next := if s[from] == '\\' then from + 2 else from + 1;
      ClosingAhead(s, from, quote, |s|);
      if next <= |s| {
        OpenIff(s, next, quote);
      } else {
        NothingCloses(s, next, quote, |s|);
      }
    }
  }

  // ---------------------------------------------------------------- comments

  predicate ClosesComment(s: string, k: nat) {
    k + 1 < |s| && s[k] == '*' && s[k + 1] == '/'
  }

  /** A block comment ends just after the first terminator, or with the text if there is none. */
  lemma {:induction false} CommentEndIff(s: string, from: nat, e: nat)
    requires from <= e && from < |s|
    ensures ClosesComment(s, e) && (forall k :: from <= k < e ==> !ClosesComment(s, k)) ==> CommentEnd(s, from) == e + 2
    ensures (forall k :: from <= k < |s| ==> !ClosesComment(s, k)) ==> CommentEnd(s, from) == |s|
    decreases |s| - from
  {
    assert "*/" <= s[from..] <==> ClosesComment(s, from) by {
      if from + 1 < |s| {
        assert s[from..][0] == s[from] && s[from..][1] == s[from + 1];
      }
    }
    if from + 1 < |s| && !ClosesComment(s, from) {
      CommentEndIff(s, from + 1, if from < e then e else from + 1);
    }
  }

  /** A line comment runs up to the first newline, which it does not take. */
  lemma {:induction false} LineEndIff(s: string, from: nat)
    requires from <= |s|
    ensures '\n' !in s[from..LineEnd(s, from)]
    ensures LineEnd(s, from) < |s| ==> s[LineEnd(s, from)] == '\n'
    decreases |s| - from
  {
    if from < |s| && s[from] != '\n' {
      LineEndIff(s, from + 1);
      assert s[from..LineEnd(s, from)] == [s[from]] + s[from + 1..LineEnd(s, from)];
    }
  }

  // ---------------------------------------------------------------- tokens

  const PREFIXES: set<string> := {"", "u8", "u", "U", "L"}

  predicate AllFrom(text: string, from: nat, p: char -> bool) {
    forall k :: from <= k < |text| ==> p(text[k])
  }

  /** `text` is a literal: prefix, opening quote, and no closing quote before its last character. */
  ghost predicate IsLiteral(text: string, prefixes: set<string>, quote: char) {
    exists p :: p in prefixes && p + [quote] <= text && NoneCloses(text, |p| + 1, quote, |text| - 1)
  }

  /** The shape each kind of token has. */
  ghost predicate Shaped(t: Token) {
    match t.kind
    case Identifier => t.text != "" && IsIdentStart(t.text[0]) && AllFrom(t.text, 1, IsIdentContinue)
    case Number => t.text != "" && IsDigit(t.text[0]) && AllFrom(t.text, 1, IsNumberContinue)
    case StringLiteral => IsLiteral(t.text, PREFIXES, '"')
    case CharLiteral => IsLiteral(t.text, {""}, '\'')
    case Operator => t.text in MULTI_OPERATORS || (|t.text| == 1 && !IsPunct(t.text[0]) && !IsSpace(t.text[0]))
    case Punct => |t.text| == 1 && IsPunct(t.text[0])
  }

  /** Escapes are decided by what comes before, so they are the same in a prefix of the text. */
  lemma {:induction false} SlashesPrefix(s: string, e: nat, from: nat, k: nat)
    requires from <= k <= e <= |s|
    ensures Slashes(s[..e], from, k) == Slashes(s, from, k)
    decreases k
  {
    if k > from && s[k - 1] == '\\' {
      SlashesPrefix(s, e, from, k - 1);
    }
  }

  /** Scanning a literal from its opening quote yields a literal. */
  lemma LiteralShaped(s: string, p: string, prefixes: set<string>, quote: char)
    requires p in prefixes && p + [quote] <= s && quote != '\\'
    ensures IsLiteral(s[..QuotedEnd(s, |p| + 1, quote)], prefixes, quote)
  {
    var from, e := |p| + 1, QuotedEnd(s, |p| + 1, quote);
    var text := s[..e];
    assert p + [quote] == s[..from] <= text;
    OpenIff(s, from, quote);
    if !Unterminated(s, from, quote) {
      QuotedAhead(s, from, quote);
      QuotedIff(s, from, quote, e - 1);
    }
    forall k | from <= k < |text| - 1 ensures !Closing(text, from, quote, k) {
      SlashesPrefix(s, e, from, k);
      assert !Closing(s, from, quote, k);
    }
    assert NoneCloses(text, from, quote, |text| - 1);
  }

  lemma PrefixOf(s: string) returns (p: string)
    requires s != "" && QuoteIndex(s) >= 0
    ensures p in PREFIXES && |p| == QuoteIndex(s) && p + "\"" <= s
  {
    p := if s[0] == '"' then "" else if "u8\"" <= s then "u8" else s[..1];
    if s[0] != '"' && !("u8\"" <= s) {
      assert s[..1] == [s[0]];
      assert p == "u" || p == "U" || p == "L";
    } else if s[0] != '"' {
      assert s[2] == "u8\""[2] == '"';
    }
    assert p + "\"" == s[..QuoteIndex(s) + 1];
  }

  lemma ScanShaped(s: string)
    requires s != "" && Scan(s).Lexed?
    ensures Shaped(Scan(s).token)
  {
    hide IsLiteral, QuotedEnd, FindOperator, QuoteIndex;
    if QuoteIndex(s) >= 0 {
      var p := PrefixOf(s);
      LiteralShaped(s, p, PREFIXES, '"');
    } else if s[0] == '\'' {
      LiteralShaped(s, "", {""}, '\'');
    } else if !IsIdentStart(s[0]) && !IsDigit(s[0]) {
      OperatorShaped(s);
    }
  }

  lemma OperatorShaped(s: string)
    requires s != "" && Scan(s).Lexed?
    requires QuoteIndex(s) < 0 && s[0] != '\'' && !IsIdentStart(s[0]) && !IsDigit(s[0])
    ensures var t := Scan(s).token;
      if t.kind.Punct? then |t.text| == 1 && IsPunct(t.text[0])
      else t.kind.Operator? && (t.text in MULTI_OPERATORS || (|t.text| == 1 && !IsPunct(t.text[0]) && !IsSpace(t.text[0])))
  {
    hide IsLiteral, QuotedEnd, FindOperator, QuoteIndex, IsPunct, IsSpace;
    if FindOperator(s, 0) >= 0 {
      assert MULTI_OPERATORS[FindOperator(s, 0)] in MULTI_OPERATORS;
    }
  }

  /** Every token the lexer produces has the shape of its kind. */
  lemma {:induction false} TokensShaped(s: string)
    ensures forall t :: t in Lex(s) ==> Shaped(t)
    decreases |s|
  {
    hide Shaped, Scan;
    if s != "" {
      TokensShaped(s[|Scan(s).Text()|..]);
      if Scan(s).Lexed? {
        ScanShaped(s);
      }
    }
  }

  /** Identifiers and numbers are as long as they can be. */
  lemma RunsAreMaximal(s: string)
    requires s != "" && Scan(s).Lexed?
    ensures var t := Scan(s).token;
      |t.text| < |s| ==>
        && (t.kind.Identifier? ==> !IsIdentContinue(s[|t.text|]))
        && (t.kind.Number? ==> !IsNumberContinue(s[|t.text|]))
  {
    hide FindOperator, QuotedEnd;
  }

  /** What yields no token is one whitespace character or one comment. */
  lemma SkippedIsBlank(s: string)
    requires s != "" && Scan(s).Skipped?
    ensures var t := Scan(s).skipped;
      || (|t| == 1 && IsSpace(t[0]))
      || ("//" <= t && '\n' !in t[2..] && (|t| == |s| || s[|t|] == '\n'))
      || ("/*" <= t && (forall k :: 2 <= k < |t| - 2 ==> !ClosesComment(t, k)) && (|t| == |s| || ClosesComment(t, |t| - 2)))
  {
    if !IsSpace(s[0]) && "//" <= s {
      LineEndIff(s, 2);
      var t := s[..LineEnd(s, 2)];
      assert t[2..] == s[2..LineEnd(s, 2)];
      assert "//" == s[..2] == t[..2];
    } else if !IsSpace(s[0]) {
      var e := CommentEnd(s, 2);
      var t := s[..e];
      CommentScanned(s, 2);
      assert forall k :: 0 <= k && k + 1 < e ==> (ClosesComment(t, k) <==> ClosesComment(s, k));
      assert "/*" == s[..2] == t[..2];
    }
  }

  lemma {:induction false} CommentScanned(s: string, from: nat)
    requires from <= |s|
    ensures var e := CommentEnd(s, from);
      && (forall k :: from <= k < e - 2 ==> !ClosesComment(s, k))
      && (e < |s| ==> e >= from + 2 && ClosesComment(s, e - 2))
    decreases |s| - from
  {
    if from + 1 < |s| {
      assert "*/" <= s[from..] <==> ClosesComment(s, from) by {
        assert s[from..][0] == s[from] && s[from..][1] == s[from + 1];
      }
      if !ClosesComment(s, from) {
        CommentScanned(s, from + 1);
      }
    }
  }

  /** The characters of words by their ASCII codes: letters, `_` and `$`, digits behind them; numbers may have dots. */
  lemma WordCharacters(c: char)
    ensures var n, letter := c as int, 65 <= c as int <= 90 || 97 <= c as int <= 122;
      && (IsIdentStart(c) <==> letter || n == 95 || n == 36)
      && (IsIdentContinue(c) <==> letter || n == 95 || n == 36 || 48 <= n <= 57)
      && (IsNumberContinue(c) <==> letter || n == 95 || n == 46 || 48 <= n <= 57)
      && (IsSpace(c) <==> n in {9, 10, 12, 13, 32})
  {
  }
}
