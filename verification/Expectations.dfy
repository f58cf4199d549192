/** What a score expects and what it counts: alias lists, ratios and extras. */
module Expectations {
  import opened Prelude
  import opened Pseudocode
  import opened Scorecard
  import opened Scoring

  // ---------------------------------------------------------------- alias lists

  const BLANKS := {' ', '\t', '\n', '\U{0B}', '\U{0C}', '\r'}

  predicate AllBlank(s: string) {
    forall c :: c in s ==> c in BLANKS
  }

  /** Neither end is blank. */
  predicate Clean(s: string) {
    s != "" ==> s[0] !in BLANKS && s[|s| - 1] !in BLANKS
  }

  lemma {:induction false} StartTrimmed(s: string) returns (blanks: string)
    ensures s == blanks + TrimStart(s) && AllBlank(blanks)
    ensures TrimStart(s) != "" ==> TrimStart(s)[0] !in BLANKS
  {
    if s != "" && IsTrimmed(s[0]) {
      var rest := StartTrimmed(s[1..]);
      blanks := [s[0]] + rest;
      assert s == [s[0]] + s[1..];
    } else {
      blanks := "";
      assert s == "" + s;
    }
  }

  lemma {:induction false} EndTrimmed(s: string) returns (blanks: string)
    ensures s == TrimEnd(s) + blanks && AllBlank(blanks)
    ensures TrimEnd(s) != "" ==> TrimEnd(s)[|TrimEnd(s)| - 1] !in BLANKS && TrimEnd(s)[0] == s[0]
    decreases |s|
  {
    if s != "" && IsTrimmed(s[|s| - 1]) {
      var rest := EndTrimmed(s[..|s| - 1]);
      blanks := rest + [s[|s| - 1]];
      assert s == s[..|s| - 1] + [s[|s| - 1]];
    } else {
      blanks := "";
      assert s == s + "";
    }
  }

  /** Trimming takes blanks away from both ends, all of them and nothing else. */
  lemma TrimIs(s: string) returns (before: string, after: string)
    ensures s == before + Trim(s) + after && AllBlank(before) && AllBlank(after) && Clean(Trim(s))
  {
    before := StartTrimmed(s);
    after := EndTrimmed(TrimStart(s));
    assert before + (Trim(s) + after) == before + Trim(s) + after;
  }

  /** A text with clean ends is what is left of it between blanks. */
  lemma TrimIff(s: string, t: string)
    ensures Trim(s) == t <==> Clean(t) && exists before, after :: s == before + t + after && AllBlank(before) && AllBlank(after)
  {
    var a, b := TrimIs(s);
    if Clean(t) {
      if before, after :| s == before + t + after && AllBlank(before) && AllBlank(after) {
        OneCore(s, a, Trim(s), b, before, t, after);
      }
    }
  }

  /** How many blanks a text begins and ends with. */
  function Lead(s: string): (n: nat)
    ensures n <= |s|
  {
    if s != "" && s[0] in BLANKS then 1 + Lead(s[1..]) else 0
  }

  function Trail(s: string): (n: nat)
    ensures n <= |s|
  {
    if s != "" && s[|s| - 1] in BLANKS then 1 + Trail(s[..|s| - 1]) else 0
  }

  lemma {:induction false} LeadIs(a: string, t: string)
    requires AllBlank(a) && (t != "" ==> t[0] !in BLANKS)
    ensures Lead(a + t) == |a|
  {
    if a == "" {
      assert a + t == t;
    } else {
      assert (a + t)[1..] == a[1..] + t && a[0] in a;
      LeadIs(a[1..], t);
    }
  }

  lemma {:induction false} TrailIs(t: string, b: string)
    requires AllBlank(b) && (t != "" ==> t[|t| - 1] !in BLANKS)
    ensures Trail(t + b) == |b|
    decreases |b|
  {
    if b == "" {
      assert t + b == t;
    } else {
      assert (t + b)[..|t + b| - 1] == t + b[..|b| - 1] && b[|b| - 1] in b;
      TrailIs(t, b[..|b| - 1]);
    }
  }

  /** The ends of a text that is not blank all through. */
  lemma CoreIs(a: string, t: string, b: string)
    requires t != "" && Clean(t) && AllBlank(a) && AllBlank(b)
    ensures var s := a + t + b; Lead(s) == |a| && Trail(s) == |b| && s[|a|..|s| - |b|] == t && Lead(s) < |s|
  {
    assert a + t + b == a + (t + b) && (t + b)[0] == t[0];
    LeadIs(a, t + b);
    assert (a + t)[|a + t| - 1] == t[|t| - 1];
    TrailIs(a + t, b);
  }

  lemma BlankLead(a: string, b: string)
    requires AllBlank(a) && AllBlank(b)
    ensures Lead(a + "" + b) == |a + "" + b|
  {
    assert a + "" + b == (a + b) + "";
    LeadIs(a + b, "");
  }

  /** Blanks around a clean text determine it. */
  lemma OneCore(s: string, a: string, t: string, b: string, c: string, u: string, d: string)
    requires s == a + t + b && s == c + u + d && Clean(t) && Clean(u)
    requires AllBlank(a) && AllBlank(b) && AllBlank(c) && AllBlank(d)
    ensures t == u
  {
    if t != "" {
      CoreIs(a, t, b);
    } else {
      BlankLead(a, b);
    }
    if u != "" {
      CoreIs(c, u, d);
    } else {
      BlankLead(c, d);
    }
  }

  /** The names of a list are those of its parts, one after another. */
  lemma {:induction false} NamesAppend(a: seq<string>, b: seq<string>, lower: bool)
    ensures Names(a + b, lower) == Names(a, lower) + Names(b, lower)
  {
    hide Trim, Lower;
    if a == [] {
      assert a + b == b;
    } else {
      assert (a + b)[1..] == a[1..] + b;
      NamesAppend(a[1..], b, lower);
    }
  }

  /** A part gives one name, without the blanks around it, unless there is nothing else in it. */
  lemma NamesOne(part: string, lower: bool)
    ensures Names([part], lower) ==
      if Trim(part) == "" then [] else [if lower then Lower(Trim(part)) else Trim(part)]
  {
    hide Trim;
    assert [part][1..] == [];
  }

  /** Parts without a bar, written with bars in between, are found again. */
  lemma {:induction false} SplitJoined(parts: seq<string>)
    requires parts != [] && forall p :: p in parts ==> '|' !in p
    ensures SplitBar(Concat(parts, "|")) == parts
    decreases |parts|
  {
    var text := Concat(parts, "|");
    assert parts[0] in parts;
    if |parts| == 1 {
      NoBar(text);
      assert parts == [parts[0]];
    } else {
      var rest := Concat(parts[1..], "|");
      SplitJoined(parts[1..]);
      assert text == parts[0] + "|" + rest;
      FirstBar(parts[0], rest);
      assert text[..|parts[0]|] == parts[0] && text[|parts[0]| + 1..] == rest;
      assert parts == [parts[0]] + parts[1..];
    }
  }

  lemma {:induction false} NoBar(s: string)
    requires '|' !in s
    ensures Find(s, '|') == -1
  {
    if s != "" {
      NoBar(s[1..]);
    }
  }

  lemma {:induction false} FirstBar(a: string, b: string)
    requires '|' !in a
    ensures Find(a + "|" + b, '|') == |a|
  {
    if a != "" {
      FirstBar(a[1..], b);
      assert (a + "|" + b)[1..] == a[1..] + "|" + b;
    } else {
      assert a + "|" + b == "|" + b;
    }
  }

  /** Without structured calls every legacy text of aliases is one expected call with those aliases, whatever its arguments. */
  lemma LegacyRead(gold: GoldFunction, aliases: seq<seq<string>>)
    requires gold.callFacts == [] && |gold.calls| == |aliases|
    requires forall i :: 0 <= i < |aliases| ==> aliases[i] != [] && gold.calls[i] == Concat(aliases[i], "|")
    requires forall i, a :: 0 <= i < |aliases| && a in aliases[i] ==> '|' !in a && a != "" && Clean(a)
    ensures |ExpectedCalls(gold)| == |aliases|
    ensures forall i :: 0 <= i < |aliases| ==> ExpectedCalls(gold)[i] == GoldCallFact(aliases[i], None)
  {
    forall i | 0 <= i < |aliases| ensures Names(SplitBar(gold.calls[i]), false) == aliases[i] {
      SplitJoined(aliases[i]);
      CleanNames(aliases[i]);
    }
  }

  /** The label of an expected call names all its aliases, and only a call without any has none to name. */
  lemma LabelNames(aliases: seq<string>)
    requires forall a :: a in aliases ==> '|' !in a
    ensures aliases != [] ==> SplitBar(Label(aliases)) == aliases
    ensures aliases == [] ==> Label(aliases) == "<missing-alias>"
  {
    if aliases != [] {
      SplitJoined(aliases);
    }
  }

  lemma {:induction false} CleanNames(aliases: seq<string>)
    requires forall a :: a in aliases ==> a != "" && Clean(a)
    ensures Names(aliases, false) == aliases
  {
    if aliases != [] {
      assert aliases[0] in aliases;
      CleanStays(aliases[0]);
      assert forall a :: a in aliases[1..] ==> a in aliases;
      CleanNames(aliases[1..]);
    }
  }

  lemma CleanStays(a: string)
    requires Clean(a)
    ensures Trim(a) == a
  {
    assert a == "" + a + "";
    TrimIff(a, a);
  }

  /** Structured calls replace them. */
  lemma StructuredRead(gold: GoldFunction)
    requires gold.callFacts != []
    ensures ExpectedCalls(gold) == gold.callFacts
  {
  }

  // ---------------------------------------------------------------- ratios

  /** Recall is the part of the facts that are hits, precision the part of hits among hits and extras. */
  lemma ScoreMeans(hits: nat, possible: nat, unexpected: nat)
    ensures Recall(hits, possible) * possible as real == (if possible == 0 then 0.0 else hits as real)
    ensures Precision(hits, unexpected) * (hits + unexpected) as real == (if hits == 0 then 0.0 else hits as real)
    ensures possible == 0 ==> Recall(hits, possible) == 0.0
    ensures hits == 0 ==> Precision(hits, unexpected) == 0.0
  {
  }

  // ---------------------------------------------------------------- extras

  /** A call is reported exactly when some position has it that no expectation took. */
  lemma {:induction false} UnexpectedCallIff(calls: seq<CallSite>, consumed: seq<bool>, n: nat, c: CallSite)
    requires n <= |calls| == |consumed|
    ensures UnexpectedCall(c) in UnexpectedCalls(calls, consumed, n) <==>
      exists k :: 0 <= k < n && calls[k] == c && !consumed[k]
  {
    if n > 0 {
      UnexpectedCallIff(calls, consumed, n - 1, c);
    }
  }

  /** A literal is reported exactly when it is there and not expected, as often as it is there. */
  lemma {:induction false} UnexpectedStringIff(literals: seq<string>, strings: seq<string>, value: string)
    ensures multiset(UnexpectedStrings(literals, strings))[UnexpectedString(value)] ==
      if value in strings then 0 else multiset(literals)[value]
  {
    if literals != [] {
      UnexpectedStringIff(literals[1..], strings, value);
      assert literals == [literals[0]] + literals[1..];
    }
  }
}
