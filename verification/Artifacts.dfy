/** Paged reads of immutable text artifacts, cut at character boundaries, and their cursors. */
module Artifacts {
  import opened Decimals
  import opened Prelude

  // ---------------------------------------------------------------- UTF-8 (section 3 of RFC 3629)

  /** A Unicode scalar value. */
  type Scalar = c: int | 0 <= c < 0x110000 && !(0xD800 <= c < 0xE000)

  predicate Continuation(b: byte) { 0x80 <= b < 0xC0 }

  function EncodeScalar(c: Scalar): (r: seq<byte>)
    ensures 1 <= |r| <= 4 && !Continuation(r[0])
    ensures forall i :: 1 <= i < |r| ==> Continuation(r[i])
  {
    if c < 0x80 then [c]
    else if c < 0x800 then [0xC0 + c / 0x40, 0x80 + c % 0x40]
    else if c < 0x10000 then [0xE0 + c / 0x1000, 0x80 + c / 0x40 % 0x40, 0x80 + c % 0x40]
    else [0xF0 + c / 0x40000, 0x80 + c / 0x1000 % 0x40, 0x80 + c / 0x40 % 0x40, 0x80 + c % 0x40]
  }

  function Utf8(text: seq<Scalar>): seq<byte> {
    if text == [] then [] else EncodeScalar(text[0]) + Utf8(text[1..])
  }

  /** `is_char_boundary`. */
  predicate IsBoundary(body: seq<byte>, i: nat) {
    i == 0 || i == |body| || (i < |body| && !Continuation(body[i]))
  }

  lemma {:induction false} Utf8Split(a: seq<Scalar>, b: seq<Scalar>)
    ensures Utf8(a + b) == Utf8(a) + Utf8(b)
    decreases |a|
  {
    if a == [] {
      assert a + b == b;
    } else {
      assert (a + b)[1..] == a[1..] + b;
      Utf8Split(a[1..], b);
    }
  }

  /** The boundaries of encoded text are exactly where its characters begin and end. */
  lemma {:induction false} BoundaryIff(text: seq<Scalar>, i: nat)
    ensures IsBoundary(Utf8(text), i) <==> exists k :: 0 <= k <= |text| && |Utf8(text[..k])| == i
    decreases |text|
  {
    var body := Utf8(text);
    assert text[..0] == [] && text[..|text|] == text;
    if text != [] && i != 0 {
      var width := |EncodeScalar(text[0])|;
      forall k | 1 <= k <= |text| ensures |Utf8(text[..k])| == width + |Utf8(text[1..][..k - 1])| {
        assert text[..k][0] == text[0] && text[..k][1..] == text[1..][..k - 1];
      }
      if i < width {
        assert body[i] == EncodeScalar(text[0])[i];
      } else {
        BoundaryIff(text[1..], i - width);
        assert i < |body| ==> body[i] == Utf8(text[1..])[i - width];
        assert i == width ==> |Utf8(text[..1])| == i by { assert text[1..][..0] == []; }
        if IsBoundary(body, i) {
          NextBegins(text[1..]);
          var k :| 0 <= k <= |text[1..]| && |Utf8(text[1..][..k])| == i - width;
          assert |Utf8(text[..k + 1])| == i;
        }
        if k :| 0 <= k <= |text| && |Utf8(text[..k])| == i {
          assert |Utf8(text[1..][..k - 1])| == i - width;
          assert IsBoundary(Utf8(text[1..]), i - width);
          NextBegins(text[1..]);
        }
      }
    }
  }

  /** Encoded text does not begin inside a character. */
  lemma NextBegins(text: seq<Scalar>)
    ensures Utf8(text) != [] ==> !Continuation(Utf8(text)[0])
    ensures Utf8(text) == [] <==> text == []
  {
  }

  // ---------------------------------------------------------------- one page

  function Min(a: nat, b: nat): nat { if a < b then a else b }

  /** First boundary at or after `i`. */
  function Up(body: seq<byte>, i: nat): (r: nat)
    requires i <= |body|
    ensures i <= r <= |body| && IsBoundary(body, r)
    ensures forall j :: i <= j < r ==> !IsBoundary(body, j)
    decreases |body| - i
  {
    if IsBoundary(body, i) then i else Up(body, i + 1)
  }

  /** Last boundary at or before `i`, but not before `start`. */
  function Down(body: seq<byte>, start: nat, i: nat): (r: nat)
    requires start <= i <= |body| && IsBoundary(body, start)
    ensures start <= r <= i && IsBoundary(body, r)
    ensures forall j :: r < j <= i ==> !IsBoundary(body, j)
    decreases i
  {
    if IsBoundary(body, i) then i else Down(body, start, i - 1)
  }

  datatype Page = Page(start: nat, end: nat)

  function PageAt(body: seq<byte>, offset: nat, maxBytes: nat): (r: Page)
    ensures r.start <= r.end <= |body|
  {
    var start := Up(body, Min(offset, |body|));
    Page(start, Down(body, start, Min(start + maxBytes, |body|)))
  }

  datatype Chunk = Chunk(offset: nat, bytes: seq<byte>, nextOffset: Option<nat>, totalBytes: nat, complete: bool)

  /** `read_artifact` on an artifact that is there. */
  method ReadArtifact(body: seq<byte>, offset: nat, maxBytes: nat) returns (chunk: Chunk)
    ensures var page := PageAt(body, offset, maxBytes);
      && chunk.offset == page.start && chunk.bytes == body[page.start..page.end]
      && chunk.nextOffset == (if page.end < |body| then Some(page.end) else None)
      && chunk.totalBytes == |body| && chunk.complete == (page.end == |body|)
    ensures |chunk.bytes| <= maxBytes
  {
    hide Continuation;
    var start := Min(offset, |body|);
    while start < |body| && !IsBoundary(body, start)
      invariant Min(offset, |body|) <= start <= |body|
      invariant Up(body, Min(offset, |body|)) == Up(body, start)
    {
      start := start + 1;
    }
    var end := Min(start + maxBytes, |body|);
    while end > start && !IsBoundary(body, end)
      invariant start <= end <= Min(start + maxBytes, |body|)
      invariant Down(body, start, Min(start + maxBytes, |body|)) == Down(body, start, end)
    {
      end := end - 1;
    }
    chunk := Chunk(start, body[start..end], if end < |body| then Some(end) else None, |body|, end == |body|);
  }

  /** A page of text is text: it starts and ends between characters. */
  lemma PageIsText(text: seq<Scalar>, offset: nat, maxBytes: nat)
    ensures var page := PageAt(Utf8(text), offset, maxBytes);
      exists i, j :: 0 <= i <= j <= |text| && Utf8(text)[page.start..page.end] == Utf8(text[i..j])
  {
    hide Utf8, EncodeScalar, Up, Down;
    var body, page := Utf8(text), PageAt(Utf8(text), offset, maxBytes);
    BoundaryIff(text, page.start);
    BoundaryIff(text, page.end);
    var i :| 0 <= i <= |text| && |Utf8(text[..i])| == page.start;
    var j :| 0 <= j <= |text| && |Utf8(text[..j])| == page.end;
    if j < i {
      PrefixLength(text, j, i);
      TextSlice(text, i, i);
      assert body[page.start..page.end] == Utf8(text[i..i]);
    } else {
      TextSlice(text, i, j);
    }
  }

  lemma TextSlice(text: seq<Scalar>, i: nat, j: nat)
    requires i <= j <= |text|
    ensures |Utf8(text[..i])| <= |Utf8(text[..j])| <= |Utf8(text)|
    ensures Utf8(text)[|Utf8(text[..i])|..|Utf8(text[..j])|] == Utf8(text[i..j])
  {
    hide Utf8, EncodeScalar;
    PrefixLength(text, i, j);
    Utf8Split(text[..j], text[j..]);
    assert text[..j] + text[j..] == text;
    assert Utf8(text) == Utf8(text[..i]) + Utf8(text[i..j]) + Utf8(text[j..]);
  }

  lemma PrefixLength(text: seq<Scalar>, i: nat, j: nat)
    requires i <= j <= |text|
    ensures Utf8(text[..j]) == Utf8(text[..i]) + Utf8(text[i..j])
  {
    assert text[..j] == text[..i] + text[i..j];
    Utf8Split(text[..i], text[i..j]);
  }

  // ---------------------------------------------------------------- following cursors

  /** Offset reached after pages of the given sizes, from the start. */
  function Reached(body: seq<byte>, sizes: seq<nat>): nat {
    if sizes == [] then 0
    else PageAt(body, Reached(body, sizes[..|sizes| - 1]), sizes[|sizes| - 1]).end
  }

  /** Everything those pages returned. */
  function Collected(body: seq<byte>, sizes: seq<nat>): seq<byte> {
    if sizes == [] then []
    else
      var page := PageAt(body, Reached(body, sizes[..|sizes| - 1]), sizes[|sizes| - 1]);
      Collected(body, sizes[..|sizes| - 1]) + body[page.start..page.end]
  }

  /** Nothing is lost or repeated, whatever the page sizes. */
  lemma {:induction false} CollectedIsPrefix(body: seq<byte>, sizes: seq<nat>)
    ensures IsBoundary(body, Reached(body, sizes)) && Reached(body, sizes) <= |body|
    ensures Collected(body, sizes) == body[..Reached(body, sizes)]
    decreases |sizes|
  {
    if sizes != [] {
      var before := sizes[..|sizes| - 1];
      CollectedIsPrefix(body, before);
      assert PageAt(body, Reached(body, before), sizes[|sizes| - 1]).start == Reached(body, before);
    }
  }

  /** Characters are at most four bytes wide, so a boundary is never far. */
  lemma NextBoundary(text: seq<Scalar>, k: nat)
    requires k < |text|
    ensures var at, width := |Utf8(text[..k])|, |EncodeScalar(text[k])|;
      && 1 <= width <= 4 && at + width == |Utf8(text[..k + 1])| <= |Utf8(text)|
      && forall j :: at < j < at + width ==> !IsBoundary(Utf8(text), j)
  {
    PrefixLength(text, k, k + 1);
    PrefixLength(text, k + 1, |text|);
    assert text[..|text|] == text;
    assert text[k..k + 1] == [text[k]] && Utf8([text[k]][1..]) == [];
    assert Utf8(text[k..k + 1]) == EncodeScalar(text[k]);
    var body, at := Utf8(text), |Utf8(text[..k])|;
    assert body == Utf8(text[..k]) + EncodeScalar(text[k]) + Utf8(text[k + 1..|text|]);
    forall j | at < j < at + |EncodeScalar(text[k])| ensures !IsBoundary(body, j) {
      assert body[j] == EncodeScalar(text[k])[j - at];
    }
  }

  /** A page makes progress exactly when the next character fits in it. */
  lemma AdvancesIff(text: seq<Scalar>, k: nat, maxBytes: nat)
    requires k < |text|
    ensures var at := |Utf8(text[..k])|;
      PageAt(Utf8(text), at, maxBytes).end > at <==> maxBytes >= |EncodeScalar(text[k])|
    ensures var at := |Utf8(text[..k])|; PageAt(Utf8(text), at, maxBytes).end >= at
  {
    var body, at := Utf8(text), |Utf8(text[..k])|;
    NextBoundary(text, k);
    BoundaryIff(text, at);
    assert IsBoundary(body, at);
    var page := PageAt(body, at, maxBytes);
    assert page.start == at;
    var next := at + |EncodeScalar(text[k])|;
    BoundaryIff(text, next);
    assert IsBoundary(body, next);
  }

  lemma AtCharacter(text: seq<Scalar>, at: nat) returns (k: nat)
    requires IsBoundary(Utf8(text), at) && at < |Utf8(text)|
    ensures k < |text| && |Utf8(text[..k])| == at
  {
    BoundaryIff(text, at);
    k :| 0 <= k <= |text| && |Utf8(text[..k])| == at;
    assert text[..|text|] == text;
  }

  /** From a boundary short of the end, a page no narrower than any character moves on. */
  lemma PageAdvances(text: seq<Scalar>, at: nat, maxBytes: nat)
    requires IsBoundary(Utf8(text), at) && at <= |Utf8(text)|
    requires forall c :: c in text ==> |EncodeScalar(c)| <= maxBytes
    ensures PageAt(Utf8(text), at, maxBytes).end >= Min(at + 1, |Utf8(text)|)
  {
    hide Utf8, EncodeScalar, IsBoundary;
    if at < |Utf8(text)| {
      var k := AtCharacter(text, at);
      assert text[k] in text;
      AdvancesIff(text, k, maxBytes);
    }
  }

  /** Pages of at least four bytes always advance, so enough of them reassemble the artifact exactly. */
  lemma {:induction false} Reassembles(text: seq<Scalar>, sizes: seq<nat>)
    requires forall i :: 0 <= i < |sizes| ==> sizes[i] >= 4
    ensures var body := Utf8(text);
      && Reached(body, sizes) >= Min(|sizes|, |body|)
      && (|sizes| >= |body| ==> Collected(body, sizes) == body)
    decreases |sizes|
  {
    hide Utf8, IsBoundary, PageAt, Collected;
    var body := Utf8(text);
    CollectedIsPrefix(body, sizes);
    if sizes != [] {
      var before := sizes[..|sizes| - 1];
      Reassembles(text, before);
      CollectedIsPrefix(body, before);
      PageAdvances(text, Reached(body, before), sizes[|sizes| - 1]);
    }
  }

  function Same(m: nat, n: nat): (r: seq<nat>)
    ensures |r| == n && forall x :: x in r ==> x == m
  {
    seq(n, _ => m)
  }

  /** With one page size, reading ever completes exactly when no character is wider than a page. */
  lemma CompletesIff(text: seq<Scalar>, m: nat)
    ensures (exists n: nat :: Reached(Utf8(text), Same(m, n)) == |Utf8(text)|) <==>
      forall c :: c in text ==> |EncodeScalar(c)| <= m
  {
    var body := Utf8(text);
    if forall c :: c in text ==> |EncodeScalar(c)| <= m {
      Completes(text, m, |body|);
      assert Reached(body, Same(m, |body|)) == |body|;
    } else {
      var k :| 0 <= k < |text| && |EncodeScalar(text[k])| > m;
      forall n: nat ensures Reached(body, Same(m, n)) != |body| {
        Stuck(text, k, m, n);
        NextBoundary(text, k);
      }
    }
  }

  lemma SameShorter(m: nat, n: nat)
    requires n > 0
    ensures Same(m, n)[..n - 1] == Same(m, n - 1)
  {
  }

  lemma {:induction false} Completes(text: seq<Scalar>, m: nat, n: nat)
    requires forall c :: c in text ==> |EncodeScalar(c)| <= m
    ensures Min(n, |Utf8(text)|) <= Reached(Utf8(text), Same(m, n)) <= |Utf8(text)|
    decreases n
  {
    hide Utf8, EncodeScalar, IsBoundary, PageAt, Collected;
    var body := Utf8(text);
    CollectedIsPrefix(body, Same(m, n));
    if n != 0 {
      SameShorter(m, n);
      Completes(text, m, n - 1);
      CollectedIsPrefix(body, Same(m, n - 1));
      PageAdvances(text, Reached(body, Same(m, n - 1)), m);
    }
  }

  /** No page gets past a character wider than itself. */
  lemma {:induction false} Stuck(text: seq<Scalar>, k: nat, m: nat, n: nat)
    requires k < |text| && |EncodeScalar(text[k])| > m
    ensures Reached(Utf8(text), Same(m, n)) <= |Utf8(text[..k])|
    decreases n
  {
    if n != 0 {
      var body, wall := Utf8(text), |Utf8(text[..k])|;
      SameShorter(m, n);
      Stuck(text, k, m, n - 1);
      var at := Reached(body, Same(m, n - 1));
      CollectedIsPrefix(body, Same(m, n - 1));
      NextBoundary(text, k);
      var page := PageAt(body, at, m);
      assert page.start == at;
      assert page.end <= at + m;
    }
  }

  // ---------------------------------------------------------------- cursors

  /** `str::parse::<usize>` on a 64-bit machine: an optional plus sign, then digits that fit. */
  function ParseUsize(s: string): Option<nat> {
    var digits := if |s| > 1 && s[0] == '+' then s[1..] else s;
    if digits != [] && (forall c :: c in digits ==> IsDigit(c)) && Value(digits) < U64_LIMIT then Some(Value(digits))
    else None
  }

  /** Position of the last colon. */
  function LastColon(s: string): (r: Option<nat>)
    ensures r.Some? ==> r.value < |s| && s[r.value] == ':' && forall k :: r.value < k < |s| ==> s[k] != ':'
    ensures r.None? ==> ':' !in s
  {
    if s == [] then None
    else if s[|s| - 1] == ':' then Some(|s| - 1)
    else LastColon(s[..|s| - 1])
  }

  function FormatCursor(id: string, offset: nat): string { id + ":" + Decimal(offset) }

  /** `parse_artifact_cursor`: what does not end in an offset is an identifier read from the start. */
  function ParseCursor(cursor: string): (string, nat) {
    var at := LastColon(cursor);
    if at.None? then (cursor, 0)
    else
      var offset := ParseUsize(cursor[at.value + 1..]);
      if offset.None? then (cursor, 0) else (cursor[..at.value], offset.value)
  }

  /** Every cursor handed out leads back to its artifact and offset, even if the name has colons in it. */
  lemma CursorRoundTrip(id: string, offset: nat)
    requires offset < U64_LIMIT
    ensures ParseCursor(FormatCursor(id, offset)) == (id, offset)
  {
    var digits, cursor := Decimal(offset), FormatCursor(id, offset);
    ValueOfDecimal(offset);
    assert digits[0] in digits && IsDigit(digits[0]);
    var at := LastColon(cursor);
    assert cursor[|id|] == ':';
    assert forall k :: |id| < k < |cursor| ==> cursor[k] == digits[k - |id| - 1] && cursor[k] in digits;
    assert at == Some(|id|);
    assert cursor[|id| + 1..] == digits && cursor[..|id|] == id;
  }
}
