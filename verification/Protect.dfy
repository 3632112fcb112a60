/** Masking entities, and restoring them into what the model answered. */
module Protect {
  import opened Spans

  const ENTITY_KINDS: set<string> := {"URL", "EMAIL", "CID", "PHONE", "REF", "CUR", "DATE", "PCT", "NUM"}
  const TRANSLATABLE_KINDS: set<string> := {"CUR", "DATE", "PCT", "NUM"}

  // ---- spans ----

  /** What one pattern finds in a text: ranges, left to right. */
  datatype Found = Found(kind: string, ranges: seq<(nat, nat)>)

  type Patterns = string -> seq<Found>

  /** Matches come from left to right and do not overlap. */
  predicate LeftToRight(ranges: seq<(nat, nat)>) {
    forall k, l :: 0 <= k < l < |ranges| ==> ranges[k].1 <= ranges[l].0
  }

  /** What a regular expression guarantees of its matches; a URL starts with a letter. */
  predicate FoundIn(text: string, found: seq<Found>) {
    && (forall p, k :: 0 <= p < |found| && 0 <= k < |found[p].ranges| ==>
          var r := found[p].ranges[k];
          r.0 <= r.1 <= |text| && (found[p].kind == "URL" && r.0 < |text| ==> text[r.0] != ')' && text[r.0] != '('))
    && (forall p :: 0 <= p < |found| ==> LeftToRight(found[p].ranges))
  }

  /** Where the URL in a match ends: before a bracket it would close too many, or behind one it still owes. */
  function UrlEnd(text: string, n: nat, end: nat, depth: nat): (e: nat)
    requires n <= end <= |text|
    ensures n <= e <= |text| && e <= end + 1
    decreases end - n
  {
    if n == end then (if depth > 0 && end < |text| && text[end] == ')' then end + 1 else end)
    else if text[n] == '(' then UrlEnd(text, n + 1, end, depth + 1)
    else if text[n] == ')' then (if depth == 0 then n else UrlEnd(text, n + 1, end, depth - 1))
    else UrlEnd(text, n + 1, end, depth)
  }

  /** Opening minus closing brackets. */
  function Balance(s: string): int {
    if s == "" then 0
    else Balance(s[..|s| - 1]) + (if s[|s| - 1] == '(' then 1 else if s[|s| - 1] == ')' then -1 else 0)
  }

  /** No prefix of a URL closes a bracket the URL did not open. */
  lemma {:induction false} UrlNeverOvercloses(text: string, start: nat, n: nat, end: nat, depth: nat, e: nat)
    requires start <= n <= end <= |text| && depth == Balance(text[start..n])
    requires n <= e <= UrlEnd(text, n, end, depth)
    ensures Balance(text[start..e]) >= 0
    decreases end - n
  {
    if e > n {
      var s := text[start..n + 1];
      assert s[..|s| - 1] == text[start..n];
      if n < end {
        UrlNeverOvercloses(text, start, n + 1, end, Balance(s), e);
      }
    }
  }

  /** A closing bracket for which what stands before it, from `start` on, has no bracket open. */
  ghost predicate Overcloses(text: string, start: nat, m: int) {
    start <= m < |text| && text[m] == ')' && Balance(text[start..m]) == 0
  }

  /** From `n` on: at the first bracket it did not open, or else at the end or behind a bracket of its own there. */
  ghost predicate EndsUrl(text: string, start: nat, n: nat, end: nat, e: nat)
    requires start <= end <= |text|
  {
    if exists m :: n <= m < end && Overcloses(text, start, m)
    then n <= e < end && Overcloses(text, start, e) && forall m :: n <= m < e ==> !Overcloses(text, start, m)
    else e == if Balance(text[start..end]) > 0 && end < |text| && text[end] == ')' then end + 1 else end
  }

  lemma PassedOver(text: string, start: nat, n: nat, end: nat, e: nat)
    requires start <= n < end <= |text| && !Overcloses(text, start, n) && EndsUrl(text, start, n + 1, end, e)
    ensures EndsUrl(text, start, n, end, e)
  {
    hide Balance;
    if m :| n <= m < end && Overcloses(text, start, m) { assert n + 1 <= m; }
  }

  /**
   A URL stops at the first bracket that closes none of its own.  Where the match has none it goes to
   the end of it, and takes in a bracket there that closes one of its own.
   */
  lemma {:induction false} UrlEndIs(text: string, start: nat, n: nat, end: nat, depth: nat)
    requires start <= n <= end <= |text| && depth == Balance(text[start..n])
    ensures EndsUrl(text, start, n, end, UrlEnd(text, n, end, depth))
    decreases end - n
  {
    if n < end {
      var s := text[start..n + 1];
      assert s[..|s| - 1] == text[start..n];
      var next := Balance(s);
      assert next == depth + if text[n] == '(' then 1 else if text[n] == ')' then -1 else 0;
      hide Balance;
      if !Overcloses(text, start, n) {
        UrlEndIs(text, start, n + 1, end, next);
        PassedOver(text, start, n, end, UrlEnd(text, n, end, depth));
      }
    }
  }

  /** Two ranges share a character. */
  predicate Overlaps(a: Span, start: nat, end: nat) {
    start < a.end && a.start < end
  }

  /** One match: taken unless it is empty or overlaps what is taken already. */
  function Take(text: string, kind: string, r: (nat, nat), taken: seq<Span>): seq<Span>
    requires r.0 <= r.1 <= |text|
  {
    var end := if kind == "URL" then UrlEnd(text, r.0, r.1, 0) else r.1;
    if r.0 == r.1 || (exists i :: 0 <= i < |taken| && Overlaps(taken[i], r.0, end)) then taken
    else taken + [Span(r.0, end, kind)]
  }

  function TakeAll(text: string, f: Found, n: nat, taken: seq<Span>): seq<Span>
    requires n <= |f.ranges| && forall k :: 0 <= k < |f.ranges| ==> f.ranges[k].0 <= f.ranges[k].1 <= |text|
  {
    if n == 0 then taken else Take(text, f.kind, f.ranges[n - 1], TakeAll(text, f, n - 1, taken))
  }

  /** The patterns in order: the first that takes a character keeps it. */
  function TakeFrom(text: string, found: seq<Found>, n: nat): seq<Span>
    requires FoundIn(text, found) && n <= |found|
  {
    if n == 0 then [] else TakeAll(text, found[n - 1], |found[n - 1].ranges|, TakeFrom(text, found, n - 1))
  }

  function Place(s: Span, sorted: seq<Span>): seq<Span> {
    if sorted == [] || s.start <= sorted[0].start then [s] + sorted else [sorted[0]] + Place(s, sorted[1..])
  }

  function SortSpans(spans: seq<Span>): seq<Span> {
    if spans == [] then [] else Place(spans[0], SortSpans(spans[1..]))
  }

  function SpansOfText(text: string, found: seq<Found>): seq<Span>
    requires FoundIn(text, found)
  {
    SortSpans(TakeFrom(text, found, |found|))
  }

  /** Spans in range, not empty, and no two overlapping. */
  ghost predicate Apart(text: string, spans: seq<Span>) {
    && (forall i :: 0 <= i < |spans| ==> spans[i].start < spans[i].end <= |text|)
    && (forall i, j :: 0 <= i < j < |spans| ==> !Overlaps(spans[i], spans[j].start, spans[j].end))
  }

  lemma UrlIsNotEmpty(text: string, start: nat, end: nat)
    requires start < end <= |text| && text[start] != ')' && text[start] != '('
    ensures start < UrlEnd(text, start, end, 0)
  {
  }

  lemma TakeApart(text: string, kind: string, r: (nat, nat), taken: seq<Span>)
    requires r.0 <= r.1 <= |text| && Apart(text, taken)
    requires kind == "URL" && r.0 < |text| ==> text[r.0] != ')' && text[r.0] != '('
    ensures Apart(text, Take(text, kind, r, taken))
    ensures taken <= Take(text, kind, r, taken)
  {
    if kind == "URL" && r.0 < r.1 { UrlIsNotEmpty(text, r.0, r.1); }
  }

  lemma {:induction false} TakeAllApart(text: string, f: Found, n: nat, taken: seq<Span>)
    requires FoundIn(text, [f]) && n <= |f.ranges| && Apart(text, taken)
    requires forall k :: 0 <= k < |f.ranges| ==> f.ranges[k].0 <= f.ranges[k].1 <= |text|
    ensures Apart(text, TakeAll(text, f, n, taken)) && taken <= TakeAll(text, f, n, taken)
  {
    if n > 0 {
      TakeAllApart(text, f, n - 1, taken);
      assert [f][0].ranges[n - 1] == f.ranges[n - 1];
      TakeApart(text, f.kind, f.ranges[n - 1], TakeAll(text, f, n - 1, taken));
    }
  }

  lemma {:induction false} TakeFromApart(text: string, found: seq<Found>, n: nat)
    requires FoundIn(text, found) && n <= |found|
    ensures Apart(text, TakeFrom(text, found, n))
  {
    if n > 0 {
      TakeFromApart(text, found, n - 1);
      var f := found[n - 1];
      forall k | 0 <= k < |f.ranges| ensures f.ranges[k].0 <= f.ranges[k].1 <= |text| {
        assert found[n - 1].ranges[k] == f.ranges[k];
      }
      TakeAllApart(text, f, |f.ranges|, TakeFrom(text, found, n - 1));
    }
  }

  lemma {:induction false} PlaceMembers(s: Span, sorted: seq<Span>, x: Span)
    ensures x in Place(s, sorted) <==> x == s || x in sorted
  {
    if sorted != [] {
      PlaceMembers(s, sorted[1..], x);
      assert sorted == [sorted[0]] + sorted[1..];
    }
  }

  /** Disjoint from every span of a sorted run. */
  lemma {:induction false} PlaceSorts(text: string, s: Span, sorted: seq<Span>, pos: nat)
    requires SpansIn(text, sorted, pos) && pos <= s.start < s.end <= |text|
    requires forall x :: x in sorted ==> !Overlaps(x, s.start, s.end)
    ensures SpansIn(text, Place(s, sorted), pos)
    decreases |sorted|
  {
    if sorted != [] {
      var a, rest := sorted[0], sorted[1..];
      assert a in sorted;
      if s.start > a.start {
        assert SpansIn(text, rest, a.end);
        forall x | x in rest ensures x in sorted {}
        PlaceSorts(text, s, rest, a.end);
      }
    }
  }

  lemma {:induction false} SortMembers(spans: seq<Span>, x: Span)
    ensures x in SortSpans(spans) <==> x in spans
  {
    if spans != [] {
      SortMembers(spans[1..], x);
      PlaceMembers(spans[0], SortSpans(spans[1..]), x);
      assert spans == [spans[0]] + spans[1..];
    }
  }

  lemma {:induction false} SortSorts(text: string, spans: seq<Span>)
    requires Apart(text, spans)
    ensures SpansIn(text, SortSpans(spans), 0)
  {
    if spans != [] {
      var s, rest := spans[0], spans[1..];
      assert Apart(text, rest) by { assert forall i :: 0 <= i < |rest| ==> rest[i] == spans[i + 1]; }
      SortSorts(text, rest);
      forall x | x in SortSpans(rest) ensures !Overlaps(x, s.start, s.end) {
        SortMembers(rest, x);
        var k :| 0 <= k < |rest| && rest[k] == x;
        assert spans[k + 1] == x;
      }
      PlaceSorts(text, s, SortSpans(rest), 0);
    }
  }

  /** Accepted spans are in range, in order, disjoint and not empty. */
  lemma AcceptedSpans(text: string, found: seq<Found>)
    requires FoundIn(text, found)
    ensures SpansIn(text, SpansOfText(text, found), 0)
  {
    TakeFromApart(text, found, |found|);
    SortSorts(text, TakeFrom(text, found, |found|));
  }

  // ---- which matches are taken ----

  /** What a match becomes: a URL with its own end, anything else as matched. */
  function MatchSpan(text: string, f: Found, k: nat): Span
    requires k < |f.ranges| && f.ranges[k].0 <= f.ranges[k].1 <= |text|
  {
    var r := f.ranges[k];
    Span(r.0, if f.kind == "URL" then UrlEnd(text, r.0, r.1, 0) else r.1, f.kind)
  }

  /** Match `k` of a pattern is not empty, and no character of it is taken when its turn comes. */
  ghost predicate Free(text: string, f: Found, k: nat, taken: seq<Span>, s: Span)
    requires forall k :: 0 <= k < |f.ranges| ==> f.ranges[k].0 <= f.ranges[k].1 <= |text|
  {
    && k < |f.ranges| && f.ranges[k].0 < f.ranges[k].1 && s == MatchSpan(text, f, k)
    && forall t :: t in TakeAll(text, f, k, taken) ==> s.end <= t.start || t.end <= s.start
  }

  lemma {:induction false} AllTakenIff(text: string, f: Found, n: nat, taken: seq<Span>, s: Span)
    requires n <= |f.ranges| && forall k :: 0 <= k < |f.ranges| ==> f.ranges[k].0 <= f.ranges[k].1 <= |text|
    ensures s in TakeAll(text, f, n, taken) <==> s in taken || exists k :: 0 <= k < n && Free(text, f, k, taken, s)
  {
    hide UrlEnd;
    if n > 0 {
      AllTakenIff(text, f, n - 1, taken, s);
      var before := TakeAll(text, f, n - 1, taken);
      var m := MatchSpan(text, f, n - 1);
      assert TakeAll(text, f, n, taken) == if Free(text, f, n - 1, taken, m) then before + [m] else before by {
        if Free(text, f, n - 1, taken, m) {
          forall i | 0 <= i < |before| ensures !Overlaps(before[i], m.start, m.end) { assert before[i] in before; }
        }
      }
    }
  }

  ghost predicate TakenBy(text: string, found: seq<Found>, p: nat, s: Span)
    requires FoundIn(text, found) && p < |found|
  {
    exists k :: Free(text, found[p], k, TakeFrom(text, found, p), s)
  }

  /** The spans taken by the first `n` patterns. */
  lemma {:induction false} SpanTakenIff(text: string, found: seq<Found>, n: nat, s: Span)
    requires FoundIn(text, found) && n <= |found|
    ensures s in TakeFrom(text, found, n) <==> exists p :: 0 <= p < n && TakenBy(text, found, p, s)
  {
    hide UrlEnd;
    if n > 0 {
      SpanTakenIff(text, found, n - 1, s);
      var f := found[n - 1];
      assert forall k :: 0 <= k < |f.ranges| ==> f.ranges[k] == found[n - 1].ranges[k];
      AllTakenIff(text, f, |f.ranges|, TakeFrom(text, found, n - 1), s);
      var taken := TakeFrom(text, found, n - 1);
      assert TakenBy(text, found, n - 1, s) <==> exists k :: 0 <= k < |f.ranges| && Free(text, f, k, taken, s);
    }
  }

  /**
   A span is masked if and only if it is a match of some pattern none of whose characters an earlier
   pattern, or an earlier match of its own, had taken.
   */
  lemma MaskedSpanIff(text: string, found: seq<Found>, s: Span)
    requires FoundIn(text, found)
    ensures s in SpansOfText(text, found) <==> exists p :: 0 <= p < |found| && TakenBy(text, found, p, s)
  {
    hide TakenBy;
    SortMembers(TakeFrom(text, found, |found|), s);
    SpanTakenIff(text, found, |found|, s);
  }

  // ---- the last pattern ----

  predicate Within(r: (nat, nat), p: nat) {
    r.0 <= p < r.1
  }

  /** Some span overlaps the range. */
  ghost predicate Touched(spans: seq<Span>, r: (nat, nat)) {
    exists s :: s in spans && Overlaps(s, r.0, r.1)
  }

  /** Some span holds the character. */
  ghost predicate Held(spans: seq<Span>, p: nat) {
    exists s :: s in spans && s.start <= p < s.end
  }

  /** What a pattern adds to the spans taken before it: each match none of those touches, whole. */
  ghost predicate TakenWhole(f: Found, n: nat, taken: seq<Span>, s: Span)
    requires n <= |f.ranges|
  {
    exists k :: 0 <= k < n && f.ranges[k].0 < f.ranges[k].1 && !Touched(taken, f.ranges[k])
                && s == Span(f.ranges[k].0, f.ranges[k].1, f.kind)
  }

  /** A match is taken whole if and only if no span taken by an earlier pattern touches it. */
  lemma {:induction false} MatchesTaken(text: string, f: Found, n: nat, taken: seq<Span>, s: Span)
    requires n <= |f.ranges| && f.kind != "URL" && LeftToRight(f.ranges)
    requires forall k :: 0 <= k < |f.ranges| ==> f.ranges[k].0 <= f.ranges[k].1 <= |text|
    ensures s in TakeAll(text, f, n, taken) <==> s in taken || TakenWhole(f, n, taken, s)
  {
    if n > 0 {
      var before, r := TakeAll(text, f, n - 1, taken), f.ranges[n - 1];
      forall x ensures x in before <==> x in taken || TakenWhole(f, n - 1, taken, x) {
        MatchesTaken(text, f, n - 1, taken, x);
      }
      TouchedBefore(f, n, taken, before);
      var x := Span(r.0, r.1, f.kind);
      assert TakenWhole(f, n, taken, s) <==> TakenWhole(f, n - 1, taken, s) || (r.0 < r.1 && !Touched(taken, r) && s == x);
      TakeIs(text, f.kind, r, before, s);
    }
  }

  lemma TakeIs(text: string, kind: string, r: (nat, nat), taken: seq<Span>, s: Span)
    requires r.0 <= r.1 <= |text| && kind != "URL"
    ensures s in Take(text, kind, r, taken) <==> s in taken || (r.0 < r.1 && !Touched(taken, r) && s == Span(r.0, r.1, kind))
  {
    if exists i :: 0 <= i < |taken| && Overlaps(taken[i], r.0, r.1) {
      var i :| 0 <= i < |taken| && Overlaps(taken[i], r.0, r.1);
      assert taken[i] in taken;
    }
  }

  /** Earlier matches of the same pattern do not touch a later one. */
  lemma TouchedBefore(f: Found, n: nat, taken: seq<Span>, before: seq<Span>)
    requires 0 < n <= |f.ranges| && LeftToRight(f.ranges)
    requires forall x :: x in before <==> x in taken || TakenWhole(f, n - 1, taken, x)
    ensures Touched(before, f.ranges[n - 1]) <==> Touched(taken, f.ranges[n - 1])
  {
    var r := f.ranges[n - 1];
    if Touched(taken, r) {
      var x :| x in taken && Overlaps(x, r.0, r.1);
      assert x in before;
    }
    if Touched(before, r) {
      var x :| x in before && Overlaps(x, r.0, r.1);
      assert x in taken;
    }
  }

  /** What all patterns but the last have taken. */
  function Earlier(text: string, found: seq<Found>): seq<Span>
    requires FoundIn(text, found) && found != []
  {
    TakeFrom(text, found, |found| - 1)
  }

  /**
   The last pattern is meant to catch every number, but a match that an earlier span touches is
   dropped whole.  So a character of a match is masked if and only if an earlier span holds it, or
   none touches its match; it stays in the text where some earlier span takes a part of the match
   and not this one.
   */
  lemma MaskedIff(text: string, found: seq<Found>, r: (nat, nat), p: nat)
    requires FoundIn(text, found) && found != [] && found[|found| - 1].kind == "NUM"
    requires r in found[|found| - 1].ranges && Within(r, p)
    ensures Held(SpansOfText(text, found), p) <==> Held(Earlier(text, found), p) || !Touched(Earlier(text, found), r)
  {
    hide TakeFrom, TakeAll, SortSpans, FoundIn;
    var n := |found| - 1;
    var f, earlier, all := found[n], Earlier(text, found), SpansOfText(text, found);
    LastFound(text, found);
    forall s ensures s in all <==> s in earlier || TakenWhole(f, |f.ranges|, earlier, s) {
      MatchesTaken(text, f, |f.ranges|, earlier, s);
      SortMembers(TakeFrom(text, found, |found|), s);
    }
    HeldIff(f, earlier, all, r, p);
  }

  lemma LastFound(text: string, found: seq<Found>)
    requires FoundIn(text, found) && found != []
    ensures var f := found[|found| - 1];
            && LeftToRight(f.ranges) && (forall k :: 0 <= k < |f.ranges| ==> f.ranges[k].0 <= f.ranges[k].1 <= |text|)
            && TakeFrom(text, found, |found|) == TakeAll(text, f, |f.ranges|, Earlier(text, found))
  {
    var f := found[|found| - 1];
    forall k | 0 <= k < |f.ranges| ensures f.ranges[k].0 <= f.ranges[k].1 <= |text| {
      assert found[|found| - 1].ranges[k] == f.ranges[k];
    }
  }

  lemma HeldIff(f: Found, earlier: seq<Span>, all: seq<Span>, r: (nat, nat), p: nat)
    requires LeftToRight(f.ranges) && r in f.ranges && Within(r, p)
    requires forall s :: s in all <==> s in earlier || TakenWhole(f, |f.ranges|, earlier, s)
    ensures Held(all, p) <==> Held(earlier, p) || !Touched(earlier, r)
  {
    var k :| 0 <= k < |f.ranges| && f.ranges[k] == r;
    if Held(earlier, p) {
      var s :| s in earlier && s.start <= p < s.end;
      assert s in all;
    } else if !Touched(earlier, r) {
      assert TakenWhole(f, |f.ranges|, earlier, Span(r.0, r.1, f.kind));
    }
    if Held(all, p) && !Held(earlier, p) {
      var s :| s in all && s.start <= p < s.end;
      assert s !in earlier;
      var l :| 0 <= l < |f.ranges| && f.ranges[l].0 < f.ranges[l].1 && !Touched(earlier, f.ranges[l])
               && s == Span(f.ranges[l].0, f.ranges[l].1, f.kind);
      assert l == k;
    }
  }

  /** Every digit of a text is in a match of the last pattern, as its expression guarantees. */
  ghost predicate EachDigitMatched(text: string, f: Found, isDigit: char -> bool) {
    forall p: nat :: p < |text| && isDigit(text[p]) ==> exists r :: r in f.ranges && Within(r, p)
  }

  /** These spans hold every digit of the range. */
  ghost predicate HoldsDigits(spans: seq<Span>, text: string, r: (nat, nat), isDigit: char -> bool) {
    forall p: nat :: Within(r, p) && p < |text| && isDigit(text[p]) ==> Held(spans, p)
  }

  /**
   No digit is left unmasked if and only if earlier spans hold every digit of each number match that
   they touch.
   */
  lemma EveryDigitMaskedIff(text: string, found: seq<Found>, isDigit: char -> bool)
    requires FoundIn(text, found) && found != [] && found[|found| - 1].kind == "NUM"
    requires EachDigitMatched(text, found[|found| - 1], isDigit)
    ensures (forall p: nat :: p < |text| && isDigit(text[p]) ==> Held(SpansOfText(text, found), p))
            <==> forall r :: r in found[|found| - 1].ranges && Touched(Earlier(text, found), r)
                             ==> HoldsDigits(Earlier(text, found), text, r, isDigit)
  {
    hide TakeFrom, SortSpans, FoundIn;
    var f := found[|found| - 1];
    forall r, p: nat | r in f.ranges && Within(r, p)
      ensures Held(SpansOfText(text, found), p) <==> Held(Earlier(text, found), p) || !Touched(Earlier(text, found), r)
    {
      MaskedIff(text, found, r, p);
    }
    hide Held, Touched;
    if forall r :: r in f.ranges && Touched(Earlier(text, found), r) ==> HoldsDigits(Earlier(text, found), text, r, isDigit) {
      forall p: nat | p < |text| && isDigit(text[p]) ensures Held(SpansOfText(text, found), p) {
        var r :| r in f.ranges && Within(r, p);
      }
    }
  }

  lemma TrailingFound()
    ensures FoundIn("30 June 2026,5", [Found("DATE", [(0, 12)]), Found("NUM", [(0, 2), (8, 14)])])
  {
    assert |"30 June 2026,5"| == 14;
  }

  /** One match of a pattern that is no URL, against one span. */
  lemma TakeOne(text: string, kind: string, r: (nat, nat), s: Span)
    requires r.0 < r.1 <= |text| && kind != "URL"
    ensures Take(text, kind, r, [s]) == if Overlaps(s, r.0, r.1) then [s] else [s, Span(r.0, r.1, kind)]
  {
    assert [s][0] == s;
  }

  /**
   "30 June 2026,5": the number that the date touches is dropped, and its last digit, which the date
   does not hold, stays in the text.
   */
  lemma TrailingDigitStays()
    ensures var text, found := "30 June 2026,5", [Found("DATE", [(0, 12)]), Found("NUM", [(0, 2), (8, 14)])];
            FoundIn(text, found) && SpansOfText(text, found) == [Span(0, 12, "DATE")] && !Held(SpansOfText(text, found), 13)
  {
    var text, found := "30 June 2026,5", [Found("DATE", [(0, 12)]), Found("NUM", [(0, 2), (8, 14)])];
    var date := Span(0, 12, "DATE");
    TrailingFound();
    assert |text| == 14;
    hide FoundIn;
    TakeOne(text, "NUM", (0, 2), date);
    TakeOne(text, "NUM", (8, 14), date);
    assert Take(text, "DATE", (0, 12), []) == [date];
    hide Take;
    assert TakeAll(text, found[0], 0, []) == [];
    assert TakeAll(text, found[0], 1, []) == [date];
    assert TakeAll(text, found[1], 0, [date]) == [date];
    assert TakeAll(text, found[1], 1, [date]) == [date];
    assert TakeAll(text, found[1], 2, [date]) == [date];
    hide TakeAll;
    assert TakeFrom(text, found, 0) == [] && TakeFrom(text, found, 1) == [date] && TakeFrom(text, found, 2) == [date];
    hide TakeFrom;
    assert [date][1..] == [];
    assert SortSpans([date]) == Place(date, SortSpans([])) == [date];
  }

  /** The loops over patterns, matches and what is taken. */
  method SpansLoop(text: string, found: seq<Found>) returns (r: seq<Span>)
    requires FoundIn(text, found)
    ensures r == SpansOfText(text, found)
  {
    var taken: seq<Span> := [];
    for p := 0 to |found|
      invariant taken == TakeFrom(text, found, p)
    {
      var f := found[p];
      assert forall k :: 0 <= k < |f.ranges| ==> found[p].ranges[k] == f.ranges[k];
      ghost var before := taken;
      for k := 0 to |f.ranges|
        invariant taken == TakeAll(text, f, k, before)
      {
        var start, end := f.ranges[k].0, f.ranges[k].1;
        if start == end {
          continue;
        }
        if f.kind == "URL" {
          end := UrlEnd(text, start, end, 0);
        }
        if !(exists i :: 0 <= i < |taken| && Overlaps(taken[i], start, end)) {
          taken := taken + [Span(start, end, f.kind)];
        }
      }
    }
    r := SortSpans(taken);
  }
}
