/** Substituting glossary terms, and what is left of them in the text: nothing. */
module Substitution {
  import opened Segments
  import opened Glossary
  import opened Spans

  // ---- the matches found ----

  /** In order and disjoint from `i` on, each a match; no term matches anywhere between them. */
  ghost predicate Found(lt: Letters, text: string, i: nat, ms: seq<Match>) {
    && (forall k :: 0 <= k < |ms| ==> i <= ms[k].start < ms[k].end <= |text| && ms[k].end == ms[k].start + |ms[k].term.source|)
    && (forall k :: 0 <= k < |ms| ==> MatchesAt(lt, text, ms[k].start, ms[k].term))
    && (forall k, l :: 0 <= k < l < |ms| ==> ms[k].end <= ms[l].start)
  }

  /** Position `p` lies in none of the matches. */
  ghost predicate Between(ms: seq<Match>, p: nat) {
    forall k :: 0 <= k < |ms| ==> !(ms[k].start <= p < ms[k].end)
  }

  lemma {:induction false} FoundIs(lt: Letters, terms: seq<Term>, text: string, i: nat)
    ensures Found(lt, text, i, FindFrom(lt, terms, text, i))
    decreases |text| - i
  {
    hide MatchesAt, FirstMatch, Candidates;
    if i < |text| {
      TriedIsLongest(lt, terms, text, i);
      var m := FirstMatch(lt, text, i, Candidates(lt, terms, text[i]));
      if m.Some? {
        MatchRange(lt, text, i, m.value);
        FoundIs(lt, terms, text, i + |m.value.source|);
      } else {
        FoundIs(lt, terms, text, i + 1);
      }
    }
  }

  lemma MatchRange(lt: Letters, text: string, i: nat, t: Term)
    requires MatchesAt(lt, text, i, t)
    ensures t.source != "" && i + |t.source| <= |text|
  {
  }

  /** Wherever the search passed over a place, no term matches there. */
  lemma {:induction false} NothingBetween(lt: Letters, terms: seq<Term>, text: string, i: nat, p: nat, t: Term)
    requires i <= p < |text| && Between(FindFrom(lt, terms, text, i), p) && t in terms
    ensures !MatchesAt(lt, text, p, t)
    decreases |text| - i
  {
    hide MatchesAt, FirstMatch, Candidates;
    TriedIsLongest(lt, terms, text, i);
    var m := FirstMatch(lt, text, i, Candidates(lt, terms, text[i]));
    if m.Some? {
      MatchRange(lt, text, i, m.value);
      var rest := FindFrom(lt, terms, text, i + |m.value.source|);
      var all := [Match(i, i + |m.value.source|, m.value)] + rest;
      assert FindFrom(lt, terms, text, i) == all;
      assert p >= i + |m.value.source| by { assert !(all[0].start <= p < all[0].end); }
      assert forall k :: 0 <= k < |rest| ==> rest[k] == all[k + 1];
      NothingBetween(lt, terms, text, i + |m.value.source|, p, t);
    } else if p > i {
      NothingBetween(lt, terms, text, i + 1, p, t);
    }
  }

  // ---- runs left between matches ----

  /** A match has a word character where its text has one. */
  lemma EdgesAreWords(lt: Letters, text: string, i: nat, t: Term)
    requires lt.Lawful() && MatchesAt(lt, text, i, t)
    ensures lt.isWord(text[i]) == lt.isWord(t.source[0])
    ensures lt.isWord(text[i + |t.source| - 1]) == lt.isWord(t.source[|t.source| - 1])
  {
    var n := |t.source|;
    var piece := text[i..i + n];
    assert piece[0] == text[i] && piece[n - 1] == text[i + n - 1];
    assert lt.lower(piece[0]) == lt.lower(t.source[0]) && lt.lower(piece[n - 1]) == lt.lower(t.source[n - 1]) by {
      if !t.caseSensitive {
        assert lt.Lower(piece)[0] == lt.Lower(t.source)[0];
        assert lt.Lower(piece)[n - 1] == lt.Lower(t.source)[n - 1];
      }
    }
  }

  /** The end of a stretch of text is the end of the text, or the edge of a match. */
  ghost predicate EdgeLeft(lt: Letters, text: string, a: nat) {
    a == 0 || exists i: nat, m: Term :: MatchesAt(lt, text, i, m) && i + |m.source| == a
  }

  ghost predicate EdgeRight(lt: Letters, text: string, b: nat) {
    b == |text| || exists m: Term :: MatchesAt(lt, text, b, m)
  }

  lemma SliceOfSlice(s: string, a: nat, b: nat, i: nat, j: nat)
    requires a <= b <= |s| && i <= j <= b - a
    ensures s[a..b][i..j] == s[a + i..a + j]
  {
    var x, y := s[a..b][i..j], s[a + i..a + j];
    forall k | 0 <= k < |x| ensures x[k] == y[k] {
      assert x[k] == s[a..b][i + k] == s[a + (i + k)];
    }
  }

  lemma SpellsWhole(lt: Letters, text: string, a: nat, b: nat, j: nat, t: Term)
    requires a <= b <= |text| && Spells(lt, text[a..b], j, t)
    ensures Spells(lt, text, a + j, t)
  {
    SliceOfSlice(text, a, b, j, j + |t.source|);
  }

  /**
   Cutting a match out makes new ends of text, where the whole-word test passes more easily.  It
   makes no new match: what matches in the stretch matched in the whole text already.
   */
  lemma RunMatchesWhole(lt: Letters, text: string, a: nat, b: nat, j: nat, t: Term)
    requires lt.Lawful() && a <= b <= |text| && EdgeLeft(lt, text, a) && EdgeRight(lt, text, b)
    requires MatchesAt(lt, text[a..b], j, t)
    ensures a + j + |t.source| <= b && MatchesAt(lt, text, a + j, t)
  {
    hide Spells, Letters.Lower;
    var run, n := text[a..b], |t.source|;
    MatchRange(lt, run, j, t);
    SpellsWhole(lt, text, a, b, j, t);
    EdgesAreWords(lt, run, j, t);
    assert run[j] == text[a + j] && run[j + n - 1] == text[a + j + n - 1];
    if j > 0 {
      assert run[j - 1] == text[a + j - 1];
    } else if a > 0 {
      LeftOfRun(lt, text, a);
    }
    if j + n < |run| {
      assert run[j + n] == text[a + j + n];
    } else if b < |text| {
      RightOfRun(lt, text, b);
    }
  }

  /** Where a match ends, a word does not go on. */
  lemma LeftOfRun(lt: Letters, text: string, a: nat)
    requires lt.Lawful() && 0 < a < |text| && EdgeLeft(lt, text, a)
    ensures !(lt.isWord(text[a - 1]) && lt.isWord(text[a]))
  {
    var i: nat, m: Term :| MatchesAt(lt, text, i, m) && i + |m.source| == a;
    EdgesAreWords(lt, text, i, m);
  }

  /** Where a match starts, a word did not go on. */
  lemma RightOfRun(lt: Letters, text: string, b: nat)
    requires lt.Lawful() && 0 < b < |text| && EdgeRight(lt, text, b)
    ensures !(lt.isWord(text[b - 1]) && lt.isWord(text[b]))
  {
    var m: Term :| MatchesAt(lt, text, b, m);
    EdgesAreWords(lt, text, b, m);
  }

  // ---- substitution ----

  /** The spans of a text's matches, all of the term kind. */
  function SpansOfMatches(ms: seq<Match>): (r: seq<Span>)
    ensures |r| == |ms| && forall k :: 0 <= k < |r| ==> r[k] == Span(ms[k].start, ms[k].end, TERM_KIND)
  {
    seq(|ms|, k requires 0 <= k < |ms| => Span(ms[k].start, ms[k].end, TERM_KIND))
  }

  function TermSpans(lt: Letters, terms: seq<Term>): SpansOf {
    (text: string) => SpansOfMatches(FindTerms(lt, terms, text))
  }

  lemma TermSpansAreIn(lt: Letters, terms: seq<Term>, text: string)
    ensures SpansIn(text, TermSpans(lt, terms)(text), 0)
  {
    FoundIs(lt, terms, text, 0);
  }

  lemma TermSpansFind(lt: Letters, terms: seq<Term>)
    ensures Finder(TermSpans(lt, terms))
  {
    forall text ensures SpansIn(text, TermSpans(lt, terms)(text), 0) {
      TermSpansAreIn(lt, terms, text);
    }
  }

  method Substitute(lt: Letters, terms: seq<Term>, ts: seq<Token>) returns (r: Replaced)
    ensures Finder(TermSpans(lt, terms)) && r == Replace(ts, TermSpans(lt, terms))
  {
    TermSpansFind(lt, terms);
    r := ReplaceLoop(ts, TermSpans(lt, terms));
  }

  /** No term of the termbase matches anywhere in a text. */
  ghost predicate Clear(lt: Letters, terms: seq<Term>, text: string) {
    forall j: nat, t: Term :: t in terms ==> !MatchesAt(lt, text, j, t)
  }

  /** A stretch between two neighbouring matches. */
  lemma StretchIsClear(lt: Letters, terms: seq<Term>, text: string, ms: seq<Match>, a: nat, b: nat)
    requires lt.Lawful() && ms == FindTerms(lt, terms, text) && a <= b <= |text|
    requires EdgeLeft(lt, text, a) && EdgeRight(lt, text, b)
    requires forall p: nat :: a <= p < b ==> Between(ms, p)
    ensures Clear(lt, terms, text[a..b])
  {
    hide MatchesAt, FindFrom, EdgeLeft, EdgeRight;
    forall j: nat, t: Term | t in terms ensures !MatchesAt(lt, text[a..b], j, t) {
      if MatchesAt(lt, text[a..b], j, t) {
        RunMatchesWhole(lt, text, a, b, j, t);
        MatchRange(lt, text, a + j, t);
        NothingBetween(lt, terms, text, 0, a + j, t);
      }
    }
  }

  ghost predicate AllClear(lt: Letters, terms: seq<Term>, ts: seq<Token>) {
    forall k :: 0 <= k < |ts| && ts[k].Text? ==> ts[k].value != "" && Clear(lt, terms, ts[k].value)
  }

  lemma SpansFrom(lt: Letters, terms: seq<Term>, text: string, ms: seq<Match>, n: nat, pos: nat)
    requires Found(lt, text, 0, ms) && n <= |ms| && pos == if n == 0 then 0 else ms[n - 1].end
    ensures SpansIn(text, SpansOfMatches(ms)[n..], pos)
    ensures pos <= if n == |ms| then |text| else ms[n].start
  {
    hide MatchesAt;
  }

  /** A stretch between two neighbouring matches starts and ends at an edge. */
  lemma MatchEdges(lt: Letters, terms: seq<Term>, text: string, ms: seq<Match>, n: nat)
    requires Found(lt, text, 0, ms) && n <= |ms|
    ensures EdgeLeft(lt, text, if n == 0 then 0 else ms[n - 1].end)
    ensures EdgeRight(lt, text, if n == |ms| then |text| else ms[n].start)
  {
    hide MatchesAt;
    if n > 0 { assert MatchesAt(lt, text, ms[n - 1].start, ms[n - 1].term); }
  }

  lemma LastIsClear(lt: Letters, terms: seq<Term>, text: string, pos: nat, id: nat)
    requires pos <= |text| && Clear(lt, terms, text[pos..])
    ensures AllClear(lt, terms, Placed(text, [], pos, id))
  {
    hide Clear;
  }

  lemma NextIsClear(lt: Letters, terms: seq<Term>, text: string, spans: seq<Span>, pos: nat, id: nat)
    requires spans != [] && SpansIn(text, spans, pos) && SpansIn(text, spans[1..], spans[0].end)
    requires Clear(lt, terms, text[pos..spans[0].start])
    requires AllClear(lt, terms, Placed(text, spans[1..], spans[0].end, id + 1))
    ensures AllClear(lt, terms, Placed(text, spans, pos, id))
  {
    hide Clear;
    var s := spans[0];
    var head, rest := TextIf(text[pos..s.start]) + [Entity(s.kind, id)], Placed(text, spans[1..], s.end, id + 1);
    var all: seq<Token> := head + rest;
    forall k | 0 <= k < |all| && all[k].Text? ensures all[k].value != "" && Clear(lt, terms, all[k].value) {
      if k >= |head| { assert all[k] == rest[k - |head|]; }
    }
  }

  /** The stretch before match `n`, and what follows it. */
  lemma {:induction false} PlacedIsClear(lt: Letters, terms: seq<Term>, text: string, ms: seq<Match>, n: nat, pos: nat, id: nat)
    requires lt.Lawful() && ms == FindTerms(lt, terms, text) && n <= |ms|
    requires pos == if n == 0 then 0 else ms[n - 1].end
    ensures SpansIn(text, SpansOfMatches(ms)[n..], pos)
    ensures AllClear(lt, terms, Placed(text, SpansOfMatches(ms)[n..], pos, id))
    decreases |ms| - n
  {
    hide MatchesAt, FindTerms, Clear, FindFrom, Between, Placed, EdgeLeft, EdgeRight, AllClear;
    var spans := SpansOfMatches(ms);
    FoundFrom(lt, terms, text);
    SpansFrom(lt, terms, text, ms, n, pos);
    var b := if n == |ms| then |text| else ms[n].start;
    MatchEdges(lt, terms, text, ms, n);
    forall p: nat | pos <= p < b ensures Between(ms, p) { GapIsBetween(ms, n, pos, b); }
    StretchIsClear(lt, terms, text, ms, pos, b);
    if n == |ms| {
      assert text[pos..b] == text[pos..] && spans[n..] == [];
      LastIsClear(lt, terms, text, pos, id);
    } else {
      assert spans[n..][0] == spans[n] && spans[n..][1..] == spans[n + 1..];
      PlacedIsClear(lt, terms, text, ms, n + 1, ms[n].end, id + 1);
      NextIsClear(lt, terms, text, spans[n..], pos, id);
    }
  }

  lemma FoundFrom(lt: Letters, terms: seq<Term>, text: string)
    ensures Found(lt, text, 0, FindTerms(lt, terms, text))
  {
    FoundIs(lt, terms, text, 0);
  }

  lemma GapIsBetween(ms: seq<Match>, n: nat, a: nat, b: nat)
    requires n <= |ms| && forall k :: 0 <= k < |ms| ==> ms[k].start < ms[k].end
    requires forall k, l :: 0 <= k < l < |ms| ==> ms[k].end <= ms[l].start
    requires n > 0 ==> ms[n - 1].end <= a
    requires n < |ms| ==> b <= ms[n].start
    ensures forall p: nat :: a <= p < b ==> Between(ms, p)
  {
    forall p: nat | a <= p < b ensures Between(ms, p) {
      forall k | 0 <= k < |ms| ensures !(ms[k].start <= p < ms[k].end) {
        if k < n - 1 { assert ms[k].end <= ms[n - 1].start; }
        if k > n { assert ms[n].end <= ms[k].start; }
      }
    }
  }

  lemma {:induction false} ReplacedIsClear(lt: Letters, terms: seq<Term>, ts: seq<Token>, first: nat)
    requires lt.Lawful() && Finder(TermSpans(lt, terms))
    ensures AllClear(lt, terms, ReplaceFrom(ts, TermSpans(lt, terms), first).tokens)
  {
    hide Clear, Placed, FindTerms, SpansIn;
    if ts != [] {
      var init, t := ts[..|ts| - 1], ts[|ts| - 1];
      ReplacedIsClear(lt, terms, init, first);
      var r := ReplaceFrom(init, TermSpans(lt, terms), first);
      if t.Text? {
        var ms := FindTerms(lt, terms, t.value);
        PlacedIsClear(lt, terms, t.value, ms, 0, 0, r.next);
        assert SpansOfMatches(ms)[0..] == SpansOfMatches(ms);
      }
    }
  }

  /** After substitution no text run holds a term: the model never sees one. */
  lemma NoTermRemains(lt: Letters, terms: seq<Term>, ts: seq<Token>)
    requires lt.Lawful() && Finder(TermSpans(lt, terms))
    ensures AllClear(lt, terms, Replace(ts, TermSpans(lt, terms)).tokens)
  {
    ReplacedIsClear(lt, terms, ts, FirstId(ts));
  }

  lemma {:induction false} ClearFindsNothing(lt: Letters, terms: seq<Term>, text: string, i: nat)
    requires Clear(lt, terms, text)
    ensures FindFrom(lt, terms, text, i) == []
    decreases |text| - i
  {
    if i < |text| {
      TriedIsLongest(lt, terms, text, i);
      ClearFindsNothing(lt, terms, text, i + 1);
    }
  }

  lemma NothingPlaced(lt: Letters, terms: seq<Term>, text: string, id: nat)
    requires Clear(lt, terms, text)
    ensures TermSpans(lt, terms)(text) == [] && Placed(text, [], 0, id) == TextIf(text)
    ensures Originals(text, [], 0, id) == map[]
  {
    ClearFindsNothing(lt, terms, text, 0);
    assert text[0..] == text;
  }

  lemma {:induction false} ClearStays(lt: Letters, terms: seq<Term>, ts: seq<Token>, first: nat)
    requires Finder(TermSpans(lt, terms)) && AllClear(lt, terms, ts)
    ensures ReplaceFrom(ts, TermSpans(lt, terms), first) == Replaced(ts, first, map[])
  {
    hide Clear, Placed, FindTerms;
    if ts != [] {
      var init, t := ts[..|ts| - 1], ts[|ts| - 1];
      assert ts == init + [t];
      ClearStays(lt, terms, init, first);
      if t.Text? {
        NothingPlaced(lt, terms, t.value, first);
      }
    }
  }

  /** So substituting again changes nothing. */
  lemma SubstituteTwice(lt: Letters, terms: seq<Term>, ts: seq<Token>)
    requires lt.Lawful() && Finder(TermSpans(lt, terms))
    ensures var once := Replace(ts, TermSpans(lt, terms)).tokens;
            Replace(once, TermSpans(lt, terms)).tokens == once && Replace(once, TermSpans(lt, terms)).originals == map[]
  {
    var once := Replace(ts, TermSpans(lt, terms)).tokens;
    NoTermRemains(lt, terms, ts);
    ClearStays(lt, terms, once, FirstId(once));
  }
}
