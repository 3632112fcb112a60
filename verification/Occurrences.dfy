/** Terms in text, said letter by letter: where they occur, which are found, and that none is left. */
module Occurrences {
  import opened Segments
  import opened Glossary
  import opened Spans
  import opened Substitution

  /** A character of the text for one of the term: the same, or the same but for case. */
  predicate Agrees(lt: Letters, t: Term, c: char, d: char) {
    c == d || (!t.caseSensitive && lt.lower(c) == lt.lower(d))
  }

  /** The term stands at `i`, letter for letter, and no word goes on across its ends. */
  ghost predicate Occurs(lt: Letters, text: string, i: nat, t: Term) {
    var n := |t.source|;
    && 0 < n && i + n <= |text|
    && (forall k :: 0 <= k < n ==> Agrees(lt, t, text[i + k], t.source[k]))
    && !(i > 0 && lt.isWord(text[i - 1]) && lt.isWord(t.source[0]))
    && !(i + n < |text| && lt.isWord(text[i + n]) && lt.isWord(t.source[n - 1]))
  }

  lemma SpellsLetters(lt: Letters, piece: string, t: Term)
    requires |piece| == |t.source|
    ensures (if t.caseSensitive then piece == t.source else lt.Lower(piece) == lt.Lower(t.source))
            <==> forall k :: 0 <= k < |piece| ==> Agrees(lt, t, piece[k], t.source[k])
  {
    if !t.caseSensitive {
      if lt.Lower(piece) == lt.Lower(t.source) {
        forall k | 0 <= k < |piece| ensures Agrees(lt, t, piece[k], t.source[k]) {
          assert lt.Lower(piece)[k] == lt.Lower(t.source)[k];
        }
      }
      if forall k :: 0 <= k < |piece| ==> Agrees(lt, t, piece[k], t.source[k]) {
        forall k | 0 <= k < |piece| ensures lt.Lower(piece)[k] == lt.Lower(t.source)[k] {
          assert Agrees(lt, t, piece[k], t.source[k]);
        }
      }
    }
  }

  /** The matching test finds the term exactly where it occurs. */
  lemma MatchesIff(lt: Letters, text: string, i: nat, t: Term)
    ensures MatchesAt(lt, text, i, t) <==> Occurs(lt, text, i, t)
  {
    hide Agrees, Letters.Lower;
    var n := |t.source|;
    if 0 < n && i + n <= |text| {
      var piece := text[i..i + n];
      SpellsLetters(lt, piece, t);
      assert forall k :: 0 <= k < n ==> piece[k] == text[i + k];
    }
  }

  /** Both terms fit the whole of some text. */
  ghost predicate FitOneText(lt: Letters, a: Term, b: Term) {
    exists text: string :: |text| == |a.source| == |b.source| && Occurs(lt, text, 0, a) && Occurs(lt, text, 0, b)
  }

  /** Entries are refused together exactly when some text is both. */
  lemma AmbiguousIff(lt: Letters, a: Term, b: Term)
    requires a.source != "" && b.source != ""
    ensures Ambiguous(lt, a, b) <==> FitOneText(lt, a, b)
  {
    hide Letters.Lower, Occurs;
    if Ambiguous(lt, a, b) {
      assert |lt.Lower(a.source)| == |a.source| && |lt.Lower(b.source)| == |b.source|;
      var text := if a.caseSensitive then a.source else b.source;
      assert text[0..0 + |text|] == text;
      MatchesIff(lt, text, 0, a);
      MatchesIff(lt, text, 0, b);
      assert Occurs(lt, text, 0, a) && Occurs(lt, text, 0, b);
    }
    if FitOneText(lt, a, b) {
      var text: string :| |text| == |a.source| == |b.source| && Occurs(lt, text, 0, a) && Occurs(lt, text, 0, b);
      MatchesIff(lt, text, 0, a);
      MatchesIff(lt, text, 0, b);
      SameLengthIsAmbiguous(lt, text, 0, a, b);
    }
  }

  // ---- which occurrences are found ----

  /** A term occurs at `i`, and none longer does. */
  ghost predicate LongestHere(lt: Letters, terms: seq<Term>, text: string, i: nat, t: Term) {
    && t in terms && Occurs(lt, text, i, t)
    && forall x :: x in terms && Occurs(lt, text, i, x) ==> |x.source| <= |t.source|
  }

  /**
   From `i` on, in order and disjoint: each a longest occurrence where it starts, and no term occurs
   at a place that none of them covers.
   */
  ghost predicate LeftmostLongest(lt: Letters, terms: seq<Term>, text: string, i: nat, ms: seq<Match>) {
    && (forall k :: 0 <= k < |ms| ==> i <= ms[k].start < ms[k].end <= |text|)
    && (forall k, l :: 0 <= k < l < |ms| ==> ms[k].end <= ms[l].start)
    && (forall k :: 0 <= k < |ms| ==>
          ms[k].end == ms[k].start + |ms[k].term.source| && LongestHere(lt, terms, text, ms[k].start, ms[k].term))
    && (forall p: nat, t :: i <= p < |text| && Between(ms, p) && t in terms ==> !Occurs(lt, text, p, t))
  }

  lemma LongestIff(lt: Letters, terms: seq<Term>, text: string, i: nat, t: Term)
    ensures Longest(lt, terms, text, i, t) <==> LongestHere(lt, terms, text, i, t)
  {
    hide MatchesAt, Occurs;
    MatchesIff(lt, text, i, t);
    forall x | x in terms ensures MatchesAt(lt, text, i, x) <==> Occurs(lt, text, i, x) { MatchesIff(lt, text, i, x); }
  }

  lemma {:induction false} FoundAreLongest(lt: Letters, terms: seq<Term>, text: string, i: nat)
    ensures forall k :: 0 <= k < |FindFrom(lt, terms, text, i)| ==>
              LongestHere(lt, terms, text, FindFrom(lt, terms, text, i)[k].start, FindFrom(lt, terms, text, i)[k].term)
    decreases |text| - i
  {
    hide MatchesAt, FirstMatch, Candidates, Longest, LongestHere;
    if i < |text| {
      TriedIsLongest(lt, terms, text, i);
      LongestIsNotEmpty(lt, terms, text, i);
      var m := FirstMatch(lt, text, i, Candidates(lt, terms, text[i]));
      if m.Some? {
        LongestIff(lt, terms, text, i, m.value);
        FoundAreLongest(lt, terms, text, i + |m.value.source|);
      } else {
        FoundAreLongest(lt, terms, text, i + 1);
      }
    }
  }

  /** What is found is leftmost and longest. */
  lemma FoundAreLeftmost(lt: Letters, terms: seq<Term>, text: string, i: nat)
    ensures LeftmostLongest(lt, terms, text, i, FindFrom(lt, terms, text, i))
  {
    hide MatchesAt, Occurs, Between, FindFrom;
    var ms := FindFrom(lt, terms, text, i);
    FoundIs(lt, terms, text, i);
    FoundAreLongest(lt, terms, text, i);
    forall p: nat, t | i <= p < |text| && Between(ms, p) && t in terms ensures !Occurs(lt, text, p, t) {
      NothingBetween(lt, terms, text, i, p, t);
      MatchesIff(lt, text, p, t);
    }
  }

  /** Nothing else is leftmost and longest. */
  lemma {:induction false} LeftmostIsFound(lt: Letters, terms: seq<Term>, text: string, i: nat, ms: seq<Match>)
    requires Loadable(lt, terms) && LeftmostLongest(lt, terms, text, i, ms)
    ensures ms == FindFrom(lt, terms, text, i)
    decreases |text| - i
  {
    hide MatchesAt, FirstMatch, Candidates, Loadable, Longest, LongestHere, Occurs;
    if i < |text| {
      TriedIsLongest(lt, terms, text, i);
      LongestIsNotEmpty(lt, terms, text, i);
      var m := FirstMatch(lt, text, i, Candidates(lt, terms, text[i]));
      if m.Some? {
        LongestIff(lt, terms, text, i, m.value);
        HereFirst(lt, terms, text, i, ms, m.value);
        LongestIff(lt, terms, text, i, ms[0].term);
        LongestIsUnique(lt, terms, text, i, m.value, ms[0].term);
        RestIsLeftmost(lt, terms, text, i, ms);
        LeftmostIsFound(lt, terms, text, ms[0].end, ms[1..]);
        assert ms == [ms[0]] + ms[1..];
      } else {
        NoneHere(lt, terms, text, i, ms);
        LeftmostIsFound(lt, terms, text, i + 1, ms);
      }
    }
  }

  /** A term that occurs first of all is covered, so a match starts there. */
  lemma HereFirst(lt: Letters, terms: seq<Term>, text: string, i: nat, ms: seq<Match>, t: Term)
    requires LeftmostLongest(lt, terms, text, i, ms) && i < |text| && LongestHere(lt, terms, text, i, t)
    ensures ms != [] && ms[0].start == i && LongestHere(lt, terms, text, i, ms[0].term)
  {
    hide Occurs;
    assert !Between(ms, i);
    var k :| 0 <= k < |ms| && ms[k].start <= i < ms[k].end;
  }

  lemma RestIsLeftmost(lt: Letters, terms: seq<Term>, text: string, i: nat, ms: seq<Match>)
    requires LeftmostLongest(lt, terms, text, i, ms) && ms != [] && ms[0].start == i
    ensures LeftmostLongest(lt, terms, text, ms[0].end, ms[1..])
  {
    hide Occurs, LongestHere;
    forall p: nat, t | ms[0].end <= p < |text| && Between(ms[1..], p) && t in terms ensures !Occurs(lt, text, p, t) {
      forall k | 0 <= k < |ms| ensures !(ms[k].start <= p < ms[k].end) {
        if k > 0 { assert ms[1..][k - 1] == ms[k]; }
      }
    }
  }

  lemma NoneHere(lt: Letters, terms: seq<Term>, text: string, i: nat, ms: seq<Match>)
    requires LeftmostLongest(lt, terms, text, i, ms) && i < |text|
    requires forall x :: x in terms ==> !MatchesAt(lt, text, i, x)
    ensures LeftmostLongest(lt, terms, text, i + 1, ms)
  {
    hide Occurs, MatchesAt;
    forall k | 0 <= k < |ms| ensures ms[k].start != i {
      MatchesIff(lt, text, i, ms[k].term);
    }
  }

  /** In an accepted termbase the matches are the one leftmost and longest choice of occurrences. */
  lemma FoundIff(lt: Letters, terms: seq<Term>, text: string, ms: seq<Match>)
    requires Loadable(lt, terms)
    ensures ms == FindTerms(lt, terms, text) <==> LeftmostLongest(lt, terms, text, 0, ms)
  {
    hide LeftmostLongest, Loadable, FindFrom;
    FoundAreLeftmost(lt, terms, text, 0);
    if LeftmostLongest(lt, terms, text, 0, ms) { LeftmostIsFound(lt, terms, text, 0, ms); }
  }

  // ---- case ----

  /** The text found for a term is its source, exactly or but for case as the term asks. */
  lemma FoundSpells(lt: Letters, terms: seq<Term>, text: string, k: nat)
    requires k < |FindTerms(lt, terms, text)|
    ensures var m := FindTerms(lt, terms, text)[k];
            && m.start < m.end <= |text| && m.term in terms
            && lt.Lower(text[m.start..m.end]) == lt.Lower(m.term.source)
            && (m.term.caseSensitive ==> text[m.start..m.end] == m.term.source)
  {
    hide FindFrom;
    FoundAreLeftmost(lt, terms, text, 0);
    var m := FindTerms(lt, terms, text)[k];
    assert Occurs(lt, text, m.start, m.term);
    MatchesIff(lt, text, m.start, m.term);
  }

  lemma StartingFolds(lt: Letters, terms: seq<Term>, c: char, d: char)
    requires lt.lower(c) == lt.lower(d)
    ensures Starting(lt, terms, c) == Starting(lt, terms, d)
  {
  }

  lemma {:induction false} FirstMatchFolds(lt: Letters, a: string, b: string, i: nat, cands: seq<Term>)
    requires lt.Lawful() && lt.Lower(a) == lt.Lower(b) && forall t :: t in cands ==> !t.caseSensitive
    ensures FirstMatch(lt, a, i, cands) == FirstMatch(lt, b, i, cands)
  {
    if cands != [] {
      hide Letters.Lower, MatchesAt;
      assert cands == [cands[0]] + cands[1..];
      OccursFolds(lt, a, b, i, cands[0]);
      FirstMatchFolds(lt, a, b, i, cands[1..]);
    }
  }

  lemma OccursFolds(lt: Letters, a: string, b: string, i: nat, t: Term)
    requires lt.Lawful() && lt.Lower(a) == lt.Lower(b) && !t.caseSensitive
    ensures MatchesAt(lt, a, i, t) == MatchesAt(lt, b, i, t)
  {
    hide MatchesAt;
    assert |a| == |b| by { assert |lt.Lower(a)| == |lt.Lower(b)|; }
    forall k | 0 <= k < |a| ensures lt.lower(a[k]) == lt.lower(b[k]) && lt.isWord(a[k]) == lt.isWord(b[k]) {
      assert lt.Lower(a)[k] == lt.Lower(b)[k];
      assert lt.isWord(lt.lower(a[k])) == lt.isWord(lt.lower(b[k]));
    }
    hide Letters.Lower;
    MatchesIff(lt, a, i, t);
    MatchesIff(lt, b, i, t);
    if Occurs(lt, a, i, t) || Occurs(lt, b, i, t) {
      forall k | 0 <= k < |t.source| ensures Agrees(lt, t, a[i + k], t.source[k]) <==> Agrees(lt, t, b[i + k], t.source[k]) {}
    }
  }

  lemma TriedFolds(lt: Letters, terms: seq<Term>, a: string, b: string, i: nat)
    requires lt.Lawful() && lt.Lower(a) == lt.Lower(b) && i < |a| == |b| && forall t :: t in terms ==> !t.caseSensitive
    ensures FirstMatch(lt, a, i, Candidates(lt, terms, a[i])) == FirstMatch(lt, b, i, Candidates(lt, terms, b[i]))
  {
    assert lt.lower(a[i]) == lt.lower(b[i]) by { assert lt.Lower(a)[i] == lt.Lower(b)[i]; }
    hide MatchesAt, FirstMatch, LongestFirst, Starting, Letters.Lower;
    StartingFolds(lt, terms, a[i], b[i]);
    var cands := Candidates(lt, terms, a[i]);
    LongestFirstIs(Starting(lt, terms, a[i]));
    forall t | t in cands ensures !t.caseSensitive { StartingIs(lt, terms, a[i], t); }
    FirstMatchFolds(lt, a, b, i, cands);
  }

  /** Where no entry asks for its case, texts that differ in case only have the same terms in the same places. */
  lemma {:induction false} CaseFolds(lt: Letters, terms: seq<Term>, a: string, b: string, i: nat)
    requires lt.Lawful() && lt.Lower(a) == lt.Lower(b) && forall t :: t in terms ==> !t.caseSensitive
    ensures FindFrom(lt, terms, a, i) == FindFrom(lt, terms, b, i)
    decreases |a| - i
  {
    hide MatchesAt, FirstMatch, Candidates, Letters.Lower, Letters.Lawful;
    assert |a| == |b| by { assert |lt.Lower(a)| == |lt.Lower(b)|; }
    if i < |a| {
      TriedFolds(lt, terms, a, b, i);
      var m := FirstMatch(lt, a, i, Candidates(lt, terms, a[i]));
      CaseFolds(lt, terms, a, b, if m.Some? && m.value.source != "" then i + |m.value.source| else i + 1);
    }
  }

  /** A text that is the term, but for case where the term ignores it, is found. */
  lemma LoneTerm(lt: Letters, t: Term, text: string)
    requires t.source != "" && |text| == |t.source|
    requires forall k :: 0 <= k < |text| ==> Agrees(lt, t, text[k], t.source[k])
    ensures FindTerms(lt, [t], text) == [Match(0, |text|, t)]
  {
    var all := [Match(0, |text|, t)];
    assert Occurs(lt, text, 0, t);
    hide Occurs, FindFrom;
    forall p: nat | p < |text| ensures !Between(all, p) {
      assert all[0].start <= p < all[0].end;
    }
    FoundIff(lt, [t], text, all);
  }

  /** A sentence's first word is found though the term is written small. */
  lemma CapitalIsFound(lt: Letters, t: Term)
    requires t.source == "tax" && !t.caseSensitive && lt.lower('T') == lt.lower('t')
    ensures FindTerms(lt, [t], "Tax") == [Match(0, 3, t)]
  {
    LoneTerm(lt, t, "Tax");
  }

  // ---- what is left ----

  /** A stretch of the text, with no word going on across its ends. */
  ghost predicate Stands(lt: Letters, text: string, i: nat, j: nat) {
    && i < j <= |text|
    && !(i > 0 && lt.isWord(text[i - 1]) && lt.isWord(text[i]))
    && !(j < |text| && lt.isWord(text[j]) && lt.isWord(text[j - 1]))
  }

  /** A stretch that reads as a term is an occurrence of it. */
  lemma StandsOccurs(lt: Letters, text: string, i: nat, j: nat, t: Term)
    requires lt.Lawful() && Stands(lt, text, i, j)
    requires if t.caseSensitive then text[i..j] == t.source else lt.Lower(text[i..j]) == lt.Lower(t.source)
    ensures Occurs(lt, text, i, t)
  {
    var piece := text[i..j];
    assert |lt.Lower(piece)| == |piece| && |lt.Lower(t.source)| == |t.source|;
    SpellsLetters(lt, piece, t);
    forall k | 0 <= k < |t.source|
      ensures Agrees(lt, t, text[i + k], t.source[k]) && lt.isWord(text[i + k]) == lt.isWord(t.source[k])
    {
      assert piece[k] == text[i + k];
      assert Agrees(lt, t, piece[k], t.source[k]);
      assert lt.isWord(lt.lower(piece[k])) == lt.isWord(lt.lower(t.source[k]));
    }
    assert text[i + 0] == text[i] && text[i + (|t.source| - 1)] == text[j - 1];
  }

  /**
   After substitution no text that is left has, between word edges, a stretch that reads as a term:
   in the same case for a term that asks for it, in any case for one that does not.
   */
  lemma NoTermIsLeft(lt: Letters, terms: seq<Term>, ts: seq<Token>, k: nat, i: nat, j: nat, t: Term)
    requires lt.Lawful() && Finder(TermSpans(lt, terms)) && t in terms
    requires k < |Replace(ts, TermSpans(lt, terms)).tokens| && Replace(ts, TermSpans(lt, terms)).tokens[k].Text?
    requires Stands(lt, Replace(ts, TermSpans(lt, terms)).tokens[k].value, i, j)
    ensures var piece := Replace(ts, TermSpans(lt, terms)).tokens[k].value[i..j];
            if t.caseSensitive then piece != t.source else lt.Lower(piece) != lt.Lower(t.source)
  {
    hide ReplaceFrom, MatchesAt, Stands, Occurs, Letters.Lower;
    var text := Replace(ts, TermSpans(lt, terms)).tokens[k].value;
    NoTermRemains(lt, terms, ts);
    assert Clear(lt, terms, text);
    MatchesIff(lt, text, i, t);
    StandsIn(lt, text, i, j);
    if if t.caseSensitive then text[i..j] == t.source else lt.Lower(text[i..j]) == lt.Lower(t.source) {
      StandsOccurs(lt, text, i, j, t);
    }
  }

  lemma StandsIn(lt: Letters, text: string, i: nat, j: nat)
    requires Stands(lt, text, i, j)
    ensures i < j <= |text|
  {
  }
}
