/** Cutting a sentence of too many words into clauses, at the strongest pause nearest its middle. */
module Clauses {
  import opened Wrappers
  import opened Segments
  import opened Patterns
  import opened Decompose
  import opened Sentences

  // ---- word counts ----

  /** A text counts its runs of word characters, any marker counts once. */
  function TokenWords(ab: Alphabet, t: Token): nat {
    if t.Text? then WordRuns(ab, t.value) else 1
  }

  function WordCount(ab: Alphabet, ts: seq<Token>): nat {
    if ts == [] then 0 else WordCount(ab, ts[..|ts| - 1]) + TokenWords(ab, ts[|ts| - 1])
  }

  lemma WordCountSnoc(ab: Alphabet, ts: seq<Token>, t: Token)
    ensures WordCount(ab, ts + [t]) == WordCount(ab, ts) + TokenWords(ab, t)
  {
    assert (ts + [t])[..|ts|] == ts;
  }

  lemma {:induction false} WordCountConcat(ab: Alphabet, a: seq<Token>, b: seq<Token>)
    ensures WordCount(ab, a + b) == WordCount(ab, a) + WordCount(ab, b)
  {
    if b == [] {
      assert a + b == a;
    } else {
      var init := b[..|b| - 1];
      assert (a + b)[..|a + b| - 1] == a + init;
      WordCountConcat(ab, a, init);
    }
  }

  /** Merging can join a word across a seam, so it never raises the count. */
  lemma {:induction false} WordCountMerge(ab: Alphabet, ts: seq<Token>)
    ensures WordCount(ab, Merge(ts)) <= WordCount(ab, ts)
  {
    if ts != [] {
      var init, t := ts[..|ts| - 1], ts[|ts| - 1];
      WordCountMerge(ab, init);
      var out := Merge(init);
      if t.Text? && t.value != "" && out != [] && out[|out| - 1].Text? {
        var last := out[|out| - 1];
        assert out == out[..|out| - 1] + [last];
        WordCountSnoc(ab, out[..|out| - 1], Text(last.value + t.value));
        WordRunsConcat(ab, last.value, t.value);
      } else if !(t.Text? && t.value == "") {
        WordCountSnoc(ab, out, t);
      }
    }
  }

  // ---- where to cut ----

  /** A cut inside text `token`, with how far from the middle it is. */
  datatype Cut = Cut(distance: nat, token: nat, gapStart: nat, gapEnd: nat)

  function Before(ab: Alphabet, ts: seq<Token>, i: nat, gapStart: nat): nat
    requires i < |ts| && ts[i].Text? && gapStart <= |ts[i].value|
  {
    WordCount(ab, ts[..i]) + WordRuns(ab, ts[i].value[..gapStart])
  }

  function Distance(total: nat, before: nat): nat {
    if total >= 2 * before then total - 2 * before else 2 * before - total
  }

  /** In range, over a gap of white space, with words on both sides. */
  ghost predicate CutIn(ab: Alphabet, ts: seq<Token>, c: Cut) {
    && c.token < |ts| && ts[c.token].Text?
    && c.gapStart < c.gapEnd <= |ts[c.token].value|
    && Spaces(ab, ts[c.token].value[c.gapStart..c.gapEnd])
    && 0 < Before(ab, ts, c.token, c.gapStart) < WordCount(ab, ts)
    && c.distance == Distance(WordCount(ab, ts), Before(ab, ts, c.token, c.gapStart))
  }

  /** The admissible cuts among the first `n` pauses of text `i`, in order. */
  function CutsInText(ab: Alphabet, ts: seq<Token>, i: nat, gaps: seq<Place>, n: nat): seq<Cut>
    requires i < |ts| && ts[i].Text? && PlacesIn(ab, ts[i].value, gaps) && n <= |gaps|
  {
    if n == 0 then []
    else
      var m := gaps[n - 1];
      assert PlaceIn(ab, ts[i].value, m);
      var before := Before(ab, ts, i, m.gapStart);
      CutsInText(ab, ts, i, gaps, n - 1)
      + if 0 < before < WordCount(ab, ts)
        then [Cut(Distance(WordCount(ab, ts), before), i, m.gapStart, m.gapEnd)] else []
  }

  /** The admissible cuts of pause `k` in the first `n` tokens, in order. */
  function CutsAt(ab: Alphabet, ts: seq<Token>, k: nat, n: nat): seq<Cut>
    requires n <= |ts|
  {
    if n == 0 then []
    else
      CutsAt(ab, ts, k, n - 1)
      + if ts[n - 1].Text? then
          var gaps := Pauses(ab, ts[n - 1].value, k, 0);
          CutsInText(ab, ts, n - 1, gaps, |gaps|)
        else []
  }

  function Nearer(best: Option<Cut>, c: Cut): Option<Cut> {
    if best.None? || c.distance < best.value.distance then Some(c) else best
  }

  /** The first of the cuts nearest the middle. */
  function Nearest(cuts: seq<Cut>): Option<Cut> {
    if cuts == [] then None else Nearer(Nearest(cuts[..|cuts| - 1]), cuts[|cuts| - 1])
  }

  /** Of cuts equally near, the first found is taken. */
  lemma {:induction false} NearestIsFirst(cuts: seq<Cut>) returns (i: nat)
    requires cuts != []
    ensures i < |cuts| && Nearest(cuts) == Some(cuts[i])
    ensures forall j :: 0 <= j < i ==> cuts[j].distance > cuts[i].distance
  {
    var n := |cuts| - 1;
    i := n;
    if n > 0 {
      var k := NearestIsFirst(cuts[..n]);
      if cuts[n].distance >= cuts[k].distance {
        i := k;
      } else {
        forall j | 0 <= j < n ensures cuts[j].distance > cuts[n].distance {
          NearestIsLeast(cuts[..n]);
          assert cuts[..n][j] in cuts[..n];
        }
      }
    }
  }

  lemma {:induction false} NearestIsLeast(cuts: seq<Cut>)
    ensures cuts == [] <==> Nearest(cuts).None?
    ensures Nearest(cuts).Some? ==>
              Nearest(cuts).value in cuts && forall c :: c in cuts ==> Nearest(cuts).value.distance <= c.distance
  {
    if cuts != [] {
      NearestIsLeast(cuts[..|cuts| - 1]);
      assert cuts == cuts[..|cuts| - 1] + [cuts[|cuts| - 1]];
    }
  }

  lemma {:induction false} CutsInTextAreIn(ab: Alphabet, ts: seq<Token>, i: nat, gaps: seq<Place>, n: nat, c: Cut)
    requires i < |ts| && ts[i].Text? && PlacesIn(ab, ts[i].value, gaps) && n <= |gaps|
    requires forall m :: 0 <= m < |gaps| ==> gaps[m].gapStart < gaps[m].gapEnd
    requires c in CutsInText(ab, ts, i, gaps, n)
    ensures CutIn(ab, ts, c)
  {
    hide Before, Distance, WordCount, Spaces;
    assert PlaceIn(ab, ts[i].value, gaps[n - 1]);
    if c in CutsInText(ab, ts, i, gaps, n - 1) {
      CutsInTextAreIn(ab, ts, i, gaps, n - 1, c);
    }
  }

  lemma {:induction false} CutsAreIn(ab: Alphabet, ts: seq<Token>, k: nat, n: nat, c: Cut)
    requires n <= |ts| && c in CutsAt(ab, ts, k, n)
    ensures CutIn(ab, ts, c)
  {
    if c in CutsAt(ab, ts, k, n - 1) {
      CutsAreIn(ab, ts, k, n - 1, c);
    } else {
      var gaps := Pauses(ab, ts[n - 1].value, k, 0);
      CutsInTextAreIn(ab, ts, n - 1, gaps, |gaps|, c);
    }
  }

  function LeftOf(ts: seq<Token>, c: Cut): seq<Token>
    requires c.token < |ts| && ts[c.token].Text? && c.gapStart <= |ts[c.token].value|
  {
    Merge(ts[..c.token] + [Text(ts[c.token].value[..c.gapStart])])
  }

  function RightOf(ts: seq<Token>, c: Cut): seq<Token>
    requires c.token < |ts| && ts[c.token].Text? && c.gapEnd <= |ts[c.token].value|
  {
    Merge([Text(ts[c.token].value[c.gapEnd..])] + ts[c.token + 1..])
  }

  /** Both sides of a cut have fewer words than the whole. */
  lemma CutShrinks(ab: Alphabet, ts: seq<Token>, c: Cut)
    requires ab.Lawful() && CutIn(ab, ts, c)
    ensures WordCount(ab, LeftOf(ts, c)) < WordCount(ab, ts)
    ensures WordCount(ab, RightOf(ts, c)) < WordCount(ab, ts)
  {
    hide Merge, Push, WordRuns;
    var v := ts[c.token].value;
    var rest := ts[c.token + 1..];
    WordCountMerge(ab, ts[..c.token] + [Text(v[..c.gapStart])]);
    WordCountSnoc(ab, ts[..c.token], Text(v[..c.gapStart]));
    WordCountMerge(ab, [Text(v[c.gapEnd..])] + rest);
    WordCountConcat(ab, [Text(v[c.gapEnd..])], rest);
    WordCountSnoc(ab, [], Text(v[c.gapEnd..]));
    assert [] + [Text(v[c.gapEnd..])] == [Text(v[c.gapEnd..])];
    WordRunsGap(ab, v, c.gapStart, c.gapEnd);
    assert ts == ts[..c.token] + [ts[c.token]] + rest;
    WordCountConcat(ab, ts[..c.token] + [ts[c.token]], rest);
    WordCountSnoc(ab, ts[..c.token], ts[c.token]);
  }

  /** The cut at the first pause, strongest first, that leaves letters on both sides. */
  function FindCut(ab: Alphabet, ts: seq<Token>, k: nat): (r: Option<Cut>)
    requires ab.Lawful()
    ensures r.Some? ==>
              && CutIn(ab, ts, r.value)
              && HasWords(ab, LeftOf(ts, r.value)) && HasWords(ab, RightOf(ts, r.value))
    decreases 3 - k
  {
    if k >= 3 then None
    else
      var cuts := CutsAt(ab, ts, k, |ts|);
      var best := Nearest(cuts);
      NearestIsLeast(cuts);
      if best.None? then FindCut(ab, ts, k + 1)
      else
        CutsAreIn(ab, ts, k, |ts|, best.value);
        if HasWords(ab, LeftOf(ts, best.value)) && HasWords(ab, RightOf(ts, best.value))
        then best else FindCut(ab, ts, k + 1)
  }

  // ---- clauses ----

  function SplitLong(ab: Alphabet, sentence: seq<Token>, limit: nat): (r: seq<Sentence>)
    requires ab.Lawful()
    ensures r != [] && r[|r| - 1].gap == ""
    decreases WordCount(ab, sentence)
  {
    if WordCount(ab, sentence) <= limit then [Sentence(sentence, "")]
    else
      var cut := FindCut(ab, sentence, 0);
      if cut.None? then [Sentence(sentence, "")]
      else
        var c := cut.value;
        CutShrinks(ab, sentence, c);
        var head := SplitLong(ab, LeftOf(sentence, c), limit);
        var n := |head| - 1;
        head[..n] + [Sentence(head[n].tokens, sentence[c.token].value[c.gapStart..c.gapEnd])]
        + SplitLong(ab, RightOf(sentence, c), limit)
  }

  /** The last gap of a list, set to `gap`. */
  function WithGap(l: seq<Sentence>, gap: string): seq<Sentence>
    requires l != []
  {
    l[..|l| - 1] + [Sentence(l[|l| - 1].tokens, gap)]
  }

  lemma GapAtoms(tokens: seq<Token>, gap: string)
    ensures SentenceAtoms(Sentence(tokens, gap)) == Atoms(tokens) + Chars(gap)
    ensures Chars("") == []
  {
  }

  lemma WithGapIs(l: seq<Sentence>, gap: string)
    requires l != []
    ensures WithGap(l, gap) == l[..|l| - 1] + [Sentence(l[|l| - 1].tokens, gap)]
  {
  }

  lemma GapReplaced(init: seq<Sentence>, tokens: seq<Token>, gap: string)
    ensures Joined(init + [Sentence(tokens, gap)]) == Joined(init + [Sentence(tokens, "")]) + Chars(gap)
  {
    hide *;
    JoinedSnoc(init, Sentence(tokens, gap));
    JoinedSnoc(init, Sentence(tokens, ""));
    GapAtoms(tokens, gap);
    GapAtoms(tokens, "");
    NothingAdded(Atoms(tokens));
    Assoc(Joined(init), Atoms(tokens), Chars(gap));
  }

  lemma NothingAdded(a: seq<Atom>)
    ensures a + [] == a
  {
  }

  lemma LastTaken(l: seq<Sentence>)
    requires l != [] && l[|l| - 1].gap == ""
    ensures l == l[..|l| - 1] + [Sentence(l[|l| - 1].tokens, "")]
  {
  }

  lemma WithGapKeeps(l: seq<Sentence>, gap: string)
    requires l != [] && l[|l| - 1].gap == ""
    ensures Joined(WithGap(l, gap)) == Joined(l) + Chars(gap)
  {
    hide *;
    WithGapIs(l, gap);
    LastTaken(l);
    GapReplaced(l[..|l| - 1], l[|l| - 1].tokens, gap);
  }

  /** The two sides of a cut and the gap between them are the sentence. */
  lemma CutPartition(ab: Alphabet, ts: seq<Token>, c: Cut)
    requires CutIn(ab, ts, c)
    ensures Atoms(LeftOf(ts, c)) + Chars(ts[c.token].value[c.gapStart..c.gapEnd]) + Atoms(RightOf(ts, c)) == Atoms(ts)
    ensures Merged(LeftOf(ts, c)) && Merged(RightOf(ts, c))
  {
    hide Atoms, Merge, Chars;
    var v, init, rest := ts[c.token].value, ts[..c.token], ts[c.token + 1..];
    var left, gap, right := v[..c.gapStart], v[c.gapStart..c.gapEnd], v[c.gapEnd..];
    MergeKeeps(init + [Text(left)]);
    MergeKeeps([Text(right)] + rest);
    CutKeeps(ts, c.token, c.gapEnd);
    AtomsSnoc(init, Text(left));
    AtomsSnoc(init, Text(v[..c.gapEnd]));
    assert left + gap == v[..c.gapEnd];
    CharsConcat(left, gap);
    Assoc(Atoms(init), Chars(left), Chars(gap));
  }

  lemma {:induction false} SplitLongKeeps(ab: Alphabet, sentence: seq<Token>, limit: nat)
    requires ab.Lawful()
    ensures Joined(SplitLong(ab, sentence, limit)) == Atoms(sentence)
    decreases WordCount(ab, sentence)
  {
    var r := SplitLong(ab, sentence, limit);
    if WordCount(ab, sentence) <= limit || FindCut(ab, sentence, 0).None? {
      JoinedSnoc([], Sentence(sentence, ""));
      assert [] + [Sentence(sentence, "")] == r;
    } else {
      var c := FindCut(ab, sentence, 0).value;
      var left, right := LeftOf(sentence, c), RightOf(sentence, c);
      var gap := sentence[c.token].value[c.gapStart..c.gapEnd];
      CutShrinks(ab, sentence, c);
      SplitLongKeeps(ab, left, limit);
      SplitLongKeeps(ab, right, limit);
      WithGapKeeps(SplitLong(ab, left, limit), gap);
      JoinedConcat(WithGap(SplitLong(ab, left, limit), gap), SplitLong(ab, right, limit));
      CutPartition(ab, sentence, c);
    }
  }

  lemma {:induction false} SplitLongWords(ab: Alphabet, sentence: seq<Token>, limit: nat)
    requires ab.Lawful() && HasWords(ab, sentence) && Merged(sentence)
    ensures var r := SplitLong(ab, sentence, limit);
            GapsAreSpace(ab, r) && AllHaveWords(ab, r) && AllMerged(r)
    decreases WordCount(ab, sentence)
  {
    if WordCount(ab, sentence) > limit && FindCut(ab, sentence, 0).Some? {
      var c := FindCut(ab, sentence, 0).value;
      CutShrinks(ab, sentence, c);
      CutPartition(ab, sentence, c);
      SplitLongWords(ab, LeftOf(sentence, c), limit);
      SplitLongWords(ab, RightOf(sentence, c), limit);
      WordsOfSplit(ab, SplitLong(ab, LeftOf(sentence, c), limit),
                   sentence[c.token].value[c.gapStart..c.gapEnd], SplitLong(ab, RightOf(sentence, c), limit));
    }
  }

  lemma WordsOfSplit(ab: Alphabet, a: seq<Sentence>, gap: string, b: seq<Sentence>)
    requires a != [] && Spaces(ab, gap)
    requires GapsAreSpace(ab, a) && AllHaveWords(ab, a) && AllMerged(a)
    requires GapsAreSpace(ab, b) && AllHaveWords(ab, b) && AllMerged(b)
    ensures var r := WithGap(a, gap) + b; GapsAreSpace(ab, r) && AllHaveWords(ab, r) && AllMerged(r)
  {
    var r := WithGap(a, gap) + b;
    forall i | 0 <= i < |r|
      ensures Spaces(ab, r[i].gap) && HasWords(ab, r[i].tokens) && Merged(r[i].tokens)
    {
      if i < |a| {
        assert HasWords(ab, a[i].tokens) && Merged(a[i].tokens) && Spaces(ab, a[i].gap);
      } else {
        assert r[i] == b[i - |a|];
      }
    }
  }

  /** Short enough, or with no place left to cut. */
  ghost predicate Settled(ab: Alphabet, ts: seq<Token>, limit: nat)
    requires ab.Lawful()
  {
    WordCount(ab, ts) <= limit || FindCut(ab, ts, 0).None?
  }

  /** Cutting goes on until every clause fits the limit or has no place left to cut. */
  lemma {:induction false} SplitLongSettles(ab: Alphabet, sentence: seq<Token>, limit: nat)
    requires ab.Lawful()
    ensures forall s :: s in SplitLong(ab, sentence, limit) ==> Settled(ab, s.tokens, limit)
    decreases WordCount(ab, sentence)
  {
    if !Settled(ab, sentence, limit) {
      LongIsCut(ab, sentence, limit);
      var c := FindCut(ab, sentence, 0).value;
      CutShrinks(ab, sentence, c);
      SplitLongSettles(ab, LeftOf(sentence, c), limit);
      SplitLongSettles(ab, RightOf(sentence, c), limit);
      hide SplitLong, Settled, Alphabet.Lawful;
      var head := SplitLong(ab, LeftOf(sentence, c), limit);
      assert head[|head| - 1] in head;
    }
  }

  /** A sentence that is not settled is cut, and both sides are split on. */
  lemma LongIsCut(ab: Alphabet, sentence: seq<Token>, limit: nat)
    requires ab.Lawful() && !Settled(ab, sentence, limit)
    ensures var cut := FindCut(ab, sentence, 0);
            && cut.Some? && CutIn(ab, sentence, cut.value)
            && SplitLong(ab, sentence, limit) ==
                 WithGap(SplitLong(ab, LeftOf(sentence, cut.value), limit),
                         sentence[cut.value.token].value[cut.value.gapStart..cut.value.gapEnd])
                 + SplitLong(ab, RightOf(sentence, cut.value), limit)
  {
    hide FindCut, WordCount, CutIn, Alphabet.Lawful, Merge;
  }

  /** The sentences of a piece, long ones cut into clauses; the gap of a sentence follows its last clause. */
  function ClausesOf(ab: Alphabet, sentences: seq<Sentence>): seq<Sentence>
    requires ab.Lawful()
  {
    if sentences == [] then []
    else
      var s := sentences[|sentences| - 1];
      ClausesOf(ab, sentences[..|sentences| - 1]) + WithGap(SplitLong(ab, s.tokens, MAX_WORDS), s.gap)
  }

  lemma {:induction false} ClausesOfKeeps(ab: Alphabet, l: seq<Sentence>)
    requires ab.Lawful()
    ensures Joined(ClausesOf(ab, l)) == Joined(l)
  {
    if l != [] {
      var init, s := l[..|l| - 1], l[|l| - 1];
      var parts := SplitLong(ab, s.tokens, MAX_WORDS);
      ClausesOfKeeps(ab, init);
      SplitLongKeeps(ab, s.tokens, MAX_WORDS);
      WithGapKeeps(parts, s.gap);
      JoinedConcat(ClausesOf(ab, init), WithGap(parts, s.gap));
    }
  }

  lemma {:induction false} ClausesOfWords(ab: Alphabet, l: seq<Sentence>)
    requires ab.Lawful() && GapsAreSpace(ab, l) && AllHaveWords(ab, l) && AllMerged(l)
    ensures var r := ClausesOf(ab, l); GapsAreSpace(ab, r) && AllHaveWords(ab, r) && AllMerged(r)
  {
    if l != [] {
      var init, s := l[..|l| - 1], l[|l| - 1];
      ClausesOfWords(ab, init);
      assert HasWords(ab, s.tokens) && Merged(s.tokens) && Spaces(ab, s.gap);
      SplitLongWords(ab, s.tokens, MAX_WORDS);
      WordsOfSplit(ab, SplitLong(ab, s.tokens, MAX_WORDS), s.gap, []);
      assert WithGap(SplitLong(ab, s.tokens, MAX_WORDS), s.gap) + []
          == WithGap(SplitLong(ab, s.tokens, MAX_WORDS), s.gap);
      AppendWords(ab, ClausesOf(ab, init), WithGap(SplitLong(ab, s.tokens, MAX_WORDS), s.gap));
    }
  }

  lemma AppendWords(ab: Alphabet, a: seq<Sentence>, b: seq<Sentence>)
    requires GapsAreSpace(ab, a) && AllHaveWords(ab, a) && AllMerged(a)
    requires GapsAreSpace(ab, b) && AllHaveWords(ab, b) && AllMerged(b)
    ensures GapsAreSpace(ab, a + b) && AllHaveWords(ab, a + b) && AllMerged(a + b)
  {
    forall i | 0 <= i < |a + b|
      ensures Spaces(ab, (a + b)[i].gap) && HasWords(ab, (a + b)[i].tokens) && Merged((a + b)[i].tokens)
    {
      if i >= |a| { assert (a + b)[i] == b[i - |a|]; }
    }
  }

  function ClausesIn(ab: Alphabet, core: seq<Token>): seq<Sentence>
    requires ab.Lawful()
  {
    ClausesOf(ab, SplitSentences(ab, core))
  }

  /** Sentences and clauses together lose nothing, and everything they send has words. */
  lemma ClausesFaithful(ab: Alphabet, core: seq<Token>)
    requires ab.Lawful() && HasWords(ab, core)
    ensures Faithful(ab, ClausesIn(ab, core), Atoms(core))
  {
    var l := SplitSentences(ab, core);
    SplitSentencesFaithful(ab, core);
    ClausesOfKeeps(ab, l);
    ClausesOfWords(ab, l);
  }

  // ---- the loops of the source ----

  /** The inner search loop: the pauses of one text, `words` words behind it. */
  method SearchText(ab: Alphabet, ts: seq<Token>, i: nat, gaps: seq<Place>, words: nat, total: nat,
                    best0: Option<Cut>, ghost earlier: seq<Cut>)
    returns (best: Option<Cut>)
    requires i < |ts| && ts[i].Text? && PlacesIn(ab, ts[i].value, gaps)
    requires words == WordCount(ab, ts[..i]) && total == WordCount(ab, ts) && best0 == Nearest(earlier)
    ensures best == Nearest(earlier + CutsInText(ab, ts, i, gaps, |gaps|))
  {
    hide Nearest, Distance, WordRuns, WordCount;
    best := best0;
    assert earlier + CutsInText(ab, ts, i, gaps, 0) == earlier;
    for n := 0 to |gaps|
      invariant best == Nearest(earlier + CutsInText(ab, ts, i, gaps, n))
    {
      var m := gaps[n];
      assert PlaceIn(ab, ts[i].value, m);
      var before := words + WordRuns(ab, ts[i].value[..m.gapStart]);
      ghost var cuts := earlier + CutsInText(ab, ts, i, gaps, n);
      if 0 < before < total {
        var c := Cut(Distance(total, before), i, m.gapStart, m.gapEnd);
        NearestSnoc(cuts, c);
        assert earlier + CutsInText(ab, ts, i, gaps, n + 1) == cuts + [c];
        if best.None? || c.distance < best.value.distance {
          best := Some(c);
        }
      } else {
        assert earlier + CutsInText(ab, ts, i, gaps, n + 1) == cuts;
      }
    }
  }

  /** The search loop: words seen so far, and the best cut so far. */
  method SearchCuts(ab: Alphabet, ts: seq<Token>, k: nat, total: nat) returns (best: Option<Cut>)
    requires total == WordCount(ab, ts)
    ensures best == Nearest(CutsAt(ab, ts, k, |ts|))
  {
    best := None;
    var words := 0;
    for i := 0 to |ts|
      invariant words == WordCount(ab, ts[..i])
      invariant best == Nearest(CutsAt(ab, ts, k, i))
    {
      assert ts[..i + 1] == ts[..i] + [ts[i]];
      WordCountSnoc(ab, ts[..i], ts[i]);
      if ts[i].Text? {
        var gaps := Pauses(ab, ts[i].value, k, 0);
        best := SearchText(ab, ts, i, gaps, words, total, best, CutsAt(ab, ts, k, i));
        words := words + WordRuns(ab, ts[i].value);
      } else {
        assert CutsAt(ab, ts, k, i + 1) == CutsAt(ab, ts, k, i);
        words := words + 1;
      }
    }
    assert ts[..|ts|] == ts;
  }

  lemma NearestSnoc(cuts: seq<Cut>, c: Cut)
    ensures Nearest(cuts + [c]) == Nearer(Nearest(cuts), c)
  {
    assert (cuts + [c])[..|cuts|] == cuts;
  }

  method FindCutLoop(ab: Alphabet, ts: seq<Token>) returns (r: Option<Cut>)
    requires ab.Lawful()
    ensures r == FindCut(ab, ts, 0)
  {
    var total := WordCount(ab, ts);
    for k := 0 to 3
      invariant FindCut(ab, ts, 0) == FindCut(ab, ts, k)
    {
      var best := SearchCuts(ab, ts, k, total);
      if best.Some? {
        NearestIsLeast(CutsAt(ab, ts, k, |ts|));
        CutsAreIn(ab, ts, k, |ts|, best.value);
        if HasWords(ab, LeftOf(ts, best.value)) && HasWords(ab, RightOf(ts, best.value)) {
          return best;
        }
      }
    }
    return None;
  }
}
