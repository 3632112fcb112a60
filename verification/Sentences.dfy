/** Cutting the words of a piece into sentences, and long sentences into clauses. */
module Sentences {
  import opened Segments
  import opened Patterns
  import opened Decompose

  /** What is sent in one call, and the white space that followed it. */
  datatype Sentence = Sentence(tokens: seq<Token>, gap: string)

  function SentenceAtoms(s: Sentence): seq<Atom> {
    Atoms(s.tokens) + Chars(s.gap)
  }

  /** The atoms of the sentences with their gaps, in order. */
  function Joined(l: seq<Sentence>): seq<Atom> {
    if l == [] then []
    else
      var n := |l| - 1;
      Joined(l[..n]) + SentenceAtoms(l[n])
  }

  lemma JoinedSnoc(l: seq<Sentence>, s: Sentence)
    ensures Joined(l + [s]) == Joined(l) + SentenceAtoms(s)
  {
    assert (l + [s])[..|l|] == l;
  }

  lemma {:induction false} JoinedConcat(a: seq<Sentence>, b: seq<Sentence>)
    ensures Joined(a + b) == Joined(a) + Joined(b)
  {
    if b == [] {
      assert a + b == a;
    } else {
      var n := |b| - 1;
      assert (a + b)[..|a + b| - 1] == a + b[..n];
      JoinedConcat(a, b[..n]);
      Assoc(Joined(a), Joined(b[..n]), SentenceAtoms(b[n]));
    }
  }

  ghost predicate GapsAreSpace(ab: Alphabet, l: seq<Sentence>) {
    forall i :: 0 <= i < |l| ==> Spaces(ab, l[i].gap)
  }

  ghost predicate AllHaveWords(ab: Alphabet, l: seq<Sentence>) {
    forall i :: 0 <= i < |l| ==> HasWords(ab, l[i].tokens)
  }

  ghost predicate AllMerged(l: seq<Sentence>) {
    forall i :: 0 <= i < |l| ==> Merged(l[i].tokens)
  }

  /** A faithful cut: nothing lost or reordered, gaps are white space, and each sentence is merged and has words. */
  ghost predicate Faithful(ab: Alphabet, l: seq<Sentence>, atoms: seq<Atom>) {
    l != [] && Joined(l) == atoms && GapsAreSpace(ab, l) && AllHaveWords(ab, l) && AllMerged(l)
  }

  // ---- sentences ----

  datatype Cutting = Cutting(found: seq<Sentence>, current: seq<Token>, start: nat)

  /** The state after the first `k` matches in text `v`. */
  function CutAtEnds(ab: Alphabet, v: string, ends: seq<Place>, k: nat, c: Cutting): (r: Cutting)
    requires PlacesIn(ab, v, ends) && k <= |ends| && c.start == 0
    ensures r.start <= |v| && (k < |ends| ==> r.start <= ends[k].at)
  {
    if k == 0 then c
    else
      var d := CutAtEnds(ab, v, ends, k - 1, c);
      var e := ends[k - 1];
      if !EndsSentence(ab, v, e.at) then d
      else Cutting(d.found + [Sentence(d.current + [Text(v[d.start..e.gapStart])], v[e.gapStart..e.gapEnd])],
                   [], e.gapEnd)
  }

  function CutToken(ab: Alphabet, c: Cutting, t: Token): (r: Cutting)
    requires c.start == 0
    ensures r.start == 0
  {
    if !t.Text? then Cutting(c.found, c.current + [t], 0)
    else
      var ends := SentenceEnds(ab, t.value, 0);
      var d := CutAtEnds(ab, t.value, ends, |ends|, c);
      Cutting(d.found, d.current + [Text(t.value[d.start..])], 0)
  }

  function CutTokens(ab: Alphabet, ts: seq<Token>): (r: Cutting)
    ensures r.start == 0
  {
    if ts == [] then Cutting([], [], 0)
    else CutToken(ab, CutTokens(ab, ts[..|ts| - 1]), ts[|ts| - 1])
  }

  function CutAtoms(c: Cutting): seq<Atom> {
    Joined(c.found) + Atoms(c.current)
  }

  lemma {:induction false} CutAtEndsKeeps(ab: Alphabet, v: string, ends: seq<Place>, k: nat, c: Cutting)
    requires PlacesIn(ab, v, ends) && k <= |ends| && c.start == 0
    ensures var r := CutAtEnds(ab, v, ends, k, c);
            CutAtoms(r) == CutAtoms(c) + Chars(v[..r.start])
  {
    hide EndsSentence, Spaces, Chars, CutAtoms;
    if k == 0 {
      assert v[..0] == "";
    } else {
      CutAtEndsKeeps(ab, v, ends, k - 1, c);
      var d := CutAtEnds(ab, v, ends, k - 1, c);
      var e := ends[k - 1];
      if EndsSentence(ab, v, e.at) {
        CutOnce(d, v, e);
        var left, mid := v[..d.start], v[d.start..e.gapEnd];
        assert left + mid == v[..e.gapEnd];
        CharsConcat(left, mid);
        Assoc(CutAtoms(c), Chars(left), Chars(mid));
      }
    }
  }

  lemma {:induction false} CutAtEndsGaps(ab: Alphabet, v: string, ends: seq<Place>, k: nat, c: Cutting)
    requires PlacesIn(ab, v, ends) && k <= |ends| && c.start == 0 && GapsAreSpace(ab, c.found)
    ensures GapsAreSpace(ab, CutAtEnds(ab, v, ends, k, c).found)
  {
    hide EndsSentence, Spaces;
    if k > 0 {
      CutAtEndsGaps(ab, v, ends, k - 1, c);
      assert PlaceIn(ab, v, ends[k - 1]);
    }
  }

  /** One match taken: the text before its gap ends a sentence. */
  lemma CutOnce(d: Cutting, v: string, e: Place)
    requires d.start <= e.at < e.gapStart <= e.gapEnd <= |v|
    ensures CutAtoms(Cutting(d.found + [Sentence(d.current + [Text(v[d.start..e.gapStart])], v[e.gapStart..e.gapEnd])],
                             [], e.gapEnd))
         == CutAtoms(d) + Chars(v[d.start..e.gapEnd])
  {
    var text, gap := v[d.start..e.gapStart], v[e.gapStart..e.gapEnd];
    JoinedSnoc(d.found, Sentence(d.current + [Text(text)], gap));
    AtomsSnoc(d.current, Text(text));
    assert text + gap == v[d.start..e.gapEnd];
    CharsConcat(text, gap);
    Assoc(Atoms(d.current), Chars(text), Chars(gap));
    Assoc(Joined(d.found), Atoms(d.current), Chars(text + gap));
  }

  lemma CutTokenKeeps(ab: Alphabet, c: Cutting, t: Token)
    requires c.start == 0 && GapsAreSpace(ab, c.found)
    ensures var r := CutToken(ab, c, t);
            CutAtoms(r) == CutAtoms(c) + TokenAtoms(t) && GapsAreSpace(ab, r.found)
  {
    if t.Text? {
      var ends := SentenceEnds(ab, t.value, 0);
      CutAtEndsKeeps(ab, t.value, ends, |ends|, c);
      CutAtEndsGaps(ab, t.value, ends, |ends|, c);
      var d := CutAtEnds(ab, t.value, ends, |ends|, c);
      var tail := t.value[d.start..];
      AtomsSnoc(d.current, Text(tail));
      AtomsCut(t.value, d.start);
      Assoc(Joined(d.found), Atoms(d.current), Chars(tail));
      Assoc(CutAtoms(c), Chars(t.value[..d.start]), Chars(tail));
    } else {
      AtomsSnoc(c.current, t);
      Assoc(Joined(c.found), Atoms(c.current), TokenAtoms(t));
    }
  }

  lemma {:induction false} CutTokensKeeps(ab: Alphabet, ts: seq<Token>)
    ensures var r := CutTokens(ab, ts); CutAtoms(r) == Atoms(ts) && GapsAreSpace(ab, r.found)
  {
    hide CutToken, Spaces;
    if ts != [] {
      var init, last := ts[..|ts| - 1], ts[|ts| - 1];
      CutTokensKeeps(ab, init);
      CutTokenKeeps(ab, CutTokens(ab, init), last);
      assert ts == init + [last];
      AtomsSnoc(init, last);
    }
  }

  /** `left`, its gap and `right` as one sentence. */
  function Glue(left: Sentence, right: Sentence): Sentence {
    Sentence(left.tokens + [Text(left.gap)] + right.tokens, right.gap)
  }

  /** Put a stretch behind the others; one with no words before it takes it in. */
  function Absorb(ab: Alphabet, l: seq<Sentence>, s: Sentence): seq<Sentence> {
    if l != [] && !HasWords(ab, l[|l| - 1].tokens)
    then l[..|l| - 1] + [Glue(l[|l| - 1], s)]
    else l + [s]
  }

  function AbsorbAll(ab: Alphabet, l: seq<Sentence>): seq<Sentence> {
    if l == [] then [] else Absorb(ab, AbsorbAll(ab, l[..|l| - 1]), l[|l| - 1])
  }

  /** A last stretch with no words joins the sentence before it. */
  function CloseLast(ab: Alphabet, l: seq<Sentence>): seq<Sentence> {
    var n := |l|;
    if n > 1 && !HasWords(ab, l[n - 1].tokens)
    then l[..n - 2] + [Glue(l[n - 2], l[n - 1])]
    else l
  }

  function MergeEach(l: seq<Sentence>): (r: seq<Sentence>)
    ensures |r| == |l|
    ensures forall i :: 0 <= i < |l| ==> r[i] == Sentence(Merge(l[i].tokens), l[i].gap)
  {
    if l == [] then []
    else MergeEach(l[..|l| - 1]) + [Sentence(Merge(l[|l| - 1].tokens), l[|l| - 1].gap)]
  }

  function SplitSentences(ab: Alphabet, core: seq<Token>): seq<Sentence> {
    var c := CutTokens(ab, core);
    MergeEach(CloseLast(ab, AbsorbAll(ab, c.found + [Sentence(c.current, "")])))
  }

  lemma GlueAtoms(a: Sentence, b: Sentence)
    ensures Atoms(Glue(a, b).tokens) == SentenceAtoms(a) + Atoms(b.tokens)
  {
    AtomsSnoc(a.tokens, Text(a.gap));
    AtomsConcat(a.tokens + [Text(a.gap)], b.tokens);
  }

  /** Glueing the last two keeps the whole. */
  lemma GlueKeeps(l: seq<Sentence>, a: Sentence, b: Sentence)
    ensures Joined(l + [Glue(a, b)]) == Joined(l + [a]) + SentenceAtoms(b)
  {
    JoinedSnoc(l, a);
    JoinedSnoc(l, Glue(a, b));
    GlueAtoms(a, b);
    Assoc(SentenceAtoms(a), Atoms(b.tokens), Chars(b.gap));
    Assoc(Joined(l), SentenceAtoms(a), SentenceAtoms(b));
  }

  lemma GlueWords(ab: Alphabet, a: Sentence, b: Sentence)
    requires HasWords(ab, a.tokens) || HasWords(ab, b.tokens)
    ensures HasWords(ab, Glue(a, b).tokens)
  {
    GlueAtoms(a, b);
    LettersOfConcat(ab, SentenceAtoms(a), Atoms(b.tokens));
    LettersOfConcat(ab, Atoms(a.tokens), Chars(a.gap));
    WordsAreLetters(ab, a.tokens);
    WordsAreLetters(ab, b.tokens);
    WordsAreLetters(ab, Glue(a, b).tokens);
  }

  /** Every stretch but the last has words. */
  ghost predicate WordsButLast(ab: Alphabet, l: seq<Sentence>) {
    forall i :: 0 <= i < |l| - 1 ==> HasWords(ab, l[i].tokens)
  }

  lemma AbsorbKeeps(ab: Alphabet, l: seq<Sentence>, s: Sentence)
    ensures Joined(Absorb(ab, l, s)) == Joined(l) + SentenceAtoms(s)
  {
    if l != [] && !HasWords(ab, l[|l| - 1].tokens) {
      var init, last := l[..|l| - 1], l[|l| - 1];
      assert l == init + [last];
      GlueKeeps(init, last, s);
    } else {
      JoinedSnoc(l, s);
    }
  }

  lemma AbsorbWords(ab: Alphabet, l: seq<Sentence>, s: Sentence)
    requires GapsAreSpace(ab, l) && WordsButLast(ab, l) && Spaces(ab, s.gap)
    ensures GapsAreSpace(ab, Absorb(ab, l, s)) && WordsButLast(ab, Absorb(ab, l, s))
  {
    var q := Absorb(ab, l, s);
    forall i | 0 <= i < |q| - 1 ensures HasWords(ab, q[i].tokens) {
      assert q[i] == l[i];
    }
  }

  lemma {:induction false} AbsorbAllKeeps(ab: Alphabet, l: seq<Sentence>)
    requires GapsAreSpace(ab, l)
    ensures var r := AbsorbAll(ab, l);
            Joined(r) == Joined(l) && GapsAreSpace(ab, r) && WordsButLast(ab, r)
  {
    if l != [] {
      var init, s := l[..|l| - 1], l[|l| - 1];
      AbsorbAllKeeps(ab, init);
      AbsorbKeeps(ab, AbsorbAll(ab, init), s);
      AbsorbWords(ab, AbsorbAll(ab, init), s);
    }
  }

  lemma JoinedWords(ab: Alphabet, l: seq<Sentence>, core: seq<Token>)
    requires |l| == 1 && l[0].gap == "" && Joined(l) == Atoms(core)
    requires HasWords(ab, core)
    ensures HasWords(ab, l[0].tokens)
  {
    assert l[..0] == [];
    assert Joined(l) == Atoms(l[0].tokens);
    WordsAreLetters(ab, core);
    WordsAreLetters(ab, l[0].tokens);
  }

  lemma AbsorbAllLastGap(ab: Alphabet, l: seq<Sentence>)
    requires l != []
    ensures var r := AbsorbAll(ab, l); r != [] && r[|r| - 1].gap == l[|l| - 1].gap
  {
  }

  lemma CloseLastKeeps(ab: Alphabet, l: seq<Sentence>, core: seq<Token>)
    requires l != [] && GapsAreSpace(ab, l) && WordsButLast(ab, l)
    requires l[|l| - 1].gap == "" && Joined(l) == Atoms(core) && HasWords(ab, core)
    ensures var r := CloseLast(ab, l);
            r != [] && Joined(r) == Joined(l) && GapsAreSpace(ab, r) && AllHaveWords(ab, r)
  {
    hide HasWords, Joined, Spaces;
    var n := |l|;
    if n == 1 {
      JoinedWords(ab, l, core);
    } else if !HasWords(ab, l[n - 1].tokens) {
      var init := l[..n - 2];
      assert CloseLast(ab, l) == init + [Glue(l[n - 2], l[n - 1])];
      hide CloseLast;
      assert l == (init + [l[n - 2]]) + [l[n - 1]];
      JoinedSnoc(init + [l[n - 2]], l[n - 1]);
      GlueKeeps(init, l[n - 2], l[n - 1]);
      GlueWords(ab, l[n - 2], l[n - 1]);
    }
  }

  lemma MergedHasWords(ab: Alphabet, ts: seq<Token>)
    ensures HasWords(ab, Merge(ts)) <==> HasWords(ab, ts)
    ensures Merged(Merge(ts))
  {
    MergeKeeps(ts);
    WordsAreLetters(ab, ts);
    WordsAreLetters(ab, Merge(ts));
  }

  lemma {:induction false} MergeEachAtoms(l: seq<Sentence>)
    ensures Joined(MergeEach(l)) == Joined(l)
  {
    if l != [] {
      var init, s := l[..|l| - 1], l[|l| - 1];
      MergeEachAtoms(init);
      MergeKeeps(s.tokens);
      JoinedSnoc(MergeEach(init), Sentence(Merge(s.tokens), s.gap));
    }
  }

  lemma MergeEachWords(ab: Alphabet, l: seq<Sentence>)
    requires GapsAreSpace(ab, l) && AllHaveWords(ab, l)
    ensures GapsAreSpace(ab, MergeEach(l)) && AllHaveWords(ab, MergeEach(l)) && AllMerged(MergeEach(l))
  {
    forall i | 0 <= i < |l|
      ensures HasWords(ab, MergeEach(l)[i].tokens) && Merged(MergeEach(l)[i].tokens)
    {
      MergedHasWords(ab, l[i].tokens);
    }
  }

  lemma GapsSnoc(ab: Alphabet, l: seq<Sentence>, s: Sentence)
    requires GapsAreSpace(ab, l) && s.gap == ""
    ensures GapsAreSpace(ab, l + [s])
  {
  }

  /** Sentences partition their piece, and each has words when the piece does. */
  lemma SplitSentencesFaithful(ab: Alphabet, core: seq<Token>)
    requires HasWords(ab, core)
    ensures Faithful(ab, SplitSentences(ab, core), Atoms(core))
  {
    hide HasWords, CutTokens, AbsorbAll, CloseLast, GapsAreSpace, WordsButLast, AllHaveWords, AllMerged, Joined, Atoms;
    var c := CutTokens(ab, core);
    var last := Sentence(c.current, "");
    var found := c.found + [last];
    CutTokensKeeps(ab, core);
    JoinedSnoc(c.found, last);
    CutIsJoined(c);
    GapsSnoc(ab, c.found, last);
    AbsorbAllKeeps(ab, found);
    AbsorbAllLastGap(ab, found);
    var absorbed := AbsorbAll(ab, found);
    CloseLastKeeps(ab, absorbed, core);
    MergeEachAtoms(CloseLast(ab, absorbed));
    MergeEachWords(ab, CloseLast(ab, absorbed));
  }

  lemma CutIsJoined(c: Cutting)
    ensures CutAtoms(c) == Joined(c.found) + SentenceAtoms(Sentence(c.current, ""))
  {
    assert Chars("") == [];
  }

  /** The source's inner loop, over the matches in one text. */
  method CutTokenLoop(ab: Alphabet, found0: seq<Sentence>, current0: seq<Token>, value: string)
    returns (found: seq<Sentence>, current: seq<Token>)
    ensures Cutting(found, current, 0) == CutToken(ab, Cutting(found0, current0, 0), Text(value))
  {
    hide EndsSentence, SentenceEnds;
    found, current := found0, current0;
    var start: nat := 0;
    ghost var before := Cutting(found0, current0, 0);
    var ends := SentenceEnds(ab, value, 0);
    for k := 0 to |ends|
      invariant 0 <= start <= |value| && (k < |ends| ==> start <= ends[k].at)
      invariant Cutting(found, current, start) == CutAtEnds(ab, value, ends, k, before)
    {
      var m := ends[k];
      assert PlaceIn(ab, value, m);
      if EndsSentence(ab, value, m.at) {
        current := current + [Text(value[start..m.gapStart])];
        found := found + [Sentence(current, value[m.gapStart..m.gapEnd])];
        current, start := [], m.gapEnd;
      }
    }
    current := current + [Text(value[start..])];
  }

  /** The source's loops over tokens, matches and stretches. */
  method SplitSentencesLoop(ab: Alphabet, core: seq<Token>) returns (r: seq<Sentence>)
    ensures r == SplitSentences(ab, core)
  {
    hide HasWords, CutAtEnds, SentenceEnds, MergeEach;
    var found: seq<Sentence>, current: seq<Token> := [], [];
    for n := 0 to |core|
      invariant Cutting(found, current, 0) == CutTokens(ab, core[..n])
    {
      assert core[..n + 1][..n] == core[..n];
      var token := core[n];
      if !token.Text? {
        current := current + [token];
        continue;
      }
      found, current := CutTokenLoop(ab, found, current, token.value);
    }
    assert core[..|core|] == core;
    found := found + [Sentence(current, "")];

    var merged: seq<Sentence> := [];
    for n := 0 to |found|
      invariant merged == AbsorbAll(ab, found[..n])
    {
      assert found[..n + 1][..n] == found[..n];
      var s := found[n];
      if merged != [] && !HasWords(ab, merged[|merged| - 1].tokens) {
        s := Glue(merged[|merged| - 1], s);
        merged := merged[..|merged| - 1];
      }
      merged := merged + [s];
    }
    assert found[..|found|] == found;
    if |merged| > 1 && !HasWords(ab, merged[|merged| - 1].tokens) {
      var n := |merged|;
      merged := merged[..n - 2] + [Glue(merged[n - 2], merged[n - 1])];
    }
    r := MergeEach(merged);
  }
}
