/**
 Where sentences end, said by position: which marks end one, and which of those places the splitting
 cuts at.
 */
module SentencePlaces {
  import opened Wrappers
  import opened Segments
  import opened Patterns
  import opened Decompose
  import opened Sentences

  // ---- the places in one text ----

  /** White space in full: it starts behind `g` and goes on to `e`. */
  ghost predicate WholeGap(ab: Alphabet, v: string, g: nat, e: nat) {
    g < e <= |v| && (forall i :: g <= i < e ==> ab.isSpace(v[i])) && (e < |v| ==> !ab.isSpace(v[e]))
  }

  predicate CapitalAt(v: string, i: nat) {
    i < |v| && 'A' <= v[i] <= 'Z'
  }

  predicate SmallAt(v: string, i: nat) {
    i < |v| && 'a' <= v[i] <= 'z'
  }

  /** A dot or bracket with white space behind it. */
  predicate MarkAt(ab: Alphabet, v: string, i: nat) {
    i + 1 < |v| && (v[i] == '.' || v[i] == ')') && ab.isSpace(v[i + 1])
  }

  /** A sentence starts: a capital, a quote or bracket and a capital, or a number of a list. */
  predicate Opens(ab: Alphabet, v: string, e: nat) {
    || CapitalAt(v, e)
    || (e < |v| && v[e] in OPENERS && CapitalAt(v, e + 1))
    || (e < |v| && ab.isDigit(v[e]) && MarkAt(ab, v, e + 1))
    || (e + 1 < |v| && ab.isDigit(v[e]) && ab.isDigit(v[e + 1]) && MarkAt(ab, v, e + 2))
  }

  /** Closing quotes and brackets, as many as there are. */
  ghost predicate Closing(v: string, i: nat, g: nat) {
    && i < g <= |v| && (forall n :: i < n < g ==> v[n] in CLOSERS)
    && (g < |v| ==> v[g] !in CLOSERS)
  }

  /** A mark, closing quotes and brackets, white space, and the start of a sentence. */
  ghost predicate SpacedBreak(ab: Alphabet, v: string, at: nat, g: nat, e: nat) {
    at < |v| && (v[at] == '.' || v[at] == '!' || v[at] == '?') && Closing(v, at, g) && WholeGap(ab, v, g, e) && Opens(ab, v, e)
  }

  /** A full stop between a small letter or bracket and a capitalised word, with no space at all. */
  predicate GluedBreak(v: string, at: nat) {
    && at < |v| && v[at] == '.' && at > 0 && (SmallAt(v, at - 1) || v[at - 1] == ')')
    && CapitalAt(v, at + 1) && SmallAt(v, at + 2)
  }

  /** A mark that the pattern takes for the end of a sentence, and the white space behind it. */
  ghost predicate Break(ab: Alphabet, v: string, at: nat, g: nat, e: nat) {
    SpacedBreak(ab, v, at, g, e) || (GluedBreak(v, at) && g == e == at + 1)
  }

  /** The word that ends at `at` is `v[a..at]`: nothing of it is before `a`. */
  ghost predicate WordBefore(ab: Alphabet, v: string, a: nat, at: nat) {
    a < at <= |v| && (forall i :: a <= i < at ==> ab.isWord(v[i])) && (a > 0 ==> !ab.isWord(v[a - 1]))
  }

  /** An initial or an abbreviation. */
  predicate Shortened(ab: Alphabet, word: string) {
    |word| == 1 || ab.lower(word) in ABBREVIATIONS
  }

  /** A sentence ends at the mark `at`; `v[g..e]` is the white space behind it. */
  ghost predicate EndsAt(ab: Alphabet, v: string, at: nat, g: nat, e: nat) {
    && Break(ab, v, at, g, e)
    && (at > 0 ==> !ab.isSpace(v[at - 1]))
    && forall a: nat :: WordBefore(ab, v, a, at) ==> !Shortened(ab, v[a..at])
  }

  lemma OpensIs(ab: Alphabet, v: string, e: nat)
    requires ab.Lawful()
    ensures Opens(ab, v, e) <==> StartsSentence(ab, v, e)
  {
    assert forall c: char :: c in OPENERS ==> !AsciiUpper(c);
  }

  lemma SpaceRun(ab: Alphabet, v: string, j: nat, k: nat)
    requires j <= |v|
    ensures (j < SpaceEnd(ab, v, j) && k == SpaceEnd(ab, v, j)) <==> WholeGap(ab, v, j, k)
  {
    var n := PrefixCount(ab.isSpace, v[j..]);
    assert forall i :: 0 <= i < |v| - j ==> v[j..][i] == v[j + i];
    forall i | j <= i < j + n ensures ab.isSpace(v[i]) { assert v[j..][i - j] == v[i]; }
    if j + n < |v| { assert !ab.isSpace(v[j..][n]); }
  }

  lemma CloserRun(v: string, i: nat, g: nat)
    requires i < |v|
    ensures g == i + 1 + PrefixCount((c: char) => c in CLOSERS, v[i + 1..]) <==> Closing(v, i, g)
  {
    var n := PrefixCount((c: char) => c in CLOSERS, v[i + 1..]);
    var j := i + 1 + n;
    forall x | i < x < j ensures v[x] in CLOSERS { assert v[i + 1..][x - i - 1] == v[x]; }
    if j < |v| { assert v[i + 1..][n] !in CLOSERS; }
  }

  /** The pattern tried at a mark finds the end of a sentence there exactly as described. */
  lemma MatchIs(ab: Alphabet, v: string, at: nat, g: nat, e: nat)
    requires ab.Lawful() && at < |v|
    ensures SentenceEndAt(ab, v, at) == Some(Place(at, g, e)) <==> Break(ab, v, at, g, e)
  {
    hide SpaceEnd, StartsSentence, Opens, WholeGap, Closing, PrefixCount;
    var j := at + 1 + PrefixCount((c: char) => c in CLOSERS, v[at + 1..]);
    CloserRun(v, at, j);
    CloserRun(v, at, g);
    var k := SpaceEnd(ab, v, j);
    SpaceRun(ab, v, j, k);
    SpaceRun(ab, v, j, e);
    OpensIs(ab, v, k);
    if GluedBreak(v, at) { NoGapInside(ab, v, at, j); }
  }

  lemma NoGapInside(ab: Alphabet, v: string, at: nat, j: nat)
    requires ab.Lawful() && GluedBreak(v, at) && Closing(v, at, j)
    ensures j == at + 1 && forall k: nat :: !WholeGap(ab, v, j, k)
  {
    assert AsciiUpper(v[at + 1]);
    assert forall c: char :: c in CLOSERS ==> !AsciiUpper(c);
  }

  lemma WordIs(ab: Alphabet, v: string, at: nat)
    requires at <= |v|
    ensures var a := SuffixStart(ab.isWord, v[..at]);
            forall b: nat :: WordBefore(ab, v, b, at) <==> b == a && a < at
  {
    var a := SuffixStart(ab.isWord, v[..at]);
    assert forall i :: 0 <= i < at ==> v[..at][i] == v[i];
    forall i | a <= i < at ensures ab.isWord(v[i]) { assert ab.isWord(v[..at][i]); }
  }

  /** Which marks are passed over: behind white space, an initial or an abbreviation. */
  lemma PassedIs(ab: Alphabet, v: string, at: nat)
    requires at <= |v|
    ensures EndsSentence(ab, v, at)
            <==> (at > 0 ==> !ab.isSpace(v[at - 1])) && forall a: nat :: WordBefore(ab, v, a, at) ==> !Shortened(ab, v[a..at])
  {
    hide WordBefore;
    WordIs(ab, v, at);
    var a := SuffixStart(ab.isWord, v[..at]);
    assert v[..at][a..at] == v[a..at];
  }

  /** Nothing inside a match can be another: closing marks and white space are no full stops. */
  lemma {:induction false} EndsFound(ab: Alphabet, v: string, from: nat, p: Place)
    requires ab.Lawful()
    ensures p in SentenceEnds(ab, v, from) <==> from <= p.at < |v| && SentenceEndAt(ab, v, p.at) == Some(p)
    decreases |v| - from
  {
    hide SentenceEndAt;
    if from < |v| {
      var m := SentenceEndAt(ab, v, from);
      if m.Some? {
        EndsFound(ab, v, m.value.gapEnd, p);
        if from < p.at < m.value.gapEnd { InsideNone(ab, v, m.value, p.at); }
      } else {
        EndsFound(ab, v, from + 1, p);
      }
    }
  }

  lemma InsideNone(ab: Alphabet, v: string, m: Place, i: nat)
    requires ab.Lawful() && m.at < i < m.gapEnd <= |v| && m.at < |v| && SentenceEndAt(ab, v, m.at) == Some(m)
    ensures SentenceEndAt(ab, v, i).None?
  {
    hide SentenceEndAt;
    MatchIs(ab, v, m.at, m.gapStart, m.gapEnd);
    assert forall c: char :: c in CLOSERS ==> c !in ".!?";
    if SentenceEndAt(ab, v, i).Some? {
      var q := SentenceEndAt(ab, v, i).value;
      MatchIs(ab, v, i, q.gapStart, q.gapEnd);
    }
  }

  /** The places found in a text at which a sentence ends are the ones described. */
  lemma PlacesAre(ab: Alphabet, v: string, at: nat, g: nat, e: nat)
    requires ab.Lawful()
    ensures (Place(at, g, e) in SentenceEnds(ab, v, 0) && at <= |v| && EndsSentence(ab, v, at)) <==> EndsAt(ab, v, at, g, e)
  {
    hide SentenceEndAt, EndsSentence, SentenceEnds, Break, WordBefore, Shortened;
    EndsFound(ab, v, 0, Place(at, g, e));
    if at < |v| {
      MatchIs(ab, v, at, g, e);
      PassedIs(ab, v, at);
    } else {
      NoBreakBeyond(ab, v, at, g, e);
    }
  }

  lemma NoBreakBeyond(ab: Alphabet, v: string, at: nat, g: nat, e: nat)
    requires at >= |v|
    ensures !Break(ab, v, at, g, e)
  {
  }

  // ---- the places in a segment ----

  /** How many characters and markers there are before token `n`. */
  function Offset(ts: seq<Token>, n: nat): nat
    requires n <= |ts|
  {
    |Atoms(ts[..n])|
  }

  /** Counted in characters and markers: a sentence ends before `x`, and the next begins at `y`. */
  ghost predicate EndsIn(ab: Alphabet, ts: seq<Token>, x: int, y: int) {
    exists n, at, g, e :: PlaceOf(ab, ts, n, at, g, e, x, y)
  }

  ghost predicate PlaceOf(ab: Alphabet, ts: seq<Token>, n: nat, at: nat, g: nat, e: nat, x: int, y: int) {
    n < |ts| && ts[n].Text? && EndsAt(ab, ts[n].value, at, g, e) && x == Offset(ts, n) + g && y == Offset(ts, n) + e
  }

  /** Where each stretch of a list ends, before and behind its gap. */
  function Bounds(l: seq<Sentence>): set<(int, int)> {
    if l == [] then {}
    else Bounds(l[..|l| - 1]) + {Bound(l)}
  }

  /** Where the last stretch ends. */
  function Bound(l: seq<Sentence>): (int, int)
    requires l != []
  {
    (|Joined(l)| - |l[|l| - 1].gap|, |Joined(l)|)
  }

  /** Where a list of sentences is cut: everywhere but at its end. */
  function Cuts(l: seq<Sentence>): set<(int, int)> {
    if l == [] then {} else Bounds(l[..|l| - 1])
  }

  lemma BoundsSnoc(l: seq<Sentence>, s: Sentence)
    ensures Bounds(l + [s]) == Bounds(l) + {(|Joined(l)| + |Atoms(s.tokens)|, |Joined(l)| + |Atoms(s.tokens)| + |s.gap|)}
    ensures Cuts(l + [s]) == Bounds(l)
  {
    hide Joined, Atoms;
    JoinedSnoc(l, s);
    assert (l + [s])[..|l|] == l;
  }

  lemma BoundTaken(ab: Alphabet, v: string, d: Cutting, e: Place, off: nat)
    requires d.start <= e.at < e.gapStart <= e.gapEnd <= |v| && |CutAtoms(d)| == off + d.start
    ensures Bounds(d.found + [Sentence(d.current + [Text(v[d.start..e.gapStart])], v[e.gapStart..e.gapEnd])])
            == Bounds(d.found) + {(off + e.gapStart, off + e.gapEnd)}
  {
    hide Bounds, Joined, Atoms;
    var text := v[d.start..e.gapStart];
    AtomsSnoc(d.current, Text(text));
    BoundsSnoc(d.found, Sentence(d.current + [Text(text)], v[e.gapStart..e.gapEnd]));
  }

  /** The cuts made in one text are at the places found in it. */
  lemma {:induction false} CutsOfText(ab: Alphabet, v: string, ends: seq<Place>, k: nat, c: Cutting, x: int, y: int)
    requires PlacesIn(ab, v, ends) && k <= |ends| && c.start == 0
    ensures (x, y) in Bounds(CutAtEnds(ab, v, ends, k, c).found)
            <==> (x, y) in Bounds(c.found)
                 || exists j :: 0 <= j < k && TakenAt(ab, v, ends[j], |CutAtoms(c)|, x, y)
  {
    hide EndsSentence, Spaces, Bounds, CutAtoms, CutAtEnds, PlacesIn;
    if k == 0 {
      CutAtNone(ab, v, ends, c);
    } else {
      CutsOfText(ab, v, ends, k - 1, c, x, y);
      CutAtEndsKeeps(ab, v, ends, k - 1, c);
      CutAtOne(ab, v, ends, k, c);
      var d := CutAtEnds(ab, v, ends, k - 1, c);
      var e := ends[k - 1];
      if EndsSentence(ab, v, e.at) { BoundTaken(ab, v, d, e, |CutAtoms(c)|); }
    }
  }

  lemma CutAtNone(ab: Alphabet, v: string, ends: seq<Place>, c: Cutting)
    requires PlacesIn(ab, v, ends) && c.start == 0
    ensures CutAtEnds(ab, v, ends, 0, c) == c
  {
  }

  lemma CutAtOne(ab: Alphabet, v: string, ends: seq<Place>, k: nat, c: Cutting)
    requires PlacesIn(ab, v, ends) && 0 < k <= |ends| && c.start == 0
    ensures var d, e := CutAtEnds(ab, v, ends, k - 1, c), ends[k - 1];
            && d.start <= e.at < e.gapStart <= e.gapEnd <= |v|
            && CutAtEnds(ab, v, ends, k, c).found ==
                 if EndsSentence(ab, v, e.at)
                 then d.found + [Sentence(d.current + [Text(v[d.start..e.gapStart])], v[e.gapStart..e.gapEnd])]
                 else d.found
  {
    hide EndsSentence, Spaces;
    assert PlaceIn(ab, v, ends[k - 1]);
  }

  ghost predicate TakenAt(ab: Alphabet, v: string, e: Place, off: nat, x: int, y: int) {
    e.at <= |v| && EndsSentence(ab, v, e.at) && x == off + e.gapStart && y == off + e.gapEnd
  }

  lemma TakenIs(ab: Alphabet, v: string, off: nat, x: int, y: int)
    requires ab.Lawful()
    ensures var ends := SentenceEnds(ab, v, 0);
            (exists j :: 0 <= j < |ends| && TakenAt(ab, v, ends[j], off, x, y))
            <==> (exists at, g, e :: EndsAt(ab, v, at, g, e) && x == off + g && y == off + e)
  {
    hide EndsSentence, SentenceEnds, EndsAt;
    var ends := SentenceEnds(ab, v, 0);
    if j :| 0 <= j < |ends| && TakenAt(ab, v, ends[j], off, x, y) {
      var p := ends[j];
      assert p == Place(p.at, p.gapStart, p.gapEnd) && p in ends;
      PlacesAre(ab, v, p.at, p.gapStart, p.gapEnd);
      assert EndsAt(ab, v, p.at, p.gapStart, p.gapEnd);
    }
    if at: nat, g: nat, e: nat :| EndsAt(ab, v, at, g, e) && x == off + g && y == off + e {
      PlacesAre(ab, v, at, g, e);
      var j :| 0 <= j < |ends| && ends[j] == Place(at, g, e);
      assert TakenAt(ab, v, ends[j], off, x, y);
    }
  }

  lemma {:induction false} CutsOfTokens(ab: Alphabet, ts: seq<Token>, x: int, y: int)
    requires ab.Lawful()
    ensures (x, y) in Bounds(CutTokens(ab, ts).found) <==> EndsIn(ab, ts, x, y)
  {
    hide EndsAt, Bounds, Atoms;
    if ts == [] {
      NoBounds();
    } else {
      var init, t := ts[..|ts| - 1], ts[|ts| - 1];
      assert ts == init + [t];
      CutsOfTokens(ab, init, x, y);
      EndsInSnoc(ab, init, t, x, y);
      var c := CutTokens(ab, init);
      if t.Text? {
        var ends := SentenceEnds(ab, t.value, 0);
        CutsOfText(ab, t.value, ends, |ends|, c, x, y);
        TakenIs(ab, t.value, |Atoms(init)|, x, y);
        CutTokensKeeps(ab, init);
      }
    }
  }

  lemma NoBounds()
    ensures Bounds([]) == {}
  {
  }

  lemma EndsInSnoc(ab: Alphabet, init: seq<Token>, t: Token, x: int, y: int)
    ensures EndsIn(ab, init + [t], x, y)
            <==> EndsIn(ab, init, x, y)
                 || (t.Text? && exists at, g, e :: EndsAt(ab, t.value, at, g, e) && x == |Atoms(init)| + g && y == |Atoms(init)| + e)
  {
    hide EndsAt, Atoms;
    var ts := init + [t];
    assert ts[..|init|] == init;
    assert forall n :: 0 <= n < |init| ==> ts[..n] == init[..n];
    if n: nat, at: nat, g: nat, e: nat :| PlaceOf(ab, init, n, at, g, e, x, y) { assert PlaceOf(ab, ts, n, at, g, e, x, y); }
    if n: nat, at: nat, g: nat, e: nat :| PlaceOf(ab, ts, n, at, g, e, x, y) {
      if n < |init| { assert PlaceOf(ab, init, n, at, g, e, x, y); }
    }
    if t.Text? {
      if at: nat, g: nat, e: nat :| EndsAt(ab, t.value, at, g, e) && x == |Atoms(init)| + g && y == |Atoms(init)| + e {
        assert PlaceOf(ab, ts, |init|, at, g, e, x, y);
      }
    }
  }

  // ---- which places are cut at ----

  predicate LetterAt(ab: Alphabet, atoms: seq<Atom>, i: int) {
    0 <= i < |atoms| && atoms[i].Ch? && ab.IsLetter(atoms[i].c)
  }

  ghost predicate AnyLetter(ab: Alphabet, atoms: seq<Atom>) {
    exists i :: LetterAt(ab, atoms, i)
  }

  lemma {:induction false} LettersSeen(ab: Alphabet, atoms: seq<Atom>)
    ensures LettersOf(ab, atoms) != "" <==> AnyLetter(ab, atoms)
  {
    if atoms != [] {
      var rest := atoms[1..];
      LettersSeen(ab, rest);
      if i :| LetterAt(ab, rest, i) {
        assert rest[i] == atoms[i + 1];
        assert LetterAt(ab, atoms, i + 1);
      }
      if i :| LetterAt(ab, atoms, i) {
        if i > 0 {
          assert rest[i - 1] == atoms[i];
          assert LetterAt(ab, rest, i - 1);
        }
      }
      if LettersOf(ab, atoms) != "" && LettersOf(ab, rest) == "" { assert LetterAt(ab, atoms, 0); }
    }
  }

  lemma WordsSeen(ab: Alphabet, ts: seq<Token>)
    ensures HasWords(ab, ts) <==> AnyLetter(ab, Atoms(ts))
  {
    hide HasWords, LettersOf, AnyLetter;
    WordsAreLetters(ab, ts);
    LettersSeen(ab, Atoms(ts));
    assert Letters(ab, ts) == LettersOf(ab, Atoms(ts));
  }

  /** White space holds no letter. */
  lemma SpaceIsWordless(ab: Alphabet, gap: string, i: int)
    requires ab.Lawful() && Spaces(ab, gap)
    ensures !LetterAt(ab, Chars(gap), i)
  {
    if 0 <= i < |gap| { assert ab.isSpace(gap[i]); }
  }

  lemma GlueHasWords(ab: Alphabet, a: Sentence, b: Sentence)
    requires ab.Lawful() && Spaces(ab, a.gap) && !HasWords(ab, a.tokens)
    ensures HasWords(ab, Glue(a, b).tokens) <==> HasWords(ab, b.tokens)
  {
    hide Atoms, HasWords;
    GlueAtoms(a, b);
    WordsAreLetters(ab, a.tokens);
    WordsAreLetters(ab, b.tokens);
    WordsAreLetters(ab, Glue(a, b).tokens);
    LettersSeen(ab, Chars(a.gap));
    forall i ensures !LetterAt(ab, Chars(a.gap), i) { SpaceIsWordless(ab, a.gap, i); }
    LettersOfConcat(ab, SentenceAtoms(a), Atoms(b.tokens));
    LettersOfConcat(ab, Atoms(a.tokens), Chars(a.gap));
  }

  /** The ends of the stretches that have letters. */
  function KeptBounds(ab: Alphabet, l: seq<Sentence>): set<(int, int)> {
    if l == [] then {}
    else KeptBounds(ab, l[..|l| - 1]) + if HasWords(ab, l[|l| - 1].tokens) then {Bound(l)} else {}
  }

  /** A stretch without letters is taken in by the next, so its end is no cut. */
  lemma {:induction false} AbsorbedCuts(ab: Alphabet, l: seq<Sentence>)
    requires ab.Lawful() && GapsAreSpace(ab, l) && l != []
    ensures var r := AbsorbAll(ab, l);
            && r != [] && Joined(r) == Joined(l) && Bound(r) == Bound(l)
            && Cuts(r) == KeptBounds(ab, l[..|l| - 1])
            && (HasWords(ab, r[|r| - 1].tokens) <==> HasWords(ab, l[|l| - 1].tokens))
  {
    hide HasWords, Spaces, Joined, Bounds;
    AbsorbAllKeeps(ab, l);
    AbsorbAllLastGap(ab, l);
    var init, s := l[..|l| - 1], l[|l| - 1];
    if init == [] {
      assert AbsorbAll(ab, l) == [s];
      NoBounds();
    } else {
      AbsorbedCuts(ab, init);
      var q := AbsorbAll(ab, init);
      AbsorbAllKeeps(ab, init);
      AbsorbCuts(ab, q, s);
    }
  }

  lemma AbsorbCuts(ab: Alphabet, q: seq<Sentence>, s: Sentence)
    requires ab.Lawful() && q != [] && Spaces(ab, q[|q| - 1].gap)
    ensures var r := Absorb(ab, q, s);
            && r != [] && (HasWords(ab, r[|r| - 1].tokens) <==> HasWords(ab, s.tokens))
            && Cuts(r) == Cuts(q) + if HasWords(ab, q[|q| - 1].tokens) then {Bound(q)} else {}
  {
    hide HasWords, Spaces, Joined, Glue;
    var last := q[|q| - 1];
    if !HasWords(ab, last.tokens) {
      GlueHasWords(ab, last, s);
      assert (q[..|q| - 1] + [Glue(last, s)])[..|q| - 1] == q[..|q| - 1];
    } else {
      assert (q + [s])[..|q|] == q;
    }
  }

  /** Ends of stretches are within the whole, and the last is its end. */
  lemma {:induction false} BoundsWithin(l: seq<Sentence>)
    ensures forall b :: b in Bounds(l) ==> 0 <= b.0 <= b.1 <= |Joined(l)|
    ensures l != [] ==> (|Joined(l)| - |l[|l| - 1].gap|, |Joined(l)|) in Bounds(l)
  {
    hide Joined, Atoms;
    if l != [] {
      var init, s := l[..|l| - 1], l[|l| - 1];
      assert l == init + [s];
      BoundsWithin(init);
      JoinedSnoc(init, s);
      assert |Joined(l)| == |Joined(init)| + |Atoms(s.tokens)| + |s.gap|;
      assert Bounds(l) == Bounds(init) + {Bound(l)};
      hide Bounds;
    }
  }

  ghost predicate NoneEmpty(l: seq<Sentence>) {
    forall i :: 0 <= i < |l| ==> Atoms(l[i].tokens) != []
  }

  /** A letter at `i`, before `x` and behind every place before `x`. */
  ghost predicate LetterUpTo(ab: Alphabet, atoms: seq<Atom>, bounds: set<(int, int)>, x: int, i: int) {
    LetterAt(ab, atoms, i) && i < x && forall b :: b in bounds && b.0 < x ==> b.1 <= i
  }

  ghost predicate AnyLetterUpTo(ab: Alphabet, atoms: seq<Atom>, bounds: set<(int, int)>, x: int) {
    exists i :: LetterUpTo(ab, atoms, bounds, x, i)
  }

  /** A stretch has letters: there is one between its end and the last end before. */
  lemma {:induction false} KeptIff(ab: Alphabet, l: seq<Sentence>, x: int, y: int)
    requires NoneEmpty(l)
    ensures (x, y) in KeptBounds(ab, l)
            <==> (x, y) in Bounds(l) && AnyLetterUpTo(ab, Joined(l), Bounds(l), x)
  {
    if l != [] {
      hide Joined, Atoms, HasWords, LetterAt;
      var init, s := l[..|l| - 1], l[|l| - 1];
      assert l == init + [s];
      KeptIff(ab, init, x, y);
      BoundsWithin(init);
      JoinedSnoc(init, s);
      BoundsSnoc(init, s);
      if (x, y) in Bounds(init) {
        EarlierLetters(ab, init, s, x);
      } else if (x, y) == Bound(l) {
        LastLetters(ab, init, s, x);
      }
    }
  }

  /** Later stretches do not matter. */
  lemma EarlierLetters(ab: Alphabet, init: seq<Sentence>, s: Sentence, x: int)
    requires x <= |Joined(init)| && Atoms(s.tokens) != []
    requires Bounds(init + [s]) == Bounds(init) + {(|Joined(init)| + |Atoms(s.tokens)|, |Joined(init)| + |Atoms(s.tokens)| + |s.gap|)}
    ensures AnyLetterUpTo(ab, Joined(init + [s]), Bounds(init + [s]), x) <==> AnyLetterUpTo(ab, Joined(init), Bounds(init), x)
  {
    hide Joined, Atoms, Bounds;
    JoinedSnoc(init, s);
    var a, b := Joined(init + [s]), Joined(init);
    var p, q := Bounds(init + [s]), Bounds(init);
    if i :| LetterUpTo(ab, a, p, x, i) { assert LetterUpTo(ab, b, q, x, i); }
    if i :| LetterUpTo(ab, b, q, x, i) { assert LetterUpTo(ab, a, p, x, i); }
  }

  /** The last stretch has letters when there are letters behind all the others. */
  lemma LastLetters(ab: Alphabet, init: seq<Sentence>, s: Sentence, x: int)
    requires x == |Joined(init)| + |Atoms(s.tokens)| && Atoms(s.tokens) != []
    requires Bounds(init + [s]) == Bounds(init) + {(|Joined(init)| + |Atoms(s.tokens)|, |Joined(init)| + |Atoms(s.tokens)| + |s.gap|)}
    ensures HasWords(ab, s.tokens) <==> AnyLetterUpTo(ab, Joined(init + [s]), Bounds(init + [s]), x)
  {
    hide Atoms, Bounds, HasWords, Joined;
    JoinedSnoc(init, s);
    BoundsWithin(init);
    WordsSeen(ab, s.tokens);
    var before, words, atoms := |Joined(init)|, Atoms(s.tokens), Joined(init + [s]);
    assert atoms == Joined(init) + (words + Chars(s.gap));
    if HasWords(ab, s.tokens) {
      var i :| LetterAt(ab, words, i);
      assert atoms[before + i] == words[i];
      assert LetterUpTo(ab, atoms, Bounds(init + [s]), x, before + i);
    }
    if i :| LetterUpTo(ab, atoms, Bounds(init + [s]), x, i) {
      if init == [] { NoneJoined(); }
      assert before <= i < x && atoms[i] == words[i - before];
      assert LetterAt(ab, words, i - before);
      assert LetterAt(ab, Atoms(s.tokens), i - before);
    }
  }

  /** There is a letter at `y` or behind it. */
  ghost predicate LetterFrom(ab: Alphabet, atoms: seq<Atom>, y: int) {
    exists j :: y <= j && LetterAt(ab, atoms, j)
  }

  lemma LastCutDropped(ab: Alphabet, fore: seq<Sentence>, before: Sentence, last: Sentence, glued: Sentence, x: int, y: int)
    requires HasWords(ab, before.tokens) && !HasWords(ab, last.tokens) && last.gap == ""
    ensures var l := fore + [before] + [last];
            (x, y) in Cuts(fore + [glued]) <==> (x, y) in Cuts(l) && LetterFrom(ab, Joined(l), y)
  {
    hide HasWords, Joined, Bounds, LetterFrom, Cuts, Atoms;
    var init := fore + [before];
    BoundsWithin(fore);
    BoundsSnoc(fore, before);
    BoundsSnoc(fore, glued);
    BoundsSnoc(init, last);
    JoinedSnoc(fore, before);
    JoinedSnoc(init, last);
    LettersBehind(ab, fore, before, y);
    LettersBehind(ab, init, last, y);
    LettersStay(ab, Joined(init), SentenceAtoms(last), y);
  }

  /** A last stretch without letters joins the one before, so the last cut needs a letter behind it. */
  lemma ClosedCuts(ab: Alphabet, l: seq<Sentence>, x: int, y: int)
    requires ab.Lawful() && l != [] && WordsButLast(ab, l) && l[|l| - 1].gap == ""
    ensures (x, y) in Cuts(CloseLast(ab, l)) <==> (x, y) in Cuts(l) && LetterFrom(ab, Joined(l), y)
  {
    hide HasWords, Joined, Bounds, LetterFrom, Glue, Spaces, Cuts, CloseLast;
    var n := |l|;
    var init, last := l[..n - 1], l[n - 1];
    assert l == init + [last];
    if HasWords(ab, last.tokens) {
      ClosedIs(ab, l);
      LettersBehind(ab, init, last, y);
      BoundsWithin(init);
      BoundsSnoc(init, last);
    } else if n > 1 {
      var fore, before := l[..n - 2], l[n - 2];
      assert l == fore + [before] + [last];
      ClosedIs(ab, l);
      LastCutDropped(ab, fore, before, last, Glue(before, last), x, y);
    } else {
      ClosedIs(ab, l);
      BoundsSnoc(init, last);
      NoBounds();
    }
  }

  lemma ClosedIs(ab: Alphabet, l: seq<Sentence>)
    requires l != []
    ensures CloseLast(ab, l) ==
              if |l| > 1 && !HasWords(ab, l[|l| - 1].tokens) then l[..|l| - 2] + [Glue(l[|l| - 2], l[|l| - 1])] else l
  {
    hide HasWords, Glue;
  }

  /** Letters at the end of a list, seen from anywhere before it. */
  lemma LettersBehind(ab: Alphabet, init: seq<Sentence>, last: Sentence, y: int)
    ensures y <= |Joined(init)| && HasWords(ab, last.tokens) ==> LetterFrom(ab, Joined(init + [last]), y)
    ensures y == |Joined(init)| && last.gap == "" && !HasWords(ab, last.tokens) ==> !LetterFrom(ab, Joined(init + [last]), y)
  {
    hide HasWords, Atoms, Joined, LetterFrom, AnyLetter;
    JoinedSnoc(init, last);
    WordsSeen(ab, last.tokens);
    var words := Atoms(last.tokens);
    LettersPast(ab, Joined(init), words, Chars(last.gap), y);
  }

  lemma LettersPast(ab: Alphabet, before: seq<Atom>, words: seq<Atom>, gap: seq<Atom>, y: int)
    ensures y <= |before| && AnyLetter(ab, words) ==> LetterFrom(ab, before + (words + gap), y)
    ensures y == |before| && |gap| == 0 && LetterFrom(ab, before + (words + gap), y) ==> AnyLetter(ab, words)
  {
    var atoms := before + (words + gap);
    if i :| LetterAt(ab, words, i) {
      assert atoms[|before| + i] == words[i];
      assert LetterAt(ab, atoms, |before| + i);
    }
    if |gap| == 0 && LetterFrom(ab, atoms, |before|) {
      var j :| |before| <= j && LetterAt(ab, atoms, j);
      assert atoms[j] == words[j - |before|];
      assert LetterAt(ab, words, j - |before|);
    }
  }

  lemma LettersStay(ab: Alphabet, a: seq<Atom>, b: seq<Atom>, y: int)
    ensures LetterFrom(ab, a, y) ==> LetterFrom(ab, a + b, y)
  {
    if LetterFrom(ab, a, y) {
      var j :| y <= j && LetterAt(ab, a, j);
      assert LetterAt(ab, a + b, j);
    }
  }

  /** Joining texts moves no cut. */
  lemma {:induction false} MergedBounds(l: seq<Sentence>)
    ensures Bounds(MergeEach(l)) == Bounds(l)
  {
    hide Joined;
    if l != [] {
      MergedBounds(l[..|l| - 1]);
      MergeEachAtoms(l);
    }
  }

  lemma MergedCuts(l: seq<Sentence>)
    ensures Cuts(MergeEach(l)) == Cuts(l)
  {
    if l != [] { MergedBounds(l[..|l| - 1]); }
  }

  lemma {:induction false} FoundNoneEmpty(ab: Alphabet, v: string, ends: seq<Place>, k: nat, c: Cutting)
    requires PlacesIn(ab, v, ends) && k <= |ends| && c.start == 0 && NoneEmpty(c.found)
    ensures NoneEmpty(CutAtEnds(ab, v, ends, k, c).found)
  {
    hide EndsSentence, Spaces, Atoms;
    if k > 0 {
      FoundNoneEmpty(ab, v, ends, k - 1, c);
      var d := CutAtEnds(ab, v, ends, k - 1, c);
      var e := ends[k - 1];
      AtomsSnoc(d.current, Text(v[d.start..e.gapStart]));
      assert PlaceIn(ab, v, e);
    }
  }

  lemma {:induction false} CutNoneEmpty(ab: Alphabet, ts: seq<Token>)
    ensures NoneEmpty(CutTokens(ab, ts).found)
  {
    hide Atoms;
    if ts != [] {
      var init, t := ts[..|ts| - 1], ts[|ts| - 1];
      CutNoneEmpty(ab, init);
      if t.Text? {
        var ends := SentenceEnds(ab, t.value, 0);
        FoundNoneEmpty(ab, t.value, ends, |ends|, CutTokens(ab, init));
      }
    }
  }

  /** A letter behind every place before `x` at which a sentence ends, and before `x`. */
  ghost predicate LetterSince(ab: Alphabet, core: seq<Token>, x: int) {
    exists i :: LetterJustBefore(ab, core, x, i)
  }

  ghost predicate LetterJustBefore(ab: Alphabet, core: seq<Token>, x: int, i: int) {
    LetterAt(ab, Atoms(core), i) && i < x && forall x', y' :: EndsIn(ab, core, x', y') && x' < x ==> y' <= i
  }

  /**
   A segment is cut before `x` and goes on at `y` if and only if a sentence ends there, there is a
   letter between it and the last such place before, and there is a letter behind it.
   */
  lemma CutIff(ab: Alphabet, core: seq<Token>, x: int, y: int)
    requires ab.Lawful()
    ensures (x, y) in Cuts(SplitSentences(ab, core))
            <==> EndsIn(ab, core, x, y) && LetterSince(ab, core, x) && LetterFrom(ab, Atoms(core), y)
  {
    hide HasWords, EndsIn, LetterAt, CutTokens, AbsorbAll, CloseLast, Cuts, Bounds, KeptBounds, Joined, Atoms, LetterFrom, Spaces;
    var c := CutTokens(ab, core);
    var last := Sentence(c.current, "");
    var l := c.found + [last];
    var r := AbsorbAll(ab, l);
    CutTokensKeeps(ab, core);
    JoinedSnoc(c.found, last);
    CutIsJoined(c);
    GapsSnoc(ab, c.found, last);
    AbsorbAllKeeps(ab, l);
    AbsorbAllLastGap(ab, l);
    AbsorbedCuts(ab, l);
    assert l[..|l| - 1] == c.found;
    ClosedCuts(ab, r, x, y);
    MergedCuts(CloseLast(ab, r));
    CutNoneEmpty(ab, core);
    KeptIff(ab, c.found, x, y);
    assert (x, y) in Cuts(SplitSentences(ab, core)) <==>
      (x, y) in Bounds(c.found) && AnyLetterUpTo(ab, Joined(c.found), Bounds(c.found), x) && LetterFrom(ab, Atoms(core), y);
    CutsOfTokens(ab, core, x, y);
    if (x, y) in Bounds(c.found) { SinceIs(ab, core, x, y); }
  }

  lemma SinceIs(ab: Alphabet, core: seq<Token>, x: int, y: int)
    requires ab.Lawful() && (x, y) in Bounds(CutTokens(ab, core).found)
    ensures var found := CutTokens(ab, core).found;
            AnyLetterUpTo(ab, Joined(found), Bounds(found), x) <==> LetterSince(ab, core, x)
  {
    hide HasWords, EndsIn, CutTokens, Bounds, Joined, Atoms, LetterUpTo, LetterJustBefore, Alphabet.Lawful;
    var found := CutTokens(ab, core).found;
    if i :| LetterUpTo(ab, Joined(found), Bounds(found), x, i) { SinceAt(ab, core, x, y, i); }
    if i :| LetterJustBefore(ab, core, x, i) {
      SinceAt(ab, core, x, y, i);
      assert LetterUpTo(ab, Joined(found), Bounds(found), x, i);
    }
  }

  lemma SinceAt(ab: Alphabet, core: seq<Token>, x: int, y: int, i: int)
    requires ab.Lawful() && (x, y) in Bounds(CutTokens(ab, core).found)
    ensures var found := CutTokens(ab, core).found;
            LetterUpTo(ab, Joined(found), Bounds(found), x, i) <==> LetterJustBefore(ab, core, x, i)
  {
    hide HasWords, EndsIn, CutTokens, Bounds, Joined, Atoms;
    var c := CutTokens(ab, core);
    var found := c.found;
    CutTokensKeeps(ab, core);
    BoundsWithin(found);
    assert (x, y).0 <= |Joined(found)|;
    assert 0 <= i < x ==> Joined(found)[i] == Atoms(core)[i];
    forall x', y' ensures (x', y') in Bounds(found) <==> EndsIn(ab, core, x', y') { CutsOfTokens(ab, core, x', y'); }
    if LetterJustBefore(ab, core, x, i) {
      forall b | b in Bounds(found) && b.0 < x ensures b.1 <= i { assert EndsIn(ab, core, b.0, b.1); }
    }
  }

  // ---- two texts ----

  lemma OneText(ab: Alphabet, v: string, x: int, y: int)
    ensures EndsIn(ab, [Text(v)], x, y) <==> exists at, g, e :: EndsAt(ab, v, at, g, e) && x == g && y == e
  {
    hide EndsAt;
    var none: seq<Token> := [];
    EndsInSnoc(ab, none, Text(v), x, y);
    assert none + [Text(v)] == [Text(v)] && Atoms(none) == [];
    if n: nat, at: nat, g: nat, e: nat :| PlaceOf(ab, none, n, at, g, e, x, y) { assert false; }
  }

  /** No cut, one sentence. */
  lemma UncutIsOne(l: seq<Sentence>)
    requires l != [] && Cuts(l) == {}
    ensures |l| == 1
  {
    BoundsWithin(l[..|l| - 1]);
  }

  const ASK := "Ask Mr. Dorji."

  lemma AskHasNoEnd(ab: Alphabet, at: nat, g: nat, e: nat)
    requires ab.Lawful() && ab.isSpace(' ') && ab.lower("Mr") == "mr"
    ensures !EndsAt(ab, ASK, at, g, e)
  {
    hide SpacedBreak, GluedBreak, WordBefore, Shortened;
    if Break(ab, ASK, at, g, e) {
      AskMarks(ab, at, g, e);
      MrIsShort(ab);
    }
  }

  lemma AskMarks(ab: Alphabet, at: nat, g: nat, e: nat)
    requires Break(ab, ASK, at, g, e)
    ensures at == 6
  {
    assert at != 13;
    if at < 6 {
      assert ASK[at] == "Ask Mr"[at];
      NoMark("Ask Mr", at);
    } else if at > 6 {
      BehindMr(at);
    }
  }

  lemma BehindMr(at: nat)
    requires 6 < at < 13
    ensures ASK[at] !in ".!?"
  {
    assert ASK[at] == " Dorji"[at - 7];
    NoMark(" Dorji", at - 7);
  }

  lemma MrIsShort(ab: Alphabet)
    requires ab.Lawful() && ab.isSpace(' ') && ab.lower("Mr") == "mr"
    ensures WordBefore(ab, ASK, 4, 6) && Shortened(ab, ASK[4..6])
  {
    assert AsciiUpper('M') && AsciiLower('r');
    assert ASK[4] == 'M' && ASK[5] == 'r' && ASK[3] == ' ';
    assert ASK[4..6] == "Mr";
  }

  lemma StartsWithLetter(ab: Alphabet, v: string)
    requires ab.Lawful() && v != "" && AsciiUpper(v[0])
    ensures HasWords(ab, [Text(v)])
  {
    assert ab.IsLetter(v[0]);
    assert [Text(v)][0] == Text(v) && ab.HasLetter(v);
  }

  /** An abbreviation does not end a sentence. */
  lemma AskIsOneSentence(ab: Alphabet)
    requires ab.Lawful() && ab.isSpace(' ') && ab.lower("Mr") == "mr"
    ensures |SplitSentences(ab, [Text(ASK)])| == 1
  {
    hide EndsAt, SplitSentences, HasWords, Cuts, LetterFrom, LetterSince;
    var core: seq<Token> := [Text(ASK)];
    var l := SplitSentences(ab, core);
    forall c | c in Cuts(l) ensures false {
      assert c == (c.0, c.1);
      CutIff(ab, core, c.0, c.1);
      OneText(ab, ASK, c.0, c.1);
      var at, g, e :| EndsAt(ab, ASK, at, g, e) && c.0 == g && c.1 == e;
      AskHasNoEnd(ab, at, g, e);
    }
    StartsWithLetter(ab, ASK);
    SplitSentencesFaithful(ab, core);
    UncutIsOne(l);
  }

  const BRING := "Apply online. Bring it."

  /** A full stop, white space and a capital end a sentence. */
  lemma BringEndsOnce(ab: Alphabet, at: nat, g: nat, e: nat)
    requires ab.Lawful() && ab.isSpace(' ') && ab.lower("online") == "online"
    ensures EndsAt(ab, BRING, at, g, e) <==> at == 12 && g == 13 && e == 14
  {
    hide Break, WordBefore, Shortened;
    BringBreaks(ab, at, g, e);
    if at == 12 && g == 13 && e == 14 {
      OnlineIsWhole(ab);
      EIsNoSpace(ab);
    }
  }

  lemma EIsNoSpace(ab: Alphabet)
    requires ab.Lawful()
    ensures !ab.isSpace(BRING[11])
  {
    assert AsciiLower(BRING[11]);
  }

  lemma BringMarks(ab: Alphabet, at: nat, g: nat, e: nat)
    requires Break(ab, BRING, at, g, e)
    ensures at == 12
  {
    assert at != 22;
    if at < 12 {
      assert BRING[at] == "Apply online"[at];
      NoMark("Apply online", at);
    } else if at > 12 {
      BehindOnline(at);
    }
  }

  lemma BehindOnline(at: nat)
    requires 12 < at < 22
    ensures BRING[at] !in ".!?"
  {
    assert BRING[at] == " Bring it"[at - 13];
    NoMark(" Bring it", at - 13);
  }

  lemma NoMark(s: string, i: nat)
    requires i < |s| && s in {"Ask Mr", " Dorji", "Apply online", " Bring it"}
    ensures s[i] !in ".!?"
  {
  }

  lemma BringBreaks(ab: Alphabet, at: nat, g: nat, e: nat)
    requires ab.Lawful() && ab.isSpace(' ')
    ensures Break(ab, BRING, at, g, e) <==> at == 12 && g == 13 && e == 14
  {
    assert BRING[12] == '.' && BRING[13] == ' ' && BRING[14] == 'B';
    assert AsciiUpper('B');
    if Break(ab, BRING, at, g, e) {
      BringMarks(ab, at, g, e);
      assert !GluedBreak(BRING, 12);
      BringGap(ab, g, e);
    }
    if at == 12 && g == 13 && e == 14 { assert WholeGap(ab, BRING, 13, 14); }
  }

  lemma BringGap(ab: Alphabet, g: nat, e: nat)
    requires ab.Lawful() && ab.isSpace(' ') && SpacedBreak(ab, BRING, 12, g, e)
    ensures g == 13 && e == 14
  {
    assert BRING[13] == ' ' && BRING[14] == 'B' && AsciiUpper('B');
    assert ' ' !in CLOSERS;
    assert !(13 < g);
  }

  lemma OnlineIsWhole(ab: Alphabet)
    requires ab.Lawful() && ab.isSpace(' ') && ab.lower("online") == "online"
    ensures forall a: nat :: WordBefore(ab, BRING, a, 12) ==> !Shortened(ab, BRING[a..12])
  {
    OnlineIsWord(ab);
    OneWordBefore(ab, BRING, 6, 12);
    hide WordBefore;
    assert BRING[6..12] == "online";
  }

  lemma OneWordBefore(ab: Alphabet, v: string, s: nat, at: nat)
    requires 0 < s < at <= |v| && !ab.isWord(v[s - 1]) && forall i :: s <= i < at ==> ab.isWord(v[i])
    ensures forall a: nat :: WordBefore(ab, v, a, at) ==> a == s
  {
  }

  lemma OnlineIsWord(ab: Alphabet)
    requires ab.Lawful() && ab.isSpace(' ')
    ensures !ab.isWord(BRING[5]) && forall i :: 6 <= i < 12 ==> ab.isWord(BRING[i])
  {
    assert BRING[5] == ' ';
    forall i | 6 <= i < 12 ensures ab.isWord(BRING[i]) { assert AsciiLower(BRING[i]); }
  }

  /** One cut, two sentences, on either side of it. */
  lemma OneCutIsTwo(l: seq<Sentence>, x: int, y: int)
    requires Cuts(l) == {(x, y)} && forall s :: s in l ==> Atoms(s.tokens) != []
    ensures |l| == 2 && |Atoms(l[0].tokens)| == x && |l[0].gap| == y - x
  {
    NoBounds();
    assert l != [] && l[..|l| - 1] != [];
    hide Atoms, Joined, Bounds;
    var init := l[..|l| - 1];
    var fore, s := init[..|init| - 1], init[|init| - 1];
    assert init == fore + [s] && s == l[|l| - 2];
    BoundsSnoc(fore, s);
    BoundsWithin(fore);
    var b := (|Joined(fore)| + |Atoms(s.tokens)|, |Joined(fore)| + |Atoms(s.tokens)| + |s.gap|);
    assert b in Bounds(fore) + {b};
    assert b == (x, y);
    NoneJoined();
    assert fore == [];
  }

  lemma NoneJoined()
    ensures Joined([]) == []
  {
  }

  /** Two sentences are sent on their own, with the space between them kept aside. */
  lemma BringIsTwoSentences(ab: Alphabet)
    requires ab.Lawful() && ab.isSpace(' ') && ab.lower("online") == "online"
    ensures SplitSentences(ab, [Text(BRING)]) == [Sentence([Text("Apply online.")], " "), Sentence([Text("Bring it.")], "")]
  {
    hide EndsAt, SplitSentences, HasWords, Cuts;
    var core: seq<Token> := [Text(BRING)];
    var l := SplitSentences(ab, core);
    forall c ensures c in Cuts(l) <==> c == (13, 14) {
      assert c == (c.0, c.1);
      BringCut(ab, c.0, c.1);
    }
    assert Cuts(l) == {(13, 14)};
    StartsWithLetter(ab, BRING);
    SplitSentencesFaithful(ab, core);
    forall s | s in l ensures Atoms(s.tokens) != [] {
      var i :| 0 <= i < |l| && l[i] == s;
      WordsSeen(ab, s.tokens);
    }
    OneCutIsTwo(l, 13, 14);
    TwoOf(ab, l);
  }

  lemma BringCut(ab: Alphabet, x: int, y: int)
    requires ab.Lawful() && ab.isSpace(' ') && ab.lower("online") == "online"
    ensures (x, y) in Cuts(SplitSentences(ab, [Text(BRING)])) <==> x == 13 && y == 14
  {
    hide EndsAt, SplitSentences, HasWords, Cuts;
    var core: seq<Token> := [Text(BRING)];
    CutIff(ab, core, x, y);
    OneText(ab, BRING, x, y);
    if at: nat, g: nat, e: nat :| EndsAt(ab, BRING, at, g, e) && x == g && y == e { BringEndsOnce(ab, at, g, e); }
    if x == 13 && y == 14 {
      BringEndsOnce(ab, 12, 13, 14);
      BringLetters(ab);
    }
  }

  lemma BringLetters(ab: Alphabet)
    requires ab.Lawful() && ab.isSpace(' ') && ab.lower("online") == "online"
    ensures LetterSince(ab, [Text(BRING)], 13) && LetterFrom(ab, Atoms([Text(BRING)]), 14)
  {
    hide EndsAt, EndsIn;
    var core: seq<Token> := [Text(BRING)];
    AtomsOne(Text(BRING));
    assert BRING[0] == 'A' && BRING[14] == 'B' && AsciiUpper('A') && AsciiUpper('B');
    forall x, y | EndsIn(ab, core, x, y) && x < 13 ensures false {
      OneText(ab, BRING, x, y);
      var at, g, e :| EndsAt(ab, BRING, at, g, e) && x == g && y == e;
      BringEndsOnce(ab, at, g, e);
    }
    assert LetterJustBefore(ab, core, 13, 0);
    assert LetterAt(ab, Atoms(core), 14);
  }

  lemma TwoOf(ab: Alphabet, l: seq<Sentence>)
    requires ab.Lawful() && |l| == 2 && Faithful(ab, l, Atoms([Text(BRING)]))
    requires |Atoms(l[0].tokens)| == 13 && |l[0].gap| == 1
    ensures l == [Sentence([Text("Apply online.")], " "), Sentence([Text("Bring it.")], "")]
  {
    hide Atoms, Merged, HasWords, Joined, Spaces;
    var a, b := l[0], l[1];
    AtomsOne(Text(BRING));
    JoinedTwo(a, b);
    assert l == [a, b];
    NoSpaceAtEnd(ab, b);
    TwoTexts(Atoms(a.tokens), a.gap, Atoms(b.tokens), b.gap);
    AtomsOne(Text("Apply online."));
    AtomsOne(Text("Bring it."));
    OneIsMerged("Apply online.");
    OneIsMerged("Bring it.");
    MergedUnique(a.tokens, [Text("Apply online.")]);
    MergedUnique(b.tokens, [Text("Bring it.")]);
  }

  lemma OneIsMerged(v: string)
    requires v != ""
    ensures Merged([Text(v)])
  {
  }

  lemma NoSpaceAtEnd(ab: Alphabet, b: Sentence)
    requires ab.Lawful() && Spaces(ab, b.gap)
    ensures b.gap != "" ==> b.gap[|b.gap| - 1] != '.'
  {
  }

  lemma EndOf(a: seq<Atom>, h: string)
    ensures h != "" ==> (a + Chars(h))[|a| + |h| - 1] == Ch(h[|h| - 1])
  {
  }

  lemma TwoTexts(a: seq<Atom>, g: string, b: seq<Atom>, h: string)
    requires Chars(BRING) == (a + Chars(g)) + (b + Chars(h)) && |a| == 13 && |g| == 1
    requires h != "" ==> h[|h| - 1] != '.'
    ensures a == Chars("Apply online.") && g == " " && b == Chars("Bring it.") && h == ""
  {
    var all := Chars(BRING);
    assert all[22] == Ch('.') && all[13] == Ch(' ');
    EndOf(a + Chars(g) + b, h);
    Assoc(a + Chars(g), b, Chars(h));
    assert all[..13] == a && all[13] == Chars(g)[0] && all[14..] == b;
    assert BRING[..13] == "Apply online." && BRING[14..] == "Bring it.";
    assert all[..13] == Chars(BRING[..13]) && all[14..] == Chars(BRING[14..]);
    assert g == [g[0]];
  }

  lemma JoinedTwo(a: Sentence, b: Sentence)
    ensures Joined([a, b]) == SentenceAtoms(a) + SentenceAtoms(b)
  {
    var none: seq<Sentence> := [];
    JoinedSnoc(none, a);
    JoinedSnoc([a], b);
    assert none + [a] == [a] && [a] + [b] == [a, b] && Joined(none) == [];
  }
}
