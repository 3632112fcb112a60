/** The places for a cut in a long sentence, said by position, and which of them is taken. */
module ClausePlaces {
  import opened Wrappers
  import opened Segments
  import opened Patterns
  import opened Decompose
  import opened SentencePlaces
  import opened Clauses

  // ---- pauses ----

  /** The mark of a pause: semicolons and colons, then commas, then anything that is no white space. */
  predicate PauseMark(ab: Alphabet, k: nat, c: char) {
    if k == 0 then c == ';' || c == ':' || c == '\U{FF1B}' || c == '\U{FF1A}'
    else if k == 1 then c == ',' || c == '\U{FF0C}'
    else !ab.isSpace(c)
  }

  /** The mark is the character before `g`, and the white space behind it is `v[g..e]`, in full. */
  ghost predicate PauseAt(ab: Alphabet, v: string, k: nat, g: nat, e: nat) {
    0 < g && WholeGap(ab, v, g, e) && PauseMark(ab, k, v[g - 1])
  }

  lemma MarksAreNoSpace(ab: Alphabet, k: nat, c: char)
    requires ab.Lawful()
    ensures PauseMark(ab, k, c) <==> IsPause(ab, k, c)
    ensures PauseMark(ab, k, c) ==> !ab.isSpace(c)
  {
  }

  /** The search finds every pause of its strength. */
  lemma {:induction false} PausesFound(ab: Alphabet, v: string, k: nat, from: nat, p: Place)
    requires ab.Lawful()
    ensures p in Pauses(ab, v, k, from) <==> from <= p.at && p.gapStart == p.at + 1 && PauseAt(ab, v, k, p.gapStart, p.gapEnd)
    decreases |v| - from
  {
    hide IsPause, PauseMark, Alphabet.Lawful, SpaceEnd;
    if from < |v| {
      var e := SpaceEnd(ab, v, from + 1);
      SpaceRun(ab, v, from + 1, e);
      SpaceRun(ab, v, from + 1, p.gapEnd);
      MarksAreNoSpace(ab, k, v[from]);
      if IsPause(ab, k, v[from]) && from + 1 < |v| && ab.isSpace(v[from + 1]) {
        PausesFound(ab, v, k, e, p);
        if from < p.at < e && p.at < |v| { MarksAreNoSpace(ab, k, v[p.at]); }
      } else {
        PausesFound(ab, v, k, from + 1, p);
      }
    }
  }

  // ---- cuts ----

  /** A cut at a pause of strength `k`, with words on both sides of it. */
  ghost predicate PauseCut(ab: Alphabet, ts: seq<Token>, k: nat, c: Cut) {
    && c.token < |ts| && ts[c.token].Text? && PauseAt(ab, ts[c.token].value, k, c.gapStart, c.gapEnd)
    && 0 < Before(ab, ts, c.token, c.gapStart) < WordCount(ab, ts)
    && c.distance == Distance(WordCount(ab, ts), Before(ab, ts, c.token, c.gapStart))
  }

  /** One cut is before the other in the sentence. */
  predicate Earlier(a: Cut, b: Cut) {
    a.token < b.token || (a.token == b.token && a.gapStart < b.gapStart)
  }

  ghost predicate Ordered(cuts: seq<Cut>) {
    forall i, j :: 0 <= i < j < |cuts| ==> Earlier(cuts[i], cuts[j])
  }

  lemma {:induction false} CutsOfText(ab: Alphabet, ts: seq<Token>, i: nat, gaps: seq<Place>, n: nat, c: Cut)
    requires i < |ts| && ts[i].Text? && PlacesIn(ab, ts[i].value, gaps) && n <= |gaps|
    ensures c in CutsInText(ab, ts, i, gaps, n)
            <==> c.token == i && AnyTaken(ab, ts, i, gaps, n, c)
    ensures Ordered(CutsInText(ab, ts, i, gaps, n))
    ensures n > 0 ==> forall x :: x in CutsInText(ab, ts, i, gaps, n) ==> x.token == i && x.gapStart <= gaps[n - 1].gapStart
  {
    hide Before, Distance, WordCount, Spaces;
    if n > 0 {
      CutsOfText(ab, ts, i, gaps, n - 1, c);
      assert PlaceIn(ab, ts[i].value, gaps[n - 1]);
      if n > 1 { assert PlaceIn(ab, ts[i].value, gaps[n - 2]) && gaps[n - 2].gapEnd <= gaps[n - 1].at; }
    }
  }

  ghost predicate AnyTaken(ab: Alphabet, ts: seq<Token>, i: nat, gaps: seq<Place>, n: nat, c: Cut)
    requires i < |ts| && ts[i].Text? && n <= |gaps|
  {
    exists m :: 0 <= m < n && Taken(ab, ts, i, gaps[m], c)
  }

  ghost predicate Taken(ab: Alphabet, ts: seq<Token>, i: nat, m: Place, c: Cut)
    requires i < |ts| && ts[i].Text?
  {
    && m.gapStart <= |ts[i].value| && c.gapStart == m.gapStart && c.gapEnd == m.gapEnd
    && 0 < Before(ab, ts, i, m.gapStart) < WordCount(ab, ts)
    && c.distance == Distance(WordCount(ab, ts), Before(ab, ts, i, m.gapStart))
  }

  lemma TakenIsPause(ab: Alphabet, ts: seq<Token>, i: nat, k: nat, c: Cut)
    requires ab.Lawful() && i < |ts| && ts[i].Text?
    ensures var gaps := Pauses(ab, ts[i].value, k, 0);
            c.token == i ==> (AnyTaken(ab, ts, i, gaps, |gaps|, c) <==> PauseCut(ab, ts, k, c))
  {
    hide Before, Distance, WordCount, PauseAt, Pauses;
    var v := ts[i].value;
    var gaps := Pauses(ab, v, k, 0);
    if m :| 0 <= m < |gaps| && Taken(ab, ts, i, gaps[m], c) { PausesFound(ab, v, k, 0, gaps[m]); }
    if c.token == i && PauseCut(ab, ts, k, c) {
      PauseHasMark(ab, v, k, c.gapStart, c.gapEnd);
      var p := Place(c.gapStart - 1, c.gapStart, c.gapEnd);
      PausesFound(ab, v, k, 0, p);
      var m :| 0 <= m < |gaps| && gaps[m] == p;
      assert Taken(ab, ts, i, gaps[m], c);
    }
  }

  lemma PauseHasMark(ab: Alphabet, v: string, k: nat, g: nat, e: nat)
    requires PauseAt(ab, v, k, g, e)
    ensures 0 < g <= |v|
  {
  }

  /** The search lists the cuts at pauses of its strength, in the order they stand. */
  lemma {:induction false} CutsAre(ab: Alphabet, ts: seq<Token>, k: nat, n: nat, c: Cut)
    requires ab.Lawful() && n <= |ts|
    ensures c in CutsAt(ab, ts, k, n) <==> c.token < n && PauseCut(ab, ts, k, c)
    ensures Ordered(CutsAt(ab, ts, k, n))
    ensures forall x :: x in CutsAt(ab, ts, k, n) ==> x.token < n
  {
    hide PauseCut, CutsInText, Pauses;
    if n > 0 {
      CutsAre(ab, ts, k, n - 1, c);
      if ts[n - 1].Text? {
        var gaps := Pauses(ab, ts[n - 1].value, k, 0);
        CutsOfText(ab, ts, n - 1, gaps, |gaps|, c);
        TakenIsPause(ab, ts, n - 1, k, c);
        AllOfToken(ab, ts, n - 1, gaps);
      } else {
        NoCutInMarker(ab, ts, k, c);
      }
    }
  }

  lemma AllOfToken(ab: Alphabet, ts: seq<Token>, i: nat, gaps: seq<Place>)
    requires i < |ts| && ts[i].Text? && PlacesIn(ab, ts[i].value, gaps)
    ensures forall x :: x in CutsInText(ab, ts, i, gaps, |gaps|) ==> x.token == i
  {
    forall x | x in CutsInText(ab, ts, i, gaps, |gaps|) ensures x.token == i { CutsOfText(ab, ts, i, gaps, |gaps|, x); }
  }

  lemma NoCutInMarker(ab: Alphabet, ts: seq<Token>, k: nat, c: Cut)
    ensures PauseCut(ab, ts, k, c) ==> ts[c.token].Text?
  {
  }

  // ---- the cut that is taken ----

  /** Of the cuts at pauses of strength `k` the one nearest the middle, and the first of those equally near. */
  ghost predicate Best(ab: Alphabet, ts: seq<Token>, k: nat, c: Cut) {
    && PauseCut(ab, ts, k, c)
    && forall d :: PauseCut(ab, ts, k, d) && d != c ==>
         c.distance < d.distance || (c.distance == d.distance && Earlier(c, d))
  }

  lemma NearestIsBest(ab: Alphabet, ts: seq<Token>, k: nat, c: Cut)
    requires ab.Lawful()
    ensures Nearest(CutsAt(ab, ts, k, |ts|)) == Some(c) <==> Best(ab, ts, k, c)
  {
    hide PauseCut, CutsAt;
    var cuts := CutsAt(ab, ts, k, |ts|);
    forall d ensures d in cuts <==> PauseCut(ab, ts, k, d) {
      CutsAre(ab, ts, k, |ts|, d);
      CutInRange(ab, ts, k, d);
    }
    CutsAre(ab, ts, k, |ts|, c);
    NearestIsLeast(cuts);
    if cuts != [] {
      var i := NearestIsFirst(cuts);
      FirstIsBest(ab, ts, k, cuts, i);
    }
  }

  lemma CutInRange(ab: Alphabet, ts: seq<Token>, k: nat, c: Cut)
    ensures PauseCut(ab, ts, k, c) ==> c.token < |ts|
  {
  }

  lemma FirstIsBest(ab: Alphabet, ts: seq<Token>, k: nat, cuts: seq<Cut>, i: nat)
    requires forall d :: d in cuts <==> PauseCut(ab, ts, k, d)
    requires Ordered(cuts) && i < |cuts| && (forall j :: 0 <= j < i ==> cuts[j].distance > cuts[i].distance)
    requires forall d :: d in cuts ==> cuts[i].distance <= d.distance
    ensures Best(ab, ts, k, cuts[i])
  {
    hide PauseCut;
    var c := cuts[i];
    forall d | PauseCut(ab, ts, k, d) && d != c ensures c.distance < d.distance || (c.distance == d.distance && Earlier(c, d)) {
      var j :| 0 <= j < |cuts| && cuts[j] == d;
    }
  }

  /** Letters on both sides. */
  ghost predicate Halves(ab: Alphabet, ts: seq<Token>, c: Cut) {
    c.token < |ts| && ts[c.token].Text? && c.gapStart <= |ts[c.token].value| && c.gapEnd <= |ts[c.token].value|
    && HasWords(ab, LeftOf(ts, c)) && HasWords(ab, RightOf(ts, c))
  }

  /** A pause of strength `k` is taken: its best cut has letters on both sides, and no stronger one's has. */
  ghost predicate TakenAt(ab: Alphabet, ts: seq<Token>, k: nat, c: Cut) {
    && k < 3 && Best(ab, ts, k, c) && Halves(ab, ts, c)
    && forall j: nat, d :: j < k && Best(ab, ts, j, d) ==> !Halves(ab, ts, d)
  }

  lemma {:induction false} FindCutFrom(ab: Alphabet, ts: seq<Token>, from: nat, c: Cut)
    requires ab.Lawful() && from <= 3
    requires forall j: nat, d :: j < from && Best(ab, ts, j, d) ==> !Halves(ab, ts, d)
    ensures FindCut(ab, ts, from) == Some(c) <==> exists k: nat :: TakenAt(ab, ts, k, c)
    decreases 3 - from
  {
    hide Best, CutsAt, LeftOf, RightOf, HasWords, Alphabet.Lawful;
    if from < 3 {
      var best := Nearest(CutsAt(ab, ts, from, |ts|));
      forall d ensures best == Some(d) <==> Best(ab, ts, from, d) { NearestIsBest(ab, ts, from, d); }
      StepOfFind(ab, ts, from);
      if best.Some? && Halves(ab, ts, best.value) {
        if c == best.value { assert TakenAt(ab, ts, from, c); }
        if k: nat :| TakenAt(ab, ts, k, c) {
          assert k >= from;
          assert k <= from;
        }
      } else {
        FindCutFrom(ab, ts, from + 1, c);
      }
    }
  }

  lemma StepOfFind(ab: Alphabet, ts: seq<Token>, k: nat)
    requires ab.Lawful() && k < 3
    ensures var best := Nearest(CutsAt(ab, ts, k, |ts|));
            && (best.Some? ==> best.value.token < |ts| && ts[best.value.token].Text?
                               && best.value.gapStart <= best.value.gapEnd <= |ts[best.value.token].value|)
            && FindCut(ab, ts, k) == if best.Some? && Halves(ab, ts, best.value) then best else FindCut(ab, ts, k + 1)
  {
    hide CutsAt, LeftOf, RightOf, HasWords, Alphabet.Lawful;
    var cuts := CutsAt(ab, ts, k, |ts|);
    NearestIsLeast(cuts);
    if Nearest(cuts).Some? { CutsAreIn(ab, ts, k, |ts|, Nearest(cuts).value); }
  }

  /**
   A sentence is cut at a place if and only if, for some strength of pause, it is the nearest to the
   middle of all pauses of that strength and leaves letters on both sides, and no stronger pause does.
   */
  lemma CutTakenIff(ab: Alphabet, ts: seq<Token>, c: Cut)
    requires ab.Lawful()
    ensures FindCut(ab, ts, 0) == Some(c) <==> exists k: nat :: TakenAt(ab, ts, k, c)
  {
    FindCutFrom(ab, ts, 0, c);
  }
}
