/**
 Cutting a segment that the wire has no room for: only behind terminators, and never inside a tag.
 Positions are positions in the atoms of the segment, so they survive cutting.
 */
module LengthSplit {
  import opened Wrappers
  import opened Segments
  import opened Patterns
  import opened Validator
  import opened Wire

  /** The terminators of the locale, and what counts as white space. */
  datatype Locale = Locale(terminators: set<char>, isSpace: char -> bool)

  // ---- wire length over atoms ----

  function AtomLen(a: Atom): nat {
    match a
    case Ch(c) => if IsDelimiter(c) then 2 else 1
    case Mark(m) => |TokenWire(m)|
  }

  function LenOf(atoms: seq<Atom>): nat {
    if atoms == [] then 0 else AtomLen(atoms[0]) + LenOf(atoms[1..])
  }

  function WireLen(ts: seq<Token>): nat {
    |ToWire(ts)|
  }

  lemma {:induction false} LenOfConcat(a: seq<Atom>, b: seq<Atom>)
    ensures LenOf(a + b) == LenOf(a) + LenOf(b)
  {
    hide AtomLen;
    if a == [] {
      assert a + b == b;
    } else {
      assert (a + b)[1..] == a[1..] + b;
      LenOfConcat(a[1..], b);
    }
  }

  lemma LenOfText(v: string)
    ensures LenOf(Chars(v)) == |EscapeEach(v)|
  {
    if v != "" {
      assert Chars(v)[1..] == Chars(v[1..]);
      LenOfText(v[1..]);
    }
  }

  /** The wire length of a segment is a sum over its atoms. */
  lemma {:induction false} WireLenOfAtoms(ts: seq<Token>)
    ensures WireLen(ts) == LenOf(Atoms(ts))
  {
    if ts != [] {
      WireLenOfAtoms(ts[1..]);
      LenOfConcat(TokenAtoms(ts[0]), Atoms(ts[1..]));
      if ts[0].Text? {
        LenOfText(ts[0].value);
        EscapeIsOnePass(ts[0].value);
      } else {
        assert [Mark(ts[0])][1..] == [];
      }
    }
  }

  /** Wire length of the first `n` atoms. */
  function UpTo(atoms: seq<Atom>, n: nat): nat
    requires n <= |atoms|
  {
    if n == 0 then 0 else UpTo(atoms, n - 1) + AtomLen(atoms[n - 1])
  }

  /** Wire length of the atoms from `i` to `j`. */
  function Between(atoms: seq<Atom>, i: nat, j: nat): int
    requires i <= |atoms| && j <= |atoms|
  {
    UpTo(atoms, j) - UpTo(atoms, i)
  }

  lemma {:induction false} UpToIsLen(atoms: seq<Atom>, n: nat)
    requires n <= |atoms|
    ensures UpTo(atoms, n) == LenOf(atoms[..n])
  {
    hide AtomLen;
    if n > 0 {
      UpToIsLen(atoms, n - 1);
      assert atoms[..n] == atoms[..n - 1] + [atoms[n - 1]];
      LenOfConcat(atoms[..n - 1], [atoms[n - 1]]);
      assert [atoms[n - 1]][1..] == [];
    }
  }

  lemma BetweenIsLen(atoms: seq<Atom>, i: nat, j: nat)
    requires i <= j <= |atoms|
    ensures Between(atoms, i, j) == LenOf(atoms[i..j])
  {
    hide UpTo, LenOf;
    UpToIsLen(atoms, i);
    UpToIsLen(atoms, j);
    assert atoms[..j] == atoms[..i] + atoms[i..j];
    LenOfConcat(atoms[..i], atoms[i..j]);
  }

  lemma {:induction false} UpToGrows(atoms: seq<Atom>, i: nat, j: nat)
    requires i <= j <= |atoms|
    ensures UpTo(atoms, i) <= UpTo(atoms, j)
  {
    hide AtomLen;
    if i < j { UpToGrows(atoms, i, j - 1); }
  }

  // ---- breaks ----

  function Step(a: Atom): int {
    if a.Mark? && a.m.Open? then 1 else if a.Mark? && a.m.Close? then -1 else 0
  }

  function Depth(atoms: seq<Atom>): int {
    if atoms == [] then 0 else Step(atoms[0]) + Depth(atoms[1..])
  }

  lemma {:induction false} DepthConcat(a: seq<Atom>, b: seq<Atom>)
    ensures Depth(a + b) == Depth(a) + Depth(b)
  {
    hide Step;
    if a == [] {
      assert a + b == b;
    } else {
      assert (a + b)[1..] == a[1..] + b;
      DepthConcat(a[1..], b);
    }
  }

  lemma DepthOfChars(v: string)
    ensures Depth(Chars(v)) == 0
  {
    if v != "" {
      assert Chars(v)[1..] == Chars(v[1..]);
      DepthOfChars(v[1..]);
    }
  }

  predicate IsSpaceAtom(lc: Locale, a: Atom) {
    a.Ch? && lc.isSpace(a.c)
  }

  /** Position `p` is the break of the terminator at `q`: all white space after it, and no more. */
  ghost predicate BreakOf(lc: Locale, atoms: seq<Atom>, q: nat, p: nat) {
    && q < p <= |atoms|
    && atoms[q].Ch? && atoms[q].c in lc.terminators && Depth(atoms[..q]) == 0
    && (forall i :: q < i < p ==> IsSpaceAtom(lc, atoms[i]))
    && (p < |atoms| ==> !IsSpaceAtom(lc, atoms[p]))
    && (p == q + 1 && p < |atoms| ==> atoms[p].Mark?)
  }

  ghost predicate BreakAt(lc: Locale, atoms: seq<Atom>, p: nat) {
    exists q: nat :: BreakOf(lc, atoms, q, p)
  }

  /** A break keeps its depth: the text after a terminator at depth zero is at depth zero. */
  lemma BreakDepth(lc: Locale, atoms: seq<Atom>, p: nat)
    requires BreakAt(lc, atoms, p)
    ensures Depth(atoms[..p]) == 0
  {
    var q: nat :| BreakOf(lc, atoms, q, p);
    DepthOfSpaces(atoms[q..p]);
    assert atoms[..p] == atoms[..q] + atoms[q..p];
    DepthConcat(atoms[..q], atoms[q..p]);
  }

  lemma DepthOfSpaces(atoms: seq<Atom>)
    requires forall i :: 0 <= i < |atoms| ==> atoms[i].Ch?
    ensures Depth(atoms) == 0
  {
  }

  /** Behind a break, the breaks of the rest are the breaks of the whole. */
  lemma BreaksOfRest(lc: Locale, atoms: seq<Atom>, c: nat, p: nat)
    requires c == 0 || BreakAt(lc, atoms, c)
    requires c < p <= |atoms|
    ensures BreakAt(lc, atoms[c..], p - c) <==> BreakAt(lc, atoms, p)
  {
    var rest := atoms[c..];
    if c == 0 {
      assert rest == atoms;
    } else {
      BreakDepth(lc, atoms, c);
      if BreakAt(lc, rest, p - c) {
        var q: nat :| BreakOf(lc, rest, q, p - c);
        assert atoms[..c + q] == atoms[..c] + rest[..q];
        DepthConcat(atoms[..c], rest[..q]);
        forall i | c + q < i < p ensures IsSpaceAtom(lc, atoms[i]) {
          assert atoms[i] == rest[i - c];
        }
        assert BreakOf(lc, atoms, c + q, p);
      }
      if BreakAt(lc, atoms, p) {
        var q: nat :| BreakOf(lc, atoms, q, p);
        BehindBreak(lc, atoms, c, q, p);
        assert rest[..q - c] == atoms[c..q];
        assert atoms[..q] == atoms[..c] + atoms[c..q];
        DepthConcat(atoms[..c], rest[..q - c]);
        assert BreakOf(lc, rest, q - c, p - c);
      }
    }
  }

  /** The terminator of a later break stands behind the earlier one. */
  lemma BehindBreak(lc: Locale, atoms: seq<Atom>, c: nat, q: nat, p: nat)
    requires BreakAt(lc, atoms, c) && c < p && BreakOf(lc, atoms, q, p)
    ensures c <= q
  {
    var d: nat :| BreakOf(lc, atoms, d, c);
    assert !IsSpaceAtom(lc, atoms[c]);
  }

  // ---- splits ----

  /** Where piece `i` of the split at `cuts` starts. */
  function StartOf(cuts: seq<nat>, i: nat): nat
    requires i <= |cuts|
  {
    if i == 0 then 0 else cuts[i - 1]
  }

  function EndOf(atoms: seq<Atom>, cuts: seq<nat>, i: nat): nat
    requires i <= |cuts|
  {
    if i == |cuts| then |atoms| else cuts[i]
  }

  /** A split at depth-zero breaks in which every piece fits. */
  ghost predicate GoodSplit(lc: Locale, atoms: seq<Atom>, maxLen: nat, cuts: seq<nat>) {
    && (forall i :: 0 <= i < |cuts| ==> 0 < cuts[i] < |atoms| && BreakAt(lc, atoms, cuts[i]))
    && (forall i, j :: 0 <= i < j < |cuts| ==> cuts[i] < cuts[j])
    && (forall i :: 0 <= i <= |cuts| ==> StartOf(cuts, i) <= |atoms| && EndOf(atoms, cuts, i) <= |atoms|)
    && (forall i :: 0 <= i <= |cuts| ==> Between(atoms, StartOf(cuts, i), EndOf(atoms, cuts, i)) <= maxLen)
  }

  /** While the rest behind `c` does not fit, a good split has a break there that does. */
  lemma NextCut(lc: Locale, atoms: seq<Atom>, maxLen: nat, cuts: seq<nat>, c: nat) returns (m: nat)
    requires GoodSplit(lc, atoms, maxLen, cuts) && c <= |atoms| && Between(atoms, c, |atoms|) > maxLen
    ensures m < |cuts| && c < cuts[m] && Between(atoms, c, cuts[m]) <= maxLen
    ensures forall i :: 0 <= i < m ==> cuts[i] <= c
  {
    m := 0;
    while m < |cuts| && cuts[m] <= c
      invariant m <= |cuts| && forall i :: 0 <= i < m ==> cuts[i] <= c
    {
      m := m + 1;
    }
    hide Between, BreakAt;
    assert StartOf(cuts, m) <= c;
    assert Between(atoms, StartOf(cuts, m), EndOf(atoms, cuts, m)) <= maxLen;
    UpToGrows(atoms, StartOf(cuts, m), c);
  }

  // ---- points: token and offset ----

  datatype Point = Point(token: nat, offset: nat)

  function Pos(ts: seq<Token>, pt: Point): nat
    requires pt.token < |ts|
  {
    |Atoms(ts[..pt.token])| + pt.offset
  }

  /** A terminator at `k` with white space or nothing behind it. */
  predicate Terminates(lc: Locale, v: string, k: nat)
    requires k < |v|
  {
    v[k] in lc.terminators && (k + 1 == |v| || lc.isSpace(v[k + 1]))
  }

  /** A cut is made behind the terminator's white space. */
  function EndAfter(lc: Locale, v: string, k: nat): (e: nat)
    requires k < |v|
    ensures k < e <= |v|
    ensures forall i :: k < i < e ==> lc.isSpace(v[i])
    ensures e < |v| ==> !lc.isSpace(v[e])
  {
    k + 1 + PrefixCount(lc.isSpace, v[k + 1..])
  }

  /** The ends of the breaks whose terminator is among the first `n` characters. */
  function EndsIn(lc: Locale, v: string, n: nat): seq<nat>
    requires n <= |v|
  {
    if n == 0 then []
    else EndsIn(lc, v, n - 1) + if Terminates(lc, v, n - 1) then [EndAfter(lc, v, n - 1)] else []
  }

  function PointsOf(i: nat, ends: seq<nat>): (r: seq<Point>)
    ensures |r| == |ends| && forall k :: 0 <= k < |r| ==> r[k] == Point(i, ends[k])
  {
    seq(|ends|, k requires 0 <= k < |ends| => Point(i, ends[k]))
  }

  /** The split points among the first `n` tokens, as the source collects them. */
  function PointsIn(lc: Locale, ts: seq<Token>, n: nat): seq<Point>
    requires n <= |ts|
  {
    if n == 0 then []
    else
      PointsIn(lc, ts, n - 1)
      + if ts[n - 1].Text? && Depth(Atoms(ts[..n - 1])) == 0
        then PointsOf(n - 1, EndsIn(lc, ts[n - 1].value, |ts[n - 1].value|)) else []
  }

  lemma {:induction false} EndsInAre(lc: Locale, v: string, n: nat, e: nat)
    requires n <= |v|
    ensures e in EndsIn(lc, v, n) <==> exists k :: 0 <= k < n && Terminates(lc, v, k) && e == EndAfter(lc, v, k)
  {
    if n > 0 {
      EndsInAre(lc, v, n - 1, e);
    }
  }

  ghost predicate Sorted(r: seq<nat>) {
    forall i, j :: 0 <= i < j < |r| ==> r[i] <= r[j]
  }

  /** Beyond `n` only by white space. */
  ghost predicate Reaches(lc: Locale, v: string, n: nat, e: nat) {
    0 < e <= |v| && forall k :: n <= k < e ==> lc.isSpace(v[k])
  }

  lemma {:induction false} EndsInSorted(lc: Locale, v: string, n: nat)
    requires n <= |v|
    ensures Sorted(EndsIn(lc, v, n))
    ensures forall e :: e in EndsIn(lc, v, n) ==> Reaches(lc, v, n, e)
  {
    if n > 0 {
      EndsInSorted(lc, v, n - 1);
      var r, e := EndsIn(lc, v, n - 1), EndAfter(lc, v, n - 1);
      assert EndsIn(lc, v, n) == if Terminates(lc, v, n - 1) then r + [e] else r;
      forall i | 0 <= i < |r| ensures r[i] <= e && Reaches(lc, v, n, r[i]) {
        assert r[i] in r;
        assert Reaches(lc, v, n - 1, r[i]);
      }
    }
  }

  // ---- points are breaks ----

  /** Atoms around a text: what is before it, and what follows it, which starts with a marker. */
  ghost predicate Around(atoms: seq<Atom>, before: seq<Atom>, v: string, after: seq<Atom>) {
    atoms == before + Chars(v) + after && (after != [] ==> after[0].Mark?)
  }

  lemma TextAround(ts: seq<Token>, i: nat)
    requires Merged(ts) && i < |ts| && ts[i].Text?
    ensures Around(Atoms(ts), Atoms(ts[..i]), ts[i].value, Atoms(ts[i + 1..]))
  {
    var rest := ts[i + 1..];
    AtomsParts(ts[..i], ts[i], rest);
    assert ts == ts[..i] + [ts[i]] + rest;
    if rest != [] {
      assert rest[0] == ts[i + 1];
    }
  }

  lemma AtomsParts(before: seq<Token>, t: Token, after: seq<Token>)
    ensures Atoms(before + [t] + after) == Atoms(before) + TokenAtoms(t) + Atoms(after)
  {
    AtomsConcat(before + [t], after);
    AtomsSnoc(before, t);
  }

  /** The atoms of the text, by position. */
  lemma AroundAt(atoms: seq<Atom>, before: seq<Atom>, v: string, after: seq<Atom>, k: nat)
    requires Around(atoms, before, v, after) && k <= |v|
    ensures |before| + k <= |atoms|
    ensures k < |v| ==> atoms[|before| + k] == Ch(v[k])
    ensures k == |v| && |before| + k < |atoms| ==> atoms[|before| + k].Mark?
    ensures atoms[..|before| + k] == before + Chars(v[..k])
    ensures atoms[|before| + k..] == Chars(v[k..]) + after
  {
    AtomsCut(v, k);
    var x, y := Chars(v[..k]), Chars(v[k..]);
    assert k < |v| ==> y[0] == Ch(v[k]);
    assert k == |v| ==> y == [];
    assert |x| == k;
    hide Chars;
    Assoc(before, x, y);
    FourPieces(before, x, y, after);
  }

  lemma FourPieces(before: seq<Atom>, x: seq<Atom>, y: seq<Atom>, after: seq<Atom>)
    ensures (before + x + y + after)[..|before| + |x|] == before + x
    ensures (before + x + y + after)[|before| + |x|..] == y + after
  {
  }

  lemma AroundDepth(atoms: seq<Atom>, before: seq<Atom>, v: string, after: seq<Atom>, k: nat)
    requires Around(atoms, before, v, after) && k <= |v|
    ensures |before| + k <= |atoms| && Depth(atoms[..|before| + k]) == Depth(before)
  {
    AroundAt(atoms, before, v, after, k);
    DepthConcat(before, Chars(v[..k]));
    DepthOfChars(v[..k]);
  }

  lemma AroundBreak(lc: Locale, atoms: seq<Atom>, before: seq<Atom>, v: string, after: seq<Atom>, k: nat)
    requires Around(atoms, before, v, after) && k < |v| && Depth(before) == 0 && Terminates(lc, v, k)
    ensures BreakOf(lc, atoms, |before| + k, |before| + EndAfter(lc, v, k))
  {
    hide Around, Depth, Chars;
    var b, e := |before|, EndAfter(lc, v, k);
    AroundDepth(atoms, before, v, after, k);
    AroundAt(atoms, before, v, after, k);
    AroundAt(atoms, before, v, after, e);
    forall n | b + k < n < b + e ensures IsSpaceAtom(lc, atoms[n]) {
      AroundAt(atoms, before, v, after, n - b);
    }
  }

  lemma BreakAround(lc: Locale, atoms: seq<Atom>, before: seq<Atom>, v: string, after: seq<Atom>, k: nat, p: nat)
    requires Around(atoms, before, v, after) && k < |v| && BreakOf(lc, atoms, |before| + k, p)
    ensures Depth(before) == 0 && Terminates(lc, v, k) && p == |before| + EndAfter(lc, v, k)
  {
    var b := |before|;
    AroundDepth(atoms, before, v, after, k);
    AroundAt(atoms, before, v, after, k);
    AroundAt(atoms, before, v, after, k + 1);
    AroundAt(atoms, before, v, after, |v|);
    assert p <= b + |v|;
    forall n | k < n < p - b ensures lc.isSpace(v[n]) {
      AroundAt(atoms, before, v, after, n);
    }
    AroundAt(atoms, before, v, after, p - b);
    EndIsUnique(lc, v, k, p - b, EndAfter(lc, v, k));
  }

  /** Every atom stands in some token. */
  lemma {:induction false} Locate(ts: seq<Token>, q: nat) returns (i: nat)
    requires q < |Atoms(ts)|
    ensures i < |ts| && |Atoms(ts[..i])| <= q < |Atoms(ts[..i])| + |TokenAtoms(ts[i])|
    ensures !ts[i].Text? ==> Atoms(ts)[q].Mark?
  {
    var n := |ts| - 1;
    assert ts == ts[..n] + [ts[n]];
    AtomsSnoc(ts[..n], ts[n]);
    if q >= |Atoms(ts[..n])| {
      i := n;
    } else {
      i := Locate(ts[..n], q);
      assert ts[..n][..i] == ts[..i];
    }
  }

  /** The white space behind a character ends in one place only. */
  lemma EndIsUnique(lc: Locale, v: string, k: nat, d: nat, e: nat)
    requires k < d <= |v| && k < e <= |v|
    requires forall i :: k < i < d ==> lc.isSpace(v[i])
    requires forall i :: k < i < e ==> lc.isSpace(v[i])
    requires d < |v| ==> !lc.isSpace(v[d])
    requires e < |v| ==> !lc.isSpace(v[e])
    ensures d == e
  {
  }

  predicate IsPoint(lc: Locale, ts: seq<Token>, pt: Point) {
    && pt.token < |ts| && ts[pt.token].Text? && Depth(Atoms(ts[..pt.token])) == 0
    && pt.offset in EndsIn(lc, ts[pt.token].value, |ts[pt.token].value|)
  }

  lemma PointsOfAre(i: nat, ends: seq<nat>, pt: Point)
    ensures pt in PointsOf(i, ends) <==> pt.token == i && pt.offset in ends
  {
    if pt.token == i && pt.offset in ends {
      var k :| 0 <= k < |ends| && ends[k] == pt.offset;
      assert PointsOf(i, ends)[k] == pt;
    }
  }

  lemma {:induction false} PointsInAre(lc: Locale, ts: seq<Token>, n: nat, pt: Point)
    requires n <= |ts|
    ensures pt in PointsIn(lc, ts, n) <==> pt.token < n && IsPoint(lc, ts, pt)
  {
    hide EndsIn, Depth, Atoms, PointsOf;
    if n > 0 {
      PointsInAre(lc, ts, n - 1, pt);
      if ts[n - 1].Text? {
        PointsOfAre(n - 1, EndsIn(lc, ts[n - 1].value, |ts[n - 1].value|), pt);
      }
    }
  }

  lemma PointRange(lc: Locale, ts: seq<Token>, pt: Point)
    requires IsPoint(lc, ts, pt)
    ensures 0 < pt.offset <= |ts[pt.token].value|
  {
    EndsInSorted(lc, ts[pt.token].value, |ts[pt.token].value|);
    assert Reaches(lc, ts[pt.token].value, |ts[pt.token].value|, pt.offset);
  }

  lemma BreakHasPoint(lc: Locale, ts: seq<Token>, p: nat) returns (pt: Point)
    requires Merged(ts) && BreakAt(lc, Atoms(ts), p)
    ensures IsPoint(lc, ts, pt) && Pos(ts, pt) == p
  {
    var q: nat :| BreakOf(lc, Atoms(ts), q, p);
    assert Atoms(ts)[q].Ch?;
    hide Around, BreakOf, Atoms, Depth, EndsIn, Merged, TokenAtoms, Terminates, EndAfter;
    var i := Locate(ts, q);
    var v := ts[i].value;
    var k := TextHolds(ts, i, q);
    TextAround(ts, i);
    BreakAround(lc, Atoms(ts), Atoms(ts[..i]), v, Atoms(ts[i + 1..]), k, p);
    pt := Point(i, EndAfter(lc, v, k));
    EndsInAre(lc, v, |v|, pt.offset);
  }

  lemma TextHolds(ts: seq<Token>, i: nat, q: nat) returns (k: nat)
    requires i < |ts| && ts[i].Text? && |Atoms(ts[..i])| <= q < |Atoms(ts[..i])| + |TokenAtoms(ts[i])|
    ensures k < |ts[i].value| && q == |Atoms(ts[..i])| + k
  {
    k := q - |Atoms(ts[..i])|;
  }

  lemma EndsInWitness(lc: Locale, v: string, e: nat) returns (k: nat)
    requires e in EndsIn(lc, v, |v|)
    ensures k < |v| && Terminates(lc, v, k) && e == EndAfter(lc, v, k)
  {
    EndsInAre(lc, v, |v|, e);
    k :| 0 <= k < |v| && Terminates(lc, v, k) && e == EndAfter(lc, v, k);
  }

  lemma PointHasBreak(lc: Locale, ts: seq<Token>, pt: Point)
    requires Merged(ts) && IsPoint(lc, ts, pt)
    ensures BreakAt(lc, Atoms(ts), Pos(ts, pt))
  {
    hide Around, BreakOf, Atoms, Depth;
    var i, v := pt.token, ts[pt.token].value;
    var k := EndsInWitness(lc, v, pt.offset);
    TextAround(ts, i);
    AroundBreak(lc, Atoms(ts), Atoms(ts[..i]), v, Atoms(ts[i + 1..]), k);
  }

  /** The points of a merged segment are exactly the depth-zero breaks of its atoms. */
  lemma PointsAreBreaks(lc: Locale, ts: seq<Token>, p: nat)
    requires Merged(ts)
    ensures BreakAt(lc, Atoms(ts), p) <==> exists pt :: IsPoint(lc, ts, pt) && Pos(ts, pt) == p
  {
    if BreakAt(lc, Atoms(ts), p) {
      var pt := BreakHasPoint(lc, ts, p);
    }
    if exists pt :: IsPoint(lc, ts, pt) && Pos(ts, pt) == p {
      var pt :| IsPoint(lc, ts, pt) && Pos(ts, pt) == p;
      PointHasBreak(lc, ts, pt);
    }
  }

  lemma AtomsPrefix(ts: seq<Token>, i: nat, j: nat)
    requires i < j <= |ts|
    ensures |Atoms(ts[..i])| + |TokenAtoms(ts[i])| <= |Atoms(ts[..j])|
  {
    assert ts[..j] == ts[..i] + [ts[i]] + ts[i + 1..j];
    AtomsConcat(ts[..i] + [ts[i]], ts[i + 1..j]);
    AtomsSnoc(ts[..i], ts[i]);
  }

  ghost predicate InOrder(ts: seq<Token>, pts: seq<Point>) {
    && (forall i :: 0 <= i < |pts| ==> pts[i].token < |ts|)
    && (forall i, j :: 0 <= i < j < |pts| ==> Pos(ts, pts[i]) <= Pos(ts, pts[j]))
  }

  /** A point in an earlier token comes before every place in a later one. */
  lemma EarlierPoint(lc: Locale, ts: seq<Token>, n: nat, p: Point, q: Point)
    requires n < |ts| && p in PointsIn(lc, ts, n) && q.token == n
    ensures p.token < |ts| && Pos(ts, p) <= Pos(ts, q)
  {
    hide Atoms, Depth, EndsIn, PointsIn;
    PointsInAre(lc, ts, n, p);
    PointRange(lc, ts, p);
    AtomsPrefix(ts, p.token, n);
    TextAtoms(ts[p.token]);
  }

  lemma TextAtoms(t: Token)
    requires t.Text?
    ensures |TokenAtoms(t)| == |t.value|
  {
  }

  lemma OrderedConcat(ts: seq<Token>, a: seq<Point>, b: seq<Point>)
    requires InOrder(ts, a) && InOrder(ts, b)
    requires forall p, q :: p in a && q in b ==> Pos(ts, p) <= Pos(ts, q)
    ensures InOrder(ts, a + b)
  {
    hide Pos;
    var c := a + b;
    assert forall i :: 0 <= i < |a| ==> c[i] == a[i] && c[i] in a;
    assert forall i :: |a| <= i < |c| ==> c[i] == b[i - |a|] && c[i] in b;
  }

  lemma OrderedInToken(ts: seq<Token>, n: nat, ends: seq<nat>)
    requires n < |ts| && forall i, j :: 0 <= i < j < |ends| ==> ends[i] <= ends[j]
    ensures InOrder(ts, PointsOf(n, ends)) && forall q :: q in PointsOf(n, ends) ==> q.token == n
  {
  }

  lemma {:induction false} PointsInOrder(lc: Locale, ts: seq<Token>, n: nat)
    requires n <= |ts|
    ensures InOrder(ts, PointsIn(lc, ts, n))
  {
    hide EndsIn, Depth, Atoms, InOrder, PointsOf, Pos;
    if n == 0 {
      NoPoints(ts);
    } else {
      PointsInOrder(lc, ts, n - 1);
      var r := PointsIn(lc, ts, n - 1);
      if ts[n - 1].Text? && Depth(Atoms(ts[..n - 1])) == 0 {
        var v := ts[n - 1].value;
        var more := PointsOf(n - 1, EndsIn(lc, v, |v|));
        EndsInSorted(lc, v, |v|);
        OrderedInToken(ts, n - 1, EndsIn(lc, v, |v|));
        forall p, q | p in r && q in more ensures p.token < |ts| && Pos(ts, p) <= Pos(ts, q) {
          EarlierPoint(lc, ts, n - 1, p, q);
        }
        OrderedConcat(ts, r, more);
      } else {
        assert PointsIn(lc, ts, n) == r;
      }
    }
  }

  lemma NoPoints(ts: seq<Token>)
    ensures InOrder(ts, [])
  {
  }

  // ---- cutting ----

  function Cut(ts: seq<Token>, pt: Point): (seq<Token>, seq<Token>)
    requires pt.token < |ts| && ts[pt.token].Text? && pt.offset <= |ts[pt.token].value|
  {
    var v := ts[pt.token].value;
    (ts[..pt.token] + TextIf(v[..pt.offset]), TextIf(v[pt.offset..]) + ts[pt.token + 1..])
  }

  lemma CutAtoms(ts: seq<Token>, pt: Point)
    requires Merged(ts)
    requires pt.token < |ts| && ts[pt.token].Text? && 0 < pt.offset <= |ts[pt.token].value|
    ensures var (left, right) := Cut(ts, pt);
            && Pos(ts, pt) <= |Atoms(ts)|
            && Atoms(left) == Atoms(ts)[..Pos(ts, pt)] && Atoms(right) == Atoms(ts)[Pos(ts, pt)..]
            && Merged(left) && Merged(right)
  {
    hide Atoms, Around, Chars, TextIf;
    var i, v, o := pt.token, ts[pt.token].value, pt.offset;
    TextAround(ts, i);
    var before, after := Atoms(ts[..i]), Atoms(ts[i + 1..]);
    assert Atoms(ts[..i] + TextIf(v[..o])) == before + Chars(v[..o]) by {
      AtomsOfTextIf(v[..o]);
      AtomsConcat(ts[..i], TextIf(v[..o]));
    }
    assert Atoms(TextIf(v[o..]) + ts[i + 1..]) == Chars(v[o..]) + after by {
      AtomsOfTextIf(v[o..]);
      AtomsConcat(TextIf(v[o..]), ts[i + 1..]);
    }
    AroundAt(Atoms(ts), before, v, after, o);
    CutMerged(ts, pt);
  }

  lemma CutMerged(ts: seq<Token>, pt: Point)
    requires Merged(ts)
    requires pt.token < |ts| && ts[pt.token].Text? && pt.offset <= |ts[pt.token].value|
    ensures Merged(Cut(ts, pt).0) && Merged(Cut(ts, pt).1)
  {
    var (left, right) := Cut(ts, pt);
    var v := ts[pt.token].value;
    assert forall i :: 0 <= i < pt.token ==> left[i] == ts[i];
    var d := |ts| - |right|;
    assert forall i :: |TextIf(v[pt.offset..])| <= i < |right| ==> right[i] == ts[d + i];
  }

  /** Only the empty segment has no atoms. */
  lemma EmptyAtoms(ts: seq<Token>)
    requires Merged(ts)
    ensures ts == [] <==> Atoms(ts) == []
  {
    if ts != [] { AtomsNonempty(ts); }
  }

  /** Cutting inside a text at depth nought leaves balanced tags on both sides. */
  lemma CutNests(ts: seq<Token>, i: nat, at: nat)
    requires i < |ts| && ts[i].Text? && at <= |ts[i].value| && Nests(ts, []) && Depth(Atoms(ts[..i])) == 0
    ensures Nests(ts[..i] + TextIf(ts[i].value[..at]), []) && Nests(TextIf(ts[i].value[at..]) + ts[i + 1..], [])
  {
    hide Atoms, Depth;
    var l, r, v := ts[..i], ts[i + 1..], ts[i].value;
    assert ts == l + ([ts[i]] + r);
    DepthOfTokens(l);
    NestsAcross(l, [ts[i]] + r, []);
    assert ([ts[i]] + r)[1..] == r;
    NestsAcross(l, TextIf(v[..at]), []);
    if v[..at] != "" { assert TextIf(v[..at])[1..] == []; }
    if v[at..] != "" {
      assert (TextIf(v[at..]) + r)[1..] == r;
    } else {
      assert TextIf(v[at..]) + r == r;
    }
  }

  /** A cut at depth zero of a valid segment gives two valid segments. */
  lemma CutValid(lc: Locale, ts: seq<Token>, pt: Point)
    requires Valid(ts) && IsPoint(lc, ts, pt)
    ensures 0 < pt.offset <= |ts[pt.token].value|
    ensures var (left, right) := Cut(ts, pt); Valid(left) && Valid(right)
  {
    hide Atoms, Check, Nests, Depth, EndsIn;
    PointRange(lc, ts, pt);
    var i := pt.token;
    var v := ts[i].value;
    var (left, right) := Cut(ts, pt);
    CheckSplits(ts, [], {});
    CheckSplits(left, [], {});
    CheckSplits(right, [], {});
    CutNests(ts, i, pt.offset);
    assert TextIf(v[..pt.offset])[1..] == [];
    assert TextIf(v[pt.offset..]) != [] ==> right[1..] == ts[i + 1..];
    assert TextIf(v[pt.offset..]) == [] ==> right == ts[i + 1..];
    IdsOfParts(ts, left, right, i);
  }

  /** Ids of the two sides of a cut are ids of the whole. */
  lemma IdsOfParts(ts: seq<Token>, left: seq<Token>, right: seq<Token>, i: nat)
    requires i < |ts| && ts[i].Text? && IdsOnce(ts)
    requires left == ts[..i] || (|left| == i + 1 && left[..i] == ts[..i] && left[i].Text?)
    requires right == ts[i + 1..] || (|right| == |ts| - i && right[1..] == ts[i + 1..] && right[0].Text?)
    ensures IdsOnce(left) && IdsOnce(right)
  {
    forall a, b | 0 <= a < b < |left| && HasId(left[a]) && HasId(left[b]) ensures left[a].id != left[b].id {
      assert left[a] == left[..i][a] == ts[a] && left[b] == left[..i][b] == ts[b];
    }
    var d := |ts| - |right|;
    forall a, b | 0 <= a < b < |right| && HasId(right[a]) && HasId(right[b]) ensures right[a].id != right[b].id {
      assert right[a] == ts[d + a] && right[b] == ts[d + b];
    }
  }

  function TokenDepth(ts: seq<Token>): int {
    if ts == [] then 0
    else (if ts[0].Open? then 1 else if ts[0].Close? then -1 else 0) + TokenDepth(ts[1..])
  }

  lemma {:induction false} DepthOfTokens(ts: seq<Token>)
    ensures Depth(Atoms(ts)) == TokenDepth(ts)
  {
    if ts != [] {
      DepthOfTokens(ts[1..]);
      DepthConcat(TokenAtoms(ts[0]), Atoms(ts[1..]));
      if ts[0].Text? {
        DepthOfChars(ts[0].value);
      } else {
        assert [Mark(ts[0])][1..] == [];
      }
    }
  }

  /** Where the depth is what it was, the stack is empty again, so both parts nest by themselves. */
  lemma {:induction false} NestsAcross(l: seq<Token>, r: seq<Token>, stack: seq<nat>)
    requires |stack| + TokenDepth(l) == 0
    ensures Nests(l + r, stack) <==> Nests(l, stack) && Nests(r, [])
  {
    if l == [] {
      assert l + r == r;
    } else {
      assert (l + r)[1..] == l[1..] + r;
      var t := l[0];
      if t.Open? {
        NestsAcross(l[1..], r, stack + [t.id]);
      } else if t.Close? {
        if stack != [] { NestsAcross(l[1..], r, stack[..|stack| - 1]); }
      } else {
        NestsAcross(l[1..], r, stack);
      }
    }
  }

  // ---- the loops of the source ----

  /** The breaks of one text: for each terminator, step over the white space behind it. */
  method BreaksInText(lc: Locale, v: string) returns (ends: seq<nat>)
    ensures ends == EndsIn(lc, v, |v|)
  {
    ends := [];
    for ci := 0 to |v|
      invariant ends == EndsIn(lc, v, ci)
    {
      if v[ci] in lc.terminators && (ci + 1 == |v| || lc.isSpace(v[ci + 1])) {
        var end := ci + 1;
        while end < |v| && lc.isSpace(v[end])
          invariant ci < end <= |v|
          invariant forall i :: ci < i < end ==> lc.isSpace(v[i])
        {
          end := end + 1;
        }
        EndIsUnique(lc, v, ci, end, EndAfter(lc, v, ci));
        ends := ends + [end];
      }
    }
  }

  method DepthZeroBreaks(lc: Locale, ts: seq<Token>) returns (points: seq<Point>)
    ensures points == PointsIn(lc, ts, |ts|)
  {
    points := [];
    var depth := 0;
    for ti := 0 to |ts|
      invariant points == PointsIn(lc, ts, ti)
      invariant depth == TokenDepth(ts[..ti])
    {
      assert ts[..ti + 1] == ts[..ti] + [ts[ti]];
      TokenDepthSnoc(ts[..ti], ts[ti]);
      DepthOfTokens(ts[..ti]);
      if ts[ti].Open? {
        depth := depth + 1;
      } else if ts[ti].Close? {
        depth := depth - 1;
      } else if ts[ti].Text? && depth == 0 {
        var ends := BreaksInText(lc, ts[ti].value);
        points := points + PointsOf(ti, ends);
      }
    }
  }

  lemma TokenDepthSnoc(ts: seq<Token>, t: Token)
    ensures TokenDepth(ts + [t]) == TokenDepth(ts) + if t.Open? then 1 else if t.Close? then -1 else 0
  {
    if ts == [] {
      assert ts + [t] == [t] && [t][1..] == [];
    } else {
      assert (ts + [t])[1..] == ts[1..] + [t];
      TokenDepthSnoc(ts[1..], t);
    }
  }

  /** A break of `ts` whose left piece fits and whose right piece is not empty. */
  ghost predicate Fits(lc: Locale, ts: seq<Token>, maxLen: nat, pt: Point) {
    IsPoint(lc, ts, pt) && Pos(ts, pt) < |Atoms(ts)| && UpTo(Atoms(ts), Pos(ts, pt)) <= maxLen
  }

  lemma FitsIsCut(lc: Locale, ts: seq<Token>, maxLen: nat, pt: Point)
    requires Merged(ts) && IsPoint(lc, ts, pt)
    ensures 0 < pt.offset <= |ts[pt.token].value| && 0 < Pos(ts, pt) <= |Atoms(ts)|
    ensures Fits(lc, ts, maxLen, pt) <==> Cut(ts, pt).1 != [] && WireLen(Cut(ts, pt).0) <= maxLen
  {
    PointRange(lc, ts, pt);
    CutAtoms(ts, pt);
    EmptyAtoms(Cut(ts, pt).1);
    WireLenOfAtoms(Cut(ts, pt).0);
    UpToIsLen(Atoms(ts), Pos(ts, pt));
  }

  /** The best of some points: the last that fits. */
  ghost predicate LastFit(lc: Locale, ts: seq<Token>, maxLen: nat, pts: seq<Point>, best: Option<Point>) {
    && (best.Some? ==> best.value in pts && Fits(lc, ts, maxLen, best.value))
    && (forall pt :: pt in pts && Fits(lc, ts, maxLen, pt) ==>
          best.Some? && best.value.token < |ts| && pt.token < |ts| && Pos(ts, pt) <= Pos(ts, best.value))
  }

  lemma LastFitSnoc(lc: Locale, ts: seq<Token>, maxLen: nat, pts: seq<Point>, best: Option<Point>, pt: Point)
    requires LastFit(lc, ts, maxLen, pts, best) && InOrder(ts, pts + [pt])
    ensures LastFit(lc, ts, maxLen, pts + [pt], if Fits(lc, ts, maxLen, pt) then Some(pt) else best)
  {
    var all := pts + [pt];
    forall q | q in pts ensures q.token < |ts| && pt.token < |ts| && Pos(ts, q) <= Pos(ts, pt) {
      var k :| 0 <= k < |pts| && pts[k] == q;
      assert all[k] == q && all[|pts|] == pt;
    }
  }

  /** The last break that fits: since breaks come in order, it is the furthest. */
  method BestBreak(lc: Locale, ts: seq<Token>, maxLen: nat) returns (best: Option<Point>)
    requires Merged(ts)
    ensures best.Some? ==> Fits(lc, ts, maxLen, best.value)
    ensures forall pt :: Fits(lc, ts, maxLen, pt) ==> best.Some? && Pos(ts, pt) <= Pos(ts, best.value)
  {
    hide Pos, Cut, WireLen, Depth, EndsIn, Atoms, UpTo;
    var points := DepthZeroBreaks(lc, ts);
    PointsInOrder(lc, ts, |ts|);
    best := None;
    for i := 0 to |points|
      invariant LastFit(lc, ts, maxLen, points[..i], best)
    {
      var pt := points[i];
      assert points[..i + 1] == points[..i] + [pt];
      assert pt in points;
      PointsInAre(lc, ts, |ts|, pt);
      FitsIsCut(lc, ts, maxLen, pt);
      LastFitSnoc(lc, ts, maxLen, points[..i], best, pt);
      var (left, right) := Cut(ts, pt);
      if right != [] && WireLen(left) <= maxLen {
        best := Some(pt);
      }
    }
    assert points[..|points|] == points;
    forall pt | Fits(lc, ts, maxLen, pt) ensures best.Some? && Pos(ts, pt) <= Pos(ts, best.value) {
      PointsInAre(lc, ts, |ts|, pt);
    }
  }

  function JoinPieces(pieces: seq<seq<Token>>): seq<Token> {
    if pieces == [] then [] else JoinPieces(pieces[..|pieces| - 1]) + pieces[|pieces| - 1]
  }

  lemma JoinPiecesSnoc(pieces: seq<seq<Token>>, p: seq<Token>)
    ensures JoinPieces(pieces + [p]) == JoinPieces(pieces) + p
  {
    assert (pieces + [p])[..|pieces|] == pieces;
  }

  /** Greedy stays ahead: a good split has made as many cuts, none further than the greedy ones. */
  ghost predicate Ahead(cuts: seq<nat>, j: nat, c: nat) {
    j <= |cuts| && forall i :: 0 <= i < j ==> cuts[i] <= c
  }

  lemma StillAhead(lc: Locale, atoms: seq<Atom>, maxLen: nat, cuts: seq<nat>, j: nat, c: nat, next: nat)
    requires GoodSplit(lc, atoms, maxLen, cuts) && Ahead(cuts, j, c) && c <= next <= |atoms|
    requires Between(atoms, c, |atoms|) > maxLen
    requires forall p :: c < p < |atoms| && BreakAt(lc, atoms, p) && Between(atoms, c, p) <= maxLen ==> p <= next
    ensures Ahead(cuts, j + 1, next)
  {
    hide Between, BreakAt;
    var m := NextCut(lc, atoms, maxLen, cuts, c);
    assert m >= j;
    assert cuts[m] <= next;
  }

  /** A next piece that ends at a break and fits. */
  ghost predicate PieceFits(lc: Locale, atoms: seq<Atom>, maxLen: nat, from: nat, to: nat) {
    from <= |atoms| && 0 < to < |atoms| && BreakAt(lc, atoms, to) && Between(atoms, from, to) <= maxLen
  }

  ghost predicate Rising(cuts: seq<nat>) {
    forall i, j :: 0 <= i < j < |cuts| ==> cuts[i] < cuts[j]
  }

  lemma RisingSnoc(cuts: seq<nat>, next: nat)
    requires Rising(cuts) && (cuts != [] ==> cuts[|cuts| - 1] < next)
    ensures Rising(cuts + [next])
  {
  }

  ghost predicate Progress(lc: Locale, atoms: seq<Atom>, maxLen: nat, done: seq<nat>, c: nat) {
    && c == StartOf(done, |done|) && c <= |atoms|
    && Rising(done)
    && (forall i :: 0 <= i < |done| ==> PieceFits(lc, atoms, maxLen, StartOf(done, i), done[i]))
  }

  lemma ThisPieceFits(lc: Locale, atoms: seq<Atom>, maxLen: nat, c: nat, next: nat)
    requires c < next < |atoms| && BreakAt(lc, atoms, next) && Between(atoms, c, next) <= maxLen
    ensures PieceFits(lc, atoms, maxLen, c, next)
  {
  }

  lemma ProgressSnoc(lc: Locale, atoms: seq<Atom>, maxLen: nat, done: seq<nat>, c: nat, next: nat)
    requires Progress(lc, atoms, maxLen, done, c)
    requires c < next < |atoms| && BreakAt(lc, atoms, next) && Between(atoms, c, next) <= maxLen
    ensures Progress(lc, atoms, maxLen, done + [next], next)
  {
    hide PieceFits, Rising, Between, BreakAt;
    var d, n := done + [next], |done|;
    ThisPieceFits(lc, atoms, maxLen, c, next);
    RisingSnoc(done, next);
    forall i | 0 <= i < n + 1 ensures PieceFits(lc, atoms, maxLen, StartOf(d, i), d[i]) {
      if i < n { assert StartOf(d, i) == StartOf(done, i); }
    }
  }

  lemma ProgressEnds(lc: Locale, atoms: seq<Atom>, maxLen: nat, done: seq<nat>, c: nat)
    requires Progress(lc, atoms, maxLen, done, c) && Between(atoms, c, |atoms|) <= maxLen
    ensures GoodSplit(lc, atoms, maxLen, done)
  {
    hide BreakAt, Between;
  }

  /** Nothing fits in the rest, so nothing fits at all. */
  lemma NoSplit(lc: Locale, atoms: seq<Atom>, maxLen: nat, rest: seq<Token>, c: nat)
    requires Merged(rest) && c <= |atoms| && Atoms(rest) == atoms[c..] && Between(atoms, c, |atoms|) > maxLen
    requires c == 0 || BreakAt(lc, atoms, c)
    requires forall pt :: !Fits(lc, rest, maxLen, pt)
    ensures !exists cuts :: GoodSplit(lc, atoms, maxLen, cuts)
  {
    forall cuts | GoodSplit(lc, atoms, maxLen, cuts) ensures false {
      var m := NextCut(lc, atoms, maxLen, cuts, c);
      var pt := RestPoint(lc, atoms, maxLen, rest, c, cuts[m]);
    }
  }

  lemma SliceSlice<T>(s: seq<T>, c: nat, p: nat)
    requires c + p <= |s|
    ensures s[c..][..p] == s[c..c + p] && s[c..][p..] == s[c + p..] && s[c + p..] == s[c + p..|s|]
  {
  }

  lemma UpToOfRest(atoms: seq<Atom>, c: nat, p: nat)
    requires c <= p <= |atoms|
    ensures UpTo(atoms[c..], p - c) == Between(atoms, c, p)
  {
    hide UpTo, LenOf, Between;
    SliceSlice(atoms, c, p - c);
    BetweenIsLen(atoms, c, p);
    UpToIsLen(atoms[c..], p - c);
  }

  /** A break of the whole behind `c` that fits is a point of the rest. */
  lemma RestPoint(lc: Locale, atoms: seq<Atom>, maxLen: nat, rest: seq<Token>, c: nat, p: nat) returns (pt: Point)
    requires Merged(rest) && c <= |atoms| && Atoms(rest) == atoms[c..] && (c == 0 || BreakAt(lc, atoms, c))
    requires c < p < |atoms| && BreakAt(lc, atoms, p) && Between(atoms, c, p) <= maxLen
    ensures Fits(lc, rest, maxLen, pt) && Pos(rest, pt) == p - c
  {
    BreaksOfRest(lc, atoms, c, p);
    UpToOfRest(atoms, c, p);
    pt := BreakHasPoint(lc, rest, p - c);
  }

  /** The two sides of a cut, by position. */
  lemma CutSides(rest: seq<Token>, pt: Point, p: nat)
    requires Merged(rest)
    requires pt.token < |rest| && rest[pt.token].Text? && 0 < pt.offset <= |rest[pt.token].value|
    requires p == Pos(rest, pt)
    ensures p <= |Atoms(rest)|
    ensures Merged(Cut(rest, pt).0) && Merged(Cut(rest, pt).1)
    ensures Atoms(Cut(rest, pt).0) == Atoms(rest)[..p] && Atoms(Cut(rest, pt).1) == Atoms(rest)[p..]
    ensures WireLen(Cut(rest, pt).0) == UpTo(Atoms(rest), p)
    ensures WireLen(Cut(rest, pt).1) == Between(Atoms(rest), p, |Atoms(rest)|)
  {
    hide Cut, Atoms, UpTo, Merged, Pos;
    CutAtoms(rest, pt);
    var a := Atoms(rest);
    WireLenOfAtoms(Cut(rest, pt).0);
    WireLenOfAtoms(Cut(rest, pt).1);
    UpToIsLen(a, p);
    BetweenIsLen(a, p, |a|);
    SliceSlice(a, p, 0);
  }

  /** The same two sides, by position in the whole. */
  lemma CutSlices(atoms: seq<Atom>, rest: seq<Token>, c: nat, pt: Point, p: nat)
    requires Merged(rest) && c <= |atoms| && Atoms(rest) == atoms[c..]
    requires pt.token < |rest| && rest[pt.token].Text? && 0 < pt.offset <= |rest[pt.token].value|
    requires p == Pos(rest, pt) && c + p <= |atoms|
    ensures Atoms(Cut(rest, pt).0) == atoms[c..c + p] && Atoms(Cut(rest, pt).1) == atoms[c + p..]
    ensures WireLen(Cut(rest, pt).0) == Between(atoms, c, c + p)
    ensures WireLen(Cut(rest, pt).1) == Between(atoms, c + p, |atoms|)
    ensures Merged(Cut(rest, pt).0) && Merged(Cut(rest, pt).1)
  {
    hide Atoms, LenOf, UpTo, Pos, Cut, WireLen;
    CutSides(rest, pt, p);
    UpToOfRest(atoms, c, c + p);
    UpToOfRest(atoms, c, |atoms|);
    SliceSlice(atoms, c, p);
  }

  lemma CutIsBreak(lc: Locale, atoms: seq<Atom>, rest: seq<Token>, c: nat, pt: Point, p: nat)
    requires Merged(rest) && c <= |atoms| && Atoms(rest) == atoms[c..] && (c == 0 || BreakAt(lc, atoms, c))
    requires IsPoint(lc, rest, pt) && p == Pos(rest, pt) && 0 < p && c + p <= |atoms|
    ensures BreakAt(lc, atoms, c + p)
  {
    hide BreakAt, IsPoint, Pos, Atoms, Merged;
    PointHasBreak(lc, rest, pt);
    BreaksOfRest(lc, atoms, c, c + p);
  }

  /** What is left to split: the atoms behind `c`. */
  ghost predicate RestIs(lc: Locale, atoms: seq<Atom>, rest: seq<Token>, c: nat) {
    && c <= |atoms| && Atoms(rest) == atoms[c..] && WireLen(rest) == Between(atoms, c, |atoms|)
    && Merged(rest) && (c == 0 || BreakAt(lc, atoms, c))
  }

  ghost predicate AllGood(pieces: seq<seq<Token>>, maxLen: nat, valid: bool) {
    forall p :: p in pieces ==> WireLen(p) <= maxLen && Merged(p) && (valid ==> Valid(p))
  }

  lemma AppendPiece(atoms: seq<Atom>, pieces: seq<seq<Token>>, p: seq<Token>, c: nat, next: nat)
    requires c <= next <= |atoms| && Atoms(JoinPieces(pieces)) == atoms[..c] && Atoms(p) == atoms[c..next]
    ensures Atoms(JoinPieces(pieces + [p])) == atoms[..next]
  {
    JoinPiecesSnoc(pieces, p);
    AtomsConcat(JoinPieces(pieces), p);
    assert atoms[..c] + atoms[c..next] == atoms[..next];
  }

  lemma AllStillAhead(lc: Locale, atoms: seq<Atom>, maxLen: nat, c: nat, next: nat, j: nat)
    requires c <= next <= |atoms| && Between(atoms, c, |atoms|) > maxLen
    requires forall p :: c < p < |atoms| && BreakAt(lc, atoms, p) && Between(atoms, c, p) <= maxLen ==> p <= next
    requires forall cuts :: GoodSplit(lc, atoms, maxLen, cuts) ==> Ahead(cuts, j, c)
    ensures forall cuts :: GoodSplit(lc, atoms, maxLen, cuts) ==> Ahead(cuts, j + 1, next)
  {
    forall cuts | GoodSplit(lc, atoms, maxLen, cuts) ensures Ahead(cuts, j + 1, next) {
      StillAhead(lc, atoms, maxLen, cuts, j, c, next);
    }
  }

  /** The two sides of the best cut of the rest, or the proof that there is none. */
  method CutFurthest(lc: Locale, rest: seq<Token>, maxLen: nat, ghost atoms: seq<Atom>, ghost c: nat)
    returns (r: Option<(seq<Token>, seq<Token>)>, ghost next: nat)
    requires RestIs(lc, atoms, rest, c) && WireLen(rest) > maxLen
    ensures r.None? ==> !exists cuts :: GoodSplit(lc, atoms, maxLen, cuts)
    ensures r.Some? ==>
              && c < next < |atoms| && BreakAt(lc, atoms, next) && RestIs(lc, atoms, r.value.1, next)
              && Atoms(r.value.0) == atoms[c..next] && WireLen(r.value.0) == Between(atoms, c, next) <= maxLen
              && Merged(r.value.0) && (Valid(rest) ==> Valid(r.value.0) && Valid(r.value.1))
              && (forall p :: c < p < |atoms| && BreakAt(lc, atoms, p) && Between(atoms, c, p) <= maxLen ==> p <= next)
  {
    hide Atoms, LenOf, UpTo, Pos, Cut, WireLen, BreakAt, Between;
    next := c;
    var best := BestBreak(lc, rest, maxLen);
    if best.None? {
      NoSplit(lc, atoms, maxLen, rest, c);
      return None, next;
    }
    var pt := best.value;
    ghost var p := Pos(rest, pt);
    next := c + p;
    FitsIsCut(lc, rest, maxLen, pt);
    CutIsBreak(lc, atoms, rest, c, pt, p);
    forall q | c < q < |atoms| && BreakAt(lc, atoms, q) && Between(atoms, c, q) <= maxLen ensures q <= next {
      var other := RestPoint(lc, atoms, maxLen, rest, c, q);
    }
    CutSlices(atoms, rest, c, pt, p);
    if Valid(rest) { CutValid(lc, rest, pt); }
    r := Some(Cut(rest, pt));
  }

  /**
   The greedy split.  It cuts the segment into valid pieces that fit and rejoin exactly; no split
   at depth-zero breaks has fewer pieces; and it refuses only when no split fits at all.
   */
  method SplitLong(lc: Locale, ts: seq<Token>, maxLen: nat) returns (r: Result<seq<seq<Token>>, ()>)
    requires Merged(ts)
    ensures r.Ok? ==> Atoms(JoinPieces(r.value)) == Atoms(ts) && AllGood(r.value, maxLen, Valid(ts))
    ensures r.Ok? ==>
              && (exists cuts :: GoodSplit(lc, Atoms(ts), maxLen, cuts) && |r.value| == |cuts| + 1)
              && (forall cuts :: GoodSplit(lc, Atoms(ts), maxLen, cuts) ==> |r.value| <= |cuts| + 1)
    ensures r.Err? <==> !exists cuts :: GoodSplit(lc, Atoms(ts), maxLen, cuts)
  {
    hide Atoms, LenOf, UpTo, JoinPieces, WireLen, BreakAt, Valid;
    var pieces: seq<seq<Token>>, rest := [], ts;
    ghost var atoms, c: nat, done: seq<nat> := Atoms(ts), 0, [];
    RestAtStart(lc, ts);
    while WireLen(rest) > maxLen
      invariant RestIs(lc, atoms, rest, c)
      invariant Atoms(JoinPieces(pieces)) == atoms[..c]
      invariant AllGood(pieces, maxLen, Valid(ts)) && (Valid(ts) ==> Valid(rest))
      invariant |pieces| == |done| && Progress(lc, atoms, maxLen, done, c)
      invariant forall cuts :: GoodSplit(lc, atoms, maxLen, cuts) ==> Ahead(cuts, |pieces|, c)
      decreases |atoms| - c
    {
      var cut, next := CutFurthest(lc, rest, maxLen, atoms, c);
      if cut.None? {
        return Err(());
      }
      AllStillAhead(lc, atoms, maxLen, c, next, |pieces|);
      ProgressSnoc(lc, atoms, maxLen, done, c, next);
      AppendPiece(atoms, pieces, cut.value.0, c, next);
      pieces, rest := pieces + [cut.value.0], cut.value.1;
      c, done := next, done + [next];
    }
    ProgressEnds(lc, atoms, maxLen, done, c);
    LastPiece(atoms, pieces, rest, c);
    assert GoodSplit(lc, atoms, maxLen, done) && |pieces + [rest]| == |done| + 1;
    r := Ok(pieces + [rest]);
  }

  lemma RestAtStart(lc: Locale, ts: seq<Token>)
    requires Merged(ts)
    ensures RestIs(lc, Atoms(ts), ts, 0) && Atoms(JoinPieces([])) == Atoms(ts)[..0]
  {
    WireLenOfAtoms(ts);
    BetweenIsLen(Atoms(ts), 0, |Atoms(ts)|);
    SliceSlice(Atoms(ts), 0, 0);
    assert Atoms(ts)[0..|Atoms(ts)|] == Atoms(ts);
  }

  lemma LastPiece(atoms: seq<Atom>, pieces: seq<seq<Token>>, rest: seq<Token>, c: nat)
    requires c <= |atoms| && Atoms(JoinPieces(pieces)) == atoms[..c] && Atoms(rest) == atoms[c..]
    ensures Atoms(JoinPieces(pieces + [rest])) == atoms
  {
    JoinPiecesSnoc(pieces, rest);
    AtomsConcat(JoinPieces(pieces), rest);
  }
}
