/**
 The regular expressions of the model call, written out as functions.

 Which characters are white space, word characters or decimal digits is Unicode's business and
 comes in as an `Alphabet`; everything else about the patterns is spelled out here.
 */
module Patterns {
  import opened Wrappers

  datatype Alphabet = Alphabet(
    isSpace: char -> bool,
    isWord: char -> bool,
    isDigit: char -> bool,
    lower: string -> string)
  {
    /** A word character that is neither a digit nor an underscore. */
    predicate IsLetter(c: char) {
      isWord(c) && !isDigit(c) && c != '_'
    }

    predicate HasLetter(v: string) {
      exists i :: 0 <= i < |v| && IsLetter(v[i])
    }

    /** What Unicode says of white space and of the punctuation the patterns name. */
    ghost predicate Lawful() {
      && (forall c :: isSpace(c) ==> !isWord(c))
      && (forall c :: AsciiUpper(c) || AsciiLower(c) ==> isWord(c) && !isDigit(c))
      && (forall c :: isDigit(c) ==> !isSpace(c))
      && (forall c :: c in ".()" ==> !isWord(c) && !isDigit(c))
      && (forall c :: c in ".!?;:,()-\U{2013}\U{2014}\U{FF1B}\U{FF1A}\U{FF0C}" ==> !isSpace(c))
    }
  }

  // ---- runs ----

  /** Length of the longest prefix whose elements all satisfy `p`. */
  function PrefixCount<T>(p: T -> bool, s: seq<T>): (n: nat)
    ensures n <= |s|
    ensures forall i :: 0 <= i < n ==> p(s[i])
    ensures n < |s| ==> !p(s[n])
  {
    if s == [] || !p(s[0]) then 0 else 1 + PrefixCount(p, s[1..])
  }

  /** Start of the longest suffix whose elements all satisfy `p`. */
  function SuffixStart<T>(p: T -> bool, s: seq<T>): (n: nat)
    ensures n <= |s|
    ensures forall i :: n <= i < |s| ==> p(s[i])
    ensures n > 0 ==> !p(s[n - 1])
  {
    if s == [] || !p(s[|s| - 1]) then |s| else SuffixStart(p, s[..|s| - 1])
  }

  predicate Spaces(ab: Alphabet, v: string) {
    forall i :: 0 <= i < |v| ==> ab.isSpace(v[i])
  }

  predicate NoWordChars(ab: Alphabet, v: string) {
    forall i :: 0 <= i < |v| ==> !ab.isWord(v[i])
  }

  /** Where the white space that starts at `i` ends. */
  function SpaceEnd(ab: Alphabet, v: string, i: nat): (e: nat)
    requires i <= |v|
    ensures i <= e <= |v|
    ensures Spaces(ab, v[i..e])
  {
    i + PrefixCount(ab.isSpace, v[i..])
  }

  predicate AsciiUpper(c: char) { 'A' <= c <= 'Z' }

  predicate AsciiLower(c: char) { 'a' <= c <= 'z' }

  // ---- sentence ends ----

  /** A place to cut: the match starts at `at`, and its gap is `v[gapStart..gapEnd]`. */
  datatype Place = Place(at: nat, gapStart: nat, gapEnd: nat)

  predicate PlaceIn(ab: Alphabet, v: string, p: Place) {
    p.at < p.gapStart <= p.gapEnd <= |v| && Spaces(ab, v[p.gapStart..p.gapEnd])
  }

  const CLOSERS := "\"'\U{2019}\U{201D})]"
  const OPENERS := "\"'\U{2018}\U{201C}(["

  /** After the gap: a capital, perhaps behind an opening quote or bracket, or a list number. */
  predicate StartsSentence(ab: Alphabet, v: string, k: nat) {
    var c := if k < |v| && v[k] in OPENERS then k + 1 else k;
    || (c < |v| && AsciiUpper(v[c]))
    || (k + 2 < |v| && ab.isDigit(v[k]) && v[k + 1] in ".)" && ab.isSpace(v[k + 2]))
    || (k + 3 < |v| && ab.isDigit(v[k]) && ab.isDigit(v[k + 1]) && v[k + 2] in ".)" && ab.isSpace(v[k + 3]))
  }

  /** The sentence-end pattern tried at `i`. */
  function SentenceEndAt(ab: Alphabet, v: string, i: nat): (r: Option<Place>)
    requires i < |v|
    ensures r.Some? ==> r.value.at == i && PlaceIn(ab, v, r.value)
  {
    var j := i + 1 + PrefixCount((c: char) => c in CLOSERS, v[i + 1..]);
    var k := SpaceEnd(ab, v, j);
    if v[i] in ".!?" && j < k && StartsSentence(ab, v, k) then Some(Place(i, j, k))
    else if && v[i] == '.' && 0 < i && (AsciiLower(v[i - 1]) || v[i - 1] == ')')
            && i + 2 < |v| && AsciiUpper(v[i + 1]) && AsciiLower(v[i + 2])
    then Some(Place(i, i + 1, i + 1))
    else None
  }

  const ABBREVIATIONS: set<string> := {
    "nu", "no", "nos", "mr", "mrs", "ms", "dr", "st", "sr", "jr", "vs", "etc", "eg", "ie", "govt", "dept",
    "ltd", "co", "inc", "approx", "fig", "ref", "jan", "feb", "mar", "apr", "jun", "jul", "aug", "sep",
    "sept", "oct", "nov", "dec"}

  /** A match is a sentence end unless a space, an initial or an abbreviation is before it. */
  predicate EndsSentence(ab: Alphabet, v: string, at: nat)
    requires at <= |v|
  {
    var word := v[SuffixStart(ab.isWord, v[..at])..at];
    && !(0 < at && ab.isSpace(v[at - 1]))
    && !(word != "" && (|word| == 1 || ab.lower(word) in ABBREVIATIONS))
  }

  lemma PlacesCons(ab: Alphabet, v: string, p: Place, rest: seq<Place>)
    requires PlaceIn(ab, v, p) && PlacesIn(ab, v, rest) && forall k :: 0 <= k < |rest| ==> p.gapEnd <= rest[k].at
    ensures PlacesIn(ab, v, [p] + rest)
  {
  }

  /** All matches from `from` on, left to right, none overlapping. */
  function SentenceEnds(ab: Alphabet, v: string, from: nat): (r: seq<Place>)
    ensures PlacesIn(ab, v, r)
    ensures forall k :: 0 <= k < |r| ==> from <= r[k].at
    decreases |v| - from
  {
    if from >= |v| then []
    else match SentenceEndAt(ab, v, from)
      case Some(p) =>
        var rest := SentenceEnds(ab, v, p.gapEnd);
        PlacesCons(ab, v, p, rest);
        [p] + rest
      case None => SentenceEnds(ab, v, from + 1)
  }

  /** In range, in order and disjoint, each gap white space. */
  ghost predicate PlacesIn(ab: Alphabet, v: string, places: seq<Place>) {
    && (forall k :: 0 <= k < |places| ==> PlaceIn(ab, v, places[k]))
    && (forall k, l :: 0 <= k < l < |places| ==> places[k].gapEnd <= places[l].at)
  }

  // ---- pauses ----

  /** The character before the gap of pause pattern `k`: strongest pause first. */
  predicate IsPause(ab: Alphabet, k: nat, c: char) {
    if k == 0 then c in ";:\U{FF1B}\U{FF1A}"
    else if k == 1 then c in ",\U{FF0C}"
    else !ab.isSpace(c)
  }

  function Pauses(ab: Alphabet, v: string, k: nat, from: nat): (r: seq<Place>)
    ensures PlacesIn(ab, v, r)
    ensures forall n :: 0 <= n < |r| ==> from <= r[n].at && r[n].gapStart < r[n].gapEnd
    decreases |v| - from
  {
    if from >= |v| then []
    else if IsPause(ab, k, v[from]) && from + 1 < |v| && ab.isSpace(v[from + 1]) then
      var e := SpaceEnd(ab, v, from + 1);
      [Place(from, from + 1, e)] + Pauses(ab, v, k, e)
    else Pauses(ab, v, k, from + 1)
  }

  // ---- list numbers ----

  /** One or two digits from `i`, or `i` itself when there is none. */
  function DigitsEnd(ab: Alphabet, v: string, i: nat): (e: nat)
    requires i <= |v|
    ensures i <= e <= |v|
    ensures forall n :: i <= n < e ==> ab.isDigit(v[n])
  {
    if i < |v| && ab.isDigit(v[i]) then
      if i + 1 < |v| && ab.isDigit(v[i + 1]) then i + 2 else i + 1
    else i
  }

  /** Further parts of a list number, each a dot and one or two digits. */
  function DottedEnd(ab: Alphabet, v: string, i: nat): (e: nat)
    requires i <= |v|
    ensures i <= e <= |v|
    ensures forall n :: i <= n < e ==> ab.isDigit(v[n]) || v[n] == '.'
    decreases |v| - i
  {
    if i < |v| && v[i] == '.' && DigitsEnd(ab, v, i + 1) > i + 1
    then DottedEnd(ab, v, DigitsEnd(ab, v, i + 1))
    else i
  }

  /** End of a list number glued to a letter, "2.", "(3) ", "1.5 "; 0 when there is none. */
  function ListNumberEnd(ab: Alphabet, v: string): (e: nat)
    ensures e == 0 || e < |v|
  {
    var i := if v != "" && v[0] == '(' then 1 else 0;
    var d := DigitsEnd(ab, v, i);
    var p := DottedEnd(ab, v, d);
    var q := if p < |v| && v[p] in ".)" then p + 1 else p;
    var e := SpaceEnd(ab, v, q);
    if d > i && e < |v| && (AsciiUpper(v[e]) || AsciiLower(v[e])) then e else 0
  }

  /** What a list number is made of. */
  predicate NumberPart(ab: Alphabet, c: char) {
    ab.isDigit(c) || c == '(' || c == '.' || c == ')' || ab.isSpace(c)
  }

  lemma PartIsNoLetter(ab: Alphabet, c: char)
    requires ab.Lawful() && NumberPart(ab, c)
    ensures !ab.IsLetter(c)
  {
  }

  /** Where the bracket, the digits, the dotted parts, the mark and the white space of a list number end. */
  lemma ListNumberShape(ab: Alphabet, v: string) returns (i: nat, d: nat, p: nat, q: nat, e: nat)
    ensures i <= d <= p <= q <= e <= |v| && ListNumberEnd(ab, v) <= e
    ensures i == 0 || (i == 1 && v[0] == '(')
    ensures forall n :: i <= n < p ==> ab.isDigit(v[n]) || v[n] == '.'
    ensures q == p || (q == p + 1 && v[p] in ".)")
    ensures Spaces(ab, v[q..e])
  {
    hide DigitsEnd, DottedEnd, SpaceEnd;
    i := if v != "" && v[0] == '(' then 1 else 0;
    d := DigitsEnd(ab, v, i);
    p := DottedEnd(ab, v, d);
    q := if p < |v| && v[p] in ".)" then p + 1 else p;
    e := SpaceEnd(ab, v, q);
  }

  lemma ListNumberParts(ab: Alphabet, v: string, n: nat)
    requires n < ListNumberEnd(ab, v)
    ensures NumberPart(ab, v[n])
  {
    hide ListNumberEnd;
    var i, d, p, q, e := ListNumberShape(ab, v);
    if n >= q {
      assert v[q..e][n - q] == v[n];
    }
  }

  lemma ListNumberHasNoLetter(ab: Alphabet, v: string)
    requires ab.Lawful()
    ensures forall n :: 0 <= n < ListNumberEnd(ab, v) ==> !ab.IsLetter(v[n])
  {
    hide ListNumberEnd, NumberPart;
    forall n | 0 <= n < ListNumberEnd(ab, v) ensures !ab.IsLetter(v[n]) {
      ListNumberParts(ab, v, n);
      PartIsNoLetter(ab, v[n]);
    }
  }

  // ---- labels ----

  /** Start of a final opening bracket with the white space around it. */
  function OpenBracket(ab: Alphabet, v: string): (r: Option<nat>)
    ensures r.Some? ==> r.value < |v|
    ensures r.Some? && ab.Lawful() ==> NoWordChars(ab, v[r.value..])
  {
    var e := SuffixStart(ab.isSpace, v);
    if e > 0 && v[e - 1] == '(' then Some(SuffixStart(ab.isSpace, v[..e - 1])) else None
  }

  /** The last character that is no white space is a colon or a dash. */
  predicate IsLabel(ab: Alphabet, v: string) {
    var e := SuffixStart(ab.isSpace, v);
    e > 0 && v[e - 1] in ":\U{FF1A}-\U{2013}\U{2014}"
  }

  // ---- words ----

  /** How many runs of word characters there are. */
  function WordRuns(ab: Alphabet, v: string): nat {
    if v == "" then 0
    else
      var n := |v| - 1;
      WordRuns(ab, v[..n]) + if ab.isWord(v[n]) && (n == 0 || !ab.isWord(v[n - 1])) then 1 else 0
  }

  /** Joining two texts can join a word across the seam, never make one. */
  lemma {:induction false} WordRunsConcat(ab: Alphabet, a: string, b: string)
    ensures WordRuns(ab, a + b) <= WordRuns(ab, a) + WordRuns(ab, b)
    ensures (a == "" || b == "" || !ab.isWord(a[|a| - 1]) || !ab.isWord(b[0]))
            ==> WordRuns(ab, a + b) == WordRuns(ab, a) + WordRuns(ab, b)
  {
    if b == "" {
      assert a + b == a;
    } else {
      var n := |b| - 1;
      assert (a + b)[..|a + b| - 1] == a + b[..n];
      WordRunsConcat(ab, a, b[..n]);
    }
  }

  lemma WordRunsOfNone(ab: Alphabet, v: string)
    requires NoWordChars(ab, v)
    ensures WordRuns(ab, v) == 0
  {
  }

  /** A gap of non-word characters separates the words on its two sides. */
  lemma WordRunsGap(ab: Alphabet, v: string, gapStart: nat, gapEnd: nat)
    requires gapStart < gapEnd <= |v|
    requires NoWordChars(ab, v[gapStart..gapEnd])
    ensures WordRuns(ab, v) == WordRuns(ab, v[..gapStart]) + WordRuns(ab, v[gapEnd..])
  {
    var gap := v[gapStart..gapEnd];
    assert gap[0] == v[gapStart] && gap[|gap| - 1] == v[gapEnd - 1];
    assert v[..gapStart] + gap == v[..gapEnd];
    assert v[..gapEnd] + v[gapEnd..] == v;
    WordRunsConcat(ab, v[..gapStart], gap);
    WordRunsConcat(ab, v[..gapEnd], v[gapEnd..]);
    WordRunsOfNone(ab, gap);
  }
}
