/** What is taken off a piece before it is cut into sentences, said by position. */
module PiecePlaces {
  import opened Wrappers
  import opened Segments
  import opened Patterns
  import opened Decompose

  // ---- white space at both ends ----

  predicate SpaceAtom(ab: Alphabet, a: Atom) {
    a.Ch? && ab.isSpace(a.c)
  }

  ghost predicate AllSpace(ab: Alphabet, atoms: seq<Atom>) {
    forall i :: 0 <= i < |atoms| ==> SpaceAtom(ab, atoms[i])
  }

  lemma FirstAtom(ts: seq<Token>)
    requires ts != [] && (ts[0].Text? ==> ts[0].value != "")
    ensures Atoms(ts) != [] && Atoms(ts)[0] == if ts[0].Text? then Ch(ts[0].value[0]) else Mark(ts[0])
  {
  }

  lemma LastAtom(ts: seq<Token>)
    requires ts != [] && (ts[|ts| - 1].Text? ==> ts[|ts| - 1].value != "")
    ensures Atoms(ts) != []
    ensures var t, a := ts[|ts| - 1], Atoms(ts);
            a[|a| - 1] == if t.Text? then Ch(t.value[|t.value| - 1]) else Mark(t)
  {
    hide Atoms;
    assert ts == ts[..|ts| - 1] + [ts[|ts| - 1]];
    AtomsSnoc(ts[..|ts| - 1], ts[|ts| - 1]);
  }

  lemma SpaceText(ab: Alphabet, v: string)
    requires forall i :: 0 <= i < |v| ==> ab.isSpace(v[i])
    ensures AllSpace(ab, Atoms([Text(v)]))
  {
    AtomsOne(Text(v));
  }

  lemma NoAtoms()
    ensures Atoms([]) == [] && Atoms([Text("")]) == []
  {
    AtomsOne(Text(""));
  }

  lemma LeadIs(ab: Alphabet, ts: seq<Token>)
    requires Merged(ts) && ts != []
    ensures var r := TrimLead(ab, ts);
            && AllSpace(ab, Atoms(r.left))
            && (Atoms(r.right) != [] ==> !SpaceAtom(ab, Atoms(r.right)[0]))
  {
    hide Atoms;
    NoAtoms();
    var r := TrimLead(ab, ts);
    FirstAtom(ts);
    if ts[0].Text? {
      var v := ts[0].value;
      var m := PrefixCount(ab.isSpace, v);
      if m > 0 {
        SpaceText(ab, v[..m]);
        var rest := ts[1..];
        assert r.right == [Text(v[m..])] + rest;
        AtomsConcat([Text(v[m..])], rest);
        AtomsOne(Text(v[m..]));
        if m == |v| {
          assert Atoms(r.right) == Atoms(rest);
          if rest != [] { FirstAtom(rest); }
        }
      }
    }
  }

  /** Neighbouring texts are not left beside each other. */
  ghost predicate TextsApart(ts: seq<Token>) {
    && (forall i :: 0 <= i < |ts| - 1 ==> !(ts[i].Text? && ts[i + 1].Text?))
    && (forall i :: 0 < i < |ts| && ts[i].Text? ==> ts[i].value != "")
  }

  lemma TrailIs(ab: Alphabet, ts: seq<Token>)
    requires TextsApart(ts) && ts != []
    ensures var r := TrimTrail(ab, ts);
            && AllSpace(ab, Atoms(r.right))
            && (Atoms(r.left) != [] ==> !SpaceAtom(ab, Atoms(r.left)[|Atoms(r.left)| - 1]))
  {
    hide Atoms;
    NoAtoms();
    var r := TrimTrail(ab, ts);
    var n := |ts| - 1;
    if ts[n].Text? {
      var v := ts[n].value;
      var s := SuffixStart(ab.isSpace, v);
      if s < |v| {
        SpaceText(ab, v[s..]);
        AtomsSnoc(ts[..n], Text(v[..s]));
        if s > 0 {
          LastAtom(r.left);
        } else if n > 0 {
          LastAtom(ts[..n]);
          assert Atoms(r.left) == Atoms(ts[..n]);
        }
      } else if v != "" {
        LastAtom(ts);
      } else {
        assert ts == [Text("")];
      }
    } else {
      LastAtom(ts);
    }
  }

  lemma LeadLeavesApart(ab: Alphabet, ts: seq<Token>)
    requires Merged(ts) && ts != []
    ensures TextsApart(TrimLead(ab, ts).right)
  {
  }

  /**
   Of a merged piece the white space at both ends is taken off, all of it and nothing else: both ends are
   white space, and what is left neither begins nor ends with any.
   */
  lemma TrimTakesAllSpace(ab: Alphabet, piece: seq<Token>)
    requires ab.Lawful() && Merged(piece) && piece != []
    ensures var t := Trim(ab, piece);
            && AllSpace(ab, Atoms(t.lead)) && AllSpace(ab, Atoms(t.trail))
            && (Atoms(t.core) != [] ==>
                  !SpaceAtom(ab, Atoms(t.core)[0]) && !SpaceAtom(ab, Atoms(t.core)[|Atoms(t.core)| - 1]))
  {
    hide Atoms, TrimLead, TrimTrail;
    var front := TrimLead(ab, piece);
    var back := TrimTrail(ab, front.right);
    LeadIs(ab, piece);
    LeadLeavesApart(ab, piece);
    TrailIs(ab, front.right);
    TrimTrailKeeps(ab, front.right);
    DropEmptyKeeps(back.left);
  }

  // ---- list numbers ----

  /** One digit, or two. */
  predicate Part(ab: Alphabet, s: string) {
    1 <= |s| <= 2 && forall i :: 0 <= i < |s| ==> ab.isDigit(s[i])
  }

  /** `s` from `i` up to `p` is further parts of a number, each behind a dot. */
  ghost predicate MoreParts(ab: Alphabet, s: string, i: nat, p: nat)
    requires i <= |s|
    decreases |s| - i
  {
    p == i || (i < |s| && s[i] == '.' && exists q :: i + 1 < q <= |s| && Part(ab, s[i + 1..q]) && MoreParts(ab, s, q, p))
  }

  /** `v` begins with the number of a list, `n` characters of it with what belongs to it, and then a letter. */
  ghost predicate ListNumberAt(ab: Alphabet, v: string, n: nat) {
    exists i, d, p, q :: NumberWith(ab, v, i, d, p, q, n)
  }

  /** A bracket perhaps, digits, dotted parts, a dot or bracket perhaps, white space perhaps; then an ASCII letter. */
  ghost predicate NumberWith(ab: Alphabet, v: string, i: nat, d: nat, p: nat, q: nat, n: nat) {
    && i < d <= p <= q <= n < |v|
    && (i == 0 || (i == 1 && v[0] == '('))
    && Part(ab, v[i..d]) && MoreParts(ab, v, d, p)
    && (q == p || (q == p + 1 && (v[p] == '.' || v[p] == ')')))
    && (forall m :: q <= m < n ==> ab.isSpace(v[m]))
    && (AsciiUpper(v[n]) || AsciiLower(v[n]))
  }

  /** Digits end where the next character is none. */
  lemma DigitsEndIs(ab: Alphabet, v: string, i: nat, d: nat)
    requires i < d <= |v| && Part(ab, v[i..d]) && (d < |v| ==> !ab.isDigit(v[d]))
    ensures DigitsEnd(ab, v, i) == d
  {
    assert v[i..d][0] == v[i];
    if d == i + 2 { assert v[i..d][1] == v[i + 1]; }
  }

  lemma PartIs(ab: Alphabet, v: string, i: nat)
    requires i <= |v| && DigitsEnd(ab, v, i) > i
    ensures Part(ab, v[i..DigitsEnd(ab, v, i)])
  {
  }

  /** Nothing goes on: neither a digit nor a dot with digits behind it. */
  ghost predicate NumberEnds(ab: Alphabet, v: string, p: nat) {
    p < |v| && !ab.isDigit(v[p]) && !(v[p] == '.' && p + 1 < |v| && ab.isDigit(v[p + 1]))
  }

  lemma NoDigitNext(ab: Alphabet, v: string, q: nat, p: nat)
    requires q <= p < |v| && MoreParts(ab, v, q, p) && NumberEnds(ab, v, p) && !ab.isDigit('.')
    ensures !ab.isDigit(v[q])
  {
    MorePartsFrom(ab, v, q, p);
  }

  lemma {:induction false} DottedIs(ab: Alphabet, v: string, i: nat, p: nat)
    requires i <= p < |v| && MoreParts(ab, v, i, p) && NumberEnds(ab, v, p) && !ab.isDigit('.')
    ensures DottedEnd(ab, v, i) == p
    decreases |v| - i
  {
    if p > i {
      var q :| i + 1 < q <= |v| && Part(ab, v[i + 1..q]) && MoreParts(ab, v, q, p);
      MorePartsFrom(ab, v, q, p);
      NoDigitNext(ab, v, q, p);
      DigitsEndIs(ab, v, i + 1, q);
      DottedIs(ab, v, q, p);
    }
  }

  lemma MorePartsFrom(ab: Alphabet, v: string, i: nat, p: nat)
    requires i <= |v| && MoreParts(ab, v, i, p)
    ensures p == i || (i < |v| && v[i] == '.' && p > i)
    decreases |v| - i
  {
    if p != i {
      var q :| i + 1 < q <= |v| && Part(ab, v[i + 1..q]) && MoreParts(ab, v, q, p);
      MorePartsFrom(ab, v, q, p);
    }
  }

  lemma {:induction false} DottedParts(ab: Alphabet, v: string, i: nat)
    requires i <= |v|
    ensures MoreParts(ab, v, i, DottedEnd(ab, v, i))
    decreases |v| - i
  {
    if i < |v| && v[i] == '.' && DigitsEnd(ab, v, i + 1) > i + 1 {
      var q := DigitsEnd(ab, v, i + 1);
      PartIs(ab, v, i + 1);
      DottedParts(ab, v, q);
    }
  }

  /** What comes behind the digits, and behind the dotted parts, goes on with neither. */
  lemma MarksEndNumber(ab: Alphabet, v: string, i: nat, d: nat, p: nat, q: nat, n: nat)
    requires ab.Lawful() && NumberWith(ab, v, i, d, p, q, n)
    ensures !ab.isDigit('.') && NumberEnds(ab, v, p) && (q == p ==> v[p] != '.' && v[p] != ')')
  {
    hide Part, MoreParts;
    assert '.' in ".()" && ')' in ".()";
    assert '.' in ".!?;:,()-\U{2013}\U{2014}\U{FF1B}\U{FF1A}\U{FF0C}" && ')' in ".!?;:,()-\U{2013}\U{2014}\U{FF1B}\U{FF1A}\U{FF0C}";
    assert forall m :: q <= m < n ==> !ab.isDigit(v[m]);
  }

  lemma SpaceEndIs(ab: Alphabet, v: string, q: nat, n: nat)
    requires q <= n < |v| && (forall m :: q <= m < n ==> ab.isSpace(v[m])) && !ab.isSpace(v[n])
    ensures SpaceEnd(ab, v, q) == n
  {
    var s := v[q..];
    assert forall m :: 0 <= m < |s| ==> s[m] == v[q + m];
    assert s[n - q] == v[n];
    PrefixCountIs(ab.isSpace, s, n - q);
  }

  /** A number of a list is found where one stands, and ends where its letter begins. */
  lemma ListNumberIff(ab: Alphabet, v: string, n: nat)
    requires ab.Lawful() && n > 0
    ensures ListNumberEnd(ab, v) == n <==> ListNumberAt(ab, v, n)
  {
    hide NumberWith, ListNumberEnd, Alphabet.Lawful;
    if ListNumberEnd(ab, v) == n { FoundIsNumber(ab, v); }
    if ListNumberAt(ab, v, n) {
      var i, d, p, q :| NumberWith(ab, v, i, d, p, q, n);
      NumberIsFound(ab, v, i, d, p, q, n);
    }
  }

  lemma FoundIsNumber(ab: Alphabet, v: string)
    requires ListNumberEnd(ab, v) > 0
    ensures ListNumberAt(ab, v, ListNumberEnd(ab, v))
  {
    hide MoreParts, DigitsEnd, DottedEnd, SpaceEnd, Part;
    var i := if v != "" && v[0] == '(' then 1 else 0;
    var d := DigitsEnd(ab, v, i);
    var p := DottedEnd(ab, v, d);
    var q := if p < |v| && v[p] in ".)" then p + 1 else p;
    var n := SpaceEnd(ab, v, q);
    PartIs(ab, v, i);
    DottedParts(ab, v, d);
    forall m | q <= m < n ensures ab.isSpace(v[m]) { assert v[q..n][m - q] == v[m]; }
    assert NumberWith(ab, v, i, d, p, q, n);
  }

  lemma NumberIsFound(ab: Alphabet, v: string, i: nat, d: nat, p: nat, q: nat, n: nat)
    requires ab.Lawful() && NumberWith(ab, v, i, d, p, q, n)
    ensures ListNumberEnd(ab, v) == n
  {
    hide MoreParts, DigitsEnd, DottedEnd, SpaceEnd;
    MarksEndNumber(ab, v, i, d, p, q, n);
    NoDigitNext(ab, v, d, p);
    DigitsEndIs(ab, v, i, d);
    DottedIs(ab, v, d, p);
    SpaceEndIs(ab, v, q, n);
    assert v[i..d][0] == v[i];
    assert '(' in ".()";
  }

  // ---- values in front ----

  /** No letter, digit or underscore. */
  predicate Wordless(ab: Alphabet, t: Token) {
    t.Text? && forall i :: 0 <= i < |t.value| ==> !ab.isWord(t.value[i])
  }

  /** An address, number or reference that is no part of a sentence. */
  predicate Identifier(t: Token) {
    t.Entity? && (t.kind == "URL" || t.kind == "EMAIL" || t.kind == "PHONE" || t.kind == "CID" || t.kind == "REF")
  }

  /** The first `cut` tokens are identifiers and what separates them, and the next is neither. */
  ghost predicate LeadEnds(ab: Alphabet, core: seq<Token>, cut: nat) {
    && cut <= |core| && (forall i :: 0 <= i < cut ==> Identifier(core[i]) || Wordless(ab, core[i]))
    && (cut < |core| ==> !Identifier(core[cut]) && !Wordless(ab, core[cut]))
  }

  /** The first word of a text begins at `n`. */
  predicate WordBegins(ab: Alphabet, v: string, n: nat) {
    n < |v| && ab.isWord(v[n]) && forall i :: 0 <= i < n ==> !ab.isWord(v[i])
  }

  /** Identifiers in front are taken off with the punctuation up to the first word. */
  lemma IdentifiersTaken(ab: Alphabet, core: seq<Token>, cut: nat)
    requires LeadEnds(ab, core, cut) && cut < |core| && exists i :: 0 <= i < cut && core[i].Entity?
    ensures !core[cut].Text? ==> LeadingValues(ab, core) == Split(core[..cut], core[cut..])
    ensures forall n: nat :: core[cut].Text? && WordBegins(ab, core[cut].value, n) ==>
              LeadingValues(ab, core) == Split(core[..cut] + TextIf(core[cut].value[..n]), [Text(core[cut].value[n..])] + core[cut + 1..])
  {
    PrefixCountIs((t: Token) => IsIdentifierOrSeparator(ab, t), core, cut);
    var i :| 0 <= i < cut && core[i].Entity?;
    assert core[..cut][i].Entity?;
    forall n: nat | core[cut].Text? && WordBegins(ab, core[cut].value, n)
      ensures LeadingValues(ab, core) == Split(core[..cut] + TextIf(core[cut].value[..n]), [Text(core[cut].value[n..])] + core[cut + 1..])
    {
      PrefixCountIs((c: char) => !ab.isWord(c), core[cut].value, n);
      if n == 0 {
        assert core[cut].value[0..] == core[cut].value && core[..cut] + TextIf(core[cut].value[..0]) == core[..cut];
        assert core[cut..] == [core[cut]] + core[cut + 1..];
      }
    }
  }

  /** Without identifiers in front, or with nothing else behind them, the number of a list is taken off, or nothing. */
  lemma ListNumberTaken(ab: Alphabet, core: seq<Token>, cut: nat)
    requires ab.Lawful() && LeadEnds(ab, core, cut) && (cut == |core| || forall i :: 0 <= i < cut ==> !core[i].Entity?)
    ensures forall n: nat :: core != [] && core[0].Text? && n > 0 && ListNumberAt(ab, core[0].value, n) ==>
              LeadingValues(ab, core) == Split([Text(core[0].value[..n])], [Text(core[0].value[n..])] + core[1..])
    ensures (core == [] || !core[0].Text? || forall n: nat :: n > 0 ==> !ListNumberAt(ab, core[0].value, n)) ==>
              LeadingValues(ab, core) == Split([], core)
  {
    hide ListNumberAt, ListNumberEnd;
    PrefixCountIs((t: Token) => IsIdentifierOrSeparator(ab, t), core, cut);
    if core != [] && core[0].Text? {
      forall n: nat | n > 0 ensures ListNumberEnd(ab, core[0].value) == n <==> ListNumberAt(ab, core[0].value, n) {
        ListNumberIff(ab, core[0].value, n);
      }
      var n := ListNumberEnd(ab, core[0].value);
      if n > 0 { assert ListNumberAt(ab, core[0].value, n); }
    }
  }

  // ---- values behind a label ----

  /** From `cut` on there are placeholders and what separates them, and the token before is neither. */
  ghost predicate ValuesFrom(ab: Alphabet, core: seq<Token>, cut: nat) {
    && cut <= |core| && (forall i :: cut <= i < |core| ==> core[i].Entity? || Wordless(ab, core[i]))
    && (cut > 0 ==> !core[cut - 1].Entity? && !Wordless(ab, core[cut - 1]))
  }

  /** The text ends in an opening bracket, with the white space around it from `b` on. */
  ghost predicate BracketFrom(ab: Alphabet, v: string, b: nat) {
    b < |v| && (b > 0 ==> !ab.isSpace(v[b - 1])) && exists e: nat :: BracketAt(ab, v, b, e)
  }

  ghost predicate BracketAt(ab: Alphabet, v: string, b: nat, e: nat) {
    b <= e < |v| && v[e] == '(' && forall i :: b <= i < |v| && i != e ==> ab.isSpace(v[i])
  }

  lemma OpenBracketIff(ab: Alphabet, v: string, b: nat)
    requires ab.Lawful()
    ensures OpenBracket(ab, v) == Some(b) <==> BracketFrom(ab, v, b)
  {
    assert '(' in ".!?;:,()-\U{2013}\U{2014}\U{FF1B}\U{FF1A}\U{FF0C}";
    hide OpenBracket, BracketFrom, BracketAt, Alphabet.Lawful;
    if BracketFrom(ab, v, b) { BracketIsFound(ab, v, b); }
    if OpenBracket(ab, v) == Some(b) { FoundIsBracket(ab, v, b); }
  }

  lemma BracketIsFound(ab: Alphabet, v: string, b: nat)
    requires BracketFrom(ab, v, b) && !ab.isSpace('(')
    ensures OpenBracket(ab, v) == Some(b)
  {
    var e: nat :| BracketAt(ab, v, b, e);
    SuffixStartIs(ab.isSpace, v, e + 1);
    SuffixStartIs(ab.isSpace, v[..e], b);
  }

  lemma FoundIsBracket(ab: Alphabet, v: string, b: nat)
    requires OpenBracket(ab, v) == Some(b)
    ensures BracketFrom(ab, v, b)
  {
    hide SuffixStart;
    var e: nat := SuffixStart(ab.isSpace, v) - 1;
    var w := v[..e];
    forall i | b <= i < e ensures ab.isSpace(v[i]) { assert w[i] == v[i]; }
    if b > 0 { assert w[b - 1] == v[b - 1]; }
    assert BracketAt(ab, v, b, e);
  }

  /** A colon or dash is the last of the text up to `s`, and only white space follows. */
  ghost predicate LabelUpTo(ab: Alphabet, v: string, s: nat) {
    && 0 < s <= |v| && (forall i :: s <= i < |v| ==> ab.isSpace(v[i]))
    && (v[s - 1] == ':' || v[s - 1] == '\U{FF1A}' || v[s - 1] == '-' || v[s - 1] == '\U{2013}' || v[s - 1] == '\U{2014}')
  }

  lemma IsLabelIff(ab: Alphabet, v: string, s: nat)
    requires ab.Lawful()
    ensures (IsLabel(ab, v) && s == SuffixStart(ab.isSpace, v)) <==> LabelUpTo(ab, v, s)
  {
    var n := SuffixStart(ab.isSpace, v);
    if LabelUpTo(ab, v, s) {
      assert v[s - 1] in ".!?;:,()-\U{2013}\U{2014}\U{FF1B}\U{FF1A}\U{FF0C}";
      SuffixStartIs(ab.isSpace, v, s);
    }
  }

  /** What values are kept back for: an entity among them, and a text before them. */
  ghost predicate Labelled(core: seq<Token>, cut: nat) {
    0 < cut <= |core| && core[cut - 1].Text? && exists i :: cut <= i < |core| && core[i].Entity?
  }

  /**
   Values at the end are kept back with the bracket before them, if there are words before that; or with
   the white space behind a label; and not at all behind anything else.
   */
  lemma LabelValuesTaken(ab: Alphabet, core: seq<Token>, cut: nat)
    requires ab.Lawful() && ValuesFrom(ab, core, cut)
    ensures !Labelled(core, cut) ==> LabelValues(ab, core) == Split(core, [])
    ensures Labelled(core, cut) ==>
              var v := core[cut - 1].value;
              && (forall b: nat :: BracketFrom(ab, v, b) ==>
                    LabelValues(ab, core) ==
                      if forall i :: 0 <= i < b ==> ab.isSpace(v[i]) then Split(core, [])
                      else Split(core[..cut - 1] + [Text(v[..b])], [Text(v[b..])] + core[cut..]))
              && ((forall b: nat :: !BracketFrom(ab, v, b)) ==>
                    (forall s: nat :: LabelUpTo(ab, v, s) ==>
                       LabelValues(ab, core) == Split(core[..cut - 1] + [Text(v[..s])], TextIf(v[s..]) + core[cut..]))
                    && ((forall s: nat :: !LabelUpTo(ab, v, s)) ==> LabelValues(ab, core) == Split(core, [])))
  {
    hide BracketFrom, LabelUpTo, OpenBracket, IsLabel, LabelValues, SuffixStart, Alphabet.Lawful;
    LabelValuesBy(ab, core, cut);
    if Labelled(core, cut) {
      var v := core[cut - 1].value;
      forall b: nat ensures OpenBracket(ab, v) == Some(b) <==> BracketFrom(ab, v, b) { OpenBracketIff(ab, v, b); }
      if OpenBracket(ab, v).Some? { assert BracketFrom(ab, v, OpenBracket(ab, v).value); }
      forall s: nat ensures (IsLabel(ab, v) && s == SuffixStart(ab.isSpace, v)) <==> LabelUpTo(ab, v, s) { IsLabelIff(ab, v, s); }
      if IsLabel(ab, v) { assert LabelUpTo(ab, v, SuffixStart(ab.isSpace, v)); }
    }
  }

  lemma LabelValuesBy(ab: Alphabet, core: seq<Token>, cut: nat)
    requires ValuesFrom(ab, core, cut)
    ensures !Labelled(core, cut) ==> LabelValues(ab, core) == Split(core, [])
    ensures Labelled(core, cut) ==>
              var v := core[cut - 1].value;
              var b, s := OpenBracket(ab, v), SuffixStart(ab.isSpace, v);
              LabelValues(ab, core) ==
                if b.Some? then
                  if forall i :: 0 <= i < b.value ==> ab.isSpace(v[i]) then Split(core, [])
                  else Split(core[..cut - 1] + [Text(v[..b.value])], [Text(v[b.value..])] + core[cut..])
                else if IsLabel(ab, v) then Split(core[..cut - 1] + [Text(v[..s])], TextIf(v[s..]) + core[cut..])
                else Split(core, [])
  {
    hide OpenBracket, IsLabel, SuffixStart;
    SuffixStartIs((t: Token) => IsValueOrSeparator(ab, t), core, cut);
    if Labelled(core, cut) {
      var i :| cut <= i < |core| && core[i].Entity?;
      assert core[cut..][i - cut].Entity?;
      var v := core[cut - 1].value;
      assert forall n: nat :: n <= |v| ==> forall i :: 0 <= i < n ==> v[..n][i] == v[i];
    }
  }
}
