/**
 Taking a masked segment apart for the model: pieces between inline tags, trimmed, freed of leading
 and label values, cut into sentences and those into clauses.
 */
module Decompose {
  import opened Segments
  import opened Patterns

  const MAX_WORDS: nat := 40

  // ---- words of a segment ----

  predicate HasWords(ab: Alphabet, ts: seq<Token>) {
    exists i :: 0 <= i < |ts| && ts[i].Text? && ab.HasLetter(ts[i].value)
  }

  /** The letters among some atoms, in order. */
  function LettersOf(ab: Alphabet, atoms: seq<Atom>): string {
    if atoms == [] then ""
    else (if atoms[0].Ch? && ab.IsLetter(atoms[0].c) then [atoms[0].c] else "") + LettersOf(ab, atoms[1..])
  }

  /** The letters of a segment outside its placeholders, in order. */
  function Letters(ab: Alphabet, ts: seq<Token>): string {
    LettersOf(ab, Atoms(ts))
  }

  lemma {:induction false} LettersOfConcat(ab: Alphabet, a: seq<Atom>, b: seq<Atom>)
    ensures LettersOf(ab, a + b) == LettersOf(ab, a) + LettersOf(ab, b)
  {
    if a == [] {
      assert a + b == b;
    } else {
      assert (a + b)[1..] == a[1..] + b;
      LettersOfConcat(ab, a[1..], b);
      Assoc(if a[0].Ch? && ab.IsLetter(a[0].c) then [a[0].c] else "", LettersOf(ab, a[1..]), LettersOf(ab, b));
    }
  }

  lemma LettersConcat(ab: Alphabet, a: seq<Token>, b: seq<Token>)
    ensures Letters(ab, a + b) == Letters(ab, a) + Letters(ab, b)
  {
    AtomsConcat(a, b);
    LettersOfConcat(ab, Atoms(a), Atoms(b));
  }

  lemma LettersOfText(ab: Alphabet, v: string)
    ensures LettersOf(ab, Chars(v)) != "" <==> ab.HasLetter(v)
  {
    if v != "" {
      assert Chars(v)[1..] == Chars(v[1..]);
      LettersOfText(ab, v[1..]);
      assert v == [v[0]] + v[1..];
      if ab.HasLetter(v[1..]) {
        var i :| 0 <= i < |v[1..]| && ab.IsLetter(v[1..][i]);
        assert ab.IsLetter(v[i + 1]);
      }
      if ab.HasLetter(v) && !ab.IsLetter(v[0]) {
        var i :| 0 <= i < |v| && ab.IsLetter(v[i]);
        assert ab.IsLetter(v[1..][i - 1]);
      }
    }
  }

  /** Having words is having letters, which depends on the atoms only. */
  lemma {:induction false} WordsAreLetters(ab: Alphabet, ts: seq<Token>)
    ensures HasWords(ab, ts) <==> Letters(ab, ts) != ""
  {
    if ts != [] {
      var t, rest := ts[0], ts[1..];
      WordsAreLetters(ab, rest);
      LettersOfConcat(ab, TokenAtoms(t), Atoms(rest));
      if t.Text? { LettersOfText(ab, t.value); }
      if HasWords(ab, rest) {
        var i :| 0 <= i < |rest| && rest[i].Text? && ab.HasLetter(rest[i].value);
        assert ts[i + 1] == rest[i];
      }
      if HasWords(ab, ts) && !(t.Text? && ab.HasLetter(t.value)) {
        var i :| 0 <= i < |ts| && ts[i].Text? && ab.HasLetter(ts[i].value);
        assert rest[i - 1] == ts[i];
      }
    }
  }

  lemma NoLetters(ab: Alphabet, v: string)
    requires forall i :: 0 <= i < |v| ==> !ab.IsLetter(v[i])
    ensures Letters(ab, [Text(v)]) == ""
  {
    AtomsOne(Text(v));
    LettersOfText(ab, v);
  }

  // ---- cutting in two ----

  datatype Split = Split(left: seq<Token>, right: seq<Token>)

  lemma TextHasNoStructure(v: string)
    ensures Structure([Text(v)]) == []
  {
  }

  /** Cutting a segment inside one of its texts loses nothing. */
  lemma CutKeeps(ts: seq<Token>, i: nat, at: nat)
    requires i < |ts| && ts[i].Text? && at <= |ts[i].value|
    ensures Atoms(ts[..i] + [Text(ts[i].value[..at])]) + Atoms([Text(ts[i].value[at..])] + ts[i + 1..]) == Atoms(ts)
    ensures Structure(ts[..i] + [Text(ts[i].value[..at])]) == Structure(ts[..i])
    ensures Structure([Text(ts[i].value[at..])] + ts[i + 1..]) == Structure(ts[i + 1..])
  {
    hide Atoms, Structure, Chars;
    var v, front, back := ts[i].value, ts[..i], ts[i + 1..];
    assert ts == front + ([Text(v)] + back);
    AtomsConcat(front, [Text(v)] + back);
    AtomsConcat([Text(v)], back);
    AtomsConcat([Text(v[at..])], back);
    AtomsOne(Text(v));
    AtomsOne(Text(v[at..]));
    AtomsSnoc(front, Text(v[..at]));
    AtomsCut(v, at);
    Assoc(Atoms(front) + Chars(v[..at]), Chars(v[at..]), Atoms(back));
    Assoc(Atoms(front), Chars(v[..at]), Chars(v[at..]));
    Assoc(Atoms(front), Chars(v), Atoms(back));
    StructureConcat(front, [Text(v[..at])]);
    StructureConcat([Text(v[at..])], back);
    TextHasNoStructure(v[..at]);
    TextHasNoStructure(v[at..]);
  }

  // ---- white space at both ends ----

  datatype Trimmed = Trimmed(lead: seq<Token>, core: seq<Token>, trail: seq<Token>)

  function DropEmpty(ts: seq<Token>): seq<Token> {
    if ts == [] then []
    else (if ts[0] == Text("") then [] else [ts[0]]) + DropEmpty(ts[1..])
  }

  lemma {:induction false} DropEmptyKeeps(ts: seq<Token>)
    ensures Atoms(DropEmpty(ts)) == Atoms(ts)
  {
    if ts != [] {
      DropEmptyKeeps(ts[1..]);
      AtomsConcat(if ts[0] == Text("") then [] else [ts[0]], DropEmpty(ts[1..]));
      AtomsOne(ts[0]);
    }
  }

  /** How the first token begins: its leading white space. */
  function TrimLead(ab: Alphabet, ts: seq<Token>): (r: Split)
    requires ts != []
    ensures r.right != []
  {
    var m := if ts[0].Text? then PrefixCount(ab.isSpace, ts[0].value) else 0;
    if m > 0 then Split([Text(ts[0].value[..m])], [Text(ts[0].value[m..])] + ts[1..]) else Split([], ts)
  }

  /** White space at the end of the last token. */
  function TrimTrail(ab: Alphabet, ts: seq<Token>): Split
    requires ts != []
  {
    var n := |ts| - 1;
    var s := if ts[n].Text? then SuffixStart(ab.isSpace, ts[n].value) else 0;
    if ts[n].Text? && s < |ts[n].value|
    then Split(ts[..n] + [Text(ts[n].value[..s])], [Text(ts[n].value[s..])])
    else Split(ts, [])
  }

  function Trim(ab: Alphabet, piece: seq<Token>): Trimmed
    requires piece != []
  {
    var front := TrimLead(ab, piece);
    var back := TrimTrail(ab, front.right);
    Trimmed(front.left, DropEmpty(back.left), back.right)
  }

  lemma TrimLeadKeeps(ab: Alphabet, ts: seq<Token>)
    requires ab.Lawful() && ts != []
    ensures var r := TrimLead(ab, ts);
            Atoms(r.left) + Atoms(r.right) == Atoms(ts) && Letters(ab, r.left) == ""
  {
    var r := TrimLead(ab, ts);
    if r.left != [] {
      var m := PrefixCount(ab.isSpace, ts[0].value);
      CutKeeps(ts, 0, m);
      assert ts[..0] + [Text(ts[0].value[..m])] == r.left;
      NoLetters(ab, ts[0].value[..m]);
    }
  }

  lemma TrimTrailKeeps(ab: Alphabet, ts: seq<Token>)
    requires ab.Lawful() && ts != []
    ensures var r := TrimTrail(ab, ts);
            Atoms(r.left) + Atoms(r.right) == Atoms(ts) && Letters(ab, r.right) == ""
  {
    var r := TrimTrail(ab, ts);
    if r.right != [] {
      var n := |ts| - 1;
      var s := SuffixStart(ab.isSpace, ts[n].value);
      CutKeeps(ts, n, s);
      assert [Text(ts[n].value[s..])] + ts[n + 1..] == r.right;
      NoLetters(ab, ts[n].value[s..]);
    }
  }

  lemma TrimKeeps(ab: Alphabet, piece: seq<Token>)
    requires ab.Lawful() && piece != []
    ensures var t := Trim(ab, piece);
            && Atoms(t.lead) + Atoms(t.core) + Atoms(t.trail) == Atoms(piece)
            && Letters(ab, t.lead) == "" && Letters(ab, t.trail) == ""
  {
    hide Atoms, Letters, TrimLead, TrimTrail;
    TrimLeadKeeps(ab, piece);
    TrimTrailKeeps(ab, TrimLead(ab, piece).right);
    DropEmptyKeeps(TrimTrail(ab, TrimLead(ab, piece).right).left);
  }

  // ---- values at both ends ----

  const IDENTIFIERS: set<string> := {"URL", "EMAIL", "PHONE", "CID", "REF"}

  predicate IsIdentifierOrSeparator(ab: Alphabet, t: Token) {
    if t.Entity? then t.kind in IDENTIFIERS else t.Text? && NoWordChars(ab, t.value)
  }

  predicate IsValueOrSeparator(ab: Alphabet, t: Token) {
    t.Entity? || (t.Text? && NoWordChars(ab, t.value))
  }

  /** Leading identifiers, or a list number, and the rest. */
  function LeadingValues(ab: Alphabet, core: seq<Token>): Split {
    var cut := PrefixCount((t: Token) => IsIdentifierOrSeparator(ab, t), core);
    if cut < |core| && HasEntity(core[..cut]) then
      var first := core[cut];
      var n := if first.Text? then PrefixCount((c: char) => !ab.isWord(c), first.value) else 0;
      if 0 < n && n < |first.value|
      then Split(core[..cut] + [Text(first.value[..n])], [Text(first.value[n..])] + core[cut + 1..])
      else Split(core[..cut], core[cut..])
    else if core != [] && core[0].Text? && ListNumberEnd(ab, core[0].value) > 0 then
      var n := ListNumberEnd(ab, core[0].value);
      Split([Text(core[0].value[..n])], [Text(core[0].value[n..])] + core[1..])
    else Split([], core)
  }

  /** The cut behind a label, if only values come after it. */
  function LabelValues(ab: Alphabet, core: seq<Token>): Split {
    var cut := SuffixStart((t: Token) => IsValueOrSeparator(ab, t), core);
    if !HasEntity(core[cut..]) || cut == 0 || !core[cut - 1].Text? then Split(core, [])
    else
      var before := core[cut - 1].value;
      var bracket := OpenBracket(ab, before);
      if bracket.Some? then
        if Spaces(ab, before[..bracket.value]) then Split(core, [])
        else Split(core[..cut - 1] + [Text(before[..bracket.value])],
                   [Text(before[bracket.value..])] + core[cut..])
      else if !IsLabel(ab, before) then Split(core, [])
      else
        var s := SuffixStart(ab.isSpace, before);
        Split(core[..cut - 1] + [Text(before[..s])],
              (if s < |before| then [Text(before[s..])] else []) + core[cut..])
  }

  lemma NoLettersIn(ab: Alphabet, ts: seq<Token>)
    requires forall i :: 0 <= i < |ts| ==> IsValueOrSeparator(ab, ts[i])
    ensures Letters(ab, ts) == ""
  {
    WordsAreLetters(ab, ts);
  }

  lemma EmptySplit(ab: Alphabet, core: seq<Token>)
    ensures Atoms([]) + Atoms(core) == Atoms(core) == Atoms(core) + Atoms([]) && Letters(ab, []) == ""
  {
  }

  lemma {:induction false} LeadingValuesKeeps(ab: Alphabet, core: seq<Token>)
    requires ab.Lawful()
    ensures var s := LeadingValues(ab, core);
            Atoms(s.left) + Atoms(s.right) == Atoms(core) && Letters(ab, s.left) == ""
  {
    hide Atoms, Letters, ListNumberEnd, PrefixCount;
    EmptySplit(ab, core);
    var s := LeadingValues(ab, core);
    var cut := PrefixCount((t: Token) => IsIdentifierOrSeparator(ab, t), core);
    if cut < |core| && HasEntity(core[..cut]) {
      NoLettersIn(ab, core[..cut]);
      if s.left == core[..cut] {
        assert core == core[..cut] + core[cut..];
        AtomsConcat(core[..cut], core[cut..]);
      } else {
        var n := PrefixCount((c: char) => !ab.isWord(c), core[cut].value);
        CutKeeps(core, cut, n);
        LettersConcat(ab, core[..cut], [Text(core[cut].value[..n])]);
        NoLetters(ab, core[cut].value[..n]);
      }
    } else if s.left != [] {
      var n := ListNumberEnd(ab, core[0].value);
      ListNumberHasNoLetter(ab, core[0].value);
      CutKeeps(core, 0, n);
      assert s.left == core[..0] + [Text(core[0].value[..n])];
      NoLetters(ab, core[0].value[..n]);
    }
  }

  /** Values split off together with the end of the text before them. */
  lemma ValuesAfterCut(ab: Alphabet, gap: string, values: seq<Token>)
    requires NoWordChars(ab, gap)
    requires Letters(ab, values) == ""
    ensures Letters(ab, [Text(gap)] + values) == ""
    ensures gap == "" ==> Atoms([Text(gap)] + values) == Atoms(values)
  {
    NoLetters(ab, gap);
    LettersConcat(ab, [Text(gap)], values);
    AtomsConcat([Text(gap)], values);
    AtomsOne(Text(gap));
  }

  lemma LabelValuesKeeps(ab: Alphabet, core: seq<Token>)
    requires ab.Lawful()
    ensures var s := LabelValues(ab, core);
            Atoms(s.left) + Atoms(s.right) == Atoms(core) && Letters(ab, s.right) == ""
  {
    hide Atoms, Letters, OpenBracket, SuffixStart;
    EmptySplit(ab, core);
    var s := LabelValues(ab, core);
    if s.right != [] {
      var cut := SuffixStart((t: Token) => IsValueOrSeparator(ab, t), core);
      var values := core[cut..];
      NoLettersIn(ab, values);
      var before := core[cut - 1].value;
      var bracket := OpenBracket(ab, before);
      var at := if bracket.Some? then bracket.value else SuffixStart(ab.isSpace, before);
      CutKeeps(core, cut - 1, at);
      ValuesAfterCut(ab, before[at..], values);
      assert s.left == core[..cut - 1] + [Text(before[..at])];
      assert s.right == [Text(before[at..])] + values || (at == |before| && s.right == values);
    }
  }

  /** The `while` loops of the source that look for where leading and label values end. */
  method LeadingValuesLoop(ab: Alphabet, core: seq<Token>) returns (r: Split)
    ensures r == LeadingValues(ab, core)
  {
    var cut := 0;
    var hasEntity := false;
    while cut < |core| && IsIdentifierOrSeparator(ab, core[cut])
      invariant cut <= |core|
      invariant forall i :: 0 <= i < cut ==> IsIdentifierOrSeparator(ab, core[i])
      invariant hasEntity <==> HasEntity(core[..cut])
    {
      assert core[..cut + 1] == core[..cut] + [core[cut]];
      if core[cut].Entity? {
        hasEntity := true;
        assert core[..cut + 1][cut].Entity?;
      } else if HasEntity(core[..cut]) {
        var i :| 0 <= i < cut && core[..cut][i].Entity?;
        assert core[..cut + 1][i].Entity?;
      }
      cut := cut + 1;
    }
    PrefixCountIs((t: Token) => IsIdentifierOrSeparator(ab, t), core, cut);
    if cut < |core| && hasEntity {
      var first := core[cut];
      if first.Text? {
        var n := PrefixCount((c: char) => !ab.isWord(c), first.value);
        if 0 < n && n < |first.value| {
          return Split(core[..cut] + [Text(first.value[..n])], [Text(first.value[n..])] + core[cut + 1..]);
        }
      }
      return Split(core[..cut], core[cut..]);
    }
    if core != [] && core[0].Text? {
      var n := ListNumberEnd(ab, core[0].value);
      if n > 0 {
        return Split([Text(core[0].value[..n])], [Text(core[0].value[n..])] + core[1..]);
      }
    }
    return Split([], core);
  }

  lemma {:induction false} PrefixCountIs<T>(p: T -> bool, s: seq<T>, n: nat)
    requires n <= |s|
    requires forall i :: 0 <= i < n ==> p(s[i])
    requires n < |s| ==> !p(s[n])
    ensures PrefixCount(p, s) == n
  {
  }

  lemma {:induction false} SuffixStartIs<T>(p: T -> bool, s: seq<T>, n: nat)
    requires n <= |s|
    requires forall i :: n <= i < |s| ==> p(s[i])
    requires n > 0 ==> !p(s[n - 1])
    ensures SuffixStart(p, s) == n
  {
  }

  method LabelValuesLoop(ab: Alphabet, core: seq<Token>) returns (r: Split)
    ensures r == LabelValues(ab, core)
  {
    var cut := |core|;
    while cut > 0 && IsValueOrSeparator(ab, core[cut - 1])
      invariant 0 <= cut <= |core|
      invariant forall i :: cut <= i < |core| ==> IsValueOrSeparator(ab, core[i])
    {
      cut := cut - 1;
    }
    SuffixStartIs((t: Token) => IsValueOrSeparator(ab, t), core, cut);
    var values := core[cut..];
    if !HasEntity(values) || cut == 0 {
      return Split(core, []);
    }
    if !core[cut - 1].Text? {
      return Split(core, []);
    }
    var before := core[cut - 1].value;
    var bracket := OpenBracket(ab, before);
    if bracket.Some? {
      if Spaces(ab, before[..bracket.value]) {
        return Split(core, []);
      }
      return Split(core[..cut - 1] + [Text(before[..bracket.value])], [Text(before[bracket.value..])] + values);
    }
    if !IsLabel(ab, before) {
      return Split(core, []);
    }
    var s := SuffixStart(ab.isSpace, before);
    var space := if s < |before| then [Text(before[s..])] else [];
    return Split(core[..cut - 1] + [Text(before[..s])], space + values);
  }
}
