/** Zero-width characters: they are put in when a page is drawn, and taken out of what is kept. */
module Artefacts {
  import opened Segments

  function Strip(artefact: char -> bool, s: string): string {
    if s == "" then "" else (if artefact(s[0]) then "" else [s[0]]) + Strip(artefact, s[1..])
  }

  /** Every text of a segment stripped; a text may become empty, and stays a token. */
  function Stripped(artefact: char -> bool, ts: seq<Token>): seq<Token> {
    if ts == [] then []
    else Stripped(artefact, ts[..|ts| - 1])
         + [if ts[|ts| - 1].Text? then Text(Strip(artefact, ts[|ts| - 1].value)) else ts[|ts| - 1]]
  }

  function StripAtoms(artefact: char -> bool, atoms: seq<Atom>): seq<Atom> {
    if atoms == [] then []
    else (if atoms[0].Ch? && artefact(atoms[0].c) then [] else [atoms[0]]) + StripAtoms(artefact, atoms[1..])
  }

  lemma {:induction false} StripAtomsConcat(artefact: char -> bool, a: seq<Atom>, b: seq<Atom>)
    ensures StripAtoms(artefact, a + b) == StripAtoms(artefact, a) + StripAtoms(artefact, b)
  {
    if a == [] {
      assert a + b == b;
    } else {
      assert (a + b)[1..] == a[1..] + b;
      StripAtomsConcat(artefact, a[1..], b);
      Assoc(if a[0].Ch? && artefact(a[0].c) then [] else [a[0]], StripAtoms(artefact, a[1..]), StripAtoms(artefact, b));
    }
  }

  lemma {:induction false} StripChars(artefact: char -> bool, s: string)
    ensures StripAtoms(artefact, Chars(s)) == Chars(Strip(artefact, s))
  {
    if s != "" {
      assert Chars(s)[1..] == Chars(s[1..]);
      StripChars(artefact, s[1..]);
      CharsConcat(if artefact(s[0]) then "" else [s[0]], Strip(artefact, s[1..]));
    }
  }

  lemma {:induction false} StrippedAtoms(artefact: char -> bool, ts: seq<Token>)
    ensures Atoms(Stripped(artefact, ts)) == StripAtoms(artefact, Atoms(ts))
  {
    if ts != [] {
      var init, t := ts[..|ts| - 1], ts[|ts| - 1];
      assert ts == init + [t];
      StrippedAtoms(artefact, init);
      AtomsSnoc(init, t);
      AtomsSnoc(Stripped(artefact, init), if t.Text? then Text(Strip(artefact, t.value)) else t);
      StripAtomsConcat(artefact, Atoms(init), TokenAtoms(t));
      if t.Text? { StripChars(artefact, t.value); } else { assert [Mark(t)][1..] == []; }
    }
  }

  /** No rendering artefact in a text. */
  ghost predicate Clean(artefact: char -> bool, s: string) {
    forall i :: 0 <= i < |s| ==> !artefact(s[i])
  }

  ghost predicate AllClean(artefact: char -> bool, ts: seq<Token>) {
    forall i :: 0 <= i < |ts| && ts[i].Text? ==> Clean(artefact, ts[i].value)
  }

  lemma {:induction false} StripNothing(artefact: char -> bool, s: string)
    requires Clean(artefact, s)
    ensures Strip(artefact, s) == s
  {
    if s != "" { StripNothing(artefact, s[1..]); }
  }

  lemma {:induction false} StrippedNothing(artefact: char -> bool, ts: seq<Token>)
    requires AllClean(artefact, ts)
    ensures Stripped(artefact, ts) == ts
  {
    if ts != [] {
      var n := |ts| - 1;
      assert ts == ts[..n] + [ts[n]];
      StrippedNothing(artefact, ts[..n]);
      if ts[n].Text? { StripNothing(artefact, ts[n].value); }
    }
  }

  /** Stripping keeps the markers. */
  lemma {:induction false} StrippedStructure(artefact: char -> bool, ts: seq<Token>)
    ensures Structure(Stripped(artefact, ts)) == Structure(ts)
    ensures TagStructure(Stripped(artefact, ts)) == TagStructure(ts)
  {
    if ts != [] {
      var init, t := ts[..|ts| - 1], ts[|ts| - 1];
      var last := if t.Text? then Text(Strip(artefact, t.value)) else t;
      assert ts == init + [t];
      StrippedStructure(artefact, init);
      StructureConcat(init, [t]);
      StructureConcat(Stripped(artefact, init), [last]);
      assert [t][1..] == [] && [last][1..] == [];
    }
  }

  lemma {:induction false} StripLength(artefact: char -> bool, s: string)
    ensures |Strip(artefact, s)| <= |s|
    ensures |Strip(artefact, s)| == |s| <==> Clean(artefact, s)
  {
    if s != "" {
      StripLength(artefact, s[1..]);
      assert s == [s[0]] + s[1..];
    }
  }

  /** Stripping shortens a segment unless it is clean. */
  lemma {:induction false} StrippedLength(artefact: char -> bool, ts: seq<Token>)
    ensures |Atoms(Stripped(artefact, ts))| <= |Atoms(ts)|
    ensures |Atoms(Stripped(artefact, ts))| == |Atoms(ts)| <==> AllClean(artefact, ts)
  {
    if ts != [] {
      hide Atoms, Clean;
      var init, t := ts[..|ts| - 1], ts[|ts| - 1];
      assert ts == init + [t];
      StrippedLength(artefact, init);
      AtomsSnoc(init, t);
      AtomsSnoc(Stripped(artefact, init), if t.Text? then Text(Strip(artefact, t.value)) else t);
      if t.Text? { StripLength(artefact, t.value); }
    }
  }
}
