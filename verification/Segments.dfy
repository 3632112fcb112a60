/**
 Placeholder segments, and the canonical form every losslessness claim is stated in.

 A segment is a sequence of tokens.  Its atoms are its characters and markers laid out flat, so
 two segments that differ only in where text is cut into tokens have the same atoms.
 */
module Segments {
  import opened Wrappers

  const OPEN: char := '\U{27E6}'
  const CLOSE: char := '\U{27E7}'

  /** The kind of the placeholders that stand for glossary terms. */
  const TERM_KIND := "T"

  datatype Token =
    | Text(value: string)
    | Open(id: nat)
    | Close(id: nat)
    | Void(id: nat)
    | Entity(kind: string, id: nat)

  predicate IsTag(t: Token) {
    t.Open? || t.Close? || t.Void?
  }

  predicate HasEntity(ts: seq<Token>) {
    exists i :: 0 <= i < |ts| && ts[i].Entity?
  }

  /** The ordered markers of a segment: everything but its text. */
  function Structure(ts: seq<Token>): seq<Token> {
    if ts == [] then []
    else (if ts[0].Text? then [] else [ts[0]]) + Structure(ts[1..])
  }

  /** The ordered inline tags of a segment: its markers without entities and terms. */
  function TagStructure(ts: seq<Token>): seq<Token> {
    if ts == [] then []
    else (if IsTag(ts[0]) then [ts[0]] else []) + TagStructure(ts[1..])
  }

  lemma {:induction false} StructureConcat(a: seq<Token>, b: seq<Token>)
    ensures Structure(a + b) == Structure(a) + Structure(b)
    ensures TagStructure(a + b) == TagStructure(a) + TagStructure(b)
  {
    if a == [] {
      assert a + b == b;
    } else {
      assert (a + b)[1..] == a[1..] + b;
      StructureConcat(a[1..], b);
      Assoc(if a[0].Text? then [] else [a[0]], Structure(a[1..]), Structure(b));
      Assoc(if IsTag(a[0]) then [a[0]] else [], TagStructure(a[1..]), TagStructure(b));
    }
  }

  lemma Assoc<T>(a: seq<T>, b: seq<T>, c: seq<T>)
    ensures a + b + c == a + (b + c)
  {
  }

  // ---- atoms ----

  datatype Atom = Ch(c: char) | Mark(m: Token)

  function Chars(s: string): (r: seq<Atom>)
    ensures |r| == |s|
    ensures forall i :: 0 <= i < |s| ==> r[i] == Ch(s[i])
  {
    seq(|s|, i requires 0 <= i < |s| => Ch(s[i]))
  }

  function TokenAtoms(t: Token): seq<Atom> {
    if t.Text? then Chars(t.value) else [Mark(t)]
  }

  function Atoms(ts: seq<Token>): seq<Atom> {
    if ts == [] then [] else TokenAtoms(ts[0]) + Atoms(ts[1..])
  }

  lemma {:induction false} AtomsConcat(a: seq<Token>, b: seq<Token>)
    ensures Atoms(a + b) == Atoms(a) + Atoms(b)
  {
    hide TokenAtoms;
    if a == [] {
      assert a + b == b;
    } else {
      assert (a + b)[1..] == a[1..] + b;
      AtomsConcat(a[1..], b);
      Assoc(TokenAtoms(a[0]), Atoms(a[1..]), Atoms(b));
    }
  }

  lemma AtomsOne(t: Token)
    ensures Atoms([t]) == TokenAtoms(t)
  {
    assert [t][1..] == [];
  }

  lemma AtomsSnoc(ts: seq<Token>, t: Token)
    ensures Atoms(ts + [t]) == Atoms(ts) + TokenAtoms(t)
  {
    AtomsConcat(ts, [t]);
    AtomsOne(t);
  }

  lemma CharsConcat(a: string, b: string)
    ensures Chars(a + b) == Chars(a) + Chars(b)
  {
  }

  /** Cutting a text token in two keeps the atoms. */
  lemma AtomsCut(v: string, at: nat)
    requires at <= |v|
    ensures Chars(v[..at]) + Chars(v[at..]) == Chars(v)
  {
    assert v == v[..at] + v[at..];
    CharsConcat(v[..at], v[at..]);
  }

  function TextIf(v: string): seq<Token> {
    if v == "" then [] else [Text(v)]
  }

  lemma AtomsOfTextIf(v: string)
    ensures Atoms(TextIf(v)) == Chars(v)
  {
    if v != "" { AtomsOne(Text(v)); }
  }

  // ---- reading in pieces ----

  function Prepend<E>(ts: seq<Token>, r: Result<seq<Token>, E>): Result<seq<Token>, E> {
    if r.Ok? then Ok(ts + r.value) else r
  }

  lemma PrependTwice<E>(a: seq<Token>, b: seq<Token>, r: Result<seq<Token>, E>)
    ensures Prepend(a, Prepend(b, r)) == Prepend(a + b, r)
  {
    if r.Ok? { Assoc(a, b, r.value); }
  }

  // ---- merged segments ----

  /** No empty text and no two neighbouring texts: the shape the parser and the merger give. */
  ghost predicate Merged(ts: seq<Token>) {
    && (forall i :: 0 <= i < |ts| && ts[i].Text? ==> ts[i].value != "")
    && (forall i :: 0 <= i < |ts| - 1 ==> !(ts[i].Text? && ts[i + 1].Text?))
  }

  lemma MergedTail(ts: seq<Token>)
    requires Merged(ts) && ts != []
    ensures Merged(ts[1..])
  {
  }

  /** One step of the merging loop: `out` with `t` put behind it. */
  function Push(out: seq<Token>, t: Token): seq<Token> {
    if t.Text? && t.value == "" then out
    else if t.Text? && out != [] && out[|out| - 1].Text? then
      out[..|out| - 1] + [Text(out[|out| - 1].value + t.value)]
    else out + [t]
  }

  /** Neighbouring texts joined and empty ones dropped. */
  function Merge(ts: seq<Token>): seq<Token> {
    if ts == [] then [] else Push(Merge(ts[..|ts| - 1]), ts[|ts| - 1])
  }

  lemma PushMerges(out: seq<Token>, t: Token)
    requires Merged(out)
    ensures Merged(Push(out, t))
  {
  }

  lemma PushAtoms(out: seq<Token>, t: Token)
    ensures Atoms(Push(out, t)) == Atoms(out) + TokenAtoms(t)
  {
    hide Atoms;
    if t.Text? && t.value == "" {
      assert TokenAtoms(t) == [];
    } else if t.Text? && out != [] && out[|out| - 1].Text? {
      hide Chars;
      var init, last := out[..|out| - 1], out[|out| - 1];
      assert out == init + [last];
      AtomsSnoc(init, last);
      AtomsSnoc(init, Text(last.value + t.value));
      CharsConcat(last.value, t.value);
      Assoc(Atoms(init), Chars(last.value), Chars(t.value));
    } else {
      AtomsSnoc(out, t);
    }
  }

  lemma PushKeeps(out: seq<Token>, t: Token)
    requires Merged(out)
    ensures Merged(Push(out, t))
    ensures Atoms(Push(out, t)) == Atoms(out) + TokenAtoms(t)
  {
    PushMerges(out, t);
    PushAtoms(out, t);
  }

  lemma {:induction false} MergeKeeps(ts: seq<Token>)
    ensures Merged(Merge(ts))
    ensures Atoms(Merge(ts)) == Atoms(ts)
  {
    if ts != [] {
      var init, last := ts[..|ts| - 1], ts[|ts| - 1];
      assert ts == init + [last];
      MergeKeeps(init);
      PushKeeps(Merge(init), last);
      AtomsSnoc(init, last);
    }
  }

  /** The canonical form is canonical: merged segments with the same atoms are the same segment. */
  lemma {:induction false} MergedUnique(a: seq<Token>, b: seq<Token>)
    requires Merged(a) && Merged(b)
    requires Atoms(a) == Atoms(b)
    ensures a == b
  {
    if a == [] || b == [] {
      if a != [] { AtomsNonempty(a); }
      if b != [] { AtomsNonempty(b); }
    } else {
      AtomsNonempty(a);
      AtomsNonempty(b);
      assert Atoms(a)[0] == Atoms(b)[0];
      if a[0].Text? {
        TextRun(a);
        TextRun(b);
        assert a[0].value == b[0].value by {
          var v, w := a[0].value, b[0].value;
          assert forall i :: 0 <= i < |v| && i < |w| ==> Ch(v[i]) == Atoms(a)[i] == Ch(w[i]);
          assert forall i :: 0 <= i < |v| ==> Atoms(a)[i].Ch?;
          assert forall i :: 0 <= i < |w| ==> Atoms(b)[i].Ch?;
        }
      }
      assert Atoms(a)[|TokenAtoms(a[0])|..] == Atoms(a[1..]);
      assert Atoms(b)[|TokenAtoms(b[0])|..] == Atoms(b[1..]);
      MergedUnique(a[1..], b[1..]);
      assert a == [a[0]] + a[1..];
      assert b == [b[0]] + b[1..];
    }
  }

  lemma AtomsNonempty(ts: seq<Token>)
    requires Merged(ts) && ts != []
    ensures Atoms(ts) != []
    ensures Atoms(ts)[0] == if ts[0].Text? then Ch(ts[0].value[0]) else Mark(ts[0])
  {
  }

  /** In a merged segment a text is a whole run of characters. */
  lemma TextRun(ts: seq<Token>)
    requires Merged(ts) && ts != [] && ts[0].Text?
    ensures |ts[0].value| <= |Atoms(ts)|
    ensures forall i :: 0 <= i < |ts[0].value| ==> Atoms(ts)[i] == Ch(ts[0].value[i])
    ensures |ts[0].value| < |Atoms(ts)| ==> Atoms(ts)[|ts[0].value|].Mark?
  {
    if |ts| > 1 {
      assert ts[1..][0] == ts[1];
      AtomsNonempty(ts[1..]);
    }
  }

  /** `Merge` depends on the atoms only, so merging in stages is merging once. */
  lemma MergeCanonical(a: seq<Token>, b: seq<Token>)
    requires Atoms(a) == Atoms(b)
    ensures Merge(a) == Merge(b)
  {
    MergeKeeps(a);
    MergeKeeps(b);
    MergedUnique(Merge(a), Merge(b));
  }

  lemma MergeOfMerged(ts: seq<Token>)
    requires Merged(ts)
    ensures Merge(ts) == ts
  {
    MergeKeeps(ts);
    MergedUnique(Merge(ts), ts);
  }

  /** The markers of a segment are the markers among its atoms. */
  function MarksOf(atoms: seq<Atom>): seq<Token> {
    if atoms == [] then []
    else (if atoms[0].Mark? then [atoms[0].m] else []) + MarksOf(atoms[1..])
  }

  lemma {:induction false} MarksOfConcat(a: seq<Atom>, b: seq<Atom>)
    ensures MarksOf(a + b) == MarksOf(a) + MarksOf(b)
  {
    if a == [] {
      assert a + b == b;
    } else {
      assert (a + b)[1..] == a[1..] + b;
      MarksOfConcat(a[1..], b);
      Assoc(if a[0].Mark? then [a[0].m] else [], MarksOf(a[1..]), MarksOf(b));
    }
  }

  lemma MarksOfChars(s: string)
    ensures MarksOf(Chars(s)) == []
  {
    if s != "" {
      assert Chars(s)[1..] == Chars(s[1..]);
      MarksOfChars(s[1..]);
    }
  }

  lemma {:induction false} StructureIsMarks(ts: seq<Token>)
    ensures MarksOf(Atoms(ts)) == Structure(ts)
  {
    if ts != [] {
      StructureIsMarks(ts[1..]);
      MarksOfConcat(TokenAtoms(ts[0]), Atoms(ts[1..]));
      if ts[0].Text? { MarksOfChars(ts[0].value); }
    }
  }

  /** Segments with the same atoms have the same markers. */
  lemma StructureOfAtoms(a: seq<Token>, b: seq<Token>)
    requires Atoms(a) == Atoms(b)
    ensures Structure(a) == Structure(b)
    ensures TagStructure(a) == TagStructure(b)
  {
    StructureIsMarks(a);
    StructureIsMarks(b);
    TagsOfStructure(a);
    TagsOfStructure(b);
  }

  lemma {:induction false} TagsOfStructure(ts: seq<Token>)
    ensures TagStructure(Structure(ts)) == TagStructure(ts)
  {
    if ts != [] {
      TagsOfStructure(ts[1..]);
      StructureConcat(if ts[0].Text? then [] else [ts[0]], Structure(ts[1..]));
    }
  }

  lemma MergeSnoc(tokens: seq<Token>, i: nat)
    requires i < |tokens|
    ensures Merge(tokens[..i + 1]) == Push(Merge(tokens[..i]), tokens[i])
  {
    assert tokens[..i + 1][..i] == tokens[..i];
  }

  lemma LastReplaced(out: seq<Token>, t: Token)
    requires out != []
    ensures out[|out| - 1 := t] == out[..|out| - 1] + [t]
  {
  }

  /** The merging loop of the model call: `out` is edited in place at its end. */
  method MergeText(tokens: seq<Token>) returns (out: seq<Token>)
    ensures out == Merge(tokens)
    ensures Merged(out) && Atoms(out) == Atoms(tokens)
  {
    MergeKeeps(tokens);
    assert Merge(tokens[..0]) == [];
    hide Atoms, Merged, Merge;
    out := [];
    for i := 0 to |tokens|
      invariant out == Merge(tokens[..i])
    {
      MergeSnoc(tokens, i);
      var token := tokens[i];
      if token.Text? {
        if token.value == "" {
          continue;
        }
        if out != [] && out[|out| - 1].Text? {
          var joined := Text(out[|out| - 1].value + token.value);
          LastReplaced(out, joined);
          out := out[|out| - 1 := joined];
          continue;
        }
      }
      out := out + [token];
    }
    assert tokens[..|tokens|] == tokens;
  }
}
