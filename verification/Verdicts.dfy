/** What the checks on model output decide, and what a restored segment is. */
module Verdicts {
  import opened Wrappers
  import opened Segments
  import opened Validator
  import opened Spans
  import opened Restoring
  import opened Leaks

  // ---- what rebuilding changes: texts only ----

  lemma {:induction false} CheckOfStructure(ts: seq<Token>, stack: seq<nat>, seen: set<nat>)
    ensures Check(Structure(ts), stack, seen) == Check(ts, stack, seen)
  {
    if ts != [] {
      var t, rest := ts[0], ts[1..];
      if t.Text? {
        assert Structure(ts) == Structure(rest);
        CheckOfStructure(rest, stack, seen);
      } else {
        assert Structure(ts)[1..] == Structure(rest);
        if t.Close? {
          if stack != [] { CheckOfStructure(rest, stack[..|stack| - 1], seen); }
        } else {
          CheckOfStructure(rest, if t.Open? then stack + [t.id] else stack, seen + {t.id});
        }
      }
    }
  }

  lemma {:induction false} OnlyConcat(a: seq<Token>, b: seq<Token>, p: Token -> bool)
    ensures Only(a + b, p) == Only(a, p) + Only(b, p)
  {
    if a == [] {
      assert a + b == b;
    } else {
      assert (a + b)[1..] == a[1..] + b;
      OnlyConcat(a[1..], b, p);
      Assoc(if p(a[0]) then [a[0]] else [], Only(a[1..], p), Only(b, p));
    }
  }

  lemma {:induction false} OnlyOfStructure(ts: seq<Token>, p: Token -> bool)
    requires forall t: Token :: p(t) ==> !t.Text?
    ensures Only(Structure(ts), p) == Only(ts, p)
  {
    if ts != [] {
      OnlyOfStructure(ts[1..], p);
      OnlyConcat(if ts[0].Text? then [] else [ts[0]], Structure(ts[1..]), p);
      assert [ts[0]][1..] == [];
    }
  }

  lemma OnlyMember(ts: seq<Token>, p: Token -> bool, t: Token)
    ensures t in Only(ts, p) <==> t in ts && p(t)
  {
    if ts != [] {
      OnlyMember(ts[1..], p, t);
      assert ts == [ts[0]] + ts[1..];
    }
  }

  lemma JoinStructure(out: seq<Token>, t: Token)
    ensures Structure(Join(out, t)) == Structure(out) + (if t.Text? then [] else [t])
  {
    StructureConcat(out, [t]);
    assert [t][1..] == [];
    if t.Text? && out != [] && out[|out| - 1].Text? {
      var init, last := out[..|out| - 1], out[|out| - 1];
      assert out == init + [last];
      StructureConcat(init, [last]);
      StructureConcat(init, [Text(last.value + t.value)]);
      assert [last][1..] == [] && [Text(last.value + t.value)][1..] == [];
    }
  }

  /** Two ways to fill that replace the same tokens give the same markers. */
  lemma {:induction false} RebuildStructure(ts: seq<Token>, f: Filler, g: Filler)
    requires forall t :: t in ts ==> f(t) == g(t) || (f(t).Text? && g(t).Text?)
    ensures Structure(Rebuild(ts, f)) == Structure(Rebuild(ts, g))
  {
    if ts != [] {
      var init, t := ts[..|ts| - 1], ts[|ts| - 1];
      RebuildStructure(init, f, g);
      assert t in ts;
      JoinStructure(Rebuild(init, f), f(t));
      JoinStructure(Rebuild(init, g), g(t));
    }
  }

  lemma {:induction false} RebuildKeepsOnly(ts: seq<Token>, f: Filler, p: Token -> bool)
    requires forall t :: p(t) ==> !t.Text? && f(t) == t
    requires forall t :: !p(t) ==> !p(f(t))
    ensures Only(Rebuild(ts, f), p) == Only(ts, p)
  {
    if ts != [] {
      var init, t := ts[..|ts| - 1], ts[|ts| - 1];
      assert ts == init + [t];
      RebuildKeepsOnly(init, f, p);
      JoinOnly(Rebuild(init, f), f(t), p);
      OnlyConcat(init, [t], p);
      OnlyOne(t, p);
    }
  }

  lemma OnlyOne(t: Token, p: Token -> bool)
    ensures Only([t], p) == if p(t) then [t] else []
  {
    assert [t][1..] == [];
  }

  lemma JoinOnly(out: seq<Token>, t: Token, p: Token -> bool)
    requires forall x: Token :: p(x) ==> !x.Text?
    ensures Only(Join(out, t), p) == Only(out, p) + (if p(t) then [t] else [])
  {
    OnlyOfStructure(Join(out, t), p);
    OnlyOfStructure(out, p);
    JoinStructure(out, t);
    OnlyConcat(Structure(out), if t.Text? then [] else [t], p);
    OnlyOne(t, p);
  }

  /** Segments with the same markers pass and fail the later checks alike. */
  lemma SameStructureSameChecks(a: seq<Token>, b: seq<Token>, source: seq<Token>)
    requires Structure(a) == Structure(b)
    ensures Only(a, TERM) == Only(b, TERM)
    ensures TagProblem(a, source) == TagProblem(b, source)
  {
    OnlyOfStructure(a, TERM);
    OnlyOfStructure(b, TERM);
    CheckOfStructure(a, [], {});
    CheckOfStructure(b, [], {});
    TagsOfStructure(a);
    TagsOfStructure(b);
  }

  /** Terms left in a segment that passed the exactness check are terms of the source. */
  lemma TermsKnown(output: seq<Token>, source: seq<Token>, targets: map<nat, string>, t: Token)
    requires AgreesTerms(targets, source) && Exactly(Only(output, TERM), Only(source, TERM), {}).None?
    requires t in output && IsTerm(t)
    ensures t.id in targets
  {
    ExactlyIs(Only(output, TERM), Only(source, TERM), {});
    OnlyMember(output, TERM, t);
    assert t in multiset(Only(output, TERM));
    assert t in Only(source, TERM);
    OnlyMember(source, TERM, t);
    var i :| 0 <= i < |source| && source[i] == t;
  }

  ghost function Verdict(r: Result<seq<Token>, Failure>): Option<Failure> {
    if r.Err? then Some(r.error) else None
  }

  lemma FinaliseIgnoresValues(output: seq<Token>, source: seq<Token>, leak: LeakScan,
                              m: map<nat, Masked>, targets: map<nat, string>,
                              m': map<nat, Masked>, targets': map<nat, string>)
    requires m.Keys == m'.Keys && AgreesTerms(targets, source) && AgreesTerms(targets', source)
    ensures Verdict(Finalise(output, source, m, targets, leak)) == Verdict(Finalise(output, source, m', targets', leak))
  {
    hide Exactly, Touching, Check, Structure, Rebuild, Only, PlainText, TagProblem;
    if EntityProblem(output, source, m.Keys, leak).None? {
      var a, a' := Rebuild(output, EntityFiller(m)), Rebuild(output, EntityFiller(m'));
      RebuildStructure(output, EntityFiller(m), EntityFiller(m'));
      SameStructureSameChecks(a, a', source);
      if Exactly(Only(a, TERM), Only(source, TERM), {}).None? {
        TermsSame(a, a', source, targets, targets');
      }
    }
  }

  lemma TermsSame(a: seq<Token>, a': seq<Token>, source: seq<Token>, targets: map<nat, string>, targets': map<nat, string>)
    requires Structure(a) == Structure(a') && AgreesTerms(targets, source) && AgreesTerms(targets', source)
    requires Exactly(Only(a, TERM), Only(source, TERM), {}).None? && Only(a, TERM) == Only(a', TERM)
    ensures TagProblem(Rebuild(a, TermFiller(targets)), source) == TagProblem(Rebuild(a', TermFiller(targets')), source)
  {
    hide Exactly, TagProblem;
    forall t | t in a && IsTerm(t) ensures t.id in targets && t.id in targets' {
      TermsKnown(a, source, targets, t);
      TermsKnown(a, source, targets', t);
    }
    forall t | t in a' && IsTerm(t) ensures t.id in targets' {
      TermsKnown(a', source, targets', t);
    }
    RebuildStructure(a, TermFiller(targets), TermFiller(targets'));
    SameStructureRebuilt(a, a', TermFiller(targets'));
    SameStructureSameChecks(Rebuild(a, TermFiller(targets)), Rebuild(a', TermFiller(targets')), source);
  }

  lemma RebuildSnoc(ts: seq<Token>, t: Token, f: Filler)
    ensures Rebuild(ts + [t], f) == Join(Rebuild(ts, f), f(t))
    ensures Structure(Rebuild(ts + [t], f)) == Structure(Rebuild(ts, f)) + (if f(t).Text? then [] else [f(t)])
  {
    assert (ts + [t])[..|ts|] == ts;
    JoinStructure(Rebuild(ts, f), f(t));
  }

  /** Rebuilding the same markers gives the same markers. */
  lemma {:induction false} StructureRebuilt(ts: seq<Token>, f: Filler)
    requires forall t :: t in ts && t.Text? ==> f(t).Text?
    ensures Structure(Rebuild(ts, f)) == Structure(Rebuild(Structure(ts), f))
  {
    hide Rebuild, Join;
    if ts != [] {
      var init, t := ts[..|ts| - 1], ts[|ts| - 1];
      StructureRebuilt(init, f);
      assert t in ts && ts == init + [t];
      StructureConcat(init, [t]);
      assert [t][1..] == [];
      RebuildSnoc(init, t, f);
      if !t.Text? {
        assert Structure([t]) == [t];
        RebuildSnoc(Structure(init), t, f);
      } else {
        assert Structure([t]) == [] && Structure(ts) == Structure(init);
      }
    }
  }

  lemma SameStructureRebuilt(a: seq<Token>, b: seq<Token>, f: Filler)
    requires Structure(a) == Structure(b) && forall t: Token :: t.Text? ==> f(t).Text?
    ensures Structure(Rebuild(a, f)) == Structure(Rebuild(b, f))
  {
    StructureRebuilt(a, f);
    StructureRebuilt(b, f);
  }

  lemma {:induction false} OpaqueKnows(source: seq<Token>)
    ensures forall id :: id in OpaqueEntities(source) <==> exists i :: 0 <= i < |source| && IsOwn(source[i]) && source[i].id == id
    ensures AgreesTerms(OpaqueTerms(source), source)
  {
    if source != [] {
      var n := |source| - 1;
      var init := source[..n];
      OpaqueKnows(init);
      forall id ensures id in OpaqueEntities(source) <==> exists i :: 0 <= i < |source| && IsOwn(source[i]) && source[i].id == id {
        if exists i :: 0 <= i < n && IsOwn(source[i]) && source[i].id == id {
          var i :| 0 <= i < n && IsOwn(source[i]) && source[i].id == id;
          assert init[i] == source[i];
        }
        if id in OpaqueEntities(init) {
          var i :| 0 <= i < n && IsOwn(init[i]) && init[i].id == id;
          assert source[i] == init[i];
        }
      }
      forall i | 0 <= i < n && IsTerm(source[i]) ensures source[i].id in OpaqueTerms(source) {
        assert init[i] == source[i];
      }
    }
  }

  /**
   The worker's verdict on a masked source is the live verdict, reason included, for the values and
   terms of every request that shares the source.
   */
  lemma WorkerSpeaksForEveryRequest(output: seq<Token>, source: seq<Token>, m: map<nat, Masked>,
                                    targets: map<nat, string>, leak: LeakScan)
    requires Agrees(m, source) && AgreesTerms(targets, source)
    ensures ValidateOutput(output, source, leak) == Verdict(Finalise(output, source, m, targets, leak))
  {
    OpaqueKnows(source);
    forall id ensures id in m <==> id in OpaqueEntities(source) {}
    assert m.Keys == OpaqueEntities(source).Keys;
    FinaliseIgnoresValues(output, source, leak, m, targets, OpaqueEntities(source), OpaqueTerms(source));
  }

  // ---- what restoring gives ----

  lemma JoinAtoms(out: seq<Token>, t: Token)
    ensures Atoms(Join(out, t)) == Atoms(out) + TokenAtoms(t)
  {
    AtomsSnoc(out, t);
    if t.Text? && out != [] && out[|out| - 1].Text? {
      var init, last := out[..|out| - 1], out[|out| - 1];
      assert out == init + [last];
      AtomsSnoc(init, last);
      AtomsSnoc(init, Text(last.value + t.value));
      CharsConcat(last.value, t.value);
      Assoc(Atoms(init), Chars(last.value), Chars(t.value));
    }
  }

  /** A rebuilt segment is its source with the own entities filled in. */
  lemma {:induction false} RebuildFills(ts: seq<Token>, m: map<nat, Masked>)
    requires forall i :: 0 <= i < |ts| && ts[i].Entity? && ts[i].id in m ==> (IsOwn(ts[i]) <==> m[ts[i].id].kind == ts[i].kind)
    ensures Atoms(Rebuild(ts, EntityFiller(m))) == Filled(ts, m)
  {
    if ts != [] {
      var init, t := ts[..|ts| - 1], ts[|ts| - 1];
      assert ts == init + [t];
      RebuildFills(init, m);
      JoinAtoms(Rebuild(init, EntityFiller(m)), EntityFiller(m)(t));
      FilledConcat(init, [t], m);
      FilledOne(t, m);
    }
  }

  lemma JoinMerged(out: seq<Token>, t: Token)
    requires Merged(out) && (t.Text? ==> t.value != "")
    ensures Merged(Join(out, t))
  {
  }

  lemma {:induction false} RebuildMerged(ts: seq<Token>, m: map<nat, Masked>)
    requires forall i :: 0 <= i < |ts| && ts[i].Text? ==> ts[i].value != ""
    requires forall id :: id in m ==> m[id].value != ""
    ensures Merged(Rebuild(ts, EntityFiller(m)))
  {
    if ts != [] {
      var init := ts[..|ts| - 1];
      RebuildMerged(init, m);
      hide Merged, Join;
      JoinMerged(Rebuild(init, EntityFiller(m)), EntityFiller(m)(ts[|ts| - 1]));
    }
  }

  /** Own entities of an answer that passed are own entities of the source. */
  lemma OwnKnown(output: seq<Token>, source: seq<Token>, m: map<nat, Masked>, i: nat)
    requires Agrees(m, source) && Exactly(Only(output, OWN), Only(source, OWN), m.Keys).None?
    requires i < |output| && output[i].Entity? && output[i].id in m
    ensures IsOwn(output[i]) <==> m[output[i].id].kind == output[i].kind
  {
    var t := output[i];
    var j :| 0 <= j < |source| && IsOwn(source[j]) && source[j].id == t.id;
    assert m[t.id].kind == source[j].kind;
    if IsOwn(t) {
      ExactlyIs(Only(output, OWN), Only(source, OWN), m.Keys);
      OnlyMember(output, OWN, t);
      assert t in multiset(Only(output, OWN));
      assert t in Only(source, OWN);
      OnlyMember(source, OWN, t);
    }
  }

  /**
   A restoration that succeeds has every own entity of the source exactly once, fills each with its
   source text and changes nothing else, and makes no two entities touch that did not touch before.
   */
  lemma RestorationIsExact(output: seq<Token>, source: seq<Token>, m: map<nat, Masked>, leak: LeakScan)
    requires Agrees(m, source) && Restored(output, source, m, leak).Ok?
    ensures multiset(Only(output, OWN)) == multiset(Only(source, OWN))
    ensures forall t :: multiset(Only(output, OWN))[t] <= 1
    ensures Atoms(Restored(output, source, m, leak).value) == Filled(output, m)
    ensures Touching(output) <= Touching(source) && leak(PlainText(output), PlainText(source)) == Passes
  {
    ExactlyIs(Only(output, OWN), Only(source, OWN), m.Keys);
    forall i | 0 <= i < |output| && output[i].Entity? && output[i].id in m
      ensures IsOwn(output[i]) <==> m[output[i].id].kind == output[i].kind
    {
      OwnKnown(output, source, m, i);
    }
    RebuildFills(output, m);
    forall p | p in Touching(output) ensures p in Touching(source) {
      assert p !in Touching(output) - Touching(source);
    }
  }

  /**
   With the source's own scan, what a restored answer says in words has exactly the numbers the
   source showed, worth the same, month numbers aside, and no address.
   */
  lemma RestoredNumbersAreTheSources(output: seq<Token>, source: seq<Token>, m: map<nat, Masked>, tb: Tables)
    requires tb.Lawful() && Agrees(m, source) && Restored(output, source, m, Scanned(tb)).Ok?
    ensures var shown, said := Worths.WorthsIn(tb.ds, PlainText(source)), Worths.WorthsIn(tb.ds, PlainText(output));
            && shown <= said && OnlyMonthsAdded(tb, PlainText(output), PlainText(source))
            && (shown == multiset{} || tb.months(PlainText(source)) == multiset{} ==> said == shown)
    ensures !tb.address(PlainText(output))
  {
    hide Scanned, Exactly, Touching, PlainText, Worths.WorthsIn, OnlyMonthsAdded;
    RestorationIsExact(output, source, m, Scanned(tb));
    PassedCarriesItsNumbers(tb, PlainText(output), PlainText(source));
    PassedIsWorthTheSame(tb, PlainText(output), PlainText(source));
  }
}
