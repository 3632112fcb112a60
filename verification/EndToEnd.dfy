/**
 One request from end to end, with a model that only copies: masked, terms substituted, cut up and
 sent through the damaged XML-like format, put together again, restored and checked.
 */
module EndToEnd {
  import opened Wrappers
  import opened Segments
  import opened Patterns
  import opened Validator
  import opened Spans
  import opened Protect
  import opened Restoring
  import opened Verdicts
  import opened Acceptance
  import opened RoundTrip
  import opened ModelCall
  import opened Answers
  import opened XmlFormat
  import opened XmlCall
  import opened Leaks
  import Glossary
  import Substitution

  // ---- replacing keeps a segment merged ----

  predicate EndsInText(ts: seq<Token>) {
    ts != [] && ts[|ts| - 1].Text?
  }

  lemma MergedConcat(a: seq<Token>, b: seq<Token>)
    requires Merged(a) && Merged(b) && !(EndsInText(a) && b != [] && b[0].Text?)
    ensures Merged(a + b)
  {
    var c := a + b;
    forall i | 0 <= i < |c| - 1 ensures !(c[i].Text? && c[i + 1].Text?) {
      if i >= |a| { assert c[i] == b[i - |a|] && c[i + 1] == b[i - |a| + 1]; }
    }
  }

  lemma {:induction false} PlacedMerged(text: string, spans: seq<Span>, pos: nat, id: nat)
    requires SpansIn(text, spans, pos)
    ensures Merged(Placed(text, spans, pos, id))
    decreases |spans|
  {
    if spans != [] {
      var s := spans[0];
      PlacedMerged(text, spans[1..], s.end, id + 1);
      MergedConcat(TextIf(text[pos..s.start]) + [Entity(s.kind, id)], Placed(text, spans[1..], s.end, id + 1));
    }
  }

  lemma NoTextBeforeText(ts: seq<Token>)
    requires Merged(ts) && EndsInText(ts)
    ensures !EndsInText(ts[..|ts| - 1])
  {
  }

  lemma {:induction false} ReplaceMerged(ts: seq<Token>, f: SpansOf, first: nat)
    requires Finder(f) && Merged(ts)
    ensures Merged(ReplaceFrom(ts, f, first).tokens)
    ensures EndsInText(ReplaceFrom(ts, f, first).tokens) ==> EndsInText(ts)
  {
    hide Placed;
    if ts != [] {
      var init, t := ts[..|ts| - 1], ts[|ts| - 1];
      ReplaceMerged(init, f, first);
      var r := ReplaceFrom(init, f, first);
      if t.Text? {
        NoTextBeforeText(ts);
        PlacedMerged(t.value, f(t.value), 0, r.next);
        MergedConcat(r.tokens, Placed(t.value, f(t.value), 0, r.next));
      } else {
        MergedConcat(r.tokens, [t]);
      }
    }
  }

  // ---- filling, on atoms ----

  lemma {:induction false} FilledIsMap(ts: seq<Token>, m: map<nat, Masked>, f: Filler)
    requires Quiet(f) && forall t :: t in ts ==> FilledToken(t, m) == TokenAtoms(f(t))
    ensures Filled(ts, m) == MapAtoms(Atoms(ts), f)
  {
    hide MapAtoms, TokenAtoms, FilledToken;
    if ts == [] {
      EmptyMap(f);
    } else {
      assert ts == [ts[0]] + ts[1..];
      FilledIsMap(ts[1..], m, f);
      MapAtomsConcat(TokenAtoms(ts[0]), Atoms(ts[1..]), f);
      MapToken(ts[0], f);
    }
  }

  /** Entities and terms are different placeholders, so it does not matter which are filled first. */
  lemma {:induction false} FillersCommute(atoms: seq<Atom>, m: map<nat, Masked>, targets: map<nat, string>)
    ensures var e, t := EntityFiller(m), TermFiller(targets);
            MapAtoms(MapAtoms(atoms, e), t) == MapAtoms(MapAtoms(atoms, t), e)
  {
    hide MapAtoms, MapAtom;
    var e, t := EntityFiller(m), TermFiller(targets);
    if atoms == [] {
      EmptyMap(e);
      EmptyMap(t);
    } else {
      var a, rest := atoms[0], atoms[1..];
      FillersCommute(rest, m, targets);
      MapCons(a, rest, e);
      MapCons(a, rest, t);
      MapAtomsConcat(MapAtom(a, e), MapAtoms(rest, e), t);
      MapAtomsConcat(MapAtom(a, t), MapAtoms(rest, t), e);
      OneCommutes(a, m, targets);
      assert atoms == [a] + rest;
    }
  }

  lemma OneCommutes(a: Atom, m: map<nat, Masked>, targets: map<nat, string>)
    ensures var e, t := EntityFiller(m), TermFiller(targets);
            MapAtoms(MapAtom(a, e), t) == MapAtoms(MapAtom(a, t), e)
  {
    var e, t := EntityFiller(m), TermFiller(targets);
    if a.Ch? {
      assert [a] == Chars([a.c]);
      MapChars([a.c], e);
      MapChars([a.c], t);
    } else {
      assert !(IsOwn(a.m) && IsTerm(a.m));
      MapToken(e(a.m), t);
      MapToken(t(a.m), e);
      if e(a.m) != a.m { assert t(a.m) == a.m && t(e(a.m)) == e(a.m); } else { assert e(t(a.m)) == t(a.m); }
    }
  }

  // ---- what is left to restore ----

  lemma {:induction false} RebuildMergedBy(ts: seq<Token>, f: Filler)
    requires forall t :: t in ts && f(t).Text? ==> f(t).value != ""
    ensures Merged(Rebuild(ts, f))
  {
    if ts != [] {
      var init := ts[..|ts| - 1];
      assert ts == init + [ts[|ts| - 1]];
      assert ts[|ts| - 1] in ts;
      RebuildMergedBy(init, f);
    }
  }

  // ---- the request ----

  /** A request on its way to the model: the masked segment, and the one with its terms substituted. */
  datatype Request = Request(segment: seq<Token>, masked: Replaced, source: Replaced)

  function Prepare(ts: seq<Token>, entities: SpansOf, terms: SpansOf): Request
    requires Finder(entities) && Finder(terms)
  {
    var masked := Replace(ts, entities);
    Request(ts, masked, Replace(masked.tokens, terms))
  }

  /** Entity spans of entity kinds, term spans of the term kind, on a segment as a client sends it. */
  ghost predicate Prepared(r: Request, entities: SpansOf, terms: SpansOf) {
    && Finder(entities) && Finder(terms) && r == Prepare(r.segment, entities, terms)
    && (forall text :: KindsIn(entities(text), ENTITY_KINDS)) && (forall text :: KindsIn(terms(text), {TERM_KIND}))
    && Merged(r.segment) && Valid(r.segment) && !HasEntity(r.segment)
  }

  lemma SourceShape(r: Request, entities: SpansOf, terms: SpansOf)
    requires Prepared(r, entities, terms)
    ensures Merged(r.masked.tokens) && Valid(r.masked.tokens) && Merged(r.source.tokens) && Valid(r.source.tokens)
    ensures TagStructure(r.source.tokens) == TagStructure(r.segment)
  {
    hide ReplaceFrom, Check;
    var a, b := FirstId(r.segment), FirstId(r.masked.tokens);
    ReplaceValid(r.segment, entities);
    ReplaceValid(r.masked.tokens, terms);
    ReplaceMerged(r.segment, entities, a);
    ReplaceMerged(r.masked.tokens, terms, b);
    ReplaceStructure(r.segment, entities, a);
    ReplaceStructure(r.masked.tokens, terms, b);
  }

  /** Each placeholder of the source is an entity with an original, or a term with one. */
  lemma SourceMarkers(r: Request, entities: SpansOf, terms: SpansOf, t: Token)
    requires Prepared(r, entities, terms) && t in r.source.tokens && t.Entity?
    ensures if IsTerm(t) then t.id in r.source.originals && r.source.originals[t.id].kind == t.kind
            else IsOwn(t) && t in r.masked.tokens && t.id in r.masked.originals && r.masked.originals[t.id].kind == t.kind
                 && t.id !in r.source.originals
  {
    hide ReplaceFrom;
    var a, b := FirstId(r.segment), FirstId(r.masked.tokens);
    SourceShape(r, entities, terms);
    ReplaceKnown(r.segment, entities, a, ENTITY_KINDS);
    ReplaceKnown(r.masked.tokens, terms, b, {TERM_KIND});
    ReplaceFresh(r.masked.tokens, terms, b);
    assert KnownMarker(t, r.masked.tokens, r.source, b, {TERM_KIND});
    if t.id < b {
      assert KnownMarker(t, r.segment, r.masked, a, ENTITY_KINDS);
    }
  }

  /** Filling terms with the text they matched, and entities with theirs, gives the segment back. */
  lemma FilledBack(r: Request, entities: SpansOf, terms: SpansOf, targets: map<nat, string>)
    requires Prepared(r, entities, terms) && targets.Keys == r.source.originals.Keys
    requires forall id :: id in targets ==> targets[id] == r.source.originals[id].value
    ensures MapAtoms(MapAtoms(Atoms(r.source.tokens), TermFiller(targets)), EntityFiller(r.masked.originals)) == Atoms(r.segment)
  {
    hide ReplaceFrom, Filled, MapAtoms, Atoms;
    var a, b := FirstId(r.segment), FirstId(r.masked.tokens);
    var src, mid := r.source.tokens, r.masked.tokens;
    ReplaceFresh(mid, terms, b);
    forall t | t in src ensures FilledToken(t, r.source.originals) == TokenAtoms(TermFiller(targets)(t)) {
      if t.Entity? {
        SourceMarkers(r, entities, terms, t);
        assert t.id in targets <==> t.id in r.source.originals;
      }
    }
    FilledIsMap(src, r.source.originals, TermFiller(targets));
    ReplaceFills(mid, terms, b, r.source.originals);
    ReplaceKnown(r.segment, entities, a, ENTITY_KINDS);
    forall t | t in mid ensures FilledToken(t, r.masked.originals) == TokenAtoms(EntityFiller(r.masked.originals)(t)) {
      if t.Entity? {
        assert KnownMarker(t, r.segment, r.masked, a, ENTITY_KINDS);
      }
    }
    FilledIsMap(mid, r.masked.originals, EntityFiller(r.masked.originals));
    ReplaceFills(r.segment, entities, a, r.masked.originals);
  }

  /** An answer with a request's values and terms put back. */
  function Refilled(ts: seq<Token>, r: Request, targets: map<nat, string>): seq<Token> {
    Filling(ts, r.masked.originals, targets)
  }

  /** With every term filled by the text it matched, restoring undoes the whole preparation. */
  lemma RestoringUndoes(r: Request, entities: SpansOf, terms: SpansOf, targets: map<nat, string>)
    requires Prepared(r, entities, terms) && targets.Keys == r.source.originals.Keys
    requires forall id :: id in targets ==> targets[id] == r.source.originals[id].value
    ensures Refilled(r.source.tokens, r, targets) == r.segment
  {
    hide ReplaceFrom, MapAtoms, Atoms, Rebuild;
    var src, e, t := r.source.tokens, EntityFiller(r.masked.originals), TermFiller(targets);
    SourceShape(r, entities, terms);
    FilledBack(r, entities, terms, targets);
    FillersCommute(Atoms(src), r.masked.originals, targets);
    RebuildIsMap(src, e);
    RebuildIsMap(Rebuild(src, e), t);
    ReplaceKnown(r.masked.tokens, terms, FirstId(r.masked.tokens), {TERM_KIND});
    forall id | id in targets ensures targets[id] != "" {
      assert id in r.source.originals;
    }
    RestorationMerged(r, entities, terms, targets);
    MergedUnique(Refilled(r.source.tokens, r, targets), r.segment);
  }

  lemma RestorationMerged(r: Request, entities: SpansOf, terms: SpansOf, targets: map<nat, string>)
    requires Prepared(r, entities, terms) && forall id :: id in targets ==> targets[id] != ""
    ensures Merged(Refilled(r.source.tokens, r, targets))
  {
    hide ReplaceFrom, Rebuild;
    var a := FirstId(r.segment);
    SourceShape(r, entities, terms);
    ReplaceKnown(r.segment, entities, a, ENTITY_KINDS);
    RebuildMergedBy(r.source.tokens, EntityFiller(r.masked.originals));
    RebuildMergedBy(Rebuild(r.source.tokens, EntityFiller(r.masked.originals)), TermFiller(targets));
  }

  /** Whatever the terms' targets are, the restored segment has the client's markers. */
  lemma RestorationKeepsMarkers(r: Request, entities: SpansOf, terms: SpansOf, targets: map<nat, string>)
    requires Prepared(r, entities, terms) && targets.Keys == r.source.originals.Keys
    ensures Structure(Refilled(r.source.tokens, r, targets)) == Structure(r.segment)
  {
    hide ReplaceFrom, Rebuild;
    var same := map id | id in targets :: r.source.originals[id].value;
    RestoringUndoes(r, entities, terms, same);
    RebuildStructure(Rebuild(r.source.tokens, EntityFiller(r.masked.originals)), TermFiller(targets), TermFiller(same));
  }

  // ---- answers with the source's markers ----

  /** What filling these markers adds, in atoms. */
  function Grown(marks: seq<Token>, f: Filler): int {
    if marks == [] then 0 else |TokenAtoms(f(marks[0]))| - 1 + Grown(marks[1..], f)
  }

  lemma GrownOne(m: Token, rest: seq<Token>, f: Filler)
    ensures Grown([m] + rest, f) == |TokenAtoms(f(m))| - 1 + Grown(rest, f)
  {
    assert ([m] + rest)[1..] == rest;
  }

  /** How much filling adds depends on the markers only. */
  lemma {:induction false} MapGrows(atoms: seq<Atom>, f: Filler)
    ensures |MapAtoms(atoms, f)| == |atoms| + Grown(MarksOf(atoms), f)
  {
    hide TokenAtoms;
    if atoms != [] {
      MapGrows(atoms[1..], f);
      var rest := MarksOf(atoms[1..]);
      if atoms[0].Mark? { GrownOne(atoms[0].m, rest, f); } else { assert MarksOf(atoms) == rest; }
    }
  }

  lemma RebuildGrows(ts: seq<Token>, f: Filler)
    requires Quiet(f)
    ensures |Atoms(Rebuild(ts, f))| == |Atoms(ts)| + Grown(Structure(ts), f)
  {
    hide Atoms, Rebuild, MapAtoms, Grown, MarksOf, Structure;
    RebuildIsMap(ts, f);
    MapGrows(Atoms(ts), f);
    StructureIsMarks(ts);
  }

  /** Of two answers with the same markers, the one with less text restores to less. */
  lemma RefilledLength(a: seq<Token>, b: seq<Token>, r: Request, targets: map<nat, string>)
    requires Structure(a) == Structure(b)
    ensures |Atoms(Refilled(a, r, targets))| - |Atoms(a)| == |Atoms(Refilled(b, r, targets))| - |Atoms(b)|
    ensures Structure(Refilled(a, r, targets)) == Structure(Refilled(b, r, targets))
  {
    hide Atoms, Rebuild, Grown, Structure;
    var e, t := EntityFiller(r.masked.originals), TermFiller(targets);
    RebuildGrows(a, e);
    RebuildGrows(b, e);
    SameStructureRebuilt(a, b, e);
    RebuildGrows(Rebuild(a, e), t);
    RebuildGrows(Rebuild(b, e), t);
    SameStructureRebuilt(Rebuild(a, e), Rebuild(b, e), t);
  }

  /** What a service's own checks can object to in an answer with the markers of its source. */
  function LastObjection(output: seq<Token>, source: seq<Token>, leak: LeakScan): Option<Failure> {
    if ScanProblem(output, source, leak).Some? then ScanProblem(output, source, leak)
    else if Touching(output) - Touching(source) != {} then Some(EntityCheck(Adjacent))
    else None
  }

  /** The counts of both sorts of placeholder are right. */
  lemma CountsPass(r: Request, entities: SpansOf, terms: SpansOf, output: seq<Token>)
    requires Prepared(r, entities, terms) && Structure(output) == Structure(r.source.tokens)
    ensures var src := r.source.tokens;
            && Exactly(Only(output, OWN), Only(src, OWN), r.masked.originals.Keys).None?
            && Exactly(Only(output, TERM), Only(src, TERM), {}).None?
            && Only(Rebuild(output, EntityFiller(r.masked.originals)), TERM) == Only(output, TERM)
  {
    hide ReplaceFrom, Rebuild, Exactly, Only, Structure, Check;
    var src := r.source.tokens;
    SourceShape(r, entities, terms);
    SortPasses(src, src, OWN, r.masked.originals.Keys);
    SortPasses(src, src, TERM, {});
    OnlyOfStructure(output, OWN);
    OnlyOfStructure(src, OWN);
    OnlyOfStructure(output, TERM);
    OnlyOfStructure(src, TERM);
    RebuildKeepsOnly(output, EntityFiller(r.masked.originals), TERM);
  }

  /** The checks of live finalisation on an answer with the source's markers. */
  lemma SameMarkersPass(r: Request, entities: SpansOf, terms: SpansOf, targets: map<nat, string>, leak: LeakScan, output: seq<Token>)
    requires Prepared(r, entities, terms) && targets.Keys == r.source.originals.Keys
    requires Structure(output) == Structure(r.source.tokens)
    ensures var src := r.source.tokens;
            Finalise(output, src, r.masked.originals, targets, leak)
            == if LastObjection(output, src, leak).Some? then Err(LastObjection(output, src, leak).value)
               else Ok(Refilled(output, r, targets))
  {
    hide ReplaceFrom, Rebuild, Exactly, Only, Touching, PlainText, Structure, TagStructure, Check, ScanProblem;
    var src := r.source.tokens;
    SourceShape(r, entities, terms);
    CountsPass(r, entities, terms, output);
    var b := Refilled(output, r, targets);
    RefilledLength(output, src, r, targets);
    RestorationKeepsMarkers(r, entities, terms, targets);
    CheckOfStructure(b, [], {});
    CheckOfStructure(r.segment, [], {});
    TagsOfStructure(b);
    TagsOfStructure(r.segment);
  }

  /** The checks of live finalisation on a source that came back unchanged. */
  lemma UnchangedSourcePasses(r: Request, entities: SpansOf, terms: SpansOf, targets: map<nat, string>, leak: LeakScan)
    requires Prepared(r, entities, terms) && targets.Keys == r.source.originals.Keys
    ensures var src := r.source.tokens;
            Finalise(src, src, r.masked.originals, targets, leak)
            == if ScanProblem(src, src, leak).Some? then Err(ScanProblem(src, src, leak).value) else Ok(Refilled(r.source.tokens, r, targets))
  {
    hide Finalise, Touching, ScanProblem;
    SameMarkersPass(r, entities, terms, targets, leak, r.source.tokens);
    assert Touching(r.source.tokens) - Touching(r.source.tokens) == {};
  }

  /**
   An answer with the source's markers and no more text is served unless the scan objects or
   placeholders have come to touch; with every term filled by the text it matched it gives the
   client's segment exactly when it is the source.
   */
  lemma ShortenedIsServed(r: Request, entities: SpansOf, terms: SpansOf, targets: map<nat, string>, leak: LeakScan, output: seq<Token>)
    requires Prepared(r, entities, terms) && targets.Keys == r.source.originals.Keys
    requires Structure(output) == Structure(r.source.tokens) && |Atoms(output)| <= |Atoms(r.source.tokens)|
    requires |Atoms(output)| == |Atoms(r.source.tokens)| ==> output == r.source.tokens
    ensures var src := r.source.tokens;
            var served := Finalise(output, src, r.masked.originals, targets, leak);
            && (served.Ok? <==> LastObjection(output, src, leak).None?)
            && (served.Ok? ==> Structure(served.value) == Structure(r.segment))
            && ((forall id :: id in targets ==> targets[id] == r.source.originals[id].value)
                ==> (served == Ok(r.segment) <==> output == src && ScanProblem(src, src, leak).None?))
  {
    hide Finalise, Structure, Prepared, Refilled, LastObjection, ScanProblem, Atoms;
    var src := r.source.tokens;
    SameMarkersPass(r, entities, terms, targets, leak, output);
    RefilledLength(output, src, r, targets);
    RestorationKeepsMarkers(r, entities, terms, targets);
    if forall id :: id in targets ==> targets[id] == r.source.originals[id].value {
      RestoringUndoes(r, entities, terms, targets);
      UnchangedSourcePasses(r, entities, terms, targets, leak);
    }
  }

  // ---- the whole way ----

  /**
   With a model that copies each question and damages only tag syntax, an answer can be refused for
   two reasons only: the leak scan, and placeholders that touch once the rendering artefacts between
   them are stripped.  Otherwise the client's own tags are served, its values back in place, and each
   term its target.  Where every target is the text it matched, the client's segment is served exactly
   if and only if no text sent held an artefact and the scan passes the text the masker left.
   */
  lemma EchoIsServed(ab: Alphabet, sg: Signs, artefact: char -> bool, lt: Glossary.Letters, termbase: seq<Glossary.Term>,
                     p: Protect.Patterns, translate: set<string>, r: Request, targets: map<nat, string>, leak: LeakScan, damage: Damage)
    requires ab.Lawful() && sg.Lawful() && Regular(p)
    requires Finder(MaskSpans(p, translate)) && Finder(Substitution.TermSpans(lt, termbase))
    requires r == Prepare(r.segment, MaskSpans(p, translate), Substitution.TermSpans(lt, termbase))
    requires Merged(r.segment) && Valid(r.segment) && !HasEntity(r.segment) && !HasStray(sg, r.source.tokens)
    requires targets.Keys == r.source.originals.Keys
    requires forall s :: s in Sends(Plan(ab, r.source.tokens)) ==> AllFit(sg, s, damage(s))
    ensures var src := r.source.tokens;
            var answer := Translated(ab, src, DamagedEcho(sg, artefact, damage));
            var served := Finalise(answer, src, r.masked.originals, targets, leak);
            && (served.Ok? <==> LastObjection(answer, src, leak).None?)
            && (served.Ok? ==> Structure(served.value) == Structure(r.segment))
            && ((forall id :: id in targets ==> targets[id] == r.source.originals[id].value)
                ==> (served == Ok(r.segment) <==> SendsClean(artefact, Plan(ab, src)) && ScanProblem(src, src, leak).None?))
  {
    var entities, terms := MaskSpans(p, translate), Substitution.TermSpans(lt, termbase);
    forall text ensures KindsIn(entities(text), ENTITY_KINDS) { MaskKinds(p, translate, text); }
    TermKinds(lt, termbase);
    IsPrepared(r, entities, terms);
    hide *;
    SourceShape(r, entities, terms);
    EchoThroughXml(ab, sg, r.source.tokens, artefact, damage);
    ShortenedIsServed(r, entities, terms, targets, leak, Translated(ab, r.source.tokens, DamagedEcho(sg, artefact, damage)));
  }

  lemma IsPrepared(r: Request, entities: SpansOf, terms: SpansOf)
    requires Finder(entities) && Finder(terms) && r == Prepare(r.segment, entities, terms)
    requires forall text :: KindsIn(entities(text), ENTITY_KINDS)
    requires forall text :: KindsIn(terms(text), {TERM_KIND})
    requires Merged(r.segment) && Valid(r.segment) && !HasEntity(r.segment)
    ensures Prepared(r, entities, terms)
  {
  }

  lemma TermKinds(lt: Glossary.Letters, termbase: seq<Glossary.Term>)
    ensures forall text :: KindsIn(Substitution.TermSpans(lt, termbase)(text), {TERM_KIND})
  {
  }
}
