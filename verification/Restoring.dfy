/** Masking a segment, restoring entities and terms, and the checks on what the model answered. */
module Restoring {
  import opened Wrappers
  import opened Segments
  import opened Validator
  import opened Spans
  import opened Protect
  import opened Leaks

  // ---- masking ----

  /** Regular expressions find what they are defined to find, in every text, for the known kinds. */
  ghost predicate Regular(p: Patterns) {
    && (forall text :: FoundIn(text, p(text)))
    && (forall text, k :: 0 <= k < |p(text)| ==> p(text)[k].kind in ENTITY_KINDS)
  }

  function Untranslated(spans: seq<Span>, translate: set<string>): seq<Span> {
    if spans == [] then []
    else (if spans[0].kind in translate then [] else [spans[0]]) + Untranslated(spans[1..], translate)
  }

  lemma {:induction false} UntranslatedIn(text: string, spans: seq<Span>, translate: set<string>, pos: nat)
    requires SpansIn(text, spans, pos)
    ensures SpansIn(text, Untranslated(spans, translate), pos)
    decreases |spans|
  {
    if spans != [] {
      UntranslatedIn(text, spans[1..], translate, spans[0].end);
    }
  }

  function MaskSpans(p: Patterns, translate: set<string>): SpansOf {
    (text: string) =>
      if FoundIn(text, p(text)) then Untranslated(SpansOfText(text, p(text)), translate) else []
  }

  lemma MaskSpansFind(p: Patterns, translate: set<string>)
    requires Regular(p)
    ensures Finder(MaskSpans(p, translate))
  {
    forall text ensures SpansIn(text, MaskSpans(p, translate)(text), 0) {
      AcceptedSpans(text, p(text));
      UntranslatedIn(text, SpansOfText(text, p(text)), translate, 0);
    }
  }

  lemma {:induction false} UntranslatedIff(spans: seq<Span>, translate: set<string>, s: Span)
    ensures s in Untranslated(spans, translate) <==> s in spans && s.kind !in translate
  {
    if spans != [] {
      UntranslatedIff(spans[1..], translate, s);
      assert spans == [spans[0]] + spans[1..];
    }
  }

  /** A stretch of text becomes a placeholder if and only if a pattern takes it, of a kind not left to the model. */
  lemma MaskSpanIff(p: Patterns, translate: set<string>, text: string, s: Span)
    requires Regular(p)
    ensures s in MaskSpans(p, translate)(text)
            <==> s.kind !in translate && exists i :: 0 <= i < |p(text)| && TakenBy(text, p(text), i, s)
  {
    hide TakenBy;
    UntranslatedIff(SpansOfText(text, p(text)), translate, s);
    MaskedSpanIff(text, p(text), s);
  }

  datatype MaskError = NotTranslatable | EntityNotAllowed

  method Mask(ts: seq<Token>, p: Patterns, translate: set<string>) returns (r: Result<Replaced, MaskError>)
    requires Regular(p)
    ensures Finder(MaskSpans(p, translate))
    ensures r == if !(translate <= TRANSLATABLE_KINDS) then Err(NotTranslatable)
                 else if HasEntity(ts) then Err(EntityNotAllowed)
                 else Ok(Replace(ts, MaskSpans(p, translate)))
  {
    MaskSpansFind(p, translate);
    if !(translate <= TRANSLATABLE_KINDS) {
      return Err(NotTranslatable);
    }
    if HasEntity(ts) {
      return Err(EntityNotAllowed);
    }
    var replaced := ReplaceLoop(ts, MaskSpans(p, translate));
    r := Ok(replaced);
  }

  // ---- the checks on entities ----

  predicate IsOwn(t: Token) {
    t.Entity? && t.kind in ENTITY_KINDS
  }

  predicate IsTerm(t: Token) {
    t.Entity? && t.kind == TERM_KIND
  }

  /** The markers of one sort, in order. */
  function Only(ts: seq<Token>, p: Token -> bool): seq<Token> {
    if ts == [] then [] else (if p(ts[0]) then [ts[0]] else []) + Only(ts[1..], p)
  }

  const OWN: Token -> bool := (t: Token) => IsOwn(t)
  const TERM: Token -> bool := (t: Token) => IsTerm(t)

  datatype Reason = KindMismatch | Unknown | Duplicate | Missing | Leak | Adjacent

  datatype Failure =
    | EntityCheck(reason: Reason)
    | Incomparable
    | GlossaryCheck(reason: Reason)
    | Invalid(cause: Cause)
    | TagMismatch

  /** What the loop over the answer's entities objects to first. */
  function FirstBad(answer: seq<Token>, wanted: multiset<Token>, got: multiset<Token>, known: set<nat>): Option<Reason> {
    if answer == [] then None
    else if answer[0] !in wanted then
      Some(if !answer[0].Text? && answer[0].id in known then KindMismatch else Unknown)
    else if got[answer[0]] > 1 then Some(Duplicate)
    else FirstBad(answer[1..], wanted, got, known)
  }

  /** Every placeholder of the source exactly once, and none besides. */
  function Exactly(answer: seq<Token>, source: seq<Token>, known: set<nat>): Option<Reason> {
    var bad := FirstBad(answer, multiset(source), multiset(answer), known);
    if bad.Some? then bad else if multiset(source) - multiset(answer) != multiset{} then Some(Missing) else None
  }

  lemma {:induction false} FirstBadIs(answer: seq<Token>, wanted: multiset<Token>, got: multiset<Token>, known: set<nat>)
    ensures FirstBad(answer, wanted, got, known).None? <==> forall t :: t in answer ==> t in wanted && got[t] <= 1
  {
    if answer != [] {
      FirstBadIs(answer[1..], wanted, got, known);
      assert answer == [answer[0]] + answer[1..];
    }
  }

  /** The exactness check is multiset equality with no placeholder twice. */
  lemma ExactlyIs(answer: seq<Token>, source: seq<Token>, known: set<nat>)
    ensures Exactly(answer, source, known).None?
            <==> multiset(answer) == multiset(source) && forall t :: multiset(answer)[t] <= 1
  {
    FirstBadIs(answer, multiset(source), multiset(answer), known);
    if Exactly(answer, source, known).None? {
      assert multiset(source) - multiset(answer) == multiset{};
      forall t ensures multiset(answer)[t] == multiset(source)[t] && multiset(answer)[t] <= 1 {
        assert (multiset(source) - multiset(answer))[t] == 0;
        if t in multiset(answer) { assert t in answer; }
      }
    } else if multiset(answer) == multiset(source) {
      assert multiset(source) - multiset(answer) == multiset{};
    }
  }

  /** Neighbours on the drawn page: entities with no text and no void element from one to the next. */
  function TouchingFrom(ts: seq<Token>, prev: Option<nat>): set<(nat, nat)> {
    if ts == [] then {}
    else if IsOwn(ts[0]) then
      (if prev.Some? then {(prev.value, ts[0].id)} else {}) + TouchingFrom(ts[1..], Some(ts[0].id))
    else if ts[0].Text? || ts[0].Void? then TouchingFrom(ts[1..], None)
    else TouchingFrom(ts[1..], prev)
  }

  function Touching(ts: seq<Token>): set<(nat, nat)> {
    TouchingFrom(ts, None)
  }

  method TouchingLoop(ts: seq<Token>) returns (pairs: set<(nat, nat)>)
    ensures pairs == Touching(ts)
  {
    pairs := {};
    var prev: Option<nat> := None;
    for i := 0 to |ts|
      invariant pairs + TouchingFrom(ts[i..], prev) == Touching(ts)
    {
      assert ts[i..][0] == ts[i] && ts[i..][1..] == ts[i + 1..];
      if IsOwn(ts[i]) {
        if prev.Some? {
          pairs := pairs + {(prev.value, ts[i].id)};
        }
        prev := Some(ts[i].id);
      } else if ts[i].Text? || ts[i].Void? {
        prev := None;
      }
    }
  }

  /** All text of a segment, which is what the leak scan reads. */
  function PlainText(ts: seq<Token>): string {
    if ts == [] then "" else (if ts[0].Text? then ts[0].value else "") + PlainText(ts[1..])
  }

  /** The scan's objection; a source with a numeral that cannot be compared is an error of its own. */
  function ScanProblem(output: seq<Token>, source: seq<Token>, leak: LeakScan): Option<Failure> {
    var scan := leak(PlainText(output), PlainText(source));
    if scan.Fails? then Some(Incomparable) else if scan.Objects? then Some(EntityCheck(Leak)) else None
  }

  function EntityProblem(output: seq<Token>, source: seq<Token>, known: set<nat>, leak: LeakScan): Option<Failure> {
    var exact := Exactly(Only(output, OWN), Only(source, OWN), known);
    if exact.Some? then Some(EntityCheck(exact.value))
    else if ScanProblem(output, source, leak).Some? then ScanProblem(output, source, leak)
    else if Touching(output) - Touching(source) != {} then Some(EntityCheck(Adjacent))
    else None
  }

  // ---- putting values back ----

  /** The originals know every own entity of a segment, by id and kind. */
  ghost predicate Agrees(m: map<nat, Masked>, source: seq<Token>) {
    && (forall id :: id in m <==> exists i :: 0 <= i < |source| && IsOwn(source[i]) && source[i].id == id)
    && (forall i :: 0 <= i < |source| && IsOwn(source[i]) ==> m[source[i].id].kind == source[i].kind)
  }

  ghost predicate AgreesTerms(targets: map<nat, string>, source: seq<Token>) {
    forall i :: 0 <= i < |source| && IsTerm(source[i]) ==> source[i].id in targets
  }

  /** Neighbouring texts become one. */
  function Join(out: seq<Token>, t: Token): seq<Token> {
    if t.Text? && out != [] && out[|out| - 1].Text? then
      out[..|out| - 1] + [Text(out[|out| - 1].value + t.value)]
    else out + [t]
  }

  /** What takes the place of a token. */
  type Filler = Token -> Token

  function Rebuild(ts: seq<Token>, fill: Filler): seq<Token> {
    if ts == [] then [] else Join(Rebuild(ts[..|ts| - 1], fill), fill(ts[|ts| - 1]))
  }

  method RebuildLoop(ts: seq<Token>, fill: Filler) returns (out: seq<Token>)
    ensures out == Rebuild(ts, fill)
  {
    out := [];
    for i := 0 to |ts|
      invariant out == Rebuild(ts[..i], fill)
    {
      assert ts[..i + 1][..i] == ts[..i];
      var token := fill(ts[i]);
      if token.Text? && out != [] && out[|out| - 1].Text? {
        out := out[|out| - 1 := Text(out[|out| - 1].value + token.value)];
      } else {
        out := out + [token];
      }
    }
    assert ts[..|ts|] == ts;
  }

  function EntityFiller(m: map<nat, Masked>): Filler {
    (t: Token) => if IsOwn(t) && t.id in m then Text(m[t.id].value) else t
  }

  function TermFiller(targets: map<nat, string>): Filler {
    (t: Token) => if IsTerm(t) && t.id in targets then Text(targets[t.id]) else t
  }

  method Restore(output: seq<Token>, source: seq<Token>, m: map<nat, Masked>, leak: LeakScan)
    returns (r: Result<seq<Token>, Failure>)
    requires Agrees(m, source)
    ensures r == Restored(output, source, m, leak)
  {
    var exact := Exactly(Only(output, OWN), Only(source, OWN), m.Keys);
    if exact.Some? {
      return Err(EntityCheck(exact.value));
    }
    var scan := leak(PlainText(output), PlainText(source));
    if scan.Fails? {
      return Err(Incomparable);
    }
    if scan.Objects? {
      return Err(EntityCheck(Leak));
    }
    var now := TouchingLoop(output);
    var before := TouchingLoop(source);
    if now - before != {} {
      return Err(EntityCheck(Adjacent));
    }
    var tokens := RebuildLoop(output, EntityFiller(m));
    r := Ok(tokens);
  }

  function Restored(output: seq<Token>, source: seq<Token>, m: map<nat, Masked>, leak: LeakScan)
    : Result<seq<Token>, Failure>
  {
    var problem := EntityProblem(output, source, m.Keys, leak);
    if problem.Some? then Err(problem.value) else Ok(Rebuild(output, EntityFiller(m)))
  }

  function RestoredTerms(output: seq<Token>, source: seq<Token>, targets: map<nat, string>): Result<seq<Token>, Failure> {
    var exact := Exactly(Only(output, TERM), Only(source, TERM), {});
    if exact.Some? then Err(GlossaryCheck(exact.value)) else Ok(Rebuild(output, TermFiller(targets)))
  }

  function TagProblem(output: seq<Token>, source: seq<Token>): Option<Failure> {
    var cause := Check(output, [], {});
    if cause.Some? then Some(Invalid(cause.value))
    else if TagStructure(output) != TagStructure(source) then Some(TagMismatch)
    else None
  }

  /** Live: entities restored, terms restored, tags checked. */
  function Finalise(output: seq<Token>, source: seq<Token>, m: map<nat, Masked>, targets: map<nat, string>, leak: LeakScan)
    : Result<seq<Token>, Failure>
  {
    var a := Restored(output, source, m, leak);
    if a.Err? then a
    else
      var b := RestoredTerms(a.value, source, targets);
      if b.Err? then b
      else
        var tags := TagProblem(b.value, source);
        if tags.Some? then Err(tags.value) else b
  }

  /** Stands in for a value the worker does not hold. */
  const OPAQUE := "<value>"

  function OpaqueEntities(source: seq<Token>): map<nat, Masked> {
    if source == [] then map[]
    else
      var n := |source| - 1;
      if IsOwn(source[n]) then OpaqueEntities(source[..n])[source[n].id := Masked(source[n].kind, OPAQUE)]
      else OpaqueEntities(source[..n])
  }

  function OpaqueTerms(source: seq<Token>): map<nat, string> {
    if source == [] then map[]
    else
      var n := |source| - 1;
      if IsTerm(source[n]) then OpaqueTerms(source[..n])[source[n].id := OPAQUE] else OpaqueTerms(source[..n])
  }

  /** The worker: the same checks with values it does not know. */
  function ValidateOutput(output: seq<Token>, source: seq<Token>, leak: LeakScan): Option<Failure> {
    var r := Finalise(output, source, OpaqueEntities(source), OpaqueTerms(source), leak);
    if r.Err? then Some(r.error) else None
  }
}
