/** When an answer is served: the checks in words, on the answer as the model gave it. */
module Acceptance {
  import opened Wrappers
  import opened Segments
  import opened Validator
  import opened Spans
  import opened Protect
  import opened Restoring
  import opened Verdicts
  import opened Leaks

  /** A placeholder that is filled in before an answer is served. */
  predicate IsFilled(t: Token) {
    t.Entity? && (t.kind in ENTITY_KINDS || t.kind == TERM_KIND)
  }

  /** The placeholders of one sort are the source's, each as often as there and none twice. */
  ghost predicate SamePlaceholders(output: seq<Token>, source: seq<Token>, sort: Token -> bool) {
    forall t :: sort(t) ==> multiset(output)[t] == multiset(source)[t] <= 1
  }

  /** Two entities come one after the other with nothing between them that the page would show. */
  ghost predicate Touch(ts: seq<Token>, a: nat, b: nat) {
    exists i, j :: TouchAt(ts, i, j, a, b)
  }

  ghost predicate TouchAt(ts: seq<Token>, i: int, j: int, a: nat, b: nat) {
    0 <= i < j < |ts| && OwnAt(ts, i, a) && OwnAt(ts, j, b) && forall k :: i < k < j ==> Hidden(ts[k])
  }

  /** A marker the drawn page shows nothing for. */
  predicate Hidden(t: Token) {
    t.Open? || t.Close? || (t.Entity? && t.kind !in ENTITY_KINDS)
  }

  predicate OwnAt(ts: seq<Token>, i: nat, id: nat)
    requires i < |ts|
  {
    ts[i].Entity? && ts[i].kind in ENTITY_KINDS && ts[i].id == id
  }

  /** No two entities touch that do not touch in the source. */
  ghost predicate NothingNewTouches(output: seq<Token>, source: seq<Token>) {
    forall a: nat, b: nat :: Touch(output, a, b) ==> Touch(source, a, b)
  }

  /** The characters of a segment, in order. */
  function Characters(atoms: seq<Atom>): string {
    if atoms == [] then "" else (if atoms[0].Ch? then [atoms[0].c] else "") + Characters(atoms[1..])
  }

  function Words(ts: seq<Token>): string {
    Characters(Atoms(ts))
  }

  /** The markers that are left once placeholders are filled in. */
  const LEFT: Token -> bool := (t: Token) => !t.Text? && !IsFilled(t)

  const TAG: Token -> bool := (t: Token) => t.Open? || t.Close? || t.Void?

  /** The inline tags are the source's, in order. */
  predicate SameTags(output: seq<Token>, source: seq<Token>) {
    Only(output, TAG) == Only(source, TAG)
  }

  ghost predicate ValidOnceFilled(output: seq<Token>) {
    WellNested(Only(output, LEFT)) && IdsOnce(Only(output, LEFT))
  }

  /** What an answer must be to be served. */
  ghost predicate Acceptable(output: seq<Token>, source: seq<Token>, leak: LeakScan) {
    && SamePlaceholders(output, source, OWN)
    && leak(Words(output), Words(source)) == Passes
    && NothingNewTouches(output, source)
    && SamePlaceholders(output, source, TERM)
    && ValidOnceFilled(output)
    && SameTags(output, source)
  }

  // ---- each check in words ----

  lemma {:induction false} OnlyCounts(ts: seq<Token>, p: Token -> bool, t: Token)
    ensures multiset(Only(ts, p))[t] == if p(t) then multiset(ts)[t] else 0
  {
    if ts != [] {
      OnlyCounts(ts[1..], p, t);
      assert ts == [ts[0]] + ts[1..];
    }
  }

  /** Counting passes exactly when the placeholders are the source's. */
  lemma ExactlyIsSame(output: seq<Token>, source: seq<Token>, sort: Token -> bool, known: set<nat>)
    ensures Exactly(Only(output, sort), Only(source, sort), known).None? <==> SamePlaceholders(output, source, sort)
  {
    hide Exactly, Only;
    var a, b := Only(output, sort), Only(source, sort);
    ExactlyIs(a, b, known);
    forall t ensures multiset(a)[t] == if sort(t) then multiset(output)[t] else 0 { OnlyCounts(output, sort, t); }
    forall t ensures multiset(b)[t] == if sort(t) then multiset(source)[t] else 0 { OnlyCounts(source, sort, t); }
    if SamePlaceholders(output, source, sort) {
      forall t ensures multiset(a)[t] == multiset(b)[t] {}
    }
  }

  /** Nothing is shown before the entity at `j`. */
  ghost predicate Reaches(ts: seq<Token>, b: nat, j: nat) {
    j < |ts| && OwnAt(ts, j, b) && forall k :: 0 <= k < j ==> Hidden(ts[k])
  }

  ghost predicate Reached(ts: seq<Token>, b: nat) {
    exists j: nat :: Reaches(ts, b, j)
  }

  lemma TouchOfTail(ts: seq<Token>, a: nat, b: nat)
    requires ts != []
    ensures Touch(ts, a, b) <==> Touch(ts[1..], a, b) || (OwnAt(ts, 0, a) && Reached(ts[1..], b))
  {
    var rest := ts[1..];
    if i, j :| TouchAt(rest, i, j, a, b) {
      forall k | i + 1 < k < j + 1 ensures Hidden(ts[k]) { assert ts[k] == rest[k - 1]; }
      assert TouchAt(ts, i + 1, j + 1, a, b);
    }
    if OwnAt(ts, 0, a) && Reached(rest, b) {
      var j: nat :| Reaches(rest, b, j);
      forall k | 0 < k < j + 1 ensures Hidden(ts[k]) { assert ts[k] == rest[k - 1]; }
      assert TouchAt(ts, 0, j + 1, a, b);
    }
    if i, j :| TouchAt(ts, i, j, a, b) {
      forall k | i - 1 < k < j - 1 && k >= 0 ensures Hidden(rest[k]) { assert rest[k] == ts[k + 1]; }
      if i == 0 { assert Reaches(rest, b, j - 1); } else { assert TouchAt(rest, i - 1, j - 1, a, b); }
    }
  }

  lemma ReachedOfTail(ts: seq<Token>, b: nat)
    requires ts != []
    ensures Reached(ts, b) <==> OwnAt(ts, 0, b) || (Hidden(ts[0]) && Reached(ts[1..], b))
  {
    var rest := ts[1..];
    if OwnAt(ts, 0, b) { assert Reaches(ts, b, 0); }
    if Hidden(ts[0]) && Reached(rest, b) {
      var j: nat :| Reaches(rest, b, j);
      forall k | 0 <= k < j + 1 ensures Hidden(ts[k]) { if k > 0 { assert ts[k] == rest[k - 1]; } }
      assert Reaches(ts, b, j + 1);
    }
    if Reached(ts, b) {
      var j: nat :| Reaches(ts, b, j);
      if j > 0 {
        forall k | 0 <= k < j - 1 ensures Hidden(rest[k]) { assert rest[k] == ts[k + 1]; }
        assert Reaches(rest, b, j - 1);
      }
    }
  }

  lemma {:induction false} TouchingFromIs(ts: seq<Token>, prev: Option<nat>, a: nat, b: nat)
    ensures (a, b) in TouchingFrom(ts, prev) <==> Touch(ts, a, b) || (prev == Some(a) && Reached(ts, b))
  {
    if ts != [] {
      hide Touch, Reached;
      TouchOfTail(ts, a, b);
      ReachedOfTail(ts, b);
      TouchingFromIs(ts[1..], if IsOwn(ts[0]) then Some(ts[0].id) else if ts[0].Text? || ts[0].Void? then None else prev, a, b);
    }
  }

  /** The pairs the loop collects are the pairs that touch. */
  lemma TouchingIs(ts: seq<Token>, a: nat, b: nat)
    ensures (a, b) in Touching(ts) <==> Touch(ts, a, b)
  {
    TouchingFromIs(ts, None, a, b);
  }

  lemma NewlyTouching(output: seq<Token>, source: seq<Token>)
    ensures Touching(output) - Touching(source) == {} <==> NothingNewTouches(output, source)
  {
    hide Touching, Touch;
    forall a: nat, b: nat ensures (a, b) in Touching(output) <==> Touch(output, a, b) { TouchingIs(output, a, b); }
    forall a: nat, b: nat ensures (a, b) in Touching(source) <==> Touch(source, a, b) { TouchingIs(source, a, b); }
    if NothingNewTouches(output, source) {
      forall p | p in Touching(output) ensures p in Touching(source) { assert p == (p.0, p.1); }
    } else {
      var a: nat, b: nat :| Touch(output, a, b) && !Touch(source, a, b);
      assert (a, b) in Touching(output) - Touching(source);
    }
  }

  lemma {:induction false} CharactersConcat(a: seq<Atom>, b: seq<Atom>)
    ensures Characters(a + b) == Characters(a) + Characters(b)
  {
    if a == [] {
      assert a + b == b;
    } else {
      assert (a + b)[1..] == a[1..] + b;
      CharactersConcat(a[1..], b);
      Assoc(if a[0].Ch? then [a[0].c] else "", Characters(a[1..]), Characters(b));
    }
  }

  lemma {:induction false} CharactersOfChars(s: string)
    ensures Characters(Chars(s)) == s
  {
    if s != "" {
      assert Chars(s)[1..] == Chars(s[1..]);
      CharactersOfChars(s[1..]);
    }
  }

  /** What the leak scan reads is every character, in order. */
  lemma {:induction false} PlainTextIs(ts: seq<Token>)
    ensures PlainText(ts) == Words(ts)
  {
    if ts != [] {
      PlainTextIs(ts[1..]);
      CharactersConcat(TokenAtoms(ts[0]), Atoms(ts[1..]));
      if ts[0].Text? { CharactersOfChars(ts[0].value); } else { assert [Mark(ts[0])][1..] == []; }
    }
  }

  lemma {:induction false} TagsAre(ts: seq<Token>)
    ensures TagStructure(ts) == Only(ts, TAG)
  {
    if ts != [] { TagsAre(ts[1..]); }
  }

  // ---- filling, on atoms ----

  function MapAtoms(atoms: seq<Atom>, f: Filler): seq<Atom> {
    if atoms == [] then []
    else MapAtom(atoms[0], f) + MapAtoms(atoms[1..], f)
  }

  function MapAtom(a: Atom, f: Filler): seq<Atom> {
    if a.Ch? then [a] else TokenAtoms(f(a.m))
  }

  lemma {:induction false} MapAtomsConcat(a: seq<Atom>, b: seq<Atom>, f: Filler)
    ensures MapAtoms(a + b, f) == MapAtoms(a, f) + MapAtoms(b, f)
  {
    hide MapAtom;
    if a == [] {
      assert a + b == b;
    } else {
      assert (a + b)[1..] == a[1..] + b;
      MapAtomsConcat(a[1..], b, f);
      Assoc(MapAtom(a[0], f), MapAtoms(a[1..], f), MapAtoms(b, f));
    }
  }

  lemma {:induction false} MapChars(s: string, f: Filler)
    ensures MapAtoms(Chars(s), f) == Chars(s)
  {
    if s != "" {
      assert Chars(s)[1..] == Chars(s[1..]);
      MapChars(s[1..], f);
      assert [Ch(s[0])] + Chars(s[1..]) == Chars(s);
    }
  }

  lemma MapOne(m: Token, f: Filler)
    ensures MapAtoms([Mark(m)], f) == TokenAtoms(f(m))
  {
    assert [Mark(m)][1..] == [];
  }

  /** A filler that leaves text alone. */
  ghost predicate Quiet(f: Filler) {
    forall t: Token :: t.Text? ==> f(t) == t
  }

  lemma MapToken(t: Token, f: Filler)
    requires Quiet(f)
    ensures MapAtoms(TokenAtoms(t), f) == TokenAtoms(f(t))
  {
    if t.Text? { MapChars(t.value, f); } else { MapOne(t, f); }
  }

  /** Rebuilding fills every marker, and nothing else changes. */
  lemma {:induction false} RebuildIsMap(ts: seq<Token>, f: Filler)
    requires Quiet(f)
    ensures Atoms(Rebuild(ts, f)) == MapAtoms(Atoms(ts), f)
  {
    hide MapAtoms, TokenAtoms;
    if ts == [] {
      EmptyMap(f);
    } else {
      var init, t := ts[..|ts| - 1], ts[|ts| - 1];
      assert ts == init + [t];
      RebuildIsMap(init, f);
      JoinAtoms(Rebuild(init, f), f(t));
      AtomsSnoc(init, t);
      MapAtomsConcat(Atoms(init), TokenAtoms(t), f);
      MapToken(t, f);
    }
  }

  lemma EmptyMap(f: Filler)
    ensures MapAtoms([], f) == []
  {
  }

  lemma MapCons(a: Atom, rest: seq<Atom>, f: Filler)
    ensures MapAtoms([a] + rest, f) == MapAtom(a, f) + MapAtoms(rest, f)
  {
    assert ([a] + rest)[1..] == rest;
  }

  // ---- what filling leaves ----

  /** Rebuilding leaves exactly the markers that are not filled. */
  lemma {:induction false} RebuildLeaves(ts: seq<Token>, f: Filler, left: Token -> bool)
    requires forall t :: t in ts ==> if left(t) then f(t) == t && !t.Text? else f(t).Text?
    ensures Structure(Rebuild(ts, f)) == Only(ts, left)
  {
    if ts != [] {
      var init, t := ts[..|ts| - 1], ts[|ts| - 1];
      assert ts == init + [t];
      RebuildLeaves(init, f, left);
      assert t in ts;
      JoinStructure(Rebuild(init, f), f(t));
      OnlyConcat(init, [t], left);
      OnlyOne(t, left);
    }
  }

  lemma {:induction false} OnlyTwice(ts: seq<Token>, p: Token -> bool, q: Token -> bool, r: Token -> bool)
    requires forall t: Token :: r(t) <==> p(t) && q(t)
    ensures Only(Only(ts, p), q) == Only(ts, r)
  {
    if ts != [] {
      OnlyTwice(ts[1..], p, q, r);
      OnlyConcat(if p(ts[0]) then [ts[0]] else [], Only(ts[1..], p), q);
      OnlyOne(ts[0], q);
    }
  }

  /** The originals have a text for each entity of the source, and the targets one for each term. */
  ghost predicate Covers(m: map<nat, Masked>, targets: map<nat, string>, source: seq<Token>) {
    && (forall t :: t in source && IsOwn(t) ==> t.id in m)
    && (forall t :: t in source && IsTerm(t) ==> t.id in targets)
  }

  /** An answer with its values and terms put in. */
  function Filling(output: seq<Token>, m: map<nat, Masked>, targets: map<nat, string>): seq<Token> {
    Rebuild(Rebuild(output, EntityFiller(m)), TermFiller(targets))
  }

  /** Placeholders that are the source's have a text. */
  lemma SameAreCovered(output: seq<Token>, source: seq<Token>, sort: Token -> bool, t: Token)
    requires SamePlaceholders(output, source, sort) && t in output && sort(t)
    ensures t in source
  {
    assert multiset(output)[t] > 0;
    assert t in multiset(source);
  }

  /** Filling leaves the other markers as they were. */
  lemma FillingLeaves(output: seq<Token>, source: seq<Token>, m: map<nat, Masked>, targets: map<nat, string>)
    requires Covers(m, targets, source)
    requires SamePlaceholders(output, source, OWN) && SamePlaceholders(output, source, TERM)
    ensures Structure(Filling(output, m, targets)) == Only(output, LEFT)
  {
    hide Rebuild, Only, Structure;
    var a := Rebuild(output, EntityFiller(m));
    var notOwn: Token -> bool := (t: Token) => !t.Text? && !IsOwn(t);
    var notTerm: Token -> bool := (t: Token) => !t.Text? && !IsTerm(t);
    forall t | t in output && IsOwn(t) ensures t.id in m { SameAreCovered(output, source, OWN, t); }
    RebuildLeaves(output, EntityFiller(m), notOwn);
    RebuildKeepsOnly(output, EntityFiller(m), TERM);
    forall t | t in a && IsTerm(t) ensures t.id in targets {
      OnlyMember(a, TERM, t);
      OnlyMember(output, TERM, t);
      SameAreCovered(output, source, TERM, t);
    }
    RebuildLeaves(a, TermFiller(targets), notTerm);
    OnlyOfStructure(a, notTerm);
    OnlyTwice(output, notOwn, notTerm, LEFT);
  }

  /** The tag checks, on the answer before it is filled. */
  lemma TagProblemIs(output: seq<Token>, source: seq<Token>, final: seq<Token>)
    requires Structure(final) == Only(output, LEFT)
    ensures WellNested(final) && IdsOnce(final) <==> ValidOnceFilled(output)
    ensures Only(final, TAG) == Only(output, TAG)
    ensures TagProblem(final, source).None?
            <==> ValidOnceFilled(output) && SameTags(output, source)
    ensures TagProblem(final, source) == Some(TagMismatch)
            <==> ValidOnceFilled(output) && !SameTags(output, source)
  {
    hide Only, Structure, Check, TagStructure, WellNested, IdsOnce;
    CheckOfStructure(final, [], {});
    ValidIsWellNested(Only(output, LEFT));
    ValidIsWellNested(final);
    OnlyOfStructure(final, TAG);
    OnlyTwice(output, LEFT, TAG, TAG);
    TagsAre(final);
    TagsAre(source);
  }

  // ---- the verdict ----

  /** What an answer reads once served: each placeholder its value or target, all else as it was. */
  function PutIn(m: map<nat, Masked>, targets: map<nat, string>): Filler {
    (t: Token) =>
      if t.Entity? && t.kind in ENTITY_KINDS && t.id in m then Text(m[t.id].value)
      else if t.Entity? && t.kind == TERM_KIND && t.id in targets then Text(targets[t.id])
      else t
  }

  lemma {:induction false} FillTwice(atoms: seq<Atom>, m: map<nat, Masked>, targets: map<nat, string>)
    ensures MapAtoms(MapAtoms(atoms, EntityFiller(m)), TermFiller(targets)) == MapAtoms(atoms, PutIn(m, targets))
  {
    hide MapAtoms, MapAtom, TokenAtoms;
    var e, t, both := EntityFiller(m), TermFiller(targets), PutIn(m, targets);
    if atoms == [] {
      EmptyMap(e);
      EmptyMap(t);
      EmptyMap(both);
    } else {
      var a, rest := atoms[0], atoms[1..];
      assert atoms == [a] + rest;
      FillTwice(rest, m, targets);
      MapCons(a, rest, e);
      MapCons(a, rest, both);
      MapAtomsConcat(MapAtom(a, e), MapAtoms(rest, e), t);
      FillOneTwice(a, m, targets);
    }
  }

  lemma FillOneTwice(a: Atom, m: map<nat, Masked>, targets: map<nat, string>)
    ensures MapAtoms(MapAtom(a, EntityFiller(m)), TermFiller(targets)) == MapAtom(a, PutIn(m, targets))
  {
    if a.Ch? {
      assert [a][1..] == [];
    } else {
      assert !(IsOwn(a.m) && IsTerm(a.m));
      MapToken(EntityFiller(m)(a.m), TermFiller(targets));
    }
  }

  /** Characters and markers of a served answer. */
  lemma FillingReads(output: seq<Token>, m: map<nat, Masked>, targets: map<nat, string>)
    ensures Atoms(Filling(output, m, targets)) == MapAtoms(Atoms(output), PutIn(m, targets))
  {
    hide Rebuild, MapAtoms;
    RebuildIsMap(output, EntityFiller(m));
    RebuildIsMap(Rebuild(output, EntityFiller(m)), TermFiller(targets));
    FillTwice(Atoms(output), m, targets);
  }

  /** What the counting of placeholders can object to. */
  predicate Counted(reason: Reason) {
    reason.KindMismatch? || reason.Unknown? || reason.Duplicate? || reason.Missing?
  }

  /** The verdict of finalisation, check by check, in the order the checks are made. */
  ghost predicate Decided(r: Result<seq<Token>, Failure>, output: seq<Token>, source: seq<Token>, leak: LeakScan) {
    if !SamePlaceholders(output, source, OWN) then r.Err? && r.error.EntityCheck? && Counted(r.error.reason)
    else if leak(Words(output), Words(source)) == Fails then r == Err(Incomparable)
    else if leak(Words(output), Words(source)) == Objects then r == Err(EntityCheck(Leak))
    else if !NothingNewTouches(output, source) then r == Err(EntityCheck(Adjacent))
    else if !SamePlaceholders(output, source, TERM) then r.Err? && r.error.GlossaryCheck? && Counted(r.error.reason)
    else if !ValidOnceFilled(output) then r.Err? && r.error.Invalid?
    else if !SameTags(output, source) then r == Err(TagMismatch)
    else r.Ok?
  }

  lemma {:induction false} FirstBadCounts(answer: seq<Token>, wanted: multiset<Token>, got: multiset<Token>, known: set<nat>)
    ensures var bad := FirstBad(answer, wanted, got, known); bad.Some? ==> Counted(bad.value)
  {
    if answer != [] { FirstBadCounts(answer[1..], wanted, got, known); }
  }

  /** Which check refuses an answer, and that none does. */
  /** Which check on entities refuses an answer, and that none does. */
  ghost predicate EntitiesDecided(p: Option<Failure>, output: seq<Token>, source: seq<Token>, leak: LeakScan) {
    if !SamePlaceholders(output, source, OWN) then p.Some? && p.value.EntityCheck? && Counted(p.value.reason)
    else if leak(Words(output), Words(source)) == Fails then p == Some(Incomparable)
    else if leak(Words(output), Words(source)) == Objects then p == Some(EntityCheck(Leak))
    else if !NothingNewTouches(output, source) then p == Some(EntityCheck(Adjacent))
    else p.None?
  }

  /** A placeholder the source has, once in the answer. */
  predicate Right(t: Token, answer: seq<Token>, source: seq<Token>) {
    t in source && multiset(answer)[t] == 1
  }

  lemma {:induction false} FirstBadAt(answer: seq<Token>, wanted: multiset<Token>, got: multiset<Token>, known: set<nat>, k: nat)
    requires k < |answer| && forall i :: 0 <= i < k ==> answer[i] in wanted && got[answer[i]] <= 1
    requires answer[k] !in wanted || got[answer[k]] > 1
    ensures FirstBad(answer, wanted, got, known) == FirstBad(answer[k..], wanted, got, known)
  {
    if k > 0 {
      assert answer[0] in wanted;
      FirstBadAt(answer[1..], wanted, got, known, k - 1);
      assert answer[1..][k - 1..] == answer[k..];
    }
  }

  /** The first wrong placeholder decides the reason; `Missing` is left when none is wrong. */
  lemma ReasonIs(answer: seq<Token>, source: seq<Token>, known: set<nat>, k: nat)
    requires k <= |answer| && forall i :: 0 <= i < k ==> Right(answer[i], answer, source)
    requires forall t :: t in answer ==> t.Entity?
    requires k < |answer| ==> !Right(answer[k], answer, source)
    ensures var r := Exactly(answer, source, known);
            if k == |answer| then r == Some(Missing) || (r.None? && multiset(answer) == multiset(source))
            else if answer[k] in source then r == Some(Duplicate)
            else if answer[k].id in known then r == Some(KindMismatch) else r == Some(Unknown)
  {
    if k < |answer| {
      assert answer[k] in multiset(answer);
      forall i | 0 <= i < k ensures answer[i] in multiset(source) && multiset(answer)[answer[i]] <= 1 {
        assert Right(answer[i], answer, source);
      }
      FirstBadAt(answer, multiset(source), multiset(answer), known, k);
      assert answer[k..][0] == answer[k] && answer[k] in answer;
    } else {
      FirstBadIs(answer, multiset(source), multiset(answer), known);
      ExactlyIs(answer, source, known);
    }
  }

  lemma CountsDecide(output: seq<Token>, source: seq<Token>, sort: Token -> bool, known: set<nat>)
    ensures var r := Exactly(Only(output, sort), Only(source, sort), known);
            if SamePlaceholders(output, source, sort) then r.None? else r.Some? && Counted(r.value)
  {
    hide Only, FirstBad, SamePlaceholders;
    ExactlyIsSame(output, source, sort, known);
    FirstBadCounts(Only(output, sort), multiset(Only(source, sort)), multiset(Only(output, sort)), known);
  }

  lemma EntityProblemDecides(output: seq<Token>, source: seq<Token>, known: set<nat>, leak: LeakScan)
    ensures EntitiesDecided(EntityProblem(output, source, known, leak), output, source, leak)
  {
    hide Only, Touching, PlainText, Words, Exactly, SamePlaceholders, NothingNewTouches;
    CountsDecide(output, source, OWN, known);
    PlainTextIs(output);
    PlainTextIs(source);
    NewlyTouching(output, source);
  }

  lemma RestoredTermsDecide(output: seq<Token>, source: seq<Token>, m: map<nat, Masked>, targets: map<nat, string>)
    ensures var r := RestoredTerms(Rebuild(output, EntityFiller(m)), source, targets);
            if SamePlaceholders(output, source, TERM) then r == Ok(Filling(output, m, targets))
            else r.Err? && r.error.GlossaryCheck? && Counted(r.error.reason)
  {
    hide Only, Exactly, SamePlaceholders, Rebuild;
    RebuildKeepsOnly(output, EntityFiller(m), TERM);
    CountsDecide(output, source, TERM, {});
  }

  lemma TagProblemDecides(output: seq<Token>, source: seq<Token>, m: map<nat, Masked>, targets: map<nat, string>)
    requires Covers(m, targets, source)
    requires SamePlaceholders(output, source, OWN) && SamePlaceholders(output, source, TERM)
    ensures var p := TagProblem(Filling(output, m, targets), source);
            if !ValidOnceFilled(output) then p.Some? && p.value.Invalid?
            else if !SameTags(output, source) then p == Some(TagMismatch)
            else p.None?
  {
    hide Only, Rebuild, Check, TagStructure, Covers, SamePlaceholders, ValidOnceFilled, SameTags, Structure, Filling;
    FillingLeaves(output, source, m, targets);
    TagProblemIs(output, source, Filling(output, m, targets));
  }

  /** Which check refuses an answer, and that none does; a served answer is the filled one. */
  lemma FinaliseDecides(output: seq<Token>, source: seq<Token>, m: map<nat, Masked>, targets: map<nat, string>, leak: LeakScan)
    requires Covers(m, targets, source)
    ensures var served := Finalise(output, source, m, targets, leak);
            Decided(served, output, source, leak) && (served.Ok? ==> served.value == Filling(output, m, targets))
  {
    hide Filling, Rebuild, TagProblem, EntityProblem, RestoredTerms, SamePlaceholders, NothingNewTouches, ValidOnceFilled,
         SameTags, Words, Covers;
    EntityProblemDecides(output, source, m.Keys, leak);
    RestoredTermsDecide(output, source, m, targets);
    if SamePlaceholders(output, source, OWN) && SamePlaceholders(output, source, TERM) {
      TagProblemDecides(output, source, m, targets);
    }
  }

  /**
   An answer is served if and only if its entities and terms are the source's, none twice, the scan
   passes what it says, no two entities newly touch, and it is valid with the source's tags in order.
   What is served reads as the answer does, with each placeholder's value or target in its place.
   */
  lemma ServedIff(output: seq<Token>, source: seq<Token>, m: map<nat, Masked>, targets: map<nat, string>, leak: LeakScan)
    requires Covers(m, targets, source)
    ensures var served := Finalise(output, source, m, targets, leak);
            && (served.Ok? <==> Acceptable(output, source, leak))
            && (served.Ok? ==> Atoms(served.value) == MapAtoms(Atoms(output), PutIn(m, targets)))
            && (served.Ok? ==> WellNested(served.value) && IdsOnce(served.value) && SameTags(served.value, source))
  {
    hide Filling, Finalise, SamePlaceholders, NothingNewTouches, Words, MapAtoms, Only, WellNested, IdsOnce, Structure, TagProblem;
    FinaliseDecides(output, source, m, targets, leak);
    FillingReads(output, m, targets);
    if SamePlaceholders(output, source, OWN) && SamePlaceholders(output, source, TERM) {
      FillingLeaves(output, source, m, targets);
      TagProblemIs(output, source, Filling(output, m, targets));
    }
  }

  lemma OpaqueCovers(source: seq<Token>)
    ensures Covers(OpaqueEntities(source), OpaqueTerms(source), source)
  {
    OpaqueKnows(source);
    forall t | t in source && IsOwn(t) ensures t.id in OpaqueEntities(source) {
      var i :| 0 <= i < |source| && source[i] == t;
      assert IsOwn(source[i]) && source[i].id == t.id;
    }
  }

  /** The worker, which holds no values, stores an answer under the same condition. */
  lemma StoredIff(output: seq<Token>, source: seq<Token>, leak: LeakScan)
    ensures ValidateOutput(output, source, leak).None? <==> Acceptable(output, source, leak)
  {
    hide Finalise, Acceptable, Covers;
    OpaqueCovers(source);
    ServedIff(output, source, OpaqueEntities(source), OpaqueTerms(source), leak);
  }

  const LINK := [Open(1), Text("here"), Close(1)]

  lemma LinkWords()
    ensures Words([Text("here")]) == "here" == Words(LINK)
  {
    hide Atoms, Characters;
    var text, link := [Text("here")], [Open(1), Text("here")];
    AtomsOne(Text("here"));
    AtomsOne(Open(1));
    AtomsSnoc([Open(1)], Text("here"));
    AtomsSnoc(link, Close(1));
    assert [Open(1)] + text == link && link + [Close(1)] == LINK;
    CharactersOfChars("here");
    NoCharacters(Open(1));
    NoCharacters(Close(1));
    CharactersConcat([Mark(Open(1))], Chars("here"));
    CharactersConcat([Mark(Open(1))] + Chars("here"), [Mark(Close(1))]);
  }

  lemma NoCharacters(t: Token)
    ensures Characters([Mark(t)]) == ""
  {
    assert [Mark(t)][1..] == [];
  }

  lemma LinkMarkers(sort: Token -> bool)
    requires forall t: Token :: sort(t) ==> t.Entity?
    ensures SamePlaceholders([Text("here")], LINK, sort)
  {
  }

  lemma LinkTags()
    ensures !SameTags([Text("here")], LINK) && ValidOnceFilled([Text("here")])
  {
    OnlyOne(Text("here"), LEFT);
    OnlyOne(Text("here"), TAG);
    OnlyMember(LINK, TAG, Open(1));
    hide Only;
    assert Nil.Flat() == Only([Text("here")], LEFT);
  }

  lemma LinkCovered()
    ensures Covers(map[], map[], LINK) && NothingNewTouches([Text("here")], LINK)
  {
  }

  lemma TagsDecide(output: seq<Token>, source: seq<Token>, m: map<nat, Masked>, targets: map<nat, string>, leak: LeakScan)
    requires Covers(m, targets, source) && leak(Words(output), Words(source)) == Passes && NothingNewTouches(output, source)
    requires SamePlaceholders(output, source, OWN) && SamePlaceholders(output, source, TERM)
    requires ValidOnceFilled(output) && !SameTags(output, source)
    ensures Finalise(output, source, m, targets, leak) == Err(TagMismatch)
  {
    hide *;
    FinaliseDecides(output, source, m, targets, leak);
    DecidedByTags(Finalise(output, source, m, targets, leak), output, source, leak);
  }

  lemma DecidedByTags(r: Result<seq<Token>, Failure>, output: seq<Token>, source: seq<Token>, leak: LeakScan)
    requires Decided(r, output, source, leak) && leak(Words(output), Words(source)) == Passes && NothingNewTouches(output, source)
    requires SamePlaceholders(output, source, OWN) && SamePlaceholders(output, source, TERM)
    requires ValidOnceFilled(output) && !SameTags(output, source)
    ensures r == Err(TagMismatch)
  {
    hide SamePlaceholders, Words, NothingNewTouches, ValidOnceFilled, SameTags;
  }

  /** An answer without the link of its source is not served. */
  lemma LostTagIsRefused(leak: LeakScan)
    requires leak("here", "here") == Passes
    ensures Finalise([Text("here")], LINK, map[], map[], leak) == Err(TagMismatch)
  {
    var output: seq<Token> := [Text("here")];
    LinkWords();
    LinkMarkers(OWN);
    LinkMarkers(TERM);
    LinkTags();
    LinkCovered();
    hide *;
    TagsDecide(output, LINK, map[], map[], leak);
  }
}
