/** What is served when tags were lost: the text with all of the source's spans around it. */
module Collapse {
  import opened Wrappers
  import opened Segments
  import opened Validator
  import opened Spans
  import opened Protect
  import opened Restoring
  import opened Verdicts
  import opened Leaks

  /** Text and placeholders in order, tags dropped, neighbouring texts joined. */
  function Content(ts: seq<Token>): seq<Token> {
    if ts == [] then []
    else if IsTag(ts[|ts| - 1]) then Content(ts[..|ts| - 1])
    else Join(Content(ts[..|ts| - 1]), ts[|ts| - 1])
  }

  function SpanIds(ts: seq<Token>): seq<nat> {
    if ts == [] then [] else (if ts[0].Open? then [ts[0].id] else []) + SpanIds(ts[1..])
  }

  function Voids(ts: seq<Token>): seq<Token> {
    if ts == [] then [] else (if ts[0].Void? then [ts[0]] else []) + Voids(ts[1..])
  }

  function Opens(ids: seq<nat>): seq<Token> {
    if ids == [] then [] else [Open(ids[0])] + Opens(ids[1..])
  }

  /** The closing markers, innermost first. */
  function Closes(ids: seq<nat>): seq<Token> {
    if ids == [] then [] else Closes(ids[1..]) + [Close(ids[0])]
  }

  function Wrapped(output: seq<Token>, source: seq<Token>): seq<Token> {
    Opens(SpanIds(source)) + (Content(output) + (Closes(SpanIds(source)) + Voids(source)))
  }

  method CollapseFormatting(output: seq<Token>, source: seq<Token>) returns (r: Result<seq<Token>, Cause>)
    ensures r == if Valid(Wrapped(output, source)) then Ok(Wrapped(output, source))
                 else Err(Check(Wrapped(output, source), [], {}).value)
  {
    var content: seq<Token> := [];
    for i := 0 to |output|
      invariant content == Content(output[..i])
    {
      assert output[..i + 1][..i] == output[..i];
      var token := output[i];
      if token.Text? {
        if content != [] && content[|content| - 1].Text? {
          content := content[|content| - 1 := Text(content[|content| - 1].value + token.value)];
        } else {
          content := content + [token];
        }
      } else if token.Entity? {
        content := content + [token];
      }
    }
    assert output[..|output|] == output;
    var spans := SpanIds(source);
    var tokens := Opens(spans) + (content + (Closes(spans) + Voids(source)));
    var cause := Validate(tokens);
    r := if cause.None? then Ok(tokens) else Err(cause.value);
  }

  // ---- nesting ----

  lemma OpenNests(id: nat, rest: seq<Token>, stack: seq<nat>)
    ensures Nests([Open(id)] + rest, stack) == Nests(rest, stack + [id])
  {
    assert ([Open(id)] + rest)[1..] == rest;
  }

  lemma {:induction false} OpensNest(ids: seq<nat>, rest: seq<Token>, stack: seq<nat>)
    ensures Nests(Opens(ids) + rest, stack) == Nests(rest, stack + ids)
  {
    hide Nests;
    if ids == [] {
      assert Opens(ids) + rest == rest && stack + ids == stack;
    } else {
      var tail := Opens(ids[1..]) + rest;
      assert Opens(ids) + rest == [Open(ids[0])] + tail;
      OpenNests(ids[0], tail, stack);
      OpensNest(ids[1..], rest, stack + [ids[0]]);
      Assoc(stack, [ids[0]], ids[1..]);
      assert [ids[0]] + ids[1..] == ids;
    }
  }

  lemma {:induction false} ClosesNest(ids: seq<nat>, rest: seq<Token>, stack: seq<nat>)
    ensures Nests(Closes(ids) + rest, stack + ids) == Nests(rest, stack)
  {
    if ids == [] {
      assert Closes(ids) + rest == rest && stack + ids == stack;
    } else {
      var tail := [Close(ids[0])] + rest;
      assert Closes(ids) + rest == Closes(ids[1..]) + tail;
      assert stack + ids == stack + [ids[0]] + ids[1..];
      ClosesNest(ids[1..], tail, stack + [ids[0]]);
      assert tail[1..] == rest && (stack + [ids[0]])[..|stack|] == stack;
    }
  }

  ghost predicate Flat(ts: seq<Token>) {
    forall i :: 0 <= i < |ts| ==> !ts[i].Open? && !ts[i].Close?
  }

  lemma {:induction false} FlatNests(ts: seq<Token>, rest: seq<Token>, stack: seq<nat>)
    requires Flat(ts)
    ensures Nests(ts + rest, stack) == Nests(rest, stack)
  {
    if ts == [] {
      assert ts + rest == rest;
    } else {
      assert (ts + rest)[1..] == ts[1..] + rest;
      FlatNests(ts[1..], rest, stack);
    }
  }

  lemma JoinTagFree(out: seq<Token>, t: Token)
    requires (forall i :: 0 <= i < |out| ==> !IsTag(out[i])) && !IsTag(t)
    ensures forall i :: 0 <= i < |Join(out, t)| ==> !IsTag(Join(out, t)[i])
  {
  }

  lemma {:induction false} ContentFlat(ts: seq<Token>)
    ensures Flat(Content(ts)) && forall i :: 0 <= i < |Content(ts)| ==> !IsTag(Content(ts)[i])
  {
    if ts != [] {
      hide Join;
      var init, t := ts[..|ts| - 1], ts[|ts| - 1];
      ContentFlat(init);
      if !IsTag(t) { JoinTagFree(Content(init), t); }
    }
  }

  lemma NoTagsNoStructure(ts: seq<Token>)
    requires forall i :: 0 <= i < |ts| ==> !IsTag(ts[i])
    ensures TagStructure(ts) == []
  {
  }

  lemma VoidsFlat(ts: seq<Token>)
    ensures Flat(Voids(ts))
  {
  }

  lemma WrappedNests(output: seq<Token>, source: seq<Token>)
    ensures Nests(Wrapped(output, source), [])
  {
    hide Content, Voids, SpanIds, Opens, Closes, Nests;
    var ids := SpanIds(source);
    var tail := Closes(ids) + Voids(source);
    OpensNest(ids, Content(output) + tail, []);
    ContentFlat(output);
    FlatNests(Content(output), tail, [] + ids);
    ClosesNest(ids, Voids(source), []);
    VoidsFlat(source);
    FlatNests(Voids(source), [], []);
    assert Voids(source) + [] == Voids(source);
    EmptyNests();
  }

  lemma EmptyNests()
    ensures Nests([], [])
  {
  }

  // ---- ids ----

  lemma {:induction false} OpensIds(ids: seq<nat>)
    ensures Ids(Opens(ids)) == multiset(ids) && Ids(Closes(ids)) == multiset{}
  {
    hide Ids;
    if ids == [] {
      EmptyIds();
    } else {
      OpensIds(ids[1..]);
      assert ids == [ids[0]] + ids[1..];
      IdsConcat([Open(ids[0])], Opens(ids[1..]));
      IdsOne(Open(ids[0]));
      IdsConcat(Closes(ids[1..]), [Close(ids[0])]);
      IdsOne(Close(ids[0]));
    }
  }

  /** The ids of a segment's tags. */
  function TagIds(ts: seq<Token>): multiset<nat> {
    Ids(TagStructure(ts))
  }

  lemma EmptyIds()
    ensures Ids([]) == multiset{}
  {
  }

  lemma {:induction false} TagIdsAre(ts: seq<Token>)
    ensures multiset(SpanIds(ts)) + Ids(Voids(ts)) == TagIds(ts)
  {
    hide Ids;
    if ts == [] {
      EmptyIds();
    } else {
      TagIdsAre(ts[1..]);
      IdsOne(ts[0]);
      EmptyIds();
      assert multiset(SpanIds(ts)) == multiset(if ts[0].Open? then [ts[0].id] else []) + multiset(SpanIds(ts[1..]));
      IdsConcat(if IsTag(ts[0]) then [ts[0]] else [], TagStructure(ts[1..]));
      IdsConcat(if ts[0].Void? then [ts[0]] else [], Voids(ts[1..]));
    }
  }

  /** Every placeholder of the output, with its multiplicity. */
  function EntityIds(ts: seq<Token>): multiset<nat> {
    if ts == [] then multiset{}
    else EntityIds(ts[..|ts| - 1]) + if ts[|ts| - 1].Entity? then multiset{ts[|ts| - 1].id} else multiset{}
  }

  lemma JoinIds(out: seq<Token>, t: Token)
    ensures Ids(Join(out, t)) == Ids(out) + if HasId(t) then multiset{t.id} else multiset{}
  {
    IdsConcat(out, [t]);
    IdsOne(t);
    if t.Text? && out != [] && out[|out| - 1].Text? {
      var init, last := out[..|out| - 1], out[|out| - 1];
      assert out == init + [last];
      IdsConcat(init, [last]);
      IdsConcat(init, [Text(last.value + t.value)]);
      IdsOne(last);
      IdsOne(Text(last.value + t.value));
    }
  }

  lemma {:induction false} ContentIds(ts: seq<Token>)
    ensures Ids(Content(ts)) == EntityIds(ts)
  {
    if ts != [] {
      ContentIds(ts[..|ts| - 1]);
      JoinIds(Content(ts[..|ts| - 1]), ts[|ts| - 1]);
    }
  }

  lemma WrappedIds(output: seq<Token>, source: seq<Token>)
    ensures Ids(Wrapped(output, source)) == TagIds(source) + EntityIds(output)
  {
    hide Ids, Content, Voids, SpanIds, Opens, Closes, EntityIds, TagIds;
    var ids := SpanIds(source);
    var tail := Closes(ids) + Voids(source);
    IdsConcat(Opens(ids), Content(output) + tail);
    IdsConcat(Content(output), tail);
    IdsConcat(Closes(ids), Voids(source));
    OpensIds(ids);
    ContentIds(output);
    TagIdsAre(source);
  }

  /**
   The result is always balanced; it is valid exactly when no id is used twice among the source's
   tags and the output's placeholders.
   */
  lemma CollapseIsValid(output: seq<Token>, source: seq<Token>)
    ensures Valid(Wrapped(output, source)) <==> forall id :: (TagIds(source) + EntityIds(output))[id] <= 1
  {
    var w := Wrapped(output, source);
    hide Wrapped, Check, Nests, Ids, TagIds, EntityIds;
    CheckSplits(w, [], {});
    WrappedNests(output, source);
    WrappedIds(output, source);
    IdsOnceIsNoRepeat(w);
    assert Unseen(w, {});
  }

  /** So it does not always pass: an output that repeats a placeholder is refused. */
  lemma RepeatedPlaceholderIsRefused()
    ensures !Valid(Wrapped([Entity("NUM", 1), Entity("NUM", 1)], [Text("x")]))
  {
    var o := [Entity("NUM", 1), Entity("NUM", 1)];
    assert o[..1] == [Entity("NUM", 1)];
    assert EntityIds(o[..1]) == multiset{1};
    assert EntityIds(o)[1] == 2;
    assert (TagIds([Text("x")]) + EntityIds(o))[1] >= 2;
    CollapseIsValid(o, [Text("x")]);
  }

  lemma {:induction false} NoEntityNoIds(ts: seq<Token>)
    requires !HasEntity(ts)
    ensures EntityIds(ts) == multiset{}
  {
    if ts != [] { NoEntityNoIds(ts[..|ts| - 1]); }
  }

  lemma {:induction false} TagIdsAtMost(ts: seq<Token>, id: nat)
    ensures TagIds(ts)[id] <= Ids(ts)[id]
  {
    if ts != [] {
      TagIdsAtMost(ts[1..], id);
      IdsOne(ts[0]);
      IdsConcat(if IsTag(ts[0]) then [ts[0]] else [], TagStructure(ts[1..]));
    }
  }

  /** Without placeholders in the output, the collapsed segment of a valid source is valid. */
  lemma CollapseOfText(output: seq<Token>, source: seq<Token>)
    requires Valid(source) && !HasEntity(output)
    ensures Valid(Wrapped(output, source))
  {
    hide TagIds, Wrapped;
    NoEntityNoIds(output);
    CheckSplits(source, [], {});
    IdsOnceIsNoRepeat(source);
    forall id ensures (TagIds(source) + EntityIds(output))[id] <= 1 {
      TagIdsAtMost(source, id);
    }
    CollapseIsValid(output, source);
  }

  /** Masking and substituting make placeholders of these kinds only. */
  ghost predicate KnownKinds(source: seq<Token>) {
    forall i :: 0 <= i < |source| && source[i].Entity? ==> source[i].kind in ENTITY_KINDS + {TERM_KIND}
  }

  /** The decoder gives a placeholder the kind the source has for it. */
  ghost predicate KindsFrom(output: seq<Token>, source: seq<Token>) {
    forall i :: 0 <= i < |output| && output[i].Entity? ==>
      exists j :: 0 <= j < |source| && source[j].Entity? && source[j].kind == output[i].kind
  }

  /** A placeholder in a rebuilt segment was one before, and was left alone or put there by the filler. */
  lemma {:induction false} RebuiltFrom(ts: seq<Token>, f: Filler, x: Token) returns (t: Token)
    requires x in Rebuild(ts, f) && x.Entity?
    ensures t in ts && f(t) == x
  {
    var init, last := ts[..|ts| - 1], ts[|ts| - 1];
    assert ts == init + [last];
    var out := Rebuild(init, f);
    if f(last) == x {
      t := last;
    } else {
      assert x in out;
      t := RebuiltFrom(init, f, x);
    }
  }

  /** An entity of an answer that passed the count is an entity of the source, with an original. */
  lemma OwnHasOriginal(output: seq<Token>, source: seq<Token>, m: map<nat, Masked>, t: Token)
    requires Agrees(m, source) && Exactly(Only(output, OWN), Only(source, OWN), m.Keys).None?
    requires t in output && IsOwn(t)
    ensures t.id in m
  {
    ExactlyIs(Only(output, OWN), Only(source, OWN), m.Keys);
    OnlyMember(output, OWN, t);
    assert t in multiset(Only(output, OWN));
    assert t in Only(source, OWN);
    OnlyMember(source, OWN, t);
    var i :| 0 <= i < |source| && source[i] == t;
  }

  /** Restoring entities and then terms leaves no placeholder of the source's kinds. */
  lemma NothingLeftToRestore(output: seq<Token>, source: seq<Token>, m: map<nat, Masked>, targets: map<nat, string>, leak: LeakScan)
    requires Agrees(m, source) && AgreesTerms(targets, source) && KnownKinds(source) && KindsFrom(output, source)
    requires Restored(output, source, m, leak).Ok? && RestoredTerms(Restored(output, source, m, leak).value, source, targets).Ok?
    ensures forall t :: t in RestoredTerms(Restored(output, source, m, leak).value, source, targets).value ==> !t.Entity?
  {
    hide Exactly, Only, Rebuild, Touching, ScanProblem;
    var restored := Restored(output, source, m, leak).value;
    var final := RestoredTerms(restored, source, targets).value;
    if x :| x in final && x.Entity? {
      var y := RebuiltFrom(restored, TermFiller(targets), x);
      if IsTerm(y) { TermsKnown(restored, source, targets, y); }
      var t := RebuiltFrom(output, EntityFiller(m), y);
      if IsOwn(t) { OwnHasOriginal(output, source, m, t); }
      assert false;
    }
  }

  /** Where it is called, after restoring, the collapsed segment of a valid source is valid. */
  lemma CollapseAfterRestoring(output: seq<Token>, source: seq<Token>, m: map<nat, Masked>, targets: map<nat, string>, leak: LeakScan)
    requires Valid(source) && Agrees(m, source) && AgreesTerms(targets, source) && KnownKinds(source) && KindsFrom(output, source)
    requires Restored(output, source, m, leak).Ok? && RestoredTerms(Restored(output, source, m, leak).value, source, targets).Ok?
    ensures Valid(Wrapped(RestoredTerms(Restored(output, source, m, leak).value, source, targets).value, source))
  {
    hide Restored, RestoredTerms, Wrapped, Check;
    NothingLeftToRestore(output, source, m, targets, leak);
    CollapseOfText(RestoredTerms(Restored(output, source, m, leak).value, source, targets).value, source);
  }

  // ---- what is kept ----

  /** The atoms of a segment without its tags. */
  function Untagged(atoms: seq<Atom>): seq<Atom> {
    if atoms == [] then []
    else Untagged(atoms[..|atoms| - 1])
         + if atoms[|atoms| - 1].Mark? && IsTag(atoms[|atoms| - 1].m) then [] else [atoms[|atoms| - 1]]
  }

  lemma {:induction false} UntaggedConcat(a: seq<Atom>, b: seq<Atom>)
    ensures Untagged(a + b) == Untagged(a) + Untagged(b)
  {
    if b == [] {
      assert a + b == a;
    } else {
      var init := b[..|b| - 1];
      assert (a + b)[..|a + b| - 1] == a + init;
      UntaggedConcat(a, init);
    }
  }

  lemma {:induction false} UntaggedChars(s: string)
    ensures Untagged(Chars(s)) == Chars(s)
  {
    if s != "" {
      assert Chars(s)[..|s| - 1] == Chars(s[..|s| - 1]);
      UntaggedChars(s[..|s| - 1]);
    }
  }

  lemma UntaggedToken(t: Token)
    ensures Untagged(TokenAtoms(t)) == if IsTag(t) then [] else TokenAtoms(t)
  {
    if t.Text? {
      UntaggedChars(t.value);
    } else {
      assert [Mark(t)][..0] == [];
    }
  }

  /** Every character and placeholder of the output is kept, in order. */
  lemma {:induction false} ContentKeeps(ts: seq<Token>)
    ensures Atoms(Content(ts)) == Untagged(Atoms(ts))
  {
    hide Untagged, Join;
    if ts != [] {
      var init, t := ts[..|ts| - 1], ts[|ts| - 1];
      assert ts == init + [t];
      ContentKeeps(init);
      AtomsSnoc(init, t);
      UntaggedConcat(Atoms(init), TokenAtoms(t));
      UntaggedToken(t);
      JoinAtoms(Content(init), t);
    } else {
      EmptyUntagged();
    }
  }

  lemma EmptyUntagged()
    ensures Untagged([]) == []
  {
  }

  /** The source's spans wrap the whole, in source order, and its void elements follow. */
  lemma WrappedTags(output: seq<Token>, source: seq<Token>)
    ensures TagStructure(Wrapped(output, source)) == Opens(SpanIds(source)) + (Closes(SpanIds(source)) + Voids(source))
  {
    hide Content, Voids, SpanIds, Opens, Closes;
    var ids := SpanIds(source);
    var tail := Closes(ids) + Voids(source);
    StructureConcat(Opens(ids), Content(output) + tail);
    StructureConcat(Content(output), tail);
    StructureConcat(Closes(ids), Voids(source));
    ContentFlat(output);
    NoTagsNoStructure(Content(output));
    OpensAreTags(ids);
    VoidsAreTags(source);
  }

  lemma {:induction false} OpensAreTags(ids: seq<nat>)
    ensures TagStructure(Opens(ids)) == Opens(ids) && TagStructure(Closes(ids)) == Closes(ids)
  {
    if ids != [] {
      OpensAreTags(ids[1..]);
      StructureConcat(Closes(ids[1..]), [Close(ids[0])]);
      assert TagStructure([Close(ids[0])]) == [Close(ids[0])];
    }
  }

  lemma {:induction false} VoidsAreTags(ts: seq<Token>)
    ensures TagStructure(Voids(ts)) == Voids(ts)
  {
    if ts != [] {
      VoidsAreTags(ts[1..]);
      StructureConcat(if ts[0].Void? then [ts[0]] else [], Voids(ts[1..]));
      assert TagStructure([ts[0]]) == if IsTag(ts[0]) then [ts[0]] else [];
    }
  }
}
