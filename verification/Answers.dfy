/** From pieces to the whole: answers that keep their own placeholders add up to an output that passes. */
module Answers {
  import opened Segments
  import opened Patterns
  import opened Decompose
  import opened Sentences
  import opened Validator
  import opened Spans
  import opened ModelCall
  import opened Restoring
  import opened Verdicts
  import opened RoundTrip
  import opened Collapse

  const ENTITY: Token -> bool := (t: Token) => t.Entity?

  /** The model kept the placeholders of what it was sent, in any order, and invented no tag. */
  ghost predicate Faithful(answer: Answer, s: seq<Token>) {
    multiset(Only(answer(s), ENTITY)) == multiset(Only(s, ENTITY)) && TagFree(answer(s))
  }

  // ---- what is sent has no tag ----

  ghost predicate NoTagMarks(atoms: seq<Atom>) {
    forall i :: 0 <= i < |atoms| ==> !(atoms[i].Mark? && IsTag(atoms[i].m))
  }

  lemma {:induction false} TagFreeIs(ts: seq<Token>)
    ensures NoTagMarks(Atoms(ts)) <==> forall t :: t in ts ==> !IsTag(t)
  {
    if ts != [] {
      TagFreeIs(ts[1..]);
      assert ts == [ts[0]] + ts[1..];
      var head, tail := TokenAtoms(ts[0]), Atoms(ts[1..]);
      assert IsTag(ts[0]) ==> Atoms(ts)[0] == Mark(ts[0]);
      if NoTagMarks(Atoms(ts)) {
        forall i | 0 <= i < |tail| ensures !(tail[i].Mark? && IsTag(tail[i].m)) {
          assert Atoms(ts)[|head| + i] == tail[i];
        }
      }
    }
  }

  lemma {:induction false} SentenceTagFree(l: seq<Sentence>, i: nat)
    requires i < |l| && NoTagMarks(Joined(l))
    ensures TagFree(l[i].tokens)
  {
    var init, s := l[..|l| - 1], l[|l| - 1];
    var a, b, c := Joined(init), Atoms(s.tokens), Chars(s.gap);
    assert Joined(l) == a + b + c;
    if i < |init| {
      forall k | 0 <= k < |a| ensures a[k] == Joined(l)[k] {}
      SentenceTagFree(init, i);
    } else {
      forall k | 0 <= k < |b| ensures b[k] == Joined(l)[|a| + k] {}
      TagFreeIs(s.tokens);
    }
  }

  lemma MiddleHasNoTags(a: seq<Atom>, b: seq<Atom>, c: seq<Atom>)
    requires NoTagMarks(a + b + c)
    ensures NoTagMarks(b)
  {
    forall i | 0 <= i < |b| ensures b[i] == (a + b + c)[|a| + i] {}
  }

  lemma PieceSendsTagFree(ab: Alphabet, p: Piece, s: seq<Token>)
    requires ab.Lawful() && (p.Run? ==> TagFree(p.tokens)) && s in Sends(PiecePlan(ab, p))
    ensures TagFree(s)
  {
    PiecePlanSends(ab, p);
    if p.Run? && HasWords(ab, p.tokens) {
      var c := CoreOf(ab, p.tokens);
      CoreKeeps(ab, p.tokens);
      TagFreeIs(p.tokens);
      MiddleHasNoTags(Atoms(c.front), Joined(c.sentences), Atoms(c.back));
      SentencesPlanSends(c.sentences);
      var i :| 0 <= i < |Sends(SentencesPlan(c.sentences))| && Sends(SentencesPlan(c.sentences))[i] == s;
      SentenceTagFree(c.sentences, i);
    }
  }

  lemma {:induction false} PiecesSendsTagFree(ab: Alphabet, ps: seq<Piece>, s: seq<Token>)
    requires ab.Lawful() && Cleanly(ps) && s in Sends(PiecesPlan(ab, ps))
    ensures TagFree(s)
  {
    if ps != [] {
      var init, p := ps[..|ps| - 1], ps[|ps| - 1];
      SendsConcat(PiecesPlan(ab, init), PiecePlan(ab, p));
      if s in Sends(PiecesPlan(ab, init)) {
        PiecesSendsTagFree(ab, init, s);
      } else {
        PieceSendsTagFree(ab, p, s);
      }
    }
  }

  /** The model is never shown an inline tag. */
  lemma SendsAreTagFree(ab: Alphabet, ts: seq<Token>, s: seq<Token>)
    requires ab.Lawful() && s in Sends(Plan(ab, ts))
    ensures TagFree(s)
  {
    if HasWords(ab, ts) {
      SplitAtTagsPartitions(ts);
      PiecesSendsTagFree(ab, SplitAtTags(ts), s);
    } else {
      KeepOnly(ts, ECHO);
    }
  }

  // ---- putting answers together ----

  lemma TagFreeNoTags(ts: seq<Token>)
    requires TagFree(ts)
    ensures TagStructure(ts) == []
  {
  }

  lemma {:induction false} RejoinKeeps(plan: seq<Part>, answer: Answer)
    requires forall s :: s in Sends(plan) ==> TagFree(s) && Faithful(answer, s)
    ensures multiset(Only(Rejoin(plan, answer), ENTITY)) == multiset(Only(Rejoin(plan, ECHO), ENTITY))
    ensures TagStructure(Rejoin(plan, answer)) == TagStructure(Rejoin(plan, ECHO))
  {
    if plan != [] {
      var init, p := plan[..|plan| - 1], plan[|plan| - 1];
      assert plan == init + [p];
      RejoinSnoc(init, p, answer);
      RejoinSnoc(init, p, ECHO);
      RejoinKeeps(init, answer);
      OnlyConcat(Rejoin(init, answer), PartTokens(p, answer), ENTITY);
      OnlyConcat(Rejoin(init, ECHO), PartTokens(p, ECHO), ENTITY);
      StructureConcat(Rejoin(init, answer), PartTokens(p, answer));
      StructureConcat(Rejoin(init, ECHO), PartTokens(p, ECHO));
      if p.Send? {
        assert p.tokens in Sends(plan);
        TagFreeNoTags(p.tokens);
        TagFreeNoTags(answer(p.tokens));
      }
    }
  }

  // ---- multisets ----

  lemma {:induction false} OnlyCount(ts: seq<Token>, p: Token -> bool, t: Token)
    ensures multiset(Only(ts, p))[t] == if p(t) then multiset(ts)[t] else 0
  {
    if ts != [] {
      assert ts == [ts[0]] + ts[1..];
      OnlyCount(ts[1..], p, t);
    }
  }

  /** The placeholders of one sort are decided by all the placeholders. */
  lemma OnlyOfEntities(a: seq<Token>, b: seq<Token>, p: Token -> bool)
    requires multiset(Only(a, ENTITY)) == multiset(Only(b, ENTITY)) && forall t :: p(t) ==> t.Entity?
    ensures multiset(Only(a, p)) == multiset(Only(b, p))
  {
    forall t ensures multiset(Only(a, p))[t] == multiset(Only(b, p))[t] {
      OnlyCount(a, p, t);
      OnlyCount(b, p, t);
      OnlyCount(a, ENTITY, t);
      OnlyCount(b, ENTITY, t);
    }
  }

  lemma TakenOut(a: seq<Token>, b: seq<Token>, k: nat)
    requires a != [] && multiset(a) == multiset(b) && k < |b| && b[k] == a[0]
    ensures multiset(a[1..]) == multiset(b[..k] + b[k + 1..])
  {
    var t := a[0];
    assert a == [t] + a[1..];
    assert b == b[..k] + ([t] + b[k + 1..]);
    assert multiset(a) == multiset{t} + multiset(a[1..]);
    assert multiset(b) == multiset(b[..k]) + (multiset{t} + multiset(b[k + 1..]));
    var rest := b[..k] + b[k + 1..];
    assert multiset(rest) == multiset(b) - multiset{t};
    assert multiset(a[1..]) == multiset(a) - multiset{t};
  }

  lemma IdsTakenOut(b: seq<Token>, k: nat)
    requires k < |b|
    ensures Ids(b) == Ids([b[k]]) + Ids(b[..k] + b[k + 1..])
  {
    hide Ids;
    assert b == b[..k] + ([b[k]] + b[k + 1..]);
    IdsConcat(b[..k], [b[k]] + b[k + 1..]);
    IdsConcat([b[k]], b[k + 1..]);
    IdsConcat(b[..k], b[k + 1..]);
  }

  lemma {:induction false} IdsOfMultiset(a: seq<Token>, b: seq<Token>)
    requires multiset(a) == multiset(b)
    ensures Ids(a) == Ids(b)
  {
    hide Ids;
    if a == [] {
      assert |multiset(b)| == 0;
    } else {
      assert a[0] in multiset(b);
      var k :| 0 <= k < |b| && b[k] == a[0];
      TakenOut(a, b, k);
      IdsOfMultiset(a[1..], b[..k] + b[k + 1..]);
      IdsTakenOut(b, k);
      assert a == [a[0]] + a[1..];
      IdsConcat([a[0]], a[1..]);
    }
  }

  /** Ids come from tags and from placeholders. */
  lemma {:induction false} IdsAre(ts: seq<Token>)
    ensures Ids(ts) == TagIds(ts) + Ids(Only(ts, ENTITY))
  {
    if ts != [] {
      IdsAre(ts[1..]);
      IdsOne(ts[0]);
      IdsConcat(if IsTag(ts[0]) then [ts[0]] else [], TagStructure(ts[1..]));
      IdsConcat(if ENTITY(ts[0]) then [ts[0]] else [], Only(ts[1..], ENTITY));
    }
  }

  lemma SameTagsSameEntities(a: seq<Token>, b: seq<Token>)
    requires TagStructure(a) == TagStructure(b) && multiset(Only(a, ENTITY)) == multiset(Only(b, ENTITY))
    ensures Ids(a) == Ids(b) && Valid(a) == Valid(b)
  {
    IdsAre(a);
    IdsAre(b);
    IdsOfMultiset(Only(a, ENTITY), Only(b, ENTITY));
    ValidOfTagsAndIds(a, b);
  }

  lemma OnlyOfAtoms(a: seq<Token>, b: seq<Token>, p: Token -> bool)
    requires Atoms(a) == Atoms(b) && forall t: Token :: p(t) ==> !t.Text?
    ensures Only(a, p) == Only(b, p)
  {
    StructureOfAtoms(a, b);
    OnlyOfStructure(a, p);
    OnlyOfStructure(b, p);
  }

  /** The rejoined segment has the source's tags in order, and its placeholders. */
  lemma RejoinedKeeps(ab: Alphabet, ts: seq<Token>, answer: Answer)
    requires ab.Lawful()
    requires forall s :: s in Sends(Plan(ab, ts)) ==> Faithful(answer, s)
    ensures var r := Translated(ab, ts, answer);
            TagStructure(r) == TagStructure(ts) && multiset(Only(r, ENTITY)) == multiset(Only(ts, ENTITY))
  {
    if HasWords(ab, ts) {
      var plan := Plan(ab, ts);
      forall s | s in Sends(plan) ensures TagFree(s) { SendsAreTagFree(ab, ts, s); }
      RejoinKeeps(plan, answer);
      PlanPartitions(ab, ts);
      StructureOfAtoms(Rejoin(plan, ECHO), ts);
      OnlyOfAtoms(Rejoin(plan, ECHO), ts, ENTITY);
      MergeKeeps(Rejoin(plan, answer));
      StructureOfAtoms(Merge(Rejoin(plan, answer)), Rejoin(plan, answer));
      OnlyOfAtoms(Merge(Rejoin(plan, answer)), Rejoin(plan, answer), ENTITY);
    }
  }

  lemma SortPasses(r: seq<Token>, ts: seq<Token>, p: Token -> bool, known: set<nat>)
    requires Valid(ts) && multiset(Only(r, ENTITY)) == multiset(Only(ts, ENTITY)) && forall t :: p(t) ==> t.Entity?
    ensures Exactly(Only(r, p), Only(ts, p), known).None?
  {
    OnlyOfEntities(r, ts, p);
    ExactlyIs(Only(r, p), Only(ts, p), known);
    CheckSplits(ts, [], {});
    IdsOnceIsNoRepeat(ts);
    forall t ensures multiset(Only(r, p))[t] <= 1 {
      OnlyCount(ts, p, t);
      if p(t) {
        OnlyAtMostIds(ts, p, t);
        assert Ids(ts)[t.id] <= 1;
      }
    }
  }

  /**
   If each answer keeps exactly its own placeholders and invents no tag, the whole output passes the
   entity check, the glossary check and the tag check against the whole source.
   */
  lemma FaithfulAnswersPass(ab: Alphabet, ts: seq<Token>, answer: Answer, known: set<nat>)
    requires ab.Lawful() && Valid(ts)
    requires forall s :: s in Sends(Plan(ab, ts)) ==> Faithful(answer, s)
    ensures var r := Translated(ab, ts, answer);
            && Exactly(Only(r, OWN), Only(ts, OWN), known).None?
            && Exactly(Only(r, TERM), Only(ts, TERM), known).None?
            && TagProblem(r, ts).None?
  {
    var r := Translated(ab, ts, answer);
    RejoinedKeeps(ab, ts, answer);
    SortPasses(r, ts, OWN, known);
    SortPasses(r, ts, TERM, known);
    SameTagsSameEntities(r, ts);
  }
}
