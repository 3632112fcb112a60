/**
 One model call: what it sends of a masked segment, and how it puts the answers together.

 `Plan` lists, in order, what the page keeps and what the model is sent.  `TranslateSegment` follows
 the source and calls a translator; it is tied to the plan, and what the repository promises of a
 call is proved about the plan.
 */
module ModelCall {
  import opened Segments
  import opened Patterns
  import opened Decompose
  import opened Sentences
  import opened Clauses

  // ---- pieces ----

  datatype Piece = Tag(tag: Token) | Run(tokens: seq<Token>)

  function PieceTokens(p: Piece): seq<Token> {
    if p.Tag? then [p.tag] else p.tokens
  }

  function Join(ps: seq<Piece>): seq<Token> {
    if ps == [] then [] else Join(ps[..|ps| - 1]) + PieceTokens(ps[|ps| - 1])
  }

  lemma JoinSnoc(ps: seq<Piece>, p: Piece)
    ensures Join(ps + [p]) == Join(ps) + PieceTokens(p)
  {
    assert (ps + [p])[..|ps|] == ps;
  }

  function Flush(ps: seq<Piece>, run: seq<Token>): seq<Piece> {
    if run == [] then ps else ps + [Run(run)]
  }

  datatype TagCut = TagCut(pieces: seq<Piece>, run: seq<Token>)

  function CutTags(ts: seq<Token>): TagCut {
    if ts == [] then TagCut([], [])
    else
      var c, t := CutTags(ts[..|ts| - 1]), ts[|ts| - 1];
      if IsTag(t) then TagCut(Flush(c.pieces, c.run) + [Tag(t)], [])
      else TagCut(c.pieces, c.run + [t])
  }

  /** Stretches between inline tags, and the tags, each a piece of its own. */
  function SplitAtTags(ts: seq<Token>): seq<Piece> {
    var c := CutTags(ts);
    Flush(c.pieces, c.run)
  }

  ghost predicate TagFree(ts: seq<Token>) {
    forall i :: 0 <= i < |ts| ==> !IsTag(ts[i])
  }

  /** Tags stand alone; the stretches between them are not empty and hold no tag. */
  ghost predicate Cleanly(ps: seq<Piece>) {
    forall i :: 0 <= i < |ps| ==>
      if ps[i].Tag? then IsTag(ps[i].tag) else ps[i].tokens != [] && TagFree(ps[i].tokens)
  }

  lemma FlushKeeps(ps: seq<Piece>, run: seq<Token>)
    requires Cleanly(ps) && TagFree(run)
    ensures Join(Flush(ps, run)) == Join(ps) + run && Cleanly(Flush(ps, run))
  {
    if run != [] { JoinSnoc(ps, Run(run)); }
  }

  lemma TagAfter(ps: seq<Piece>, t: Token)
    requires Cleanly(ps) && IsTag(t)
    ensures Cleanly(ps + [Tag(t)]) && TagFree([])
  {
  }

  lemma TagFreeAfter(run: seq<Token>, t: Token)
    requires TagFree(run) && !IsTag(t)
    ensures TagFree(run + [t])
  {
  }

  lemma NothingCut()
    ensures Join([]) == [] && Cleanly([]) && TagFree([])
  {
  }

  lemma {:induction false} CutTagsKeeps(ts: seq<Token>)
    ensures var c := CutTags(ts); Join(c.pieces) + c.run == ts && Cleanly(c.pieces) && TagFree(c.run)
  {
    hide Join, Cleanly, TagFree, Flush;
    if ts == [] {
      NothingCut();
    } else {
      var init, t := ts[..|ts| - 1], ts[|ts| - 1];
      CutTagsKeeps(init);
      var c := CutTags(init);
      assert ts == init + [t];
      if IsTag(t) {
        FlushKeeps(c.pieces, c.run);
        JoinSnoc(Flush(c.pieces, c.run), Tag(t));
        TagAfter(Flush(c.pieces, c.run), t);
      } else {
        TagFreeAfter(c.run, t);
        Assoc(Join(c.pieces), c.run, [t]);
      }
    }
  }

  /** Joining the pieces gives the very same tokens. */
  lemma SplitAtTagsPartitions(ts: seq<Token>)
    ensures Join(SplitAtTags(ts)) == ts && Cleanly(SplitAtTags(ts))
  {
    CutTagsKeeps(ts);
    FlushKeeps(CutTags(ts).pieces, CutTags(ts).run);
  }

  method SplitAtTagsLoop(ts: seq<Token>) returns (pieces: seq<Piece>)
    ensures pieces == SplitAtTags(ts)
  {
    pieces := [];
    var run: seq<Token> := [];
    for i := 0 to |ts|
      invariant TagCut(pieces, run) == CutTags(ts[..i])
    {
      assert ts[..i + 1][..i] == ts[..i];
      if IsTag(ts[i]) {
        if run != [] {
          pieces := pieces + [Run(run)];
          run := [];
        }
        pieces := pieces + [Tag(ts[i])];
      } else {
        run := run + [ts[i]];
      }
    }
    assert ts[..|ts|] == ts;
    if run != [] {
      pieces := pieces + [Run(run)];
    }
  }

  // ---- the plan ----

  datatype Part = Keep(tokens: seq<Token>) | Send(tokens: seq<Token>)

  type Answer = seq<Token> -> seq<Token>

  function PartTokens(p: Part, answer: Answer): seq<Token> {
    if p.Keep? then p.tokens else answer(p.tokens)
  }

  /** The parts put together again, what was sent replaced by its answer. */
  function Rejoin(plan: seq<Part>, answer: Answer): seq<Token> {
    if plan == [] then [] else Rejoin(plan[..|plan| - 1], answer) + PartTokens(plan[|plan| - 1], answer)
  }

  /** Everything sent, in order. */
  function Sends(plan: seq<Part>): seq<seq<Token>> {
    if plan == [] then []
    else Sends(plan[..|plan| - 1]) + if plan[|plan| - 1].Send? then [plan[|plan| - 1].tokens] else []
  }

  function SentencesPlan(l: seq<Sentence>): seq<Part> {
    if l == [] then []
    else SentencesPlan(l[..|l| - 1]) + [Send(l[|l| - 1].tokens), Keep([Text(l[|l| - 1].gap)])]
  }

  /** What a piece with words sends, between what it keeps at its two ends. */
  datatype Core = Core(front: seq<Token>, sentences: seq<Sentence>, back: seq<Token>)

  function CoreOf(ab: Alphabet, piece: seq<Token>): Core
    requires ab.Lawful() && piece != []
  {
    var t := Trim(ab, piece);
    var leading := LeadingValues(ab, t.core);
    var labelled := LabelValues(ab, leading.right);
    Core(t.lead + leading.left, ClausesIn(ab, labelled.left), labelled.right + t.trail)
  }

  function PiecePlan(ab: Alphabet, p: Piece): seq<Part>
    requires ab.Lawful()
  {
    if p.Tag? || !HasWords(ab, p.tokens) then [Keep(PieceTokens(p))]
    else
      var c := CoreOf(ab, p.tokens);
      [Keep(c.front)] + SentencesPlan(c.sentences) + [Keep(c.back)]
  }

  function PiecesPlan(ab: Alphabet, ps: seq<Piece>): seq<Part>
    requires ab.Lawful()
  {
    if ps == [] then [] else PiecesPlan(ab, ps[..|ps| - 1]) + PiecePlan(ab, ps[|ps| - 1])
  }

  function Plan(ab: Alphabet, ts: seq<Token>): seq<Part>
    requires ab.Lawful()
  {
    if !HasWords(ab, ts) then [Keep(ts)] else PiecesPlan(ab, SplitAtTags(ts))
  }

  // ---- plans compose ----

  lemma RejoinSnoc(plan: seq<Part>, p: Part, answer: Answer)
    ensures Rejoin(plan + [p], answer) == Rejoin(plan, answer) + PartTokens(p, answer)
    ensures Sends(plan + [p]) == Sends(plan) + if p.Send? then [p.tokens] else []
  {
    assert (plan + [p])[..|plan|] == plan;
  }

  lemma {:induction false} RejoinConcat(a: seq<Part>, b: seq<Part>, answer: Answer)
    ensures Rejoin(a + b, answer) == Rejoin(a, answer) + Rejoin(b, answer)
  {
    if b == [] {
      assert a + b == a;
    } else {
      var init, p := b[..|b| - 1], b[|b| - 1];
      assert a + b == (a + init) + [p];
      RejoinConcat(a, init, answer);
      RejoinSnoc(a + init, p, answer);
      Assoc(Rejoin(a, answer), Rejoin(init, answer), PartTokens(p, answer));
    }
  }

  lemma {:induction false} SendsConcat(a: seq<Part>, b: seq<Part>)
    ensures Sends(a + b) == Sends(a) + Sends(b)
  {
    if b == [] {
      assert a + b == a;
    } else {
      var init, p := b[..|b| - 1], b[|b| - 1];
      assert a + b == (a + init) + [p];
      SendsConcat(a, init);
      RejoinSnoc(a + init, p, ECHO);
    }
  }

  lemma KeepOnly(ts: seq<Token>, answer: Answer)
    ensures Rejoin([Keep(ts)], answer) == ts && Sends([Keep(ts)]) == []
  {
    RejoinSnoc([], Keep(ts), answer);
    assert [] + [Keep(ts)] == [Keep(ts)];
  }

  lemma RejoinEnds(front: seq<Token>, mid: seq<Part>, back: seq<Token>, answer: Answer)
    ensures Rejoin([Keep(front)] + mid + [Keep(back)], answer) == front + Rejoin(mid, answer) + back
    ensures Sends([Keep(front)] + mid + [Keep(back)]) == Sends(mid)
  {
    KeepOnly(front, answer);
    RejoinConcat([Keep(front)], mid, answer);
    SendsConcat([Keep(front)], mid);
    RejoinSnoc([Keep(front)] + mid, Keep(back), answer);
  }

  /** Every part sent has words and is merged; nothing kept has a letter. */
  ghost predicate Sound(ab: Alphabet, plan: seq<Part>) {
    forall i :: 0 <= i < |plan| ==>
      if plan[i].Send? then HasWords(ab, plan[i].tokens) && Merged(plan[i].tokens)
      else Letters(ab, plan[i].tokens) == ""
  }

  lemma SoundConcat(ab: Alphabet, a: seq<Part>, b: seq<Part>)
    requires Sound(ab, a) && Sound(ab, b)
    ensures Sound(ab, a + b)
  {
    forall i | 0 <= i < |a + b|
      ensures if (a + b)[i].Send? then HasWords(ab, (a + b)[i].tokens) && Merged((a + b)[i].tokens)
              else Letters(ab, (a + b)[i].tokens) == ""
    {
      if i >= |a| { assert (a + b)[i] == b[i - |a|]; }
    }
  }

  const ECHO: Answer := (ts: seq<Token>) => ts

  lemma {:induction false} SentencesPlanEcho(l: seq<Sentence>)
    ensures Atoms(Rejoin(SentencesPlan(l), ECHO)) == Joined(l)
  {
    if l != [] {
      var init, s := l[..|l| - 1], l[|l| - 1];
      SentencesPlanEcho(init);
      var p := SentencesPlan(init);
      assert SentencesPlan(l) == (p + [Send(s.tokens)]) + [Keep([Text(s.gap)])];
      RejoinSnoc(p, Send(s.tokens), ECHO);
      RejoinSnoc(p + [Send(s.tokens)], Keep([Text(s.gap)]), ECHO);
      AtomsConcat(Rejoin(p, ECHO), s.tokens);
      AtomsSnoc(Rejoin(p, ECHO) + s.tokens, Text(s.gap));
      Assoc(Joined(init), Atoms(s.tokens), Chars(s.gap));
    }
  }

  lemma {:induction false} SentencesPlanSound(ab: Alphabet, l: seq<Sentence>)
    requires ab.Lawful() && GapsAreSpace(ab, l) && AllHaveWords(ab, l) && AllMerged(l)
    ensures Sound(ab, SentencesPlan(l))
  {
    if l != [] {
      var init, s := l[..|l| - 1], l[|l| - 1];
      SentencesPlanSound(ab, init);
      assert HasWords(ab, s.tokens) && Merged(s.tokens) && Spaces(ab, s.gap);
      NoLetters(ab, s.gap);
      SoundConcat(ab, SentencesPlan(init), [Send(s.tokens), Keep([Text(s.gap)])]);
    }
  }

  lemma {:induction false} SentencesPlanSends(l: seq<Sentence>)
    ensures |Sends(SentencesPlan(l))| == |l|
    ensures forall i :: 0 <= i < |l| ==> Sends(SentencesPlan(l))[i] == l[i].tokens
  {
    hide Sends, SentencesPlan, Rejoin;
    EmptyPlan(ECHO);
    if l != [] {
      var init, s := l[..|l| - 1], l[|l| - 1];
      assert l == init + [s];
      SentencesPlanSends(init);
      SentencesPlanSnoc(init, s, ECHO);
    }
  }

  /** Trimming, leading values, label values, sentences and clauses partition a piece. */
  lemma CoreKeeps(ab: Alphabet, piece: seq<Token>)
    requires ab.Lawful() && HasWords(ab, piece)
    ensures var c := CoreOf(ab, piece);
            && Atoms(c.front) + Joined(c.sentences) + Atoms(c.back) == Atoms(piece)
            && Letters(ab, c.front) == "" && Letters(ab, c.back) == ""
            && c.sentences != [] && GapsAreSpace(ab, c.sentences)
            && AllHaveWords(ab, c.sentences) && AllMerged(c.sentences)
  {
    var t := Trim(ab, piece);
    var leading := LeadingValues(ab, t.core);
    var labelled := LabelValues(ab, leading.right);
    TrimKeeps(ab, piece);
    LeadingValuesKeeps(ab, t.core);
    LabelValuesKeeps(ab, leading.right);
    LettersConcat(ab, t.lead, leading.left);
    LettersConcat(ab, labelled.right, t.trail);
    AtomsConcat(t.lead, leading.left);
    AtomsConcat(labelled.right, t.trail);
    var a, b, c, d, e := Atoms(t.lead), Atoms(leading.left), Atoms(labelled.left), Atoms(labelled.right), Atoms(t.trail);
    FivePieces(ab, a, b, c, d, e);
    WordsAreLetters(ab, piece);
    WordsAreLetters(ab, labelled.left);
    ClausesFaithful(ab, labelled.left);
  }

  /** Letters of a whole whose four outer pieces have none. */
  lemma FivePieces(ab: Alphabet, a: seq<Atom>, b: seq<Atom>, c: seq<Atom>, d: seq<Atom>, e: seq<Atom>)
    requires LettersOf(ab, a) == "" && LettersOf(ab, b) == "" && LettersOf(ab, d) == "" && LettersOf(ab, e) == ""
    ensures (a + b) + c + (d + e) == a + (b + (c + d)) + e
    ensures LettersOf(ab, a + (b + (c + d)) + e) == LettersOf(ab, c)
  {
    Assoc(a + b + c, d, e);
    Assoc(a + b, c, d);
    Assoc(a, b, c + d);
    LettersOfConcat(ab, a + (b + (c + d)), e);
    LettersOfConcat(ab, a, b + (c + d));
    LettersOfConcat(ab, b, c + d);
    LettersOfConcat(ab, c, d);
  }

  lemma PiecePlanKeeps(ab: Alphabet, p: Piece)
    requires ab.Lawful()
    ensures Atoms(Rejoin(PiecePlan(ab, p), ECHO)) == Atoms(PieceTokens(p))
  {
    if p.Tag? || !HasWords(ab, p.tokens) {
      KeepOnly(PieceTokens(p), ECHO);
    } else {
      var c := CoreOf(ab, p.tokens);
      var mid := Rejoin(SentencesPlan(c.sentences), ECHO);
      CoreKeeps(ab, p.tokens);
      SentencesPlanEcho(c.sentences);
      RejoinEnds(c.front, SentencesPlan(c.sentences), c.back, ECHO);
      AtomsConcat(c.front, mid);
      AtomsConcat(c.front + mid, c.back);
    }
  }

  lemma PiecePlanSound(ab: Alphabet, p: Piece)
    requires ab.Lawful() && (p.Tag? ==> IsTag(p.tag))
    ensures Sound(ab, PiecePlan(ab, p))
  {
    hide CoreOf, SentencesPlan;
    if p.Tag? || !HasWords(ab, p.tokens) {
      WordsAreLetters(ab, PieceTokens(p));
    } else {
      var c := CoreOf(ab, p.tokens);
      CoreKeeps(ab, p.tokens);
      SentencesPlanSound(ab, c.sentences);
      SoundConcat(ab, [Keep(c.front)], SentencesPlan(c.sentences));
      SoundConcat(ab, [Keep(c.front)] + SentencesPlan(c.sentences), [Keep(c.back)]);
    }
  }

  lemma {:induction false} PiecesPlanKeeps(ab: Alphabet, ps: seq<Piece>)
    requires ab.Lawful() && Cleanly(ps)
    ensures Atoms(Rejoin(PiecesPlan(ab, ps), ECHO)) == Atoms(Join(ps))
    ensures Sound(ab, PiecesPlan(ab, ps))
  {
    if ps != [] {
      var init, p := ps[..|ps| - 1], ps[|ps| - 1];
      PiecesPlanKeeps(ab, init);
      PiecePlanKeeps(ab, p);
      PiecePlanSound(ab, p);
      RejoinConcat(PiecesPlan(ab, init), PiecePlan(ab, p), ECHO);
      AtomsConcat(Rejoin(PiecesPlan(ab, init), ECHO), Rejoin(PiecePlan(ab, p), ECHO));
      AtomsConcat(Join(init), PieceTokens(p));
      SoundConcat(ab, PiecesPlan(ab, init), PiecePlan(ab, p));
    }
  }

  /** Nothing is lost, doubled or reordered: with every answer the question, the plan is the segment. */
  lemma PlanPartitions(ab: Alphabet, ts: seq<Token>)
    requires ab.Lawful()
    ensures Atoms(Rejoin(Plan(ab, ts), ECHO)) == Atoms(ts)
    ensures Sound(ab, Plan(ab, ts))
  {
    if HasWords(ab, ts) {
      SplitAtTagsPartitions(ts);
      PiecesPlanKeeps(ab, SplitAtTags(ts));
    } else {
      KeepOnly(ts, ECHO);
      WordsAreLetters(ab, ts);
    }
  }

  // ---- calls ----

  function PieceCalls(ab: Alphabet, p: Piece): nat
    requires ab.Lawful()
  {
    if p.Tag? || !HasWords(ab, p.tokens) then 0 else |CoreOf(ab, p.tokens).sentences|
  }

  function PiecesCalls(ab: Alphabet, ps: seq<Piece>): nat
    requires ab.Lawful()
  {
    if ps == [] then 0 else PiecesCalls(ab, ps[..|ps| - 1]) + PieceCalls(ab, ps[|ps| - 1])
  }

  /** The quota's estimate, computed without sending anything. */
  function CallsNeeded(ab: Alphabet, ts: seq<Token>): nat
    requires ab.Lawful()
  {
    if !HasWords(ab, ts) then 0 else PiecesCalls(ab, SplitAtTags(ts))
  }

  lemma PiecePlanSends(ab: Alphabet, p: Piece)
    requires ab.Lawful()
    ensures |Sends(PiecePlan(ab, p))| == PieceCalls(ab, p)
    ensures p.Run? && HasWords(ab, p.tokens) ==>
              Sends(PiecePlan(ab, p)) == Sends(SentencesPlan(CoreOf(ab, p.tokens).sentences))
  {
    if p.Tag? || !HasWords(ab, p.tokens) {
      KeepOnly(PieceTokens(p), ECHO);
    } else {
      var c := CoreOf(ab, p.tokens);
      var mid := SentencesPlan(c.sentences);
      SentencesPlanSends(c.sentences);
      RejoinEnds(c.front, mid, c.back, ECHO);
    }
  }

  lemma {:induction false} PiecesPlanSends(ab: Alphabet, ps: seq<Piece>)
    requires ab.Lawful()
    ensures |Sends(PiecesPlan(ab, ps))| == PiecesCalls(ab, ps)
  {
    if ps != [] {
      PiecesPlanSends(ab, ps[..|ps| - 1]);
      PiecePlanSends(ab, ps[|ps| - 1]);
      SendsConcat(PiecesPlan(ab, ps[..|ps| - 1]), PiecePlan(ab, ps[|ps| - 1]));
    }
  }

  /** The quota pays for exactly the calls that are made. */
  lemma CallsNeededIsCallsMade(ab: Alphabet, ts: seq<Token>)
    requires ab.Lawful()
    ensures |Sends(Plan(ab, ts))| == CallsNeeded(ab, ts)
  {
    if HasWords(ab, ts) {
      PiecesPlanSends(ab, SplitAtTags(ts));
    } else {
      KeepOnly(ts, ECHO);
    }
  }

  // ---- the call ----

  /** The segment a call returns, as a function of the model's answers. */
  function Translated(ab: Alphabet, ts: seq<Token>, answer: Answer): seq<Token>
    requires ab.Lawful()
  {
    if !HasWords(ab, ts) then ts else Merge(Rejoin(Plan(ab, ts), answer))
  }

  /** The model behind its format: an answer for each question, and the questions it was asked. */
  class Translator {
    const answer: Answer
    var sent: seq<seq<Token>>

    constructor (answer: Answer)
      ensures this.answer == answer && sent == []
    {
      this.answer := answer;
      sent := [];
    }

    method Translate(ts: seq<Token>) returns (r: seq<Token>)
      modifies this
      ensures sent == old(sent) + [ts] && r == answer(ts)
    {
      sent := sent + [ts];
      r := answer(ts);
    }
  }

  lemma EmptyPlan(answer: Answer)
    ensures Sends(SentencesPlan([])) == [] && Rejoin(SentencesPlan([]), answer) == []
  {
  }

  /** One sentence more: its answer, then the page's own gap. */
  lemma SentencesPlanSnoc(l: seq<Sentence>, s: Sentence, answer: Answer)
    ensures Rejoin(SentencesPlan(l + [s]), answer) == Rejoin(SentencesPlan(l), answer) + answer(s.tokens) + [Text(s.gap)]
    ensures Sends(SentencesPlan(l + [s])) == Sends(SentencesPlan(l)) + [s.tokens]
  {
    var done := SentencesPlan(l);
    assert (l + [s])[..|l|] == l;
    assert SentencesPlan(l + [s]) == (done + [Send(s.tokens)]) + [Keep([Text(s.gap)])];
    RejoinSnoc(done, Send(s.tokens), answer);
    RejoinSnoc(done + [Send(s.tokens)], Keep([Text(s.gap)]), answer);
  }

  /** The sentences of a piece, one call each. */
  method TranslateSentences(model: Translator, sentences: seq<Sentence>) returns (body: seq<Token>)
    modifies model
    ensures model.sent == old(model.sent) + Sends(SentencesPlan(sentences))
    ensures body == Rejoin(SentencesPlan(sentences), model.answer)
  {
    hide SentencesPlan, Sends, Rejoin;
    EmptyPlan(model.answer);
    assert sentences[..0] == [];
    body := [];
    for i := 0 to |sentences|
      invariant model.sent == old(model.sent) + Sends(SentencesPlan(sentences[..i]))
      invariant body == Rejoin(SentencesPlan(sentences[..i]), model.answer)
    {
      SentencesPlanSnoc(sentences[..i], sentences[i], model.answer);
      assert sentences[..i + 1] == sentences[..i] + [sentences[i]];
      var answer := model.Translate(sentences[i].tokens);
      body := body + answer + [Text(sentences[i].gap)];
    }
    assert sentences[..|sentences|] == sentences;
  }

  /** One piece: what its ends keep goes back around the answers. */
  method TranslatePiece(ab: Alphabet, model: Translator, piece: seq<Token>) returns (r: seq<Token>)
    requires ab.Lawful()
    modifies model
    ensures model.sent == old(model.sent) + Sends(PiecePlan(ab, Run(piece)))
    ensures Atoms(r) == Atoms(Rejoin(PiecePlan(ab, Run(piece)), model.answer))
    ensures HasWords(ab, piece) ==> Merged(r)
  {
    if !HasWords(ab, piece) {
      KeepOnly(piece, model.answer);
      r := piece;
      return;
    }
    var t := Trim(ab, piece);
    var leading := LeadingValuesLoop(ab, t.core);
    var labelled := LabelValuesLoop(ab, leading.right);
    var sentences := ClausesIn(ab, labelled.left);
    var front, back := t.lead + leading.left, labelled.right + t.trail;
    RejoinEnds(front, SentencesPlan(sentences), back, model.answer);
    var body := TranslateSentences(model, sentences);
    r := MergeText(front + body + back);
  }

  /** The whole segment: tags stay the page's own, and every piece with words is sent. */
  method TranslateSegment(ab: Alphabet, model: Translator, ts: seq<Token>) returns (r: seq<Token>)
    requires ab.Lawful()
    modifies model
    ensures r == Translated(ab, ts, model.answer)
    ensures model.sent == old(model.sent) + Sends(Plan(ab, ts))
    ensures |model.sent| == |old(model.sent)| + CallsNeeded(ab, ts)
  {
    CallsNeededIsCallsMade(ab, ts);
    if !HasWords(ab, ts) {
      KeepOnly(ts, model.answer);
      return ts;
    }
    var pieces := SplitAtTagsLoop(ts);
    SplitAtTagsPartitions(ts);
    if |pieces| == 1 {
      OnePiece(ab, ts, pieces);
      r := TranslatePiece(ab, model, ts);
      MergeOfMerged(r);
      MergeCanonical(r, Rejoin(Plan(ab, ts), model.answer));
      return;
    }
    r := TranslatePieces(ab, model, pieces);
    MergeCanonical(r, Rejoin(Plan(ab, ts), model.answer));
    MergeOfMerged(r);
  }

  /** A tag is put back as it is; a stretch between tags is translated. */
  method TagOrPiece(ab: Alphabet, model: Translator, p: Piece) returns (r: seq<Token>)
    requires ab.Lawful()
    modifies model
    ensures model.sent == old(model.sent) + Sends(PiecePlan(ab, p))
    ensures Atoms(r) == Atoms(Rejoin(PiecePlan(ab, p), model.answer))
  {
    if p.Tag? {
      KeepOnly([p.tag], model.answer);
      r := [p.tag];
    } else {
      r := TranslatePiece(ab, model, p.tokens);
      assert PiecePlan(ab, p) == PiecePlan(ab, Run(p.tokens));
    }
  }

  method TranslatePieces(ab: Alphabet, model: Translator, pieces: seq<Piece>) returns (r: seq<Token>)
    requires ab.Lawful()
    modifies model
    ensures model.sent == old(model.sent) + Sends(PiecesPlan(ab, pieces))
    ensures Atoms(r) == Atoms(Rejoin(PiecesPlan(ab, pieces), model.answer)) && Merged(r)
  {
    var tokens: seq<Token> := [];
    for i := 0 to |pieces|
      invariant model.sent == old(model.sent) + Sends(PiecesPlan(ab, pieces[..i]))
      invariant Atoms(tokens) == Atoms(Rejoin(PiecesPlan(ab, pieces[..i]), model.answer))
    {
      PiecesPlanStep(ab, pieces, i, model.answer, tokens);
      Assoc(old(model.sent), Sends(PiecesPlan(ab, pieces[..i])), Sends(PiecePlan(ab, pieces[i])));
      var part := TagOrPiece(ab, model, pieces[i]);
      AtomsConcat(tokens, part);
      tokens := tokens + part;
    }
    assert pieces[..|pieces|] == pieces;
    r := MergeText(tokens);
  }

  lemma PiecesPlanStep(ab: Alphabet, ps: seq<Piece>, i: nat, answer: Answer, tokens: seq<Token>)
    requires ab.Lawful() && i < |ps|
    requires Atoms(tokens) == Atoms(Rejoin(PiecesPlan(ab, ps[..i]), answer))
    ensures Sends(PiecesPlan(ab, ps[..i + 1])) == Sends(PiecesPlan(ab, ps[..i])) + Sends(PiecePlan(ab, ps[i]))
    ensures Atoms(Rejoin(PiecesPlan(ab, ps[..i + 1]), answer))
         == Atoms(tokens) + Atoms(Rejoin(PiecePlan(ab, ps[i]), answer))
  {
    hide PiecePlan, Sends, Rejoin, Atoms;
    assert ps[..i + 1][..i] == ps[..i];
    var done, next := PiecesPlan(ab, ps[..i]), PiecePlan(ab, ps[i]);
    assert PiecesPlan(ab, ps[..i + 1]) == done + next;
    hide PiecesPlan;
    SendsConcat(done, next);
    RejoinConcat(done, next, answer);
    AtomsConcat(Rejoin(done, answer), Rejoin(next, answer));
  }

  lemma PiecesPlanOne(ab: Alphabet, p: Piece)
    requires ab.Lawful()
    ensures PiecesPlan(ab, [p]) == PiecePlan(ab, p)
    ensures Join([p]) == PieceTokens(p)
  {
    assert [p][..0] == [];
  }

  /** A segment that is one piece with words is a stretch without tags. */
  lemma OnePiece(ab: Alphabet, ts: seq<Token>, pieces: seq<Piece>)
    requires ab.Lawful() && HasWords(ab, ts) && pieces == SplitAtTags(ts) && |pieces| == 1
    ensures pieces == [Run(ts)] && Plan(ab, ts) == PiecePlan(ab, Run(ts))
  {
    var p := pieces[0];
    assert pieces == [p];
    PiecesPlanOne(ab, p);
    assert PieceTokens(p) == ts && (p.Tag? ==> IsTag(p.tag)) by {
      SplitAtTagsPartitions(ts);
    }
  }

  // ---- what a call promises ----

  /** With a translator that echoes, a call returns exactly the segment it was given. */
  lemma EchoIsIdentity(ab: Alphabet, ts: seq<Token>)
    requires ab.Lawful() && Merged(ts)
    ensures Translated(ab, ts, ECHO) == ts
  {
    PlanPartitions(ab, ts);
    MergeCanonical(Rejoin(Plan(ab, ts), ECHO), ts);
    MergeOfMerged(ts);
  }

  function SentLetters(ab: Alphabet, sends: seq<seq<Token>>): string {
    if sends == [] then "" else SentLetters(ab, sends[..|sends| - 1]) + Letters(ab, sends[|sends| - 1])
  }

  lemma SentLettersSnoc(ab: Alphabet, sends: seq<seq<Token>>, s: seq<Token>)
    ensures SentLetters(ab, sends + [s]) == SentLetters(ab, sends) + Letters(ab, s)
  {
    assert (sends + [s])[..|sends|] == sends;
  }

  lemma PlanLettersSnoc(ab: Alphabet, init: seq<Part>, p: Part)
    requires SentLetters(ab, Sends(init)) == Letters(ab, Rejoin(init, ECHO))
    requires p.Keep? ==> Letters(ab, p.tokens) == ""
    ensures SentLetters(ab, Sends(init + [p])) == Letters(ab, Rejoin(init + [p], ECHO))
  {
    hide Letters, Rejoin, Sends, SentLetters;
    RejoinSnoc(init, p, ECHO);
    LettersConcat(ab, Rejoin(init, ECHO), p.tokens);
    if p.Send? {
      SentLettersSnoc(ab, Sends(init), p.tokens);
    } else {
      assert Sends(init) + [] == Sends(init);
    }
  }

  lemma SoundPrefix(ab: Alphabet, plan: seq<Part>)
    requires Sound(ab, plan) && plan != []
    ensures Sound(ab, plan[..|plan| - 1])
    ensures plan[|plan| - 1].Keep? ==> Letters(ab, plan[|plan| - 1].tokens) == ""
    ensures plan == plan[..|plan| - 1] + [plan[|plan| - 1]]
  {
    hide Letters, HasWords;
  }

  lemma {:induction false} PlanLetters(ab: Alphabet, plan: seq<Part>)
    requires Sound(ab, plan)
    ensures SentLetters(ab, Sends(plan)) == Letters(ab, Rejoin(plan, ECHO))
  {
    if plan != [] {
      hide *;
      SoundPrefix(ab, plan);
      PlanLetters(ab, plan[..|plan| - 1]);
      PlanLettersSnoc(ab, plan[..|plan| - 1], plan[|plan| - 1]);
    }
  }

  /** Every letter outside the placeholders is sent exactly once, in order. */
  lemma EveryLetterSentOnce(ab: Alphabet, ts: seq<Token>)
    requires ab.Lawful()
    ensures SentLetters(ab, Sends(Plan(ab, ts))) == Letters(ab, ts)
  {
    PlanPartitions(ab, ts);
    PlanLetters(ab, Plan(ab, ts));
  }

  lemma {:induction false} SendsAreParts(plan: seq<Part>, s: seq<Token>)
    ensures s in Sends(plan) <==> Send(s) in plan
  {
    if plan != [] {
      SendsAreParts(plan[..|plan| - 1], s);
      assert plan == plan[..|plan| - 1] + [plan[|plan| - 1]];
    }
  }

  /** Everything sent is merged and has a letter to translate. */
  lemma EverySendHasWords(ab: Alphabet, ts: seq<Token>, s: seq<Token>)
    requires ab.Lawful() && s in Sends(Plan(ab, ts))
    ensures HasWords(ab, s) && Merged(s)
  {
    PlanPartitions(ab, ts);
    SendsAreParts(Plan(ab, ts), s);
  }
}
