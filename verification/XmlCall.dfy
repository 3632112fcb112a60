/** A whole call through the XML-like format: damage to tag syntax never reaches the page. */
module XmlCall {
  import opened Wrappers
  import opened Segments
  import opened Patterns
  import opened Decompose
  import opened Validator
  import opened Spans
  import opened Artefacts
  import opened ModelCall
  import opened ShortText
  import opened Answers
  import opened XmlFormat

  // ---- what is sent is a stretch of the segment ----

  /** The atoms of something sent stand together among the segment's. */
  lemma {:induction false} SendIsStretch(plan: seq<Part>, s: seq<Token>) returns (a: seq<Atom>, c: seq<Atom>)
    requires s in Sends(plan)
    ensures Atoms(Rejoin(plan, ECHO)) == a + Atoms(s) + c
  {
    var init, p := plan[..|plan| - 1], plan[|plan| - 1];
    assert plan == init + [p];
    RejoinSnoc(init, p, ECHO);
    AtomsConcat(Rejoin(init, ECHO), p.tokens);
    if s in Sends(init) {
      var c0;
      a, c0 := SendIsStretch(init, s);
      c := c0 + Atoms(p.tokens);
      Assoc(a + Atoms(s), c0, Atoms(p.tokens));
    } else {
      a, c := Atoms(Rejoin(init, ECHO)), [];
      assert a + Atoms(s) + c == a + Atoms(s);
    }
  }

  lemma {:induction false} IdsOfStructure(ts: seq<Token>)
    ensures Ids(Structure(ts)) == Ids(ts)
  {
    if ts != [] {
      IdsOfStructure(ts[1..]);
      IdsOne(ts[0]);
      IdsConcat(if ts[0].Text? then [] else [ts[0]], Structure(ts[1..]));
    }
  }

  /** A tag-free stretch of a valid segment is valid. */
  lemma StretchIsValid(ts: seq<Token>, s: seq<Token>, a: seq<Atom>, c: seq<Atom>)
    requires Valid(ts) && TagFree(s) && Atoms(ts) == a + Atoms(s) + c
    ensures Valid(s)
  {
    MarksOfConcat(a + Atoms(s), c);
    MarksOfConcat(a, Atoms(s));
    StructureIsMarks(ts);
    StructureIsMarks(s);
    IdsConcat(MarksOf(a) + Structure(s), MarksOf(c));
    IdsConcat(MarksOf(a), Structure(s));
    IdsOfStructure(ts);
    IdsOfStructure(s);
    CheckSplits(ts, [], {});
    CheckSplits(s, [], {});
    IdsOnceIsNoRepeat(ts);
    IdsOnceIsNoRepeat(s);
    forall id ensures Ids(s)[id] <= 1 {
      assert Ids(s)[id] <= Ids(ts)[id];
    }
    TagFreeNoTags(s);
    NestsOfTags(s, []);
    assert Nests([], []);
  }

  lemma DropFront(h: seq<Atom>, rest: seq<Atom>, a: seq<Atom>, m: seq<Atom>, c: seq<Atom>)
    requires h + rest == a + m + c && |h| <= |a|
    ensures rest == a[|h|..] + m + c
  {
    assert rest == (a + m + c)[|h|..];
  }

  lemma FirstAtoms(ts: seq<Token>)
    requires ts != []
    ensures |TokenAtoms(ts[0])| <= |Atoms(ts)|
    ensures forall i :: 0 <= i < |TokenAtoms(ts[0])| ==> Atoms(ts)[i] == TokenAtoms(ts[0])[i]
  {
  }

  lemma CharacterOfText(t: Token, n: nat)
    requires n < |TokenAtoms(t)| && TokenAtoms(t)[n].Ch?
    ensures t.Text? && |TokenAtoms(t)| == |t.value|
  {
  }

  /** A run of characters that starts in the first text ends in it. */
  lemma InFirstText(ts: seq<Token>, a: seq<Atom>, v: string, c: seq<Atom>)
    requires Merged(ts) && ts != [] && v != "" && Atoms(ts) == a + Chars(v) + c && |a| < |TokenAtoms(ts[0])|
    ensures ts[0].Text? && |a| + |v| <= |ts[0].value| && ts[0].value[|a|..|a| + |v|] == v
  {
    hide Merged, Atoms, Chars, TokenAtoms;
    var all, n := Atoms(ts), |a|;
    RunAt(all, a, v, c);
    FirstAtoms(ts);
    assert all[n + 0] == Ch(v[0]) && all[n] == TokenAtoms(ts[0])[n];
    CharacterOfText(ts[0], n);
    TextRun(ts);
    RunWithin(all, ts[0].value, n, v);
  }

  lemma RunWithin(all: seq<Atom>, w: string, n: nat, v: string)
    requires n < |w| <= |all| && n + |v| <= |all| && forall i :: 0 <= i < |w| ==> all[i] == Ch(w[i])
    requires |w| < |all| ==> all[|w|].Mark?
    requires forall k :: 0 <= k < |v| ==> all[n + k] == Ch(v[k])
    ensures n + |v| <= |w| && w[n..n + |v|] == v
  {
    forall j | n <= j < n + |v| ensures all[j].Ch? {
      assert all[n + (j - n)] == Ch(v[j - n]);
    }
    forall k | 0 <= k < |v| ensures w[n + k] == v[k] {
      assert all[n + k] == Ch(v[k]) && all[n + k] == Ch(w[n + k]);
    }
  }

  lemma RunAt(all: seq<Atom>, a: seq<Atom>, v: string, c: seq<Atom>)
    requires all == a + Chars(v) + c
    ensures |all| == |a| + |v| + |c| && forall k :: 0 <= k < |v| ==> all[|a| + k] == Ch(v[k])
  {
  }

  /** Characters that stand together in a merged segment stand in one text. */
  lemma {:induction false} RunInOneText(ts: seq<Token>, a: seq<Atom>, v: string, c: seq<Atom>)
    returns (i: nat, x: string, y: string)
    requires Merged(ts) && v != "" && Atoms(ts) == a + Chars(v) + c
    ensures i < |ts| && ts[i].Text? && ts[i].value == x + v + y
  {
    hide TokenAtoms;
    RunAt(Atoms(ts), a, v, c);
    if |TokenAtoms(ts[0])| <= |a| {
      DropFront(TokenAtoms(ts[0]), Atoms(ts[1..]), a, Chars(v), c);
      MergedTail(ts);
      i, x, y := RunInOneText(ts[1..], a[|TokenAtoms(ts[0])|..], v, c);
      i := i + 1;
    } else {
      InFirstText(ts, a, v, c);
      var w := ts[0].value;
      i, x, y := 0, w[..|a|], w[|a| + |v|..];
    }
  }

  // ---- tag-like text ----

  lemma {:induction false} AfterExtends(sg: Signs, s: string, y: string)
    requires After(sg, s) != ""
    ensures After(sg, s + y) == After(sg, s) + y
  {
    var n := PrefixCount(sg.space, s);
    assert s == s[..n] + s[n..];
    Assoc(s[..n], s[n..], y);
    RunCounted(sg.space, s[..n], s[n..] + y);
  }

  lemma EmptyAfter(sg: Signs)
    ensures After(sg, "") == ""
  {
  }

  lemma OpeningExtends(sg: Signs, s: string, y: string)
    requires s != "" && Opening(sg, s) != ""
    ensures Opening(sg, s + y) == Opening(sg, s) + y
  {
    hide After;
    var a := After(sg, s[1..]);
    EmptyAfter(sg);
    assert (s + y)[1..] == s[1..] + y;
    assert a != "";
    AfterExtends(sg, s[1..], y);
    assert PastSlash(a + y) == PastSlash(a) + y by { assert (a + y)[1..] == a[1..] + y; }
    AfterExtends(sg, PastSlash(a), y);
  }

  /** More text behind it does not make something less like a tag. */
  lemma StrayExtends(sg: Signs, s: string, y: string)
    requires StrayHead(sg, s)
    ensures StrayHead(sg, s + y)
  {
    hide After, Opening;
    var b := Opening(sg, s);
    OpeningExtends(sg, s, y);
    assert (b + y)[1..] == b[1..] + y;
    AfterExtends(sg, b[1..], y);
  }

  lemma StrayInside(sg: Signs, x: string, v: string, y: string)
    requires Stray(sg, v)
    ensures Stray(sg, x + v + y)
  {
    hide StrayHead;
    var p :| 0 <= p < |v| && StrayHead(sg, v[p..]);
    StrayExtends(sg, v[p..], y);
    assert (x + v + y)[|x| + p..] == v[p..] + y;
  }

  lemma FiveJoined(a: seq<Atom>, b: seq<Atom>, m: seq<Atom>, d: seq<Atom>, c: seq<Atom>)
    ensures a + (b + (m + d)) + c == (a + b) + m + (d + c)
  {
    Assoc(a, b, m + d);
    Assoc(a + b, m, d);
    Assoc(a + b + m, d, c);
  }

  /** A stretch of a merged segment without tag-like text has none either. */
  lemma StretchHasNoStray(sg: Signs, ts: seq<Token>, s: seq<Token>, a: seq<Atom>, c: seq<Atom>)
    requires Merged(ts) && Merged(s) && !HasStray(sg, ts) && Atoms(ts) == a + Atoms(s) + c
    ensures !HasStray(sg, s)
  {
    hide Stray, Chars, Atoms;
    if HasStray(sg, s) {
      var k :| 0 <= k < |s| && s[k].Text? && Stray(sg, s[k].value);
      var v := s[k].value;
      var front, back := s[..k], s[k + 1..];
      assert s == front + ([Text(v)] + back);
      AtomsConcat(front, [Text(v)] + back);
      AtomsConcat([Text(v)], back);
      AtomsOne(Text(v));
      var b, d := Atoms(front), Atoms(back);
      FiveJoined(a, b, Chars(v), d, c);
      var i, x, y := RunInOneText(ts, a + b, v, d + c);
      StrayInside(sg, x, v, y);
    }
  }

  // ---- the call ----

  /** A model that copies each question and damages its tag syntax, question by question. */
  type Damage = seq<Token> -> seq<Style>

  /**
   What a call makes of such an answer: decoded, and stripped of rendering artefacts.  A refusal
   fails the call and is shown as no tokens.
   */
  function DamagedEcho(sg: Signs, artefact: char -> bool, damage: Damage): Answer {
    (s: seq<Token>) =>
      if |damage(s)| == |s| && Decode(sg, SpelledAll(s, damage(s)), s).Ok?
      then Stripped(artefact, Decode(sg, SpelledAll(s, damage(s)), s).value)
      else []
  }

  /** Each question itself, stripped. */
  function StripEcho(artefact: char -> bool): Answer {
    (s: seq<Token>) => Stripped(artefact, s)
  }

  /** No question of a call is refused: each decodes to itself. */
  lemma EveryQuestionDecodes(ab: Alphabet, sg: Signs, ts: seq<Token>, damage: Damage, s: seq<Token>)
    requires ab.Lawful() && sg.Lawful() && Merged(ts) && Valid(ts) && !HasStray(sg, ts)
    requires s in Sends(Plan(ab, ts)) && AllFit(sg, s, damage(s))
    ensures Decode(sg, SpelledAll(s, damage(s)), s) == Ok(s)
  {
    hide Plan, Decode, HasStray, Check;
    EverySendHasWords(ab, ts, s);
    PlanPartitions(ab, ts);
    SendsAreTagFree(ab, ts, s);
    var a, c := SendIsStretch(Plan(ab, ts), s);
    StretchIsValid(ts, s, a, c);
    StretchHasNoStray(sg, ts, s, a, c);
    DamagedTagsDecode(sg, s, damage(s));
  }

  lemma {:induction false} RejoinSame(plan: seq<Part>, a: Answer, b: Answer)
    requires forall s :: s in Sends(plan) ==> a(s) == b(s)
    ensures Rejoin(plan, a) == Rejoin(plan, b)
  {
    if plan != [] {
      var init, p := plan[..|plan| - 1], plan[|plan| - 1];
      assert plan == init + [p];
      RejoinSnoc(init, p, a);
      RejoinSnoc(init, p, b);
      RejoinSame(init, a, b);
      assert p.Send? ==> p.tokens in Sends(plan);
    }
  }

  ghost predicate SendsClean(artefact: char -> bool, plan: seq<Part>) {
    forall s :: s in Sends(plan) ==> AllClean(artefact, s)
  }

  /** Stripping what is sent keeps the markers, and shortens the whole unless there was nothing to strip. */
  lemma {:induction false} StripRejoin(plan: seq<Part>, artefact: char -> bool)
    ensures Structure(Rejoin(plan, StripEcho(artefact))) == Structure(Rejoin(plan, ECHO))
    ensures |Atoms(Rejoin(plan, StripEcho(artefact)))| <= |Atoms(Rejoin(plan, ECHO))|
    ensures |Atoms(Rejoin(plan, StripEcho(artefact)))| == |Atoms(Rejoin(plan, ECHO))| <==> SendsClean(artefact, plan)
  {
    hide Rejoin, Atoms, Structure, AllClean, Stripped;
    if plan == [] {
      EmptyRejoin(artefact);
    } else {
      var init, p, strip := plan[..|plan| - 1], plan[|plan| - 1], StripEcho(artefact);
      assert plan == init + [p];
      StripRejoin(init, artefact);
      RejoinSnoc(init, p, strip);
      RejoinSnoc(init, p, ECHO);
      AtomsConcat(Rejoin(init, strip), PartTokens(p, strip));
      AtomsConcat(Rejoin(init, ECHO), PartTokens(p, ECHO));
      StructureConcat(Rejoin(init, strip), PartTokens(p, strip));
      StructureConcat(Rejoin(init, ECHO), PartTokens(p, ECHO));
      if p.Send? {
        StrippedLength(artefact, p.tokens);
        StrippedStructure(artefact, p.tokens);
        assert p.tokens in Sends(plan) && forall s :: s in Sends(plan) <==> s in Sends(init) || s == p.tokens;
      } else {
        assert Sends(plan) == Sends(init);
      }
    }
  }

  lemma EmptyRejoin(artefact: char -> bool)
    ensures Rejoin([], StripEcho(artefact)) == [] == Rejoin([], ECHO) && Sends([]) == []
  {
  }

  /** A call whose answers are the questions stripped returns its segment exactly when all it sent is clean. */
  lemma StrippedCall(ab: Alphabet, ts: seq<Token>, artefact: char -> bool)
    requires ab.Lawful() && Merged(ts)
    ensures var out := Translated(ab, ts, StripEcho(artefact));
            && Merged(out) && Structure(out) == Structure(ts) && |Atoms(out)| <= |Atoms(ts)|
            && (|Atoms(out)| == |Atoms(ts)| <==> SendsClean(artefact, Plan(ab, ts)))
            && (out == ts <==> SendsClean(artefact, Plan(ab, ts)))
  {
    hide Plan, SendsClean, StripEcho, Rejoin;
    if HasWords(ab, ts) {
      var plan := Plan(ab, ts);
      StripRejoin(plan, artefact);
      PlanPartitions(ab, ts);
      StructureOfAtoms(Rejoin(plan, ECHO), ts);
      MergeKeeps(Rejoin(plan, StripEcho(artefact)));
      StructureOfAtoms(Merge(Rejoin(plan, StripEcho(artefact))), Rejoin(plan, StripEcho(artefact)));
      if SendsClean(artefact, plan) { CleanCall(ab, ts, artefact); }
    } else {
      NothingSent(ab, ts, artefact);
    }
  }

  lemma NothingSent(ab: Alphabet, ts: seq<Token>, artefact: char -> bool)
    requires ab.Lawful() && !HasWords(ab, ts)
    ensures SendsClean(artefact, Plan(ab, ts))
  {
    KeepOnly(ts, ECHO);
  }

  lemma CleanCall(ab: Alphabet, ts: seq<Token>, artefact: char -> bool)
    requires ab.Lawful() && Merged(ts) && SendsClean(artefact, Plan(ab, ts))
    ensures Translated(ab, ts, StripEcho(artefact)) == ts
  {
    hide Plan, Rejoin;
    forall s | s in Sends(Plan(ab, ts)) ensures StripEcho(artefact)(s) == ECHO(s) { StrippedNothing(artefact, s); }
    RejoinSame(Plan(ab, ts), StripEcho(artefact), ECHO);
    EchoIsIdentity(ab, ts);
  }

  /**
   A whole call with a model that only damages tag syntax, on a valid segment without tag-like text,
   whatever the damage: what comes back is the segment with everything sent stripped of rendering
   artefacts.  It has the segment's markers in order, and it is the segment if and only if no text
   sent holds an artefact.
   */
  lemma EchoThroughXml(ab: Alphabet, sg: Signs, ts: seq<Token>, artefact: char -> bool, damage: Damage)
    requires ab.Lawful() && sg.Lawful() && Merged(ts) && Valid(ts) && !HasStray(sg, ts)
    requires forall s :: s in Sends(Plan(ab, ts)) ==> AllFit(sg, s, damage(s))
    ensures var out := Translated(ab, ts, DamagedEcho(sg, artefact, damage));
            && out == Translated(ab, ts, StripEcho(artefact))
            && Merged(out) && Structure(out) == Structure(ts) && |Atoms(out)| <= |Atoms(ts)|
            && (|Atoms(out)| == |Atoms(ts)| <==> SendsClean(artefact, Plan(ab, ts)))
            && (out == ts <==> SendsClean(artefact, Plan(ab, ts)))
  {
    hide Decode, HasStray, SpelledAll, Plan, SendsClean, Stripped, Rejoin, Structure, Atoms, Merged;
    var answer := DamagedEcho(sg, artefact, damage);
    forall s | s in Sends(Plan(ab, ts)) ensures answer(s) == StripEcho(artefact)(s) {
      EveryQuestionDecodes(ab, sg, ts, damage, s);
    }
    RejoinSame(Plan(ab, ts), answer, StripEcho(artefact));
    StrippedCall(ab, ts, artefact);
  }

  lemma OneTextIsValid(v: string)
    requires v != ""
    ensures Merged([Text(v)]) && Valid([Text(v)])
  {
    assert Check([Text(v)][1..], [], {}) == None;
  }

  lemma NothingStrays(sg: Signs, v: string)
    requires '<' !in v
    ensures !HasStray(sg, [Text(v)])
  {
    hide Opening;
    forall p | 0 <= p < |v| ensures !StrayHead(sg, v[p..]) {
      assert v[p..][0] == v[p];
    }
  }

  /** A zero-width character in a text that is sent does not come back. */
  lemma ArtefactIsLost(ab: Alphabet, sg: Signs, artefact: char -> bool, damage: Damage)
    requires ab.Lawful() && sg.Lawful() && artefact('\U{200B}')
    requires ab.IsLetter('a') && !ab.isSpace('b')
    requires |damage([Text("a\U{200B}b")])| == 1
    ensures Sends(Plan(ab, [Text("a\U{200B}b")])) == [[Text("a\U{200B}b")]]
    ensures Translated(ab, [Text("a\U{200B}b")], DamagedEcho(sg, artefact, damage)) != [Text("a\U{200B}b")]
  {
    var v := "a\U{200B}b";
    var s := [Text(v)];
    hide Plan, HasStray, Translated, DamagedEcho;
    OneTextIsValid(v);
    assert v[0] == 'a' && v[1] == '\U{200B}' && v[2] == 'b';
    ShortTextIsSentWhole(ab, v);
    NothingStrays(sg, v);
    assert s in Sends(Plan(ab, s)) && AllFit(sg, s, damage(s));
    assert !Clean(artefact, s[0].value);
    assert !AllClean(artefact, s) && !SendsClean(artefact, Plan(ab, s));
    hide *;
    EchoThroughXml(ab, sg, s, artefact, damage);
  }
}
