/** A short text without a sentence end is one question, sent as it is. */
module ShortText {
  import opened Segments
  import opened Patterns
  import opened Decompose
  import opened Sentences
  import opened Clauses
  import opened ModelCall

  /** Starts with a letter, ends in no white space, has no terminator and no more characters than a clause may have words. */
  ghost predicate Short(ab: Alphabet, v: string) {
    && 0 < |v| <= MAX_WORDS && ab.IsLetter(v[0]) && !ab.isSpace(v[|v| - 1])
    && forall i :: 0 <= i < |v| ==> v[i] !in ".!?"
  }

  lemma ShortHasWords(ab: Alphabet, v: string)
    requires Short(ab, v)
    ensures HasWords(ab, [Text(v)]) && !NoWordChars(ab, v)
  {
    assert [Text(v)][0].value == v && ab.HasLetter(v);
  }

  lemma NothingTrimmed(ab: Alphabet, v: string)
    requires ab.Lawful() && Short(ab, v)
    ensures Trim(ab, [Text(v)]) == Trimmed([], [Text(v)], [])
  {
    var ts := [Text(v)];
    assert PrefixCount(ab.isSpace, v) == 0;
    assert TrimLead(ab, ts) == Split([], ts);
    assert SuffixStart(ab.isSpace, v) == |v|;
    assert TrimTrail(ab, ts) == Split(ts, []);
    assert ts[1..] == [] && DropEmpty(ts) == [ts[0]] + DropEmpty(ts[1..]);
  }

  lemma NoListNumber(ab: Alphabet, v: string)
    requires ab.Lawful() && Short(ab, v)
    ensures ListNumberEnd(ab, v) == 0
  {
    hide DottedEnd, SpaceEnd;
    assert v[0] != '(' && DigitsEnd(ab, v, 0) == 0;
  }

  lemma NoValues(ab: Alphabet, v: string)
    requires ab.Lawful() && Short(ab, v)
    ensures LeadingValues(ab, [Text(v)]) == Split([], [Text(v)])
    ensures LabelValues(ab, [Text(v)]) == Split([Text(v)], [])
  {
    var ts := [Text(v)];
    ShortHasWords(ab, v);
    NoListNumber(ab, v);
    hide ListNumberEnd;
    assert ts[..0] == [] && !HasEntity(ts[..0]);
    assert PrefixCount((t: Token) => IsIdentifierOrSeparator(ab, t), ts) == 0;
    var cut := SuffixStart((t: Token) => IsValueOrSeparator(ab, t), ts);
    assert !HasEntity(ts[cut..]);
  }

  lemma {:induction false} NoSentenceEnds(ab: Alphabet, v: string, from: nat)
    requires forall i :: 0 <= i < |v| ==> v[i] !in ".!?"
    ensures SentenceEnds(ab, v, from) == []
    decreases |v| - from
  {
    if from < |v| {
      assert v[from] !in ".!?" && v[from] != '.';
      assert SentenceEndAt(ab, v, from).None?;
      NoSentenceEnds(ab, v, from + 1);
    }
  }

  lemma OneCut(ab: Alphabet, v: string)
    requires Short(ab, v)
    ensures CutTokens(ab, [Text(v)]) == Cutting([], [Text(v)], 0)
  {
    hide SentenceEnds;
    NoSentenceEnds(ab, v, 0);
    var ts := [Text(v)];
    assert ts[..0] == [] && v[0..] == v;
    assert CutTokens(ab, ts[..0]) == Cutting([], [], 0);
    assert CutAtEnds(ab, v, [], 0, Cutting([], [], 0)) == Cutting([], [], 0);
  }

  lemma MergeOne(v: string)
    requires v != ""
    ensures Merge([Text(v)]) == [Text(v)]
  {
    assert [Text(v)][..0] == [];
  }

  lemma OneSentence(ab: Alphabet, v: string)
    requires ab.Lawful() && Short(ab, v)
    ensures SplitSentences(ab, [Text(v)]) == [Sentence([Text(v)], "")]
  {
    OneCut(ab, v);
    hide CutTokens, HasWords;
    var none: seq<Sentence> := [];
    var one := [Sentence([Text(v)], "")];
    assert none + one == one && one[..0] == none;
    assert AbsorbAll(ab, one) == one;
    MergeOne(v);
    hide Merge;
    assert MergeEach(one) == one;
  }

  lemma {:induction false} RunsAtMost(ab: Alphabet, v: string)
    ensures WordRuns(ab, v) <= |v|
  {
    if v != "" { RunsAtMost(ab, v[..|v| - 1]); }
  }

  lemma ShortSentence(ab: Alphabet, v: string)
    requires ab.Lawful() && |v| <= MAX_WORDS
    ensures SplitLong(ab, [Text(v)], MAX_WORDS) == [Sentence([Text(v)], "")]
  {
    RunsAtMost(ab, v);
    hide WordRuns, FindCut;
    var ts := [Text(v)];
    assert ts[..0] == [] && WordCount(ab, ts[..0]) == 0;
    assert WordCount(ab, ts) == WordRuns(ab, v);
  }

  lemma OneClause(ab: Alphabet, v: string)
    requires ab.Lawful() && Short(ab, v)
    ensures ClausesIn(ab, [Text(v)]) == [Sentence([Text(v)], "")]
  {
    hide SplitSentences, SplitLong;
    OneSentence(ab, v);
    ShortSentence(ab, v);
    var one, none: seq<Sentence> := [Sentence([Text(v)], "")], [];
    assert one[..0] == none && none + one == one && WithGap(one, "") == one;
    assert ClausesOf(ab, one[..0]) == none;
    assert ClausesOf(ab, one) == none + WithGap(one, "");
  }

  lemma OnePiece(v: string)
    ensures SplitAtTags([Text(v)]) == [Run([Text(v)])]
  {
    var ts, none: seq<Piece>, empty: seq<Token> := [Text(v)], [], [];
    assert ts[..0] == empty && CutTags(empty) == TagCut(none, empty);
    assert empty + [Text(v)] == ts && CutTags(ts) == TagCut(none, empty + [Text(v)]);
    assert Flush(none, ts) == none + [Run(ts)] == [Run(ts)];
  }

  /** Such a text is sent in one call, whole. */
  lemma ShortTextIsSentWhole(ab: Alphabet, v: string)
    requires ab.Lawful() && Short(ab, v)
    ensures Sends(Plan(ab, [Text(v)])) == [[Text(v)]]
  {
    hide Short, Trim, LeadingValues, LabelValues, ClausesIn, SplitAtTags, HasWords, Sends, Rejoin, SentencesPlan;
    var ts := [Text(v)];
    ShortHasWords(ab, v);
    NothingTrimmed(ab, v);
    NoValues(ab, v);
    OneClause(ab, v);
    OnePiece(v);
    var one := [Sentence(ts, "")];
    var piece := Run(ts);
    assert CoreOf(ab, ts) == Core([], one, []);
    assert PiecePlan(ab, piece) == [Keep([])] + SentencesPlan(one) + [Keep([])];
    assert [piece][..0] == [] && PiecesPlan(ab, [piece]) == PiecePlan(ab, piece);
    hide *;
    RejoinEnds([], SentencesPlan(one), [], ECHO);
    SentencesPlanSends(one);
  }
}
