/**
 Replacing spans of text by numbered placeholders, which is how entities are masked and glossary
 terms substituted, and filling the placeholders in again.
 */
module Spans {
  import opened Segments
  import opened Validator

  datatype Span = Span(start: nat, end: nat, kind: string)

  /** In range from `pos` on, in order, disjoint and not empty. */
  ghost predicate SpansIn(text: string, spans: seq<Span>, pos: nat) {
    && pos <= |text|
    && (forall i :: 0 <= i < |spans| ==> pos <= spans[i].start < spans[i].end <= |text|)
    && (forall i, j :: 0 <= i < j < |spans| ==> spans[i].end <= spans[j].start)
  }

  type SpansOf = string -> seq<Span>

  /** A finder whose spans are always in range, in order, disjoint and not empty. */
  ghost predicate Finder(f: SpansOf) {
    forall text :: SpansIn(text, f(text), 0)
  }

  /** Text from `pos` on, its spans replaced by placeholders numbered from `id`. */
  function Placed(text: string, spans: seq<Span>, pos: nat, id: nat): seq<Token>
    requires SpansIn(text, spans, pos)
    decreases |spans|
  {
    if spans == [] then TextIf(text[pos..])
    else
      var s := spans[0];
      TextIf(text[pos..s.start]) + [Entity(s.kind, id)] + Placed(text, spans[1..], s.end, id + 1)
  }

  /** The kind and the source text of a placeholder. */
  datatype Masked = Masked(kind: string, value: string)

  function Original(text: string, s: Span): Masked
    requires s.start <= s.end <= |text|
  {
    Masked(s.kind, text[s.start..s.end])
  }

  /** What each placeholder stands for. */
  function Originals(text: string, spans: seq<Span>, pos: nat, id: nat): (r: map<nat, Masked>)
    requires SpansIn(text, spans, pos)
    ensures forall i: nat :: i in r <==> id <= i < id + |spans|
    ensures forall k :: 0 <= k < |spans| ==> id + k in r && r[id + k] == Original(text, spans[k])
    decreases |spans|
  {
    if spans == [] then map[]
    else
      var rest := Originals(text, spans[1..], spans[0].end, id + 1);
      assert forall k :: 1 <= k < |spans| ==> spans[k] == spans[1..][k - 1];
      rest[id := Original(text, spans[0])]
  }

  /** `m` knows the texts behind the placeholders numbered from `id`. */
  ghost predicate Knows(m: map<nat, Masked>, text: string, spans: seq<Span>, id: nat) {
    forall k :: 0 <= k < |spans| ==> KnowsOne(m, text, spans[k], id + k)
  }

  ghost predicate KnowsOne(m: map<nat, Masked>, text: string, s: Span, id: nat) {
    id in m && s.start <= s.end <= |text| && m[id] == Original(text, s)
  }

  /** Ids continue after the highest marker id. */
  function FirstId(ts: seq<Token>): (n: nat)
    ensures n >= 1 && forall i :: 0 <= i < |ts| && !ts[i].Text? ==> ts[i].id < n
  {
    if ts == [] then 1
    else
      var n := FirstId(ts[1..]);
      if !ts[0].Text? && ts[0].id >= n then ts[0].id + 1 else n
  }

  datatype Replaced = Replaced(tokens: seq<Token>, next: nat, originals: map<nat, Masked>)

  function ReplaceFrom(ts: seq<Token>, f: SpansOf, first: nat): Replaced
    requires Finder(f)
  {
    if ts == [] then Replaced([], first, map[])
    else
      var r, t := ReplaceFrom(ts[..|ts| - 1], f, first), ts[|ts| - 1];
      if !t.Text? then Replaced(r.tokens + [t], r.next, r.originals)
      else
        var spans := f(t.value);
        Replaced(r.tokens + Placed(t.value, spans, 0, r.next), r.next + |spans|,
                 r.originals + Originals(t.value, spans, 0, r.next))
  }

  function Replace(ts: seq<Token>, f: SpansOf): Replaced
    requires Finder(f)
  {
    ReplaceFrom(ts, f, FirstId(ts))
  }

  // ---- the loops of the source ----

  /** The spans of one text, placed one after the other. */
  method PlaceLoop(text: string, spans: seq<Span>, id: nat) returns (tokens: seq<Token>)
    requires SpansIn(text, spans, 0)
    ensures tokens == Placed(text, spans, 0, id)
  {
    hide Placed, SpansIn;
    tokens := [];
    var pos: nat := 0;
    assert spans[0..] == spans;
    for i := 0 to |spans|
      invariant SpansIn(text, spans[i..], pos)
      invariant tokens + Placed(text, spans[i..], pos, id + i) == Placed(text, spans, 0, id)
    {
      var s := spans[i];
      PlacedStep(text, spans, i, pos, id + i);
      Assoc(tokens, TextIf(text[pos..s.start]) + [Entity(s.kind, id + i)], Placed(text, spans[i + 1..], s.end, id + i + 1));
      if s.start > pos {
        tokens := tokens + [Text(text[pos..s.start])];
      }
      tokens := tokens + [Entity(s.kind, id + i)];
      pos := s.end;
    }
    PlacedEnd(text, spans, pos, id + |spans|);
    if pos < |text| {
      tokens := tokens + [Text(text[pos..])];
    }
  }

  lemma PlacedStep(text: string, spans: seq<Span>, i: nat, pos: nat, id: nat)
    requires i < |spans| && SpansIn(text, spans[i..], pos)
    ensures var s := spans[i];
            && pos <= s.start < s.end <= |text| && SpansIn(text, spans[i + 1..], s.end)
            && Placed(text, spans[i..], pos, id)
               == TextIf(text[pos..s.start]) + [Entity(s.kind, id)] + Placed(text, spans[i + 1..], s.end, id + 1)
  {
    var rest := spans[i..];
    assert rest[0] == spans[i] && rest[1..] == spans[i + 1..];
  }

  lemma PlacedEnd(text: string, spans: seq<Span>, pos: nat, id: nat)
    requires SpansIn(text, spans[|spans|..], pos)
    ensures pos <= |text| && Placed(text, spans[|spans|..], pos, id) == TextIf(text[pos..])
  {
  }

  method ReplaceLoop(ts: seq<Token>, f: SpansOf) returns (r: Replaced)
    requires Finder(f)
    ensures r == Replace(ts, f)
  {
    var first := FirstId(ts);
    var tokens: seq<Token>, next: nat, originals: map<nat, Masked> := [], first, map[];
    for i := 0 to |ts|
      invariant Replaced(tokens, next, originals) == ReplaceFrom(ts[..i], f, first)
    {
      assert ts[..i + 1][..i] == ts[..i];
      if !ts[i].Text? {
        tokens := tokens + [ts[i]];
      } else {
        var spans := f(ts[i].value);
        var placed := PlaceLoop(ts[i].value, spans, next);
        tokens := tokens + placed;
        originals := originals + Originals(ts[i].value, spans, 0, next);
        next := next + |spans|;
      }
    }
    assert ts[..|ts|] == ts;
    r := Replaced(tokens, next, originals);
  }

  // ---- filling in again ----

  /** The atoms of a segment, placeholders with an original replaced by its text. */
  function FilledToken(t: Token, m: map<nat, Masked>): seq<Atom> {
    if t.Entity? && t.id in m && m[t.id].kind == t.kind then Chars(m[t.id].value) else TokenAtoms(t)
  }

  function Filled(ts: seq<Token>, m: map<nat, Masked>): seq<Atom> {
    if ts == [] then [] else FilledToken(ts[0], m) + Filled(ts[1..], m)
  }

  lemma {:induction false} FilledConcat(a: seq<Token>, b: seq<Token>, m: map<nat, Masked>)
    ensures Filled(a + b, m) == Filled(a, m) + Filled(b, m)
  {
    hide FilledToken;
    if a == [] {
      assert a + b == b;
    } else {
      assert (a + b)[1..] == a[1..] + b;
      FilledConcat(a[1..], b, m);
      Assoc(FilledToken(a[0], m), Filled(a[1..], m), Filled(b, m));
    }
  }

  lemma FilledOne(t: Token, m: map<nat, Masked>)
    ensures Filled([t], m) == FilledToken(t, m)
  {
    assert [t][1..] == [];
  }

  lemma FilledTextIf(v: string, m: map<nat, Masked>)
    ensures Filled(TextIf(v), m) == Chars(v)
  {
    if v != "" { FilledOne(Text(v), m); }
  }

  /** The new placeholders of one text: numbered from `id`, of the kinds of the spans. */
  lemma {:induction false} PlacedIds(text: string, spans: seq<Span>, pos: nat, id: nat, i: nat)
    requires SpansIn(text, spans, pos)
    requires i < |Placed(text, spans, pos, id)|
    ensures var t := Placed(text, spans, pos, id)[i];
            if t.Text? then t.value != "" else t.Entity? && id <= t.id < id + |spans| && t.kind == spans[t.id - id].kind
    decreases |spans|
  {
    if spans != [] {
      var s := spans[0];
      var head := TextIf(text[pos..s.start]) + [Entity(s.kind, id)];
      if i >= |head| {
        PlacedIds(text, spans[1..], s.end, id + 1, i - |head|);
      }
    }
  }

  lemma {:induction false} PlacedFills(text: string, spans: seq<Span>, pos: nat, id: nat, m: map<nat, Masked>)
    requires SpansIn(text, spans, pos)
    requires Knows(m, text, spans, id)
    ensures Filled(Placed(text, spans, pos, id), m) == Chars(text[pos..])
    decreases |spans|
  {
    hide Filled;
    if spans == [] {
      FilledTextIf(text[pos..], m);
    } else {
      var s := spans[0];
      var gap, mid, rest := text[pos..s.start], text[s.start..s.end], text[s.end..];
      KnowsTail(m, text, spans, id);
      PlacedFills(text, spans[1..], s.end, id + 1, m);
      assert KnowsOne(m, text, spans[0], id + 0);
      FillThree(gap, Entity(s.kind, id), Placed(text, spans[1..], s.end, id + 1), m, mid, rest);
      assert gap + mid + rest == text[pos..];
    }
  }

  lemma KnowsTail(m: map<nat, Masked>, text: string, spans: seq<Span>, id: nat)
    requires spans != [] && Knows(m, text, spans, id)
    ensures Knows(m, text, spans[1..], id + 1)
  {
    hide KnowsOne;
    var rest := spans[1..];
    forall k | 0 <= k < |rest| ensures KnowsOne(m, text, rest[k], id + 1 + k) {
      assert KnowsOne(m, text, spans[k + 1], id + (k + 1));
    }
  }

  lemma FillThree(gap: string, t: Token, rest: seq<Token>, m: map<nat, Masked>, mid: string, tail: string)
    requires t.Entity? && t.id in m && m[t.id] == Masked(t.kind, mid) && Filled(rest, m) == Chars(tail)
    ensures Filled(TextIf(gap) + [t] + rest, m) == Chars(gap + mid + tail)
  {
    FilledConcat(TextIf(gap) + [t], rest, m);
    FilledConcat(TextIf(gap), [t], m);
    FilledTextIf(gap, m);
    FilledOne(t, m);
    CharsConcat(gap, mid);
    CharsConcat(gap + mid, tail);
  }

  /** The state of the replacement: fresh ids so far, originals for exactly those. */
  ghost predicate Fresh(r: Replaced, first: nat) {
    && first <= r.next && (forall i: nat :: i in r.originals <==> first <= i < r.next)
    && (forall i :: 0 <= i < |r.tokens| && r.tokens[i].Entity? ==> r.tokens[i].id < r.next)
  }

  /** Every id of a segment is below `first`. */
  ghost predicate Below(ts: seq<Token>, first: nat) {
    forall i :: 0 <= i < |ts| && !ts[i].Text? ==> ts[i].id < first
  }

  lemma {:induction false} ReplaceFresh(ts: seq<Token>, f: SpansOf, first: nat)
    requires Finder(f) && Below(ts, first)
    ensures Fresh(ReplaceFrom(ts, f, first), first)
  {
    if ts != [] {
      var init, t := ts[..|ts| - 1], ts[|ts| - 1];
      ReplaceFresh(init, f, first);
      var r := ReplaceFrom(init, f, first);
      if t.Text? {
        var placed := Placed(t.value, f(t.value), 0, r.next);
        forall i | 0 <= i < |placed| && placed[i].Entity? ensures placed[i].id < r.next + |f(t.value)| {
          PlacedIds(t.value, f(t.value), 0, r.next, i);
        }
      }
    }
  }

  lemma SpansInRange(text: string, spans: seq<Span>)
    requires SpansIn(text, spans, 0)
    ensures forall k :: 0 <= k < |spans| ==> spans[k].start <= spans[k].end <= |text|
  {
  }

  /** New placeholders do not touch the old ones. */
  lemma OriginalsApart(r: Replaced, first: nat, m: map<nat, Masked>, text: string, spans: seq<Span>)
    requires SpansIn(text, spans, 0) && Fresh(r, first)
    requires var all := r.originals + Originals(text, spans, 0, r.next); forall id :: id in all ==> id in m && m[id] == all[id]
    ensures forall id :: id in r.originals ==> id in m && m[id] == r.originals[id]
    ensures Knows(m, text, spans, r.next)
  {
    hide SpansIn, Originals, Original;
    var more := Originals(text, spans, 0, r.next);
    SpansInRange(text, spans);
    var all := r.originals + more;
    forall id | id in r.originals ensures id in m && m[id] == r.originals[id] {
      assert id in all && id !in more;
    }
    forall k | 0 <= k < |spans| ensures KnowsOne(m, text, spans[k], r.next + k) {
      assert r.next + k in more && r.next + k in all;
    }
  }

  /** Filling the placeholders in rebuilds the segment's atoms exactly. */
  lemma {:induction false} ReplaceFills(ts: seq<Token>, f: SpansOf, first: nat, m: map<nat, Masked>)
    requires Finder(f) && Below(ts, first)
    requires forall id :: id in ReplaceFrom(ts, f, first).originals ==> id in m && m[id] == ReplaceFrom(ts, f, first).originals[id]
    requires forall i :: 0 <= i < |ts| && ts[i].Entity? ==> ts[i].id !in m
    ensures Filled(ReplaceFrom(ts, f, first).tokens, m) == Atoms(ts)
  {
    hide Placed, Filled, Atoms;
    if ts == [] {
      EmptyFilled(m);
    } else {
      var init, t := ts[..|ts| - 1], ts[|ts| - 1];
      var r := ReplaceFrom(init, f, first);
      ReplaceFresh(init, f, first);
      assert ts == init + [t];
      AtomsSnoc(init, t);
      if t.Text? {
        var spans := f(t.value);
        assert ReplaceFrom(ts, f, first).originals == r.originals + Originals(t.value, spans, 0, r.next);
        OriginalsApart(r, first, m, t.value, spans);
        ReplaceFills(init, f, first, m);
        PlacedFills(t.value, spans, 0, r.next, m);
        FilledConcat(r.tokens, Placed(t.value, spans, 0, r.next), m);
        assert t.value[0..] == t.value;
      } else {
        ReplaceFills(init, f, first, m);
        FilledConcat(r.tokens, [t], m);
        FilledOne(t, m);
      }
    }
  }

  lemma EmptyFilled(m: map<nat, Masked>)
    ensures Filled([], m) == [] && Atoms([]) == []
  {
  }

  // ---- ids ----

  lemma {:induction false} IdsConcat(a: seq<Token>, b: seq<Token>)
    ensures Ids(a + b) == Ids(a) + Ids(b)
  {
    if a == [] {
      assert a + b == b;
    } else {
      assert (a + b)[1..] == a[1..] + b;
      IdsConcat(a[1..], b);
    }
  }

  lemma IdsOne(t: Token)
    ensures Ids([t]) == if HasId(t) then multiset{t.id} else multiset{}
  {
    assert [t][1..] == [];
  }

  /** A gap and a placeholder in front of some tokens. */
  lemma PlacedOne(v: string, t: Token, rest: seq<Token>)
    requires t.Entity?
    ensures TagStructure(TextIf(v) + [t] + rest) == TagStructure(rest)
    ensures Ids(TextIf(v) + [t] + rest) == multiset{t.id} + Ids(rest)
  {
    hide *;
    var gap := TextIf(v);
    TextIfStructure(v);
    StructureConcat(gap + [t], rest);
    StructureConcat(gap, [t]);
    IdsConcat(gap + [t], rest);
    IdsConcat(gap, [t]);
    EntityAlone(t);
    var none: seq<Token> := [];
    assert none + none + TagStructure(rest) == TagStructure(rest);
  }

  lemma EntityAlone(t: Token)
    requires t.Entity?
    ensures TagStructure([t]) == [] && Ids([t]) == multiset{t.id}
  {
    OneStructure(t);
    IdsOne(t);
  }

  lemma {:induction false} PlacedStructure(text: string, spans: seq<Span>, pos: nat, id: nat)
    requires SpansIn(text, spans, pos)
    ensures TagStructure(Placed(text, spans, pos, id)) == []
    ensures forall x: nat :: Ids(Placed(text, spans, pos, id))[x] == if id <= x < id + |spans| then 1 else 0
    decreases |spans|
  {
    hide TagStructure, Ids, TextIf;
    if spans == [] {
      TextIfStructure(text[pos..]);
    } else {
      var s := spans[0];
      PlacedStructure(text, spans[1..], s.end, id + 1);
      PlacedOne(text[pos..s.start], Entity(s.kind, id), Placed(text, spans[1..], s.end, id + 1));
    }
  }

  lemma TextIfStructure(v: string)
    ensures TagStructure(TextIf(v)) == [] && Ids(TextIf(v)) == multiset{}
  {
    if v != "" { IdsOne(Text(v)); }
  }

  lemma {:induction false} ReplaceTags(ts: seq<Token>, f: SpansOf, first: nat)
    requires Finder(f) && Below(ts, first)
    ensures TagStructure(ReplaceFrom(ts, f, first).tokens) == TagStructure(ts)
  {
    hide Placed, TagStructure;
    if ts != [] {
      var init, t := ts[..|ts| - 1], ts[|ts| - 1];
      assert ts == init + [t];
      ReplaceTags(init, f, first);
      var r := ReplaceFrom(init, f, first);
      StructureConcat(init, [t]);
      OneStructure(t);
      if t.Text? {
        PlacedStructure(t.value, f(t.value), 0, r.next);
        StructureConcat(r.tokens, Placed(t.value, f(t.value), 0, r.next));
      } else {
        StructureConcat(r.tokens, [t]);
      }
    }
  }

  lemma {:induction false} ReplaceIds(ts: seq<Token>, f: SpansOf, first: nat, x: nat)
    requires Finder(f) && Below(ts, first)
    ensures var r := ReplaceFrom(ts, f, first);
            first <= r.next && Ids(r.tokens)[x] == if first <= x < r.next then 1 else Ids(ts)[x]
  {
    hide Placed, Ids;
    if ts == [] {
    } else {
      var init, t := ts[..|ts| - 1], ts[|ts| - 1];
      assert ts == init + [t];
      ReplaceIds(init, f, first, x);
      var r := ReplaceFrom(init, f, first);
      IdsConcat(init, [t]);
      IdsOne(t);
      if t.Text? {
        PlacedStructure(t.value, f(t.value), 0, r.next);
        IdsConcat(r.tokens, Placed(t.value, f(t.value), 0, r.next));
        IdsBelow(init, first);
      } else {
        IdsConcat(r.tokens, [t]);
      }
    }
  }

  /** Tags stay as they were, and each new id is used once. */
  lemma ReplaceStructure(ts: seq<Token>, f: SpansOf, first: nat)
    requires Finder(f) && Below(ts, first)
    ensures TagStructure(ReplaceFrom(ts, f, first).tokens) == TagStructure(ts)
    ensures var r := ReplaceFrom(ts, f, first);
            first <= r.next && forall x: nat :: Ids(r.tokens)[x] == if first <= x < r.next then 1 else Ids(ts)[x]
  {
    hide ReplaceFrom, TagStructure, Ids;
    ReplaceTags(ts, f, first);
    ReplaceIds(ts, f, first, 0);
    forall x: nat ensures var r := ReplaceFrom(ts, f, first); Ids(r.tokens)[x] == if first <= x < r.next then 1 else Ids(ts)[x] {
      ReplaceIds(ts, f, first, x);
    }
  }

  lemma OneStructure(t: Token)
    ensures TagStructure([t]) == if IsTag(t) then [t] else []
  {
    assert [t][1..] == [];
  }

  lemma {:induction false} IdsBelow(ts: seq<Token>, first: nat)
    requires Below(ts, first)
    ensures forall x: nat :: x >= first ==> Ids(ts)[x] == 0
  {
    if ts != [] {
      assert ts == [ts[0]] + ts[1..];
      IdsBelow(ts[1..], first);
    }
  }

  /** Replacing keeps the tags, uses each new id once, and keeps a valid segment valid. */
  lemma ReplaceValid(ts: seq<Token>, f: SpansOf)
    requires Finder(f) && Valid(ts)
    ensures Valid(Replace(ts, f).tokens)
  {
    var first := FirstId(ts);
    var r := ReplaceFrom(ts, f, first);
    ReplaceStructure(ts, f, first);
    CheckSplits(ts, [], {});
    CheckSplits(r.tokens, [], {});
    NestsOfTags(ts, []);
    NestsOfTags(r.tokens, []);
    IdsOnceIsNoRepeat(ts);
    IdsOnceIsNoRepeat(r.tokens);
    forall x: nat ensures Ids(r.tokens)[x] <= 1 {
      assert Ids(ts)[x] <= 1;
    }
  }
}
