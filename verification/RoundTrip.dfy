/** Masking and restoring are inverse: what comes back unchanged is the source, byte for byte. */
module RoundTrip {
  import opened Wrappers
  import opened Segments
  import opened Validator
  import opened Spans
  import opened Protect
  import opened Restoring
  import opened Verdicts
  import opened Leaks

  // ---- kinds ----

  ghost predicate KindsIn(spans: seq<Span>, kinds: set<string>) {
    forall x :: x in spans ==> x.kind in kinds
  }

  lemma {:induction false} TakeAllKinds(text: string, f: Found, n: nat, taken: seq<Span>, kinds: set<string>)
    requires n <= |f.ranges| && forall k :: 0 <= k < |f.ranges| ==> f.ranges[k].0 <= f.ranges[k].1 <= |text|
    requires KindsIn(taken, kinds) && f.kind in kinds
    ensures KindsIn(TakeAll(text, f, n, taken), kinds)
  {
    hide UrlEnd, Overlaps;
    if n > 0 { TakeAllKinds(text, f, n - 1, taken, kinds); }
  }

  lemma {:induction false} TakeFromKinds(text: string, found: seq<Found>, n: nat, kinds: set<string>)
    requires FoundIn(text, found) && n <= |found|
    requires forall k :: 0 <= k < |found| ==> found[k].kind in kinds
    ensures KindsIn(TakeFrom(text, found, n), kinds)
  {
    hide TakeAll;
    if n > 0 {
      TakeFromKinds(text, found, n - 1, kinds);
      var f := found[n - 1];
      forall k | 0 <= k < |f.ranges| ensures f.ranges[k].0 <= f.ranges[k].1 <= |text| {
        assert found[n - 1].ranges[k] == f.ranges[k];
      }
      TakeAllKinds(text, f, |f.ranges|, TakeFrom(text, found, n - 1), kinds);
    }
  }

  lemma {:induction false} UntranslatedMember(spans: seq<Span>, translate: set<string>, x: Span)
    ensures x in Untranslated(spans, translate) <==> x in spans && x.kind !in translate
  {
    if spans != [] {
      UntranslatedMember(spans[1..], translate, x);
      assert spans == [spans[0]] + spans[1..];
    }
  }

  /** Every placeholder the masker makes is of a known kind that was not left to the model. */
  lemma MaskKinds(p: Patterns, translate: set<string>, text: string)
    requires Regular(p)
    ensures KindsIn(MaskSpans(p, translate)(text), ENTITY_KINDS - translate)
  {
    var found := p(text);
    TakeFromKinds(text, found, |found|, ENTITY_KINDS);
    forall x | x in MaskSpans(p, translate)(text) ensures x.kind in ENTITY_KINDS - translate {
      UntranslatedMember(SpansOfText(text, found), translate, x);
      SortMembers(TakeFrom(text, found, |found|), x);
    }
  }

  // ---- what replacing makes ----

  /** A marker is one of the old ones, or new, known to the originals by id and kind. */
  ghost predicate KnownMarker(t: Token, ts: seq<Token>, r: Replaced, first: nat, kinds: set<string>) {
    if t.Entity? && t.id >= first then t.id in r.originals && r.originals[t.id].kind == t.kind && t.kind in kinds
    else t in ts
  }

  /** Every marker is known, no text is empty, and every placeholder stands for something. */
  ghost predicate Known(r: Replaced, ts: seq<Token>, first: nat, kinds: set<string>) {
    && (forall i :: 0 <= i < |r.tokens| ==>
          if r.tokens[i].Text? then r.tokens[i].value != "" else KnownMarker(r.tokens[i], ts, r, first, kinds))
    && (forall id :: id in r.originals ==> r.originals[id].value != "")
  }

  lemma OriginalsFilled(text: string, spans: seq<Span>, id: nat, more: map<nat, Masked>, m: map<nat, Masked>)
    requires SpansIn(text, spans, 0) && more == Originals(text, spans, 0, id)
    requires forall x :: x in m ==> m[x].value != ""
    ensures forall x :: x in m + more ==> (m + more)[x].value != ""
  {
    forall x | x in m + more ensures (m + more)[x].value != "" {
      if x in more { assert more[id + (x - id)] == Original(text, spans[x - id]); }
    }
  }

  lemma KnownCarries(t: Token, ts: seq<Token>, r: Replaced, all: Replaced, first: nat, kinds: set<string>)
    requires t.Entity? ==> t.id < r.next
    requires forall id :: id in r.originals && id < r.next ==> id in all.originals && all.originals[id] == r.originals[id]
    requires KnownMarker(t, ts, r, first, kinds)
    ensures KnownMarker(t, ts, all, first, kinds)
  {
  }

  lemma PlacedMarker(text: string, spans: seq<Span>, next: nat, ts: seq<Token>, all: Replaced, first: nat, kinds: set<string>, i: nat)
    requires SpansIn(text, spans, 0) && KindsIn(spans, kinds) && first <= next && i < |Placed(text, spans, 0, next)|
    requires forall k :: 0 <= k < |spans| ==> next + k in all.originals && all.originals[next + k] == Original(text, spans[k])
    ensures var t := Placed(text, spans, 0, next)[i];
            if t.Text? then t.value != "" else KnownMarker(t, ts, all, first, kinds)
  {
    hide Placed;
    PlacedIds(text, spans, 0, next, i);
  }

  lemma PlacedKnown(text: string, spans: seq<Span>, r: Replaced, ts: seq<Token>, first: nat, kinds: set<string>)
    requires SpansIn(text, spans, 0) && KindsIn(spans, kinds)
    requires Known(r, ts, first, kinds) && Fresh(r, first)
    ensures var placed := Placed(text, spans, 0, r.next);
            Known(Replaced(r.tokens + placed, r.next + |spans|, r.originals + Originals(text, spans, 0, r.next)), ts, first, kinds)
  {
    hide Placed, KnownMarker, Original, SpansIn, KindsIn, Originals;
    var placed, more := Placed(text, spans, 0, r.next), Originals(text, spans, 0, r.next);
    var all := Replaced(r.tokens + placed, r.next + |spans|, r.originals + more);
    OriginalsFilled(text, spans, r.next, more, r.originals);
    forall i | 0 <= i < |all.tokens|
      ensures var t := all.tokens[i];
              if t.Text? then t.value != "" else KnownMarker(t, ts, all, first, kinds)
    {
      if i < |r.tokens| {
        assert all.tokens[i] == r.tokens[i];
        OldMarker(r, all, ts, first, kinds, i);
      } else {
        assert all.tokens[i] == placed[i - |r.tokens|];
        PlacedMarker(text, spans, r.next, ts, all, first, kinds, i - |r.tokens|);
      }
    }
  }

  lemma OldMarker(r: Replaced, all: Replaced, ts: seq<Token>, first: nat, kinds: set<string>, i: nat)
    requires Known(r, ts, first, kinds) && Fresh(r, first) && i < |r.tokens|
    requires forall id :: id in r.originals && id < r.next ==> id in all.originals && all.originals[id] == r.originals[id]
    ensures var t := r.tokens[i];
            if t.Text? then t.value != "" else KnownMarker(t, ts, all, first, kinds)
  {
    hide KnownMarker;
    if !r.tokens[i].Text? { KnownCarries(r.tokens[i], ts, r, all, first, kinds); }
  }

  lemma {:induction false} ReplaceKnown(ts: seq<Token>, f: SpansOf, first: nat, kinds: set<string>)
    requires Finder(f) && Below(ts, first)
    requires forall text :: KindsIn(f(text), kinds)
    requires forall i :: 0 <= i < |ts| && ts[i].Text? ==> ts[i].value != ""
    ensures Known(ReplaceFrom(ts, f, first), ts, first, kinds)
  {
    hide Placed, Originals;
    if ts != [] {
      var init, t := ts[..|ts| - 1], ts[|ts| - 1];
      assert ts == init + [t];
      ReplaceKnown(init, f, first, kinds);
      ReplaceFresh(init, f, first);
      var r := ReplaceFrom(init, f, first);
      assert Known(r, ts, first, kinds) by {
        forall i | 0 <= i < |r.tokens| && !r.tokens[i].Text? ensures KnownMarker(r.tokens[i], ts, r, first, kinds) {
          assert KnownMarker(r.tokens[i], init, r, first, kinds);
        }
      }
      if t.Text? {
        PlacedKnown(t.value, f(t.value), r, ts, first, kinds);
      }
    }
  }

  lemma {:induction false} OnlyAtMostIds(ts: seq<Token>, p: Token -> bool, t: Token)
    requires HasId(t)
    ensures multiset(Only(ts, p))[t] <= Ids(ts)[t.id]
  {
    if ts != [] {
      OnlyAtMostIds(ts[1..], p, t);
    }
  }

  /** Every entity of a masked segment is a new one, with an original of its kind. */
  lemma MaskedEntities(ts: seq<Token>, f: SpansOf, first: nat)
    requires Finder(f) && Below(ts, first) && !HasEntity(ts)
    requires forall text :: KindsIn(f(text), ENTITY_KINDS)
    requires forall i :: 0 <= i < |ts| && ts[i].Text? ==> ts[i].value != ""
    ensures var r := ReplaceFrom(ts, f, first);
            forall i :: 0 <= i < |r.tokens| && r.tokens[i].Entity? ==>
              && r.tokens[i].id >= first && r.tokens[i].id in r.originals && IsOwn(r.tokens[i])
              && r.originals[r.tokens[i].id].kind == r.tokens[i].kind
  {
    hide ReplaceFrom;
    var r := ReplaceFrom(ts, f, first);
    ReplaceKnown(ts, f, first, ENTITY_KINDS);
    forall i | 0 <= i < |r.tokens| && r.tokens[i].Entity?
      ensures r.tokens[i].id >= first && r.tokens[i].id in r.originals && IsOwn(r.tokens[i])
      ensures r.originals[r.tokens[i].id].kind == r.tokens[i].kind
    {
      assert KnownMarker(r.tokens[i], ts, r, first, ENTITY_KINDS);
    }
  }

  /** Every original belongs to an entity of the masked segment. */
  lemma OriginalIsUsed(ts: seq<Token>, f: SpansOf, first: nat, id: nat) returns (i: nat)
    requires Finder(f) && Below(ts, first) && !HasEntity(ts) && id in ReplaceFrom(ts, f, first).originals
    requires forall text :: KindsIn(f(text), ENTITY_KINDS)
    requires forall i :: 0 <= i < |ts| && ts[i].Text? ==> ts[i].value != ""
    ensures var r := ReplaceFrom(ts, f, first); i < |r.tokens| && IsOwn(r.tokens[i]) && r.tokens[i].id == id
  {
    hide ReplaceFrom, Ids, TagStructure;
    var r := ReplaceFrom(ts, f, first);
    ReplaceFresh(ts, f, first);
    ReplaceStructure(ts, f, first);
    ReplaceKnown(ts, f, first, ENTITY_KINDS);
    assert Ids(r.tokens)[id] == 1;
    IdsMember(r.tokens, id);
    i :| 0 <= i < |r.tokens| && HasId(r.tokens[i]) && r.tokens[i].id == id;
    assert KnownMarker(r.tokens[i], ts, r, first, ENTITY_KINDS);
  }

  lemma EntitiesOnce(ts: seq<Token>, f: SpansOf, first: nat, t: Token)
    requires Finder(f) && Below(ts, first) && !HasEntity(ts)
    requires forall text :: KindsIn(f(text), ENTITY_KINDS)
    requires forall i :: 0 <= i < |ts| && ts[i].Text? ==> ts[i].value != ""
    ensures multiset(Only(ReplaceFrom(ts, f, first).tokens, OWN))[t] <= 1
  {
    hide ReplaceFrom, Only, Ids, TagStructure;
    var r := ReplaceFrom(ts, f, first);
    OnlyMember(r.tokens, OWN, t);
    if t in Only(r.tokens, OWN) {
      MaskedEntities(ts, f, first);
      ReplaceFresh(ts, f, first);
      ReplaceStructure(ts, f, first);
      OnlyAtMostIds(r.tokens, OWN, t);
      assert first <= t.id < r.next;
    }
  }

  /** The originals of a masked segment know exactly its entities, and each occurs once. */
  lemma MaskedAgrees(ts: seq<Token>, f: SpansOf, first: nat)
    requires Finder(f) && Below(ts, first) && !HasEntity(ts)
    requires forall text :: KindsIn(f(text), ENTITY_KINDS)
    requires forall i :: 0 <= i < |ts| && ts[i].Text? ==> ts[i].value != ""
    ensures var r := ReplaceFrom(ts, f, first);
            && Agrees(r.originals, r.tokens)
            && Exactly(Only(r.tokens, OWN), Only(r.tokens, OWN), r.originals.Keys).None?
            && Only(r.tokens, TERM) == []
  {
    hide ReplaceFrom, Only, Exactly, Finder;
    var r := ReplaceFrom(ts, f, first);
    MaskedEntities(ts, f, first);
    forall id | id in r.originals ensures exists i :: 0 <= i < |r.tokens| && IsOwn(r.tokens[i]) && r.tokens[i].id == id {
      var i := OriginalIsUsed(ts, f, first, id);
    }
    forall t ensures multiset(Only(r.tokens, OWN))[t] <= 1 { EntitiesOnce(ts, f, first, t); }
    ExactlyIs(Only(r.tokens, OWN), Only(r.tokens, OWN), r.originals.Keys);
    if Only(r.tokens, TERM) != [] {
      OnlyMember(r.tokens, TERM, Only(r.tokens, TERM)[0]);
    }
  }

  /** Rebuilding the masked segment from its originals is the segment that was masked. */
  lemma RebuildUndoesMask(ts: seq<Token>, f: SpansOf, first: nat)
    requires Finder(f) && Below(ts, first) && !HasEntity(ts) && Merged(ts)
    requires forall text :: KindsIn(f(text), ENTITY_KINDS)
    ensures var r := ReplaceFrom(ts, f, first); Rebuild(r.tokens, EntityFiller(r.originals)) == ts
  {
    hide ReplaceFrom, Rebuild, Filled, Atoms;
    var r := ReplaceFrom(ts, f, first);
    ReplaceKnown(ts, f, first, ENTITY_KINDS);
    forall i | 0 <= i < |r.tokens| && r.tokens[i].Entity? ensures IsOwn(r.tokens[i]) && r.originals[r.tokens[i].id].kind == r.tokens[i].kind {
      assert KnownMarker(r.tokens[i], ts, r, first, ENTITY_KINDS);
    }
    ReplaceFills(ts, f, first, r.originals);
    RebuildFills(r.tokens, r.originals);
    RebuildMerged(r.tokens, r.originals);
    MergedUnique(Rebuild(r.tokens, EntityFiller(r.originals)), ts);
  }

  /**
   Restoring a masked segment that came back unchanged rebuilds the source exactly, unless the leak
   scan objects to the text the masker itself left.
   */
  lemma MaskThenRestore(ts: seq<Token>, p: Patterns, translate: set<string>, leak: LeakScan)
    requires Regular(p) && Merged(ts) && !HasEntity(ts)
    ensures Finder(MaskSpans(p, translate))
    ensures var r := Replace(ts, MaskSpans(p, translate));
            Restored(r.tokens, r.tokens, r.originals, leak)
            == if ScanProblem(r.tokens, r.tokens, leak).Some? then Err(ScanProblem(r.tokens, r.tokens, leak).value) else Ok(ts)
  {
    MaskSpansFind(p, translate);
    var f := MaskSpans(p, translate);
    var first := FirstId(ts);
    assert Below(ts, first);
    forall text ensures KindsIn(f(text), ENTITY_KINDS) { MaskKinds(p, translate, text); }
    hide ReplaceFrom, Rebuild, Exactly, Only, Touching, MaskSpans;
    MaskedAgrees(ts, f, first);
    RebuildUndoesMask(ts, f, first);
    var r := ReplaceFrom(ts, f, first);
    assert Touching(r.tokens) - Touching(r.tokens) == {};
  }

  /**
   With the source's own scan, a masked segment that came back unchanged restores to the source if and
   only if the text left in it has no address, no numeral without a comparable value, and no numerals
   at all where it has no numbers.
   */
  lemma MaskThenRestoreIff(ts: seq<Token>, p: Patterns, translate: set<string>, tb: Tables)
    requires Regular(p) && Merged(ts) && !HasEntity(ts)
    ensures Finder(MaskSpans(p, translate))
    ensures var r := Replace(ts, MaskSpans(p, translate));
            var left := PlainText(r.tokens);
            Restored(r.tokens, r.tokens, r.originals, Scanned(tb)) == Ok(ts)
            <==> NumberValues.Comparable(tb.ds, tb.numeric, left) && !tb.address(left)
                 && (NumberValues.Numbers(tb.ds, left) == multiset{} ==> !HasNumeral(tb, left))
  {
    hide Restored, Scanned, PlainText, ReplaceFrom, NumberValues.Numbers, NumberValues.Comparable, HasNumeral;
    MaskThenRestore(ts, p, translate, Scanned(tb));
    OwnTextPasses(tb, PlainText(Replace(ts, MaskSpans(p, translate)).tokens));
  }
}
