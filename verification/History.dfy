/**
 What a segment is served, read off its own history: which operations wrote it, with which terms, and
 what was published or expired since.  The store answers exactly so over every run.
 */
module History {
  import opened Wrappers
  import opened Memory
  import opened TieredStore
  import opened StoreRuns

  /** Machine output that is still good, and when it was recorded. */
  datatype Output = Output(target: string, at: Time)

  /** The terms a segment was ever recorded or approved with, its approval, its machine output in order. */
  datatype Past = Past(used: set<string>, approval: Option<string>, live: seq<Output>)

  const NOTHING := Past({}, None, [])

  function Since(live: seq<Output>, before: Time): seq<Output> {
    if live == [] then []
    else Since(live[..|live| - 1], before) + if live[|live| - 1].at < before then [] else [live[|live| - 1]]
  }

  /** What one operation means for one segment. */
  function Then(p: Past, seg: Key, op: Op): Past {
    match op
    case Record(s, m, _, now) =>
      if s == seg then p.(used := p.used + m.terms, live := p.live + [Output(m.target, now)]) else p
    case ApproveIt(s, a, _) =>
      if s == seg then p.(used := p.used + a.terms, approval := Some(a.target)) else p
    case Publish(terms, _) => if p.used !! terms then p else p.(approval := None, live := [])
    case Retention(before, _) => p.(live := Since(p.live, before))
    case _ => p
  }

  function PastOf(ops: seq<Op>, seg: Key): Past {
    if ops == [] then NOTHING else Then(PastOf(ops[..|ops| - 1], seg), seg, ops[|ops| - 1])
  }

  datatype Answer = Answer(origin: Origin, target: string)

  /** The approval if one stands; else, where the tier allows it, the last machine output still good. */
  function AnswerOf(p: Past, tier: TierHint): Option<Answer> {
    if p.approval.Some? then Some(Answer(HUMAN, p.approval.value))
    else if (tier == IntTier(2) || tier == IntTier(3)) && p.live != [] then Some(Answer(MT, p.live[|p.live| - 1].target))
    else None
  }

  // ---- the memory follows the history ----

  predicate LiveAt(tm: TM, id: nat, seg: Key) {
    id in tm.versions && tm.versions[id].origin.MT? && tm.versions[id].segment == seg && tm.versions[id].invalidatedAt.None?
  }

  /** A segment's live machine versions with ids below `n`, in order. */
  function LiveBelow(tm: TM, seg: Key, n: nat): seq<Output> {
    if n == 0 then []
    else LiveBelow(tm, seg, n - 1)
         + if LiveAt(tm, n - 1, seg) then [Output(tm.versions[n - 1].target, tm.versions[n - 1].createdAt)] else []
  }

  ghost predicate SameTerms(k: KeysOf, tm: TM, seg: Key, p: Past) {
    forall t, g :: (t, seg, g) in tm.hits <==> g == k(seg).gfp && t in p.used
  }

  predicate IsApproved(tm: TM, seg: Key) {
    seg in tm.reviews && tm.reviews[seg].state.APPROVED?
  }

  ghost predicate SameApproval(tm: TM, seg: Key, p: Past) {
    && (IsApproved(tm, seg) <==> p.approval.Some?)
    && (IsApproved(tm, seg) && tm.reviews[seg].current in tm.versions ==>
          p.approval == Some(tm.versions[tm.reviews[seg].current].target))
  }

  ghost predicate Follows(k: KeysOf, tm: TM, seg: Key, p: Past) {
    SameTerms(k, tm, seg, p) && SameApproval(tm, seg, p) && LiveBelow(tm, seg, tm.next) == p.live
  }

  lemma {:induction false} LiveSame(a: TM, b: TM, seg: Key, n: nat)
    requires forall id: nat :: id < n ==>
      (LiveAt(a, id, seg) <==> LiveAt(b, id, seg))
      && (LiveAt(a, id, seg) ==> a.versions[id].target == b.versions[id].target && a.versions[id].createdAt == b.versions[id].createdAt)
    ensures LiveBelow(a, seg, n) == LiveBelow(b, seg, n)
  {
    if n > 0 { LiveSame(a, b, seg, n - 1); }
  }

  lemma {:induction false} LiveEmpty(a: TM, seg: Key, n: nat)
    requires forall id: nat :: !LiveAt(a, id, seg)
    ensures LiveBelow(a, seg, n) == []
  {
    if n > 0 { LiveEmpty(a, seg, n - 1); }
  }

  /** One version more. */
  lemma LiveAdded(k: KeysOf, tm: TM, v: Version, b: TM, seg: Key)
    requires MemoryOk(k, tm) && v.id == tm.next && v.invalidatedAt.None? && b.versions == tm.versions[v.id := v] && b.next == v.id + 1
    ensures LiveBelow(b, seg, b.next)
            == LiveBelow(tm, seg, tm.next) + if v.origin.MT? && v.segment == seg then [Output(v.target, v.createdAt)] else []
  {
    MemoryNext(k, tm);
    hide MemoryOk;
    LiveSame(tm, b, seg, tm.next);
  }

  lemma AddedHits(tm: TM, v: Version, source: string, terms: set<string>, t: string, s: Key, g: string)
    ensures (t, s, g) in AddVersion(tm, v, source, terms).hits
            <==> (t, s, g) in tm.hits || (t in terms && s == v.segment && g == v.gfp)
  {
  }

  lemma RecordFollows(k: KeysOf, s: Store, seg: Key, p: Past, op: Op)
    requires KeysOk(k) && Inv(k, s) && Follows(k, s.tm, seg, p) && op.Record?
    ensures Follows(k, Step(k, s, op).tm, seg, Then(p, seg, op))
  {
    hide CacheOk, FlagForReview, LiveBelow, KeysOk, MemoryOk, AddVersion, Follows;
    KeysOfSegment(k, op.segment);
    var keys := k(op.segment);
    var (tm, stored) := StoreMachine(s.tm, keys, op.m, op.now);
    AddedFollows(k, s, seg, p, op);
    if op.review.Some? {
      FlagKeepsPast(k, tm, FlaggingOf(keys, stored, op.review.value, op.now), op.now, seg, Then(p, seg, op));
    }
  }

  lemma AddedFollows(k: KeysOf, s: Store, seg: Key, p: Past, op: Op)
    requires KeysOk(k) && Inv(k, s) && Follows(k, s.tm, seg, p) && op.Record?
    ensures Follows(k, StoreMachine(s.tm, k(op.segment), op.m, op.now).0, seg, Then(p, seg, op))
  {
    hide CacheOk, LiveBelow, KeysOk, MemoryOk, AddVersion;
    KeysOfSegment(k, op.segment);
    var keys := k(op.segment);
    var tm := StoreMachine(s.tm, keys, op.m, op.now).0;
    var v := Version(s.tm.next, keys.segment, keys.machine, MT, op.m.target, keys.gfp, Some(op.m.model), None,
                     op.m.tagIntegrity, op.now, None);
    assert tm == AddVersion(s.tm, v, op.m.source, op.m.terms);
    AddedIs(s.tm, v, op.m.source, op.m.terms);
    forall t, g ensures (t, seg, g) in tm.hits <==> (t, seg, g) in s.tm.hits || (t in op.m.terms && seg == v.segment && g == v.gfp) {
      AddedHits(s.tm, v, op.m.source, op.m.terms, t, seg, g);
    }
    LiveAdded(k, s.tm, v, tm, seg);
    MemoryNext(k, s.tm);
    if IsApproved(s.tm, seg) { ApprovedHas(k, s.tm, seg); }
  }

  /** Flagging adds or moves open items, and nothing a history speaks of. */
  lemma FlagKeepsPast(k: KeysOf, tm: TM, f: Flagging, now: Time, seg: Key, p: Past)
    requires Follows(k, tm, seg, p)
    ensures Follows(k, FlagForReview(tm, f, now).0, seg, p)
  {
    hide OpenedBy;
    var b := FlagForReview(tm, f, now).0;
    assert b.hits == tm.hits && b.versions == tm.versions && b.next == tm.next;
    LiveSame(tm, b, seg, tm.next);
  }

  lemma ApproveFollows(k: KeysOf, s: Store, seg: Key, p: Past, op: Op)
    requires KeysOk(k) && Inv(k, s) && Follows(k, s.tm, seg, p) && op.ApproveIt?
    ensures Follows(k, Step(k, s, op).tm, seg, Then(p, seg, op))
  {
    hide CacheOk, LiveBelow, Approve, KeysOk, MemoryOk, AddVersion;
    KeysOfSegment(k, op.segment);
    var keys := k(op.segment);
    var v := ApprovedVersion(s.tm, keys, op.a, op.now);
    var added := AddVersion(s.tm, v, op.a.source, op.a.terms);
    var tm := Approve(s.tm, keys, op.a, op.now).0;
    ApprovedIs(s.tm, keys, op.a, op.now);
    assert tm.hits == added.hits;
    forall t, g ensures (t, seg, g) in tm.hits <==> (t, seg, g) in s.tm.hits || (t in op.a.terms && seg == v.segment && g == v.gfp) {
      AddedHits(s.tm, v, op.a.source, op.a.terms, t, seg, g);
    }
    LiveAdded(k, s.tm, v, tm, seg);
    MemoryNext(k, s.tm);
    if IsApproved(s.tm, seg) { ApprovedHas(k, s.tm, seg); }
  }

  lemma {:induction false} ServeFollows(k: KeysOf, s: Store, page: seq<PageItem>, site: string, now: Time, n: nat, seg: Key, p: Past)
    requires n <= |page| && Follows(k, s.tm, seg, p)
    ensures Follows(k, ServedUpTo(k, s, page, site, now, n).tm, seg, p)
  {
    hide HitOf, FlagForReview, Follows;
    if n > 0 {
      ServeFollows(k, s, page, site, now, n - 1, seg, p);
      var before := ServedUpTo(k, s, page, site, now, n - 1);
      var hit := PageHit(k, s, page[n - 1]);
      if hit.Some? {
        var f := FlaggingOf(k(page[n - 1].segment), hit.value.stored, ReviewRequest(site, REQUEST), now);
        FlagKeepsPast(k, before.tm, f, now, seg, p);
      }
    }
  }

  // ---- publishing ----

  lemma AffectedIs(k: KeysOf, tm: TM, terms: set<string>, seg: Key, p: Past)
    requires SameTerms(k, tm, seg, p)
    ensures (seg, k(seg).gfp) in Affected(tm, terms) <==> !(p.used !! terms)
  {
    if !(p.used !! terms) {
      var t :| t in p.used && t in terms;
      assert (t, seg, k(seg).gfp) in tm.hits;
    }
    if (seg, k(seg).gfp) in Affected(tm, terms) {
      var h :| h in tm.hits && h.0 in terms && (h.1, h.2) == (seg, k(seg).gfp);
      assert (h.0, seg, k(seg).gfp) in tm.hits;
    }
  }

  /** What a publication sweeps of one segment: all of its live output and its approval, or nothing. */
  lemma PublishSweeps(k: KeysOf, s: Store, terms: set<string>, seg: Key, p: Past)
    requires KeysOk(k) && Inv(k, s) && SameTerms(k, s.tm, seg, p)
    ensures var affected := Affected(s.tm, terms);
            && (forall id :: id in s.tm.versions && s.tm.versions[id].segment == seg ==>
                  (id in StaleMachine(s.tm, affected) <==> !(p.used !! terms) && LiveAt(s.tm, id, seg)))
            && (seg in StaleApprovals(s.tm, affected) <==> !(p.used !! terms) && IsApproved(s.tm, seg))
  {
    hide Affected, CacheOk;
    AffectedIs(k, s.tm, terms, seg, p);
    var affected := Affected(s.tm, terms);
    forall id | id in s.tm.versions && s.tm.versions[id].segment == seg
      ensures id in StaleMachine(s.tm, affected) <==> !(p.used !! terms) && LiveAt(s.tm, id, seg)
    {
      assert VersionOk(k, s.tm, id, s.tm.versions[id]);
    }
    if IsApproved(s.tm, seg) {
      assert ReviewOk(k, s.tm, seg, s.tm.reviews[seg]);
      assert VersionOk(k, s.tm, s.tm.reviews[seg].current, s.tm.versions[s.tm.reviews[seg].current]);
    }
  }

  /** A publication with one of the terms a segment was ever written with. */
  lemma TouchedBy(k: KeysOf, s: Store, terms: set<string>, now: Time, seg: Key, p: Past)
    requires KeysOk(k) && Inv(k, s) && SameTerms(k, s.tm, seg, p) && !(p.used !! terms)
    ensures var b := PublishTerms(s, terms, now);
            && (forall id: nat :: !LiveAt(b.tm, id, seg)) && !IsApproved(b.tm, seg)
            && (seg in b.tm.reviews ==> !IsOpen(b.tm.reviews[seg].state))
            && (IsApproved(s.tm, seg) ==>
                  seg in b.tm.reviews && b.tm.reviews[seg] == s.tm.reviews[seg].(state := NEEDS_RECHECK, updatedAt := now))
  {
    hide Sweep, Inv, KeysOk, SameTerms, Affected, StaleMachine, StaleApprovals, PublishTerms, LookupKeys, ApprovedKeys;
    var affected := Affected(s.tm, terms);
    var ids, recheck := StaleMachine(s.tm, affected), StaleApprovals(s.tm, affected);
    PublishIsSweep(s, terms, now);
    StaleIs(s.tm, affected);
    PublishSweeps(k, s, terms, seg, p);
    SweptIs(s, ids, recheck, now);
    if seg in s.tm.reviews {
      SweptItem(k, s, ids, recheck, now, seg);
      ItemIs(k, s, seg);
    }
  }

  /** A review item is about a version of its own segment, and an open one about live machine output. */
  lemma ItemIs(k: KeysOf, s: Store, seg: Key)
    requires Inv(k, s) && seg in s.tm.reviews
    ensures var item := s.tm.reviews[seg];
            && item.current in s.tm.versions && s.tm.versions[item.current].segment == seg
            && (IsOpen(item.state) ==> LiveAt(s.tm, item.current, seg))
  {
    hide CacheOk;
    assert ReviewOk(k, s.tm, seg, s.tm.reviews[seg]);
  }

  lemma PublishIsSweep(s: Store, terms: set<string>, now: Time)
    ensures var affected := Affected(s.tm, terms);
            PublishTerms(s, terms, now) == Sweep(s, StaleMachine(s.tm, affected), StaleApprovals(s.tm, affected), now)
  {
  }

  lemma StaleIs(tm: TM, affected: set<(Key, string)>)
    ensures Sweepable(tm, StaleMachine(tm, affected), StaleApprovals(tm, affected))
  {
  }

  /** A publication with none of them. */
  lemma UntouchedBy(k: KeysOf, s: Store, terms: set<string>, now: Time, seg: Key, p: Past)
    requires KeysOk(k) && Inv(k, s) && SameTerms(k, s.tm, seg, p) && p.used !! terms
    ensures var b := PublishTerms(s, terms, now);
            && (forall id :: id in s.tm.versions && s.tm.versions[id].segment == seg ==>
                  id in b.tm.versions && b.tm.versions[id] == s.tm.versions[id])
            && (seg in s.tm.reviews <==> seg in b.tm.reviews)
            && (seg in s.tm.reviews ==> b.tm.reviews[seg] == s.tm.reviews[seg])
  {
    hide Sweep, Inv, KeysOk, SameTerms, Affected, StaleMachine, StaleApprovals, PublishTerms, LookupKeys, ApprovedKeys;
    var affected := Affected(s.tm, terms);
    var ids, recheck := StaleMachine(s.tm, affected), StaleApprovals(s.tm, affected);
    PublishIsSweep(s, terms, now);
    StaleIs(s.tm, affected);
    PublishSweeps(k, s, terms, seg, p);
    SweptIs(s, ids, recheck, now);
    if seg in s.tm.reviews {
      SweptItem(k, s, ids, recheck, now, seg);
      ItemIs(k, s, seg);
    }
  }

  lemma PublishFollows(k: KeysOf, s: Store, terms: set<string>, now: Time, seg: Key, p: Past)
    requires KeysOk(k) && Inv(k, s) && Follows(k, s.tm, seg, p)
    ensures Follows(k, PublishTerms(s, terms, now).tm, seg, Then(p, seg, Publish(terms, now)))
  {
    hide CacheOk, LiveBelow, PublishTerms, Affected;
    var b := PublishTerms(s, terms, now).tm;
    PublishKeepsHits(s, terms, now);
    if p.used !! terms {
      UntouchedBy(k, s, terms, now, seg, p);
      LiveSame(s.tm, b, seg, b.next);
    } else {
      TouchedBy(k, s, terms, now, seg, p);
      LiveEmpty(b, seg, b.next);
    }
    if IsApproved(s.tm, seg) { assert ReviewOk(k, s.tm, seg, s.tm.reviews[seg]); }
  }

  lemma PublishKeepsHits(s: Store, terms: set<string>, now: Time)
    ensures var b := PublishTerms(s, terms, now).tm;
            b.hits == s.tm.hits && b.next == s.tm.next && b.versions.Keys == s.tm.versions.Keys
            && forall id :: id in b.versions ==> b.versions[id].segment == s.tm.versions[id].segment
  {
    hide Affected;
  }

  // ---- retention ----

  lemma SinceSnoc(live: seq<Output>, o: Output, before: Time)
    ensures Since(live + [o], before) == Since(live, before) + if o.at < before then [] else [o]
  {
    assert (live + [o])[..|live|] == live;
  }

  lemma {:induction false} LiveExpired(a: TM, b: TM, seg: Key, before: Time, n: nat)
    requires forall id: nat :: LiveAt(b, id, seg) <==> LiveAt(a, id, seg) && a.versions[id].createdAt >= before
    requires forall id: nat :: LiveAt(b, id, seg) ==>
      id in a.versions && b.versions[id].target == a.versions[id].target && b.versions[id].createdAt == a.versions[id].createdAt
    ensures LiveBelow(b, seg, n) == Since(LiveBelow(a, seg, n), before)
  {
    if n > 0 {
      hide LiveBelow, Since, LiveAt;
      var id: nat := n - 1;
      LiveExpired(a, b, seg, before, id);
      LiveStep(a, seg, id);
      LiveStep(b, seg, id);
      if LiveAt(a, id, seg) {
        LiveIn(a, id, seg);
        SinceSnoc(LiveBelow(a, seg, id), Output(a.versions[id].target, a.versions[id].createdAt), before);
        if LiveAt(b, id, seg) { LiveIn(b, id, seg); }
      }
    } else {
      NothingLive(a, b, seg, before);
    }
  }

  lemma NothingLive(a: TM, b: TM, seg: Key, before: Time)
    ensures LiveBelow(b, seg, 0) == Since(LiveBelow(a, seg, 0), before)
  {
  }

  lemma LiveIn(a: TM, id: nat, seg: Key)
    requires LiveAt(a, id, seg)
    ensures id in a.versions
  {
  }

  lemma LiveStep(a: TM, seg: Key, id: nat)
    ensures LiveAt(a, id, seg) ==> id in a.versions
    ensures LiveBelow(a, seg, id + 1) ==
              if LiveAt(a, id, seg) then LiveBelow(a, seg, id) + [Output(a.versions[id].target, a.versions[id].createdAt)]
              else LiveBelow(a, seg, id)
  {
  }

  lemma RetentionFollows(k: KeysOf, s: Store, before: Time, now: Time, seg: Key, p: Past)
    requires KeysOk(k) && Inv(k, s) && Follows(k, s.tm, seg, p)
    ensures Follows(k, Expire(s, before, now).tm, seg, Then(p, seg, Retention(before, now)))
  {
    hide CacheOk, LiveBelow, Expire, KeysOk, MemoryOk, Since;
    var b := Expire(s, before, now).tm;
    ExpiredIs(k, s, before, now, seg);
    LiveExpired(s.tm, b, seg, before, s.tm.next);
    if IsApproved(s.tm, seg) { ApprovedHas(k, s.tm, seg); }
  }

  lemma ApprovedHas(k: KeysOf, tm: TM, seg: Key)
    requires MemoryOk(k, tm) && IsApproved(tm, seg)
    ensures tm.reviews[seg].current in tm.versions
  {
    assert ReviewOk(k, tm, seg, tm.reviews[seg]);
  }

  /** Retention invalidates machine versions from before its date, and no approval. */
  lemma ExpiredIs(k: KeysOf, s: Store, before: Time, now: Time, seg: Key)
    requires Inv(k, s)
    ensures var b := Expire(s, before, now).tm;
            && b.hits == s.tm.hits && b.next == s.tm.next && b.versions.Keys == s.tm.versions.Keys
            && (forall id :: id in b.versions ==> b.versions[id].(invalidatedAt := None) == s.tm.versions[id].(invalidatedAt := None))
            && (forall id: nat :: LiveAt(b, id, seg) <==> LiveAt(s.tm, id, seg) && s.tm.versions[id].createdAt >= before)
            && (IsApproved(b, seg) <==> IsApproved(s.tm, seg)) && (IsApproved(b, seg) ==> b.reviews[seg] == s.tm.reviews[seg])
  {
    hide Inv, Sweep, Expire, Recheck, ApprovedKeys;
    var ids := ExpiredMachine(s.tm, before);
    ExpireIsSweep(s, before, now);
    SweptIs(s, ids, {}, now);
    SweepKeepsHits(s, ids, {}, now);
    if seg in s.tm.reviews { SweptItem(k, s, ids, {}, now, seg); }
  }

  lemma ExpireIsSweep(s: Store, before: Time, now: Time)
    ensures Expire(s, before, now).tm == Sweep(s, ExpiredMachine(s.tm, before), {}, now).tm
  {
    NothingRechecked(s, now);
  }

  lemma SweepKeepsHits(s: Store, ids: set<nat>, recheck: set<Key>, now: Time)
    ensures Sweep(s, ids, recheck, now).tm.hits == s.tm.hits
  {
  }

  lemma NothingRechecked(s: Store, now: Time)
    ensures Recheck(s.tm.reviews, {}, now) == s.tm.reviews && ApprovedKeys(s.tm.reviews, {}) == {}
  {
  }

  lemma ReleaseFollows(k: KeysOf, s: Store, segments: set<Key>, now: Time, seg: Key, p: Past)
    requires Follows(k, s.tm, seg, p)
    ensures Follows(k, Release(s.tm, segments, now), seg, p)
  {
    LiveSame(s.tm, Release(s.tm, segments, now), seg, s.tm.next);
  }

  lemma StepFollows(k: KeysOf, s: Store, op: Op, seg: Key, p: Past)
    requires KeysOk(k) && Inv(k, s) && Follows(k, s.tm, seg, p)
    ensures Follows(k, Step(k, s, op).tm, seg, Then(p, seg, op))
  {
    hide KeysOk, Inv, Follows;
    match op
    case Record(_, _, _, _) => RecordFollows(k, s, seg, p, op);
    case ApproveIt(_, _, _) => ApproveFollows(k, s, seg, p, op);
    case ServePage(page, site, now) =>
      SameMemory(k, s, page);
      ServeFollows(k, s, page, site, now, |page|, seg, p);
    case Publish(terms, now) => PublishFollows(k, s, terms, now, seg, p);
    case Retention(before, now) => RetentionFollows(k, s, before, now, seg, p);
    case ReleaseOwed(segments, now) => ReleaseFollows(k, s, segments, now, seg, p);
    case DropMachine(_) =>
  }

  lemma SameMemory(k: KeysOf, s: Store, page: seq<PageItem>)
    ensures ServedUpTo(k, s, page, "", 0, 0).tm == s.tm
  {
  }

  /** Over every run the memory has of a segment what its history says. */
  lemma {:induction false} RunsFollow(k: KeysOf, ops: seq<Op>, seg: Key)
    requires KeysOk(k)
    ensures Follows(k, RunOps(k, ops).tm, seg, PastOf(ops, seg))
  {
    if ops == [] {
      LiveEmpty(EMPTY, seg, EMPTY.next);
    } else {
      hide KeysOk, Inv, Follows, Step;
      var init := ops[..|ops| - 1];
      RunsFollow(k, init, seg);
      RunsKeep(k, init);
      StepFollows(k, RunOps(k, init), ops[|ops| - 1], seg, PastOf(init, seg));
    }
  }

  // ---- the answers ----

  /** What a lookup of a segment's machine key may return is its live machine output. */
  lemma ServesIsLive(k: KeysOf, tm: TM, seg: Key, id: nat)
    requires KeysOk(k) && MemoryOk(k, tm)
    ensures Serves(tm, id, k(seg).machine) <==> LiveAt(tm, id, seg)
  {
    KeysOfSegment(k, seg);
    if id in tm.versions { assert VersionOk(k, tm, id, tm.versions[id]); }
  }

  lemma {:induction false} LatestIsLast(k: KeysOf, tm: TM, seg: Key, n: nat)
    requires KeysOk(k) && MemoryOk(k, tm)
    ensures var r, live := Latest(tm, k(seg).machine, n), LiveBelow(tm, seg, n);
            && (r.None? <==> live == [])
            && (r.Some? ==> live[|live| - 1].target == tm.versions[r.value].target)
  {
    hide KeysOk, MemoryOk, Serves;
    if n > 0 {
      LatestIsLast(k, tm, seg, n - 1);
      ServesIsLive(k, tm, seg, n - 1);
    }
  }

  lemma ApproverIsSegment(k: KeysOf, s: Store, seg: Key)
    requires KeysOk(k) && Inv(k, s)
    ensures ApprovedOf(s.tm, k(seg).approved).Some? <==> IsApproved(s.tm, seg)
    ensures IsApproved(s.tm, seg) ==>
              && s.tm.reviews[seg].current in s.tm.versions
              && ApprovedOf(s.tm, k(seg).approved) == Some(ApprovalOf(s.tm, seg)) && ApprovalOf(s.tm, seg).origin.HUMAN?
  {
    var key := k(seg).approved;
    if IsApproved(s.tm, seg) {
      assert ReviewOk(k, s.tm, seg, s.tm.reviews[seg]);
      assert Approves(s.tm, seg, key);
      ApproverIs(k, s, seg, key);
      ApprovedOfIs(k, s, seg, key);
    }
    if ApprovedOf(s.tm, key).Some? {
      var t :| Approves(s.tm, t, key);
      ApproverIs(k, s, t, key);
      KeysOfSegment(k, seg);
    }
  }

  /** The answer a store gives, without saying where it was read. */
  ghost function Answered(hit: Option<Hit>): Option<Answer> {
    if hit.None? then None else Some(Answer(hit.value.stored.origin, hit.value.stored.target))
  }

  lemma FollowerAnswers(k: KeysOf, s: Store, seg: Key, p: Past, tier: TierHint)
    requires KeysOk(k) && Inv(k, s) && Follows(k, s.tm, seg, p)
    ensures Answered(HitOf(s, k(seg), GateTier(tier))) == AnswerOf(p, tier)
  {
    hide KeysOk, CacheOk, HitOf, ApprovedOf, LiveBelow, Latest, MemoryOk;
    CacheIsCoherent(k, s, k(seg), GateTier(tier));
    ApproverIsSegment(k, s, seg);
    LatestIsLast(k, s.tm, seg, s.tm.next);
  }

  /**
   Over every run and at every tier, a segment is served what its own history says: the approval that
   stands, or at tiers 2 and 3 the last machine output that nothing published or expired since.
   */
  lemma ServedByHistory(k: KeysOf, ops: seq<Op>, seg: Key, tier: TierHint)
    requires KeysOk(k)
    ensures Answered(HitOf(RunOps(k, ops), k(seg), GateTier(tier))) == AnswerOf(PastOf(ops, seg), tier)
  {
    hide *;
    RunsKeep(k, ops);
    RunsFollow(k, ops, seg);
    FollowerAnswers(k, RunOps(k, ops), seg, PastOf(ops, seg), tier);
  }

  // ---- the terms of a history ----

  ghost predicate WrittenWith(op: Op, seg: Key, t: string) {
    (op.Record? && op.segment == seg && t in op.m.terms) || (op.ApproveIt? && op.segment == seg && t in op.a.terms)
  }

  lemma {:induction false} UsedIs(ops: seq<Op>, seg: Key, t: string)
    ensures t in PastOf(ops, seg).used <==> exists i :: 0 <= i < |ops| && WrittenWith(ops[i], seg, t)
  {
    if ops != [] {
      var n := |ops| - 1;
      var init := ops[..n];
      UsedIs(init, seg, t);
      if i :| 0 <= i < n && WrittenWith(ops[i], seg, t) { assert init[i] == ops[i]; }
      if i :| 0 <= i < n && WrittenWith(init[i], seg, t) { assert init[i] == ops[i]; }
    }
  }

  /** Some earlier machine output or approval of the segment used one of these terms. */
  ghost predicate DependsOn(ops: seq<Op>, seg: Key, terms: set<string>) {
    exists i, t :: 0 <= i < |ops| && t in terms && WrittenWith(ops[i], seg, t)
  }

  lemma DependsIs(ops: seq<Op>, seg: Key, terms: set<string>)
    ensures DependsOn(ops, seg, terms) <==> !(PastOf(ops, seg).used !! terms)
  {
    hide PastOf, WrittenWith;
    if i, t :| 0 <= i < |ops| && t in terms && WrittenWith(ops[i], seg, t) {
      UsedIs(ops, seg, t);
    }
    if !(PastOf(ops, seg).used !! terms) {
      var t :| t in PastOf(ops, seg).used && t in terms;
      UsedIs(ops, seg, t);
    }
  }

  /** Nothing of the segment's machine output, and no approval of it, is left to be served. */
  ghost predicate Gone(k: KeysOf, s: Store, seg: Key) {
    && (forall id :: id in s.tm.versions && s.tm.versions[id].segment == seg && s.tm.versions[id].origin.MT? ==>
          s.tm.versions[id].invalidatedAt.Some?)
    && ApprovedKey(k(seg).approved) !in s.cache && MachineKey(k(seg).machine) !in s.cache
    && forall tier :: HitOf(s, k(seg), tier).None?
  }

  lemma NothingCached(k: KeysOf, s: Store, seg: Key)
    requires KeysOk(k) && Inv(k, s) && !IsApproved(s.tm, seg) && forall id: nat :: !LiveAt(s.tm, id, seg)
    ensures Gone(k, s, seg)
  {
    hide KeysOk, MemoryOk, ApprovedOf, HitOf, MachineOf, Serves;
    ApproverIsSegment(k, s, seg);
    ApprovalIs(k, s, k(seg).approved);
    NoMachine(k, s, seg);
    forall id | id in s.tm.versions && s.tm.versions[id].segment == seg && s.tm.versions[id].origin.MT?
      ensures s.tm.versions[id].invalidatedAt.Some?
    {
      assert !LiveAt(s.tm, id, seg);
    }
    forall tier ensures HitOf(s, k(seg), tier).None? { NoHit(s, k(seg), tier); }
  }

  lemma NoMachine(k: KeysOf, s: Store, seg: Key)
    requires KeysOk(k) && Inv(k, s) && forall id: nat :: !LiveAt(s.tm, id, seg)
    ensures MachineKey(k(seg).machine) !in s.cache && MachineOf(s.tm, k(seg).machine).None?
  {
    hide KeysOk, MemoryOk, CurrentApproval;
    var key := k(seg).machine;
    forall id: nat ensures !Serves(s.tm, id, key) { ServesIsLive(k, s.tm, seg, id); }
    assert MachineKey(key) in s.cache ==> CurrentMachine(s.tm, key, s.cache[MachineKey(key)]);
  }

  lemma NoHit(s: Store, keys: SegmentKeys, tier: int)
    requires ApprovedKey(keys.approved) !in s.cache && MachineKey(keys.machine) !in s.cache
    requires ApprovedOf(s.tm, keys.approved).None? && MachineOf(s.tm, keys.machine).None?
    ensures HitOf(s, keys, tier).None?
  {
  }

  /**
   Once a term is published, nothing of a segment that was ever recorded or approved with it is
   served: its machine versions are invalidated, its approval waits for a recheck, no question about
   it stays open, and both of its cache entries are dropped.
   */
  lemma PublishedIsGone(k: KeysOf, ops: seq<Op>, terms: set<string>, now: Time, seg: Key)
    requires KeysOk(k) && DependsOn(ops, seg, terms)
    ensures var a, b := RunOps(k, ops), RunOps(k, ops + [Publish(terms, now)]);
            && Gone(k, b, seg)
            && (seg in b.tm.reviews ==> !IsOpen(b.tm.reviews[seg].state) && !b.tm.reviews[seg].state.APPROVED?)
            && (IsApproved(a.tm, seg) ==>
                  seg in b.tm.reviews && b.tm.reviews[seg] == a.tm.reviews[seg].(state := NEEDS_RECHECK, updatedAt := now))
  {
    hide KeysOk, Inv, Follows, PastOf, DependsOn, PublishTerms, Gone;
    var all := ops + [Publish(terms, now)];
    assert all[..|all| - 1] == ops;
    RunsKeep(k, ops);
    RunsKeep(k, all);
    RunsFollow(k, ops, seg);
    DependsIs(ops, seg, terms);
    FollowsTerms(k, RunOps(k, ops).tm, seg, PastOf(ops, seg));
    TouchedBy(k, RunOps(k, ops), terms, now, seg, PastOf(ops, seg));
    NothingCached(k, RunOps(k, all), seg);
  }

  lemma FollowsTerms(k: KeysOf, tm: TM, seg: Key, p: Past)
    requires Follows(k, tm, seg, p)
    ensures SameTerms(k, tm, seg, p)
  {
  }

  /** A segment's versions, its review item and every answer about it are the same in both stores. */
  ghost predicate Undisturbed(k: KeysOf, a: Store, b: Store, seg: Key) {
    && (forall id :: id in a.tm.versions && a.tm.versions[id].segment == seg ==>
          id in b.tm.versions && b.tm.versions[id] == a.tm.versions[id])
    && (seg in a.tm.reviews <==> seg in b.tm.reviews) && (seg in a.tm.reviews ==> b.tm.reviews[seg] == a.tm.reviews[seg])
    && forall tier :: Answered(HitOf(b, k(seg), GateTier(tier))) == Answered(HitOf(a, k(seg), GateTier(tier)))
  }

  /** A publication leaves alone every segment that was never recorded or approved with one of its terms. */
  lemma UnrelatedStays(k: KeysOf, ops: seq<Op>, terms: set<string>, now: Time, seg: Key)
    requires KeysOk(k) && !DependsOn(ops, seg, terms)
    ensures Undisturbed(k, RunOps(k, ops), RunOps(k, ops + [Publish(terms, now)]), seg)
  {
    hide KeysOk, Inv, Follows, PastOf, DependsOn, PublishTerms, HitOf;
    var all := ops + [Publish(terms, now)];
    assert all[..|all| - 1] == ops;
    RunsKeep(k, ops);
    RunsFollow(k, ops, seg);
    DependsIs(ops, seg, terms);
    FollowsTerms(k, RunOps(k, ops).tm, seg, PastOf(ops, seg));
    UntouchedBy(k, RunOps(k, ops), terms, now, seg, PastOf(ops, seg));
    forall tier ensures
      Answered(HitOf(RunOps(k, all), k(seg), GateTier(tier))) == Answered(HitOf(RunOps(k, ops), k(seg), GateTier(tier)))
    {
      ServedByHistory(k, ops, seg, tier);
      ServedByHistory(k, all, seg, tier);
      PublishedPast(ops, terms, now, seg);
    }
  }

  lemma PublishedPast(ops: seq<Op>, terms: set<string>, now: Time, seg: Key)
    requires PastOf(ops, seg).used !! terms
    ensures PastOf(ops + [Publish(terms, now)], seg) == PastOf(ops, seg)
  {
    assert (ops + [Publish(terms, now)])[..|ops|] == ops;
  }

  /** Machine output recorded with a term is not served once the term is published. */
  lemma TaxIsGone(k: KeysOf, seg: Key, m: Machine, now: Time, later: Time, tier: TierHint)
    requires KeysOk(k) && "tax" in m.terms
    ensures tier == IntTier(2) || tier == IntTier(3)
            ==> Answered(HitOf(RunOps(k, [Record(seg, m, None, now)]), k(seg), GateTier(tier))) == Some(Answer(MT, m.target))
    ensures HitOf(RunOps(k, [Record(seg, m, None, now), Publish({"tax"}, later)]), k(seg), GateTier(tier)).None?
  {
    var one := [Record(seg, m, None, now)];
    hide KeysOk, RunOps, HitOf;
    assert one[..0] == [];
    ServedByHistory(k, one, seg, tier);
    assert WrittenWith(one[0], seg, "tax");
    PublishedIsGone(k, one, {"tax"}, later, seg);
    assert one + [Publish({"tax"}, later)] == [Record(seg, m, None, now), Publish({"tax"}, later)];
  }
}
