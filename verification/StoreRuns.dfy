/** Every write keeps the store's invariant, and what that means over whole runs. */
module StoreRuns {
  import opened Wrappers
  import opened Memory
  import opened TieredStore

  // ---- keys ----

  lemma KeysOfSegment(k: KeysOf, s: Key)
    requires KeysOk(k)
    ensures k(s).segment == s
    ensures forall t :: k(t).approved == k(s).approved ==> t == s
    ensures forall t :: k(t).machine == k(s).machine ==> t == s
  {
  }

  // ---- single steps ----

  lemma SetMachine(k: KeysOf, s: Store, key: Key, st: Stored)
    requires Inv(k, s) && CurrentMachine(s.tm, key, st)
    ensures Inv(k, s.(cache := s.cache[MachineKey(key) := st]))
  {
  }

  lemma SetApproved(k: KeysOf, s: Store, key: Key, st: Stored)
    requires Inv(k, s) && CurrentApproval(s.tm, key, st)
    ensures Inv(k, s.(cache := s.cache[ApprovedKey(key) := st]))
  {
    hide MemoryOk, CurrentMachine, CurrentApproval;
  }

  /** Machine entries may be dropped at any time. */
  lemma DropKeeps(k: KeysOf, s: Store, key: Key)
    requires Inv(k, s)
    ensures Inv(k, s.(cache := s.cache - {MachineKey(key)}))
  {
  }

  /** A version added to the memory is served, and everything else stands. */
  lemma AddedServes(tm: TM, v: Version, source: string, terms: set<string>, id: nat, key: Key)
    requires v.id == tm.next && v.invalidatedAt.None?
    ensures Serves(AddVersion(tm, v, source, terms), id, key) <==>
              if id == v.id then v.origin.MT? && v.lookup == key else Serves(tm, id, key)
  {
  }

  lemma AddKeepsMemory(k: KeysOf, tm: TM, v: Version, source: string, terms: set<string>)
    requires MemoryOk(k, tm) && VersionOk(k, tm.(next := tm.next + 1), v.id, v) && v.id == tm.next
    ensures MemoryOk(k, AddVersion(tm, v, source, terms))
  {
    var b := AddVersion(tm, v, source, terms);
    forall s | s in b.reviews ensures ReviewOk(k, b, s, b.reviews[s]) {
      assert ReviewOk(k, tm, s, tm.reviews[s]);
    }
    forall id | id in b.versions ensures VersionOk(k, b, id, b.versions[id]) {
      if id != v.id { assert VersionOk(k, tm, id, tm.versions[id]); }
    }
  }

  lemma AddedIs(tm: TM, v: Version, source: string, terms: set<string>)
    ensures var b := AddVersion(tm, v, source, terms);
            b.versions == tm.versions[v.id := v] && b.reviews == tm.reviews && b.next == v.id + 1
  {
  }

  lemma AddKeepsMachine(k: KeysOf, s: Store, v: Version, source: string, terms: set<string>, key: Key)
    requires Inv(k, s) && MachineKey(key) in s.cache && v.id == s.tm.next && v.invalidatedAt.None?
    requires !(v.origin.MT? && v.lookup == key)
    ensures CurrentMachine(AddVersion(s.tm, v, source, terms), key, s.cache[MachineKey(key)])
  {
    var st := s.cache[MachineKey(key)];
    assert CurrentMachine(s.tm, key, st);
    assert VersionOk(k, s.tm, st.version, s.tm.versions[st.version]);
    forall id: nat ensures Serves(AddVersion(s.tm, v, source, terms), id, key) <==> Serves(s.tm, id, key) {
      AddedServes(s.tm, v, source, terms, id, key);
      if Serves(s.tm, id, key) { assert VersionOk(k, s.tm, id, s.tm.versions[id]); }
    }
  }

  lemma AddKeepsApproval(tm: TM, v: Version, source: string, terms: set<string>, key: Key, st: Stored)
    requires CurrentApproval(tm, key, st) && v.id !in tm.versions
    ensures CurrentApproval(AddVersion(tm, v, source, terms), key, st)
  {
  }

  lemma AddedIsCurrent(k: KeysOf, tm: TM, v: Version, source: string, terms: set<string>, st: Stored)
    requires v.id == tm.next && v.origin.MT? && v.invalidatedAt.None?
    requires st == Stored(v.id, MT, v.target, false)
    ensures CurrentMachine(AddVersion(tm, v, source, terms), v.lookup, st)
  {
  }

  /** A new machine version makes the cached one of its key stale, and no other entry. */
  lemma AddMachineKeeps(k: KeysOf, s: Store, seg: Key, m: Machine, now: Time)
    requires KeysOk(k) && Inv(k, s)
    ensures var (tm, stored) := StoreMachine(s.tm, k(seg), m, now);
            && Inv(k, Store(tm, s.cache - {MachineKey(k(seg).machine)}))
            && CurrentMachine(tm, k(seg).machine, stored)
            && tm.versions[stored.version].segment == seg
  {
    hide KeysOk, AddVersion, CurrentMachine, CurrentApproval;
    KeysOfSegment(k, seg);
    var keys := k(seg);
    var (tm, stored) := StoreMachine(s.tm, keys, m, now);
    var v := Version(s.tm.next, seg, keys.machine, MT, m.target, keys.gfp, Some(m.model), None, m.tagIntegrity, now, None);
    assert tm == AddVersion(s.tm, v, m.source, m.terms);
    AddedIs(s.tm, v, m.source, m.terms);
    AddKeepsMemory(k, s.tm, v, m.source, m.terms);
    forall key | MachineKey(key) in s.cache && key != keys.machine
      ensures CurrentMachine(tm, key, s.cache[MachineKey(key)])
    {
      AddKeepsMachine(k, s, v, m.source, m.terms, key);
    }
    forall key | ApprovedKey(key) in s.cache ensures CurrentApproval(tm, key, s.cache[ApprovedKey(key)]) {
      AddKeepsApproval(s.tm, v, m.source, m.terms, key, s.cache[ApprovedKey(key)]);
    }
    AddedIsCurrent(k, s.tm, v, m.source, m.terms, stored);
  }

  /** Flagging a live version of its own segment. */
  ghost predicate Flaggable(tm: TM, f: Flagging) {
    && f.version in tm.versions && tm.versions[f.version].segment == f.segment
    && tm.versions[f.version].origin.MT? && tm.versions[f.version].invalidatedAt.None?
  }

  /** What flagging does to the review items. */
  lemma FlagItems(tm: TM, f: Flagging, now: Time)
    ensures var b := FlagForReview(tm, f, now).0;
            && b.versions == tm.versions && b.next == tm.next
            && f.segment in b.reviews && b.reviews.Keys == tm.reviews.Keys + {f.segment}
            && (forall s :: s in tm.reviews && (s != f.segment || !IsOpen(tm.reviews[s].state)) ==> b.reviews[s] == tm.reviews[s])
            && (f.segment in tm.reviews && IsOpen(tm.reviews[f.segment].state) ==>
                  b.reviews[f.segment].state == tm.reviews[f.segment].state
                  && b.reviews[f.segment].current in {tm.reviews[f.segment].current, f.version})
            && (f.segment !in tm.reviews ==> IsOpen(b.reviews[f.segment].state) && b.reviews[f.segment].current == f.version)
  {
    hide OpenedBy;
  }

  lemma FlagMemory(k: KeysOf, tm: TM, f: Flagging, now: Time)
    requires MemoryOk(k, tm) && Flaggable(tm, f)
    ensures var b := FlagForReview(tm, f, now).0;
            && MemoryOk(k, b) && b.versions == tm.versions && b.next == tm.next
            && f.segment in b.reviews && tm.reviews.Keys <= b.reviews.Keys
            && (forall s :: s in b.reviews && b.reviews[s].state.APPROVED? ==> s in tm.reviews && b.reviews[s] == tm.reviews[s])
            && (forall s :: s in tm.reviews && !IsOpen(tm.reviews[s].state) ==> b.reviews[s] == tm.reviews[s])
  {
    FlagItems(tm, f, now);
    hide FlagForReview, VersionOk;
    var b := FlagForReview(tm, f, now).0;
    VersionsCarryOver(k, tm, b);
    forall s | s in b.reviews ensures ReviewOk(k, b, s, b.reviews[s]) {
      assert s in tm.reviews || s == f.segment;
      if s in tm.reviews { assert ReviewOk(k, tm, s, tm.reviews[s]); }
    }
    forall s | s in b.reviews && b.reviews[s].state.APPROVED? ensures s in tm.reviews && b.reviews[s] == tm.reviews[s] {
      assert s in tm.reviews || s == f.segment;
    }
  }

  lemma VersionsCarryOver(k: KeysOf, a: TM, b: TM)
    requires MemoryOk(k, a) && b.versions == a.versions && b.next == a.next
    ensures b.next >= 1 && forall id :: id in b.versions ==> VersionOk(k, b, id, b.versions[id])
  {
    forall id | id in b.versions ensures VersionOk(k, b, id, b.versions[id]) {
      assert VersionOk(k, a, id, a.versions[id]);
    }
  }

  /** Reviews may be added and open ones moved without touching what the cache says. */
  lemma SameVersionsKeepCache(k: KeysOf, s: Store, tm: TM)
    requires Inv(k, s) && MemoryOk(k, tm) && tm.versions == s.tm.versions && tm.next == s.tm.next
    requires s.tm.reviews.Keys <= tm.reviews.Keys
    requires forall t :: t in tm.reviews && tm.reviews[t].state.APPROVED? ==> t in s.tm.reviews && tm.reviews[t] == s.tm.reviews[t]
    requires forall t :: t in s.tm.reviews && s.tm.reviews[t].state.APPROVED? ==> tm.reviews[t] == s.tm.reviews[t]
    ensures Inv(k, Store(tm, s.cache))
  {
    forall key | MachineKey(key) in s.cache ensures CurrentMachine(tm, key, s.cache[MachineKey(key)]) {
      CurrentMoves(s.tm, tm, key, s.cache[MachineKey(key)]);
    }
    forall key | ApprovedKey(key) in s.cache ensures CurrentApproval(tm, key, s.cache[ApprovedKey(key)]) {
      assert CurrentApproval(s.tm, key, s.cache[ApprovedKey(key)]);
    }
  }

  lemma CurrentMoves(a: TM, b: TM, key: Key, st: Stored)
    requires CurrentMachine(a, key, st) && b.versions == a.versions && b.next == a.next
    requires a.reviews.Keys <= b.reviews.Keys
    ensures CurrentMachine(b, key, st)
  {
    forall id: nat ensures Serves(b, id, key) <==> Serves(a, id, key) {}
  }

  /** Flag a current machine version and set the review bit of its cache entry. */
  lemma FlagAndSet(k: KeysOf, s: Store, seg: Key, stored: Stored, r: ReviewRequest, now: Time)
    requires KeysOk(k) && Inv(k, s) && CurrentMachine(s.tm, k(seg).machine, stored)
    ensures var tm := FlagForReview(s.tm, FlaggingOf(k(seg), stored, r, now), now).0;
            && Inv(k, Store(tm, s.cache[MachineKey(k(seg).machine) := stored.(review := true)]))
            && seg in tm.reviews && tm.versions == s.tm.versions && tm.next == s.tm.next
            && s.tm.reviews.Keys <= tm.reviews.Keys
  {
    var f := FlaggingOf(k(seg), stored, r, now);
    var v := s.tm.versions[stored.version];
    assert VersionOk(k, s.tm, stored.version, v);
    assert k(v.segment).machine == k(seg).machine;
    FlagMemory(k, s.tm, f, now);
    var tm := FlagForReview(s.tm, f, now).0;
    SameVersionsKeepCache(k, s, tm);
    CurrentMoves(s.tm, tm, k(seg).machine, stored);
    SetMachine(k, Store(tm, s.cache), k(seg).machine, stored.(review := true));
  }

  lemma RecordKeeps(k: KeysOf, s: Store, seg: Key, m: Machine, review: Option<ReviewRequest>, now: Time)
    requires KeysOk(k) && Inv(k, s)
    ensures var b := RecordMachine(s, k(seg), m, review, now);
            Inv(k, b) && (review.Some? ==> seg in b.tm.reviews)
  {
    hide Inv, KeysOk, CurrentMachine, FlagForReview;
    KeysOfSegment(k, seg);
    var keys := k(seg);
    var (tm, stored) := StoreMachine(s.tm, keys, m, now);
    var mid := Store(tm, s.cache - {MachineKey(keys.machine)});
    AddMachineKeeps(k, s, seg, m, now);
    var entry := if review.None? then stored else stored.(review := true);
    assert s.cache[MachineKey(keys.machine) := entry] == mid.cache[MachineKey(keys.machine) := entry];
    if review.None? {
      SetMachine(k, mid, keys.machine, stored);
    } else {
      FlagAndSet(k, mid, seg, stored, review.value, now);
    }
  }

  lemma EnsureReviewKeeps(k: KeysOf, s: Store, seg: Key, stored: Stored, site: string, now: Time)
    requires KeysOk(k) && Inv(k, s)
    requires stored.origin.MT? ==> CurrentMachine(s.tm, k(seg).machine, stored)
    ensures var b := EnsureReview(s, k(seg), stored, site, now);
            && Inv(k, b) && b.tm.versions == s.tm.versions && b.tm.next == s.tm.next
            && s.tm.reviews.Keys <= b.tm.reviews.Keys && (stored.origin.MT? ==> seg in b.tm.reviews)
  {
    if stored.origin.MT? && !stored.review {
      FlagAndSet(k, s, seg, stored, ReviewRequest(site, REQUEST), now);
    } else if stored.origin.MT? {
      assert VersionOk(k, s.tm, stored.version, s.tm.versions[stored.version]);
      assert k(s.tm.versions[stored.version].segment).machine == k(seg).machine;
    }
  }

  lemma ApproveMemory(k: KeysOf, added: TM, tm: TM, seg: Key)
    requires MemoryOk(k, added) && tm == added.(reviews := tm.reviews)
    requires seg in tm.reviews && tm.reviews == added.reviews[seg := tm.reviews[seg]] && ReviewOk(k, tm, seg, tm.reviews[seg])
    ensures MemoryOk(k, tm)
  {
    forall t | t in tm.reviews ensures ReviewOk(k, tm, t, tm.reviews[t]) {
      if t != seg { assert ReviewOk(k, added, t, added.reviews[t]); }
    }
    forall id | id in tm.versions ensures VersionOk(k, tm, id, tm.versions[id]) {
      assert VersionOk(k, added, id, added.versions[id]);
    }
  }

  lemma ApprovedNow(tm: TM, seg: Key, key: Key, st: Stored)
    requires st.version in tm.versions && seg in tm.reviews
    requires var v, item := tm.versions[st.version], tm.reviews[seg];
             && v.segment == seg && v.origin.HUMAN? && v.lookup == key && st.origin.HUMAN? && st.target == v.target
             && item.state.APPROVED? && item.current == st.version
    ensures CurrentApproval(tm, key, st)
  {
  }

  lemma OtherApproval(k: KeysOf, added: TM, tm: TM, seg: Key, key: Key, st: Stored)
    requires MemoryOk(k, added) && CurrentApproval(added, key, st) && key != k(seg).approved
    requires tm == added.(reviews := tm.reviews) && seg in tm.reviews && tm.reviews == added.reviews[seg := tm.reviews[seg]]
    ensures CurrentApproval(tm, key, st)
  {
    assert VersionOk(k, added, st.version, added.versions[st.version]);
  }

  function ApprovedVersion(tm: TM, keys: SegmentKeys, a: Approval, now: Time): Version {
    Version(tm.next, keys.segment, keys.approved, HUMAN, a.target, keys.gfp, None, Some(a.author), Some(true), now, None)
  }

  /** What approving does to the memory: a version more, and the segment's item decided for it. */
  lemma ApprovedIs(tm: TM, keys: SegmentKeys, a: Approval, now: Time)
    ensures var v := ApprovedVersion(tm, keys, a, now);
            var added := AddVersion(tm, v, a.source, a.terms);
            var (b, st) := Approve(tm, keys, a, now);
            && b == added.(reviews := b.reviews) && keys.segment in b.reviews
            && b.reviews == tm.reviews[keys.segment := b.reviews[keys.segment]] && added.reviews == tm.reviews
            && b.versions == tm.versions[v.id := v] && b.next == v.id + 1
            && b.reviews[keys.segment].state.APPROVED? && b.reviews[keys.segment].approvedKey == Some(keys.approved)
            && b.reviews[keys.segment].current == v.id && st == Stored(v.id, HUMAN, v.target, false)
  {
  }

  lemma ApproveKeepsMemory(k: KeysOf, tm: TM, seg: Key, a: Approval, now: Time)
    requires KeysOk(k) && MemoryOk(k, tm)
    ensures MemoryOk(k, Approve(tm, k(seg), a, now).0)
  {
    hide KeysOk, AddVersion, MemoryOk, Approve;
    KeysOfSegment(k, seg);
    ApprovedIs(tm, k(seg), a, now);
    var v := ApprovedVersion(tm, k(seg), a, now);
    MemoryNext(k, tm);
    AddKeepsMemory(k, tm, v, a.source, a.terms);
    ApproveMemory(k, AddVersion(tm, v, a.source, a.terms), Approve(tm, k(seg), a, now).0, seg);
  }

  lemma MemoryNext(k: KeysOf, tm: TM)
    requires MemoryOk(k, tm)
    ensures tm.next >= 1 && tm.next !in tm.versions
  {
    forall id | id in tm.versions ensures id < tm.next { assert VersionOk(k, tm, id, tm.versions[id]); }
  }

  /** An approval replaces the segment's item, its cached approval and its cached machine entry. */
  lemma ApproveKeeps(k: KeysOf, s: Store, seg: Key, a: Approval, now: Time)
    requires KeysOk(k) && Inv(k, s)
    ensures Inv(k, ApproveSegment(s, k(seg), a, now))
  {
    hide KeysOk, AddVersion, CurrentMachine, CurrentApproval, MemoryOk, Approve;
    KeysOfSegment(k, seg);
    var keys := k(seg);
    ApprovedIs(s.tm, keys, a, now);
    ApproveKeepsMemory(k, s.tm, seg, a, now);
    MemoryNext(k, s.tm);
    var (tm, stored) := Approve(s.tm, keys, a, now);
    var b := ApproveSegment(s, keys, a, now);
    var v := ApprovedVersion(s.tm, keys, a, now);
    var added := AddVersion(s.tm, v, a.source, a.terms);
    AddedIs(s.tm, v, a.source, a.terms);
    AddKeepsMemory(k, s.tm, v, a.source, a.terms);
    forall key | MachineKey(key) in b.cache ensures CurrentMachine(tm, key, b.cache[MachineKey(key)]) {
      AddKeepsMachine(k, s, v, a.source, a.terms, key);
      CurrentMoves(added, tm, key, s.cache[MachineKey(key)]);
    }
    forall key | ApprovedKey(key) in b.cache ensures CurrentApproval(tm, key, b.cache[ApprovedKey(key)]) {
      if key == keys.approved {
        ApprovedNow(tm, seg, key, stored);
      } else {
        AddKeepsApproval(s.tm, v, a.source, a.terms, key, s.cache[ApprovedKey(key)]);
        OtherApproval(k, added, tm, seg, key, s.cache[ApprovedKey(key)]);
      }
    }
  }

  // ---- invalidation ----

  /** Invalidate live machine versions, send approvals to recheck, close what asks about nothing. */
  function Sweep(s: Store, ids: set<nat>, recheck: set<Key>, now: Time): Store {
    Store(CloseInvalidated(s.tm.(versions := Invalidated(s.tm.versions, ids, now),
                                 reviews := Recheck(s.tm.reviews, recheck, now))),
          s.cache - Entries(LookupKeys(s.tm.versions, ids), ApprovedKeys(s.tm.reviews, recheck)))
  }

  ghost predicate Sweepable(tm: TM, ids: set<nat>, recheck: set<Key>) {
    && (forall id :: id in ids ==> id in tm.versions && tm.versions[id].origin.MT? && tm.versions[id].invalidatedAt.None?)
    && (forall s :: s in recheck ==> s in tm.reviews && tm.reviews[s].state.APPROVED?)
  }

  /** Sweeping changes nothing of a version but its invalidation, and drops items only. */
  lemma SweptIs(s: Store, ids: set<nat>, recheck: set<Key>, now: Time)
    ensures var tm := Sweep(s, ids, recheck, now).tm;
            && tm.next == s.tm.next && tm.versions.Keys == s.tm.versions.Keys
            && (forall id :: id in tm.versions ==>
                  tm.versions[id] == if id in ids then s.tm.versions[id].(invalidatedAt := Some(now)) else s.tm.versions[id])
            && (forall t :: t in tm.reviews ==>
                  && t in s.tm.reviews
                  && tm.reviews[t] == (if t in recheck then s.tm.reviews[t].(state := NEEDS_RECHECK, updatedAt := now)
                                       else s.tm.reviews[t])
                  && !AsksNothing(tm.versions, tm.reviews[t]))
  {
  }

  lemma SweepMemory(k: KeysOf, s: Store, ids: set<nat>, recheck: set<Key>, now: Time)
    requires KeysOk(k) && Inv(k, s) && Sweepable(s.tm, ids, recheck)
    ensures MemoryOk(k, Sweep(s, ids, recheck, now).tm)
  {
    SweptIs(s, ids, recheck, now);
    hide KeysOk, Sweep, CacheOk;
    var tm := Sweep(s, ids, recheck, now).tm;
    forall id | id in tm.versions ensures VersionOk(k, tm, id, tm.versions[id]) {
      assert VersionOk(k, s.tm, id, s.tm.versions[id]);
    }
    hide VersionOk;
    forall t | t in tm.reviews ensures ReviewOk(k, tm, t, tm.reviews[t]) {
      assert ReviewOk(k, s.tm, t, s.tm.reviews[t]);
    }
  }

  lemma SweepServes(s: Store, ids: set<nat>, recheck: set<Key>, now: Time, id: nat, key: Key)
    ensures Serves(Sweep(s, ids, recheck, now).tm, id, key) <==> Serves(s.tm, id, key) && id !in ids
  {
  }

  /** What becomes of one review item. */
  lemma SweptItem(k: KeysOf, s: Store, ids: set<nat>, recheck: set<Key>, now: Time, t: Key)
    requires Inv(k, s) && Sweepable(s.tm, ids, recheck) && t in s.tm.reviews
    ensures var b, item := Sweep(s, ids, recheck, now).tm, s.tm.reviews[t];
            && (t in b.reviews <==> !(IsOpen(item.state) && item.current in ids))
            && (t in b.reviews ==>
                  b.reviews[t] == if t in recheck then item.(state := NEEDS_RECHECK, updatedAt := now) else item)
  {
    hide CacheOk;
    assert ReviewOk(k, s.tm, t, s.tm.reviews[t]);
  }

  /** The item of a segment whose machine key is not touched is kept. */
  lemma SweepKeepsItem(k: KeysOf, s: Store, ids: set<nat>, recheck: set<Key>, now: Time, id: nat)
    requires Inv(k, s) && Sweepable(s.tm, ids, recheck)
    requires id in s.tm.versions && s.tm.versions[id].origin.MT?
    requires s.tm.versions[id].lookup !in LookupKeys(s.tm.versions, ids)
    requires s.tm.versions[id].segment in s.tm.reviews
    ensures s.tm.versions[id].segment in Sweep(s, ids, recheck, now).tm.reviews
  {
    hide CacheOk, Sweep;
    var v := s.tm.versions[id];
    var item := s.tm.reviews[v.segment];
    assert VersionOk(k, s.tm, id, v);
    assert ReviewOk(k, s.tm, v.segment, item);
    assert VersionOk(k, s.tm, item.current, s.tm.versions[item.current]);
    SweptItem(k, s, ids, recheck, now, v.segment);
  }

  /** A machine entry that is kept is of a version that is kept, and so is the item its review bit speaks of. */
  lemma SweepMachineEntry(k: KeysOf, s: Store, ids: set<nat>, recheck: set<Key>, now: Time, key: Key)
    requires KeysOk(k) && Inv(k, s) && Sweepable(s.tm, ids, recheck)
    requires MachineKey(key) in Sweep(s, ids, recheck, now).cache
    ensures CurrentMachine(Sweep(s, ids, recheck, now).tm, key, s.cache[MachineKey(key)])
  {
    hide KeysOk, Recheck;
    var b := Sweep(s, ids, recheck, now);
    var st := s.cache[MachineKey(key)];
    var v := s.tm.versions[st.version];
    assert CurrentMachine(s.tm, key, st);
    assert key !in LookupKeys(s.tm.versions, ids);
    forall id: nat ensures Serves(b.tm, id, key) <==> Serves(s.tm, id, key) && id !in ids {
      SweepServes(s, ids, recheck, now, id, key);
    }
    if st.review { SweepKeepsItem(k, s, ids, recheck, now, st.version); }
  }

  /** An approval whose entry stays in the cache was not sent to recheck. */
  lemma ApprovedNotSwept(s: Store, ids: set<nat>, recheck: set<Key>, now: Time, seg: Key, key: Key)
    requires ApprovedKey(key) in Sweep(s, ids, recheck, now).cache
    requires seg in s.tm.reviews && s.tm.reviews[seg].approvedKey == Some(key)
    ensures seg !in recheck
  {
    var gone := ApprovedKeys(s.tm.reviews, recheck);
    assert ApprovedKey(key) !in Entries(LookupKeys(s.tm.versions, ids), gone);
    assert key !in gone;
  }

  lemma SweepApprovedEntry(k: KeysOf, s: Store, ids: set<nat>, recheck: set<Key>, now: Time, key: Key)
    requires KeysOk(k) && Inv(k, s) && Sweepable(s.tm, ids, recheck)
    requires ApprovedKey(key) in Sweep(s, ids, recheck, now).cache
    ensures CurrentApproval(Sweep(s, ids, recheck, now).tm, key, s.cache[ApprovedKey(key)])
  {
    hide KeysOk;
    var st := s.cache[ApprovedKey(key)];
    assert CurrentApproval(s.tm, key, st);
    CachedApprover(k, s, key);
    var seg := s.tm.versions[st.version].segment;
    ApprovedNotSwept(s, ids, recheck, now, seg, key);
    SweptItem(k, s, ids, recheck, now, seg);
  }

  /** A segment that is not sent to recheck keeps its key. */
  lemma OtherApprovedKey(k: KeysOf, tm: TM, recheck: set<Key>, seg: Key)
    requires KeysOk(k) && MemoryOk(k, tm) && seg !in recheck
    requires forall t :: t in recheck ==> t in tm.reviews && tm.reviews[t].state.APPROVED?
    ensures k(seg).approved !in ApprovedKeys(tm.reviews, recheck)
  {
    forall t | t in recheck ensures tm.reviews[t].approvedKey == Some(k(t).approved) {
      assert ReviewOk(k, tm, t, tm.reviews[t]);
    }
    hide MemoryOk;
  }

  lemma StaysCached(s: Store, ids: set<nat>, recheck: set<Key>, now: Time, key: Key)
    requires ApprovedKey(key) in s.cache && key !in ApprovedKeys(s.tm.reviews, recheck)
    ensures ApprovedKey(key) in Sweep(s, ids, recheck, now).cache
  {
    hide CloseInvalidated, LookupKeys, ApprovedKeys;
  }

  lemma SweepApprovals(k: KeysOf, s: Store, ids: set<nat>, recheck: set<Key>, now: Time, seg: Key)
    requires KeysOk(k) && Inv(k, s) && Sweepable(s.tm, ids, recheck)
    requires var tm := Sweep(s, ids, recheck, now).tm; seg in tm.reviews && tm.reviews[seg].state.APPROVED?
    ensures ApprovedKey(k(seg).approved) in Sweep(s, ids, recheck, now).cache
  {
    hide KeysOk, MemoryOk, Sweep, ApprovedKeys, AsksNothing, CurrentApproval, CurrentMachine;
    SweptIs(s, ids, recheck, now);
    assert seg in s.tm.reviews && seg !in recheck && s.tm.reviews[seg].state.APPROVED?;
    OtherApprovedKey(k, s.tm, recheck, seg);
    StaysCached(s, ids, recheck, now, k(seg).approved);
  }

  lemma SweepKeeps(k: KeysOf, s: Store, ids: set<nat>, recheck: set<Key>, now: Time)
    requires KeysOk(k) && Inv(k, s) && Sweepable(s.tm, ids, recheck)
    ensures Inv(k, Sweep(s, ids, recheck, now))
  {
    var b := Sweep(s, ids, recheck, now);
    SweepMemory(k, s, ids, recheck, now);
    forall key | MachineKey(key) in b.cache ensures CurrentMachine(b.tm, key, b.cache[MachineKey(key)]) {
      SweepMachineEntry(k, s, ids, recheck, now, key);
    }
    forall key | ApprovedKey(key) in b.cache ensures CurrentApproval(b.tm, key, b.cache[ApprovedKey(key)]) {
      SweepApprovedEntry(k, s, ids, recheck, now, key);
    }
    forall seg | seg in b.tm.reviews && b.tm.reviews[seg].state.APPROVED?
      ensures ApprovedKey(k(seg).approved) in b.cache
    {
      SweepApprovals(k, s, ids, recheck, now, seg);
    }
  }

  lemma PublishKeeps(k: KeysOf, s: Store, terms: set<string>, now: Time)
    requires KeysOk(k) && Inv(k, s)
    ensures Inv(k, PublishTerms(s, terms, now))
  {
    var affected := Affected(s.tm, terms);
    var ids, recheck := StaleMachine(s.tm, affected), StaleApprovals(s.tm, affected);
    SweepKeeps(k, s, ids, recheck, now);
    assert PublishTerms(s, terms, now) == Sweep(s, ids, recheck, now);
  }

  lemma ExpireKeeps(k: KeysOf, s: Store, before: Time, now: Time)
    requires KeysOk(k) && Inv(k, s)
    ensures Inv(k, Expire(s, before, now))
  {
    var ids := ExpiredMachine(s.tm, before);
    SweepKeeps(k, s, ids, {}, now);
    assert Recheck(s.tm.reviews, {}, now) == s.tm.reviews;
    assert ApprovedKeys(s.tm.reviews, {}) == {};
    assert Expire(s, before, now) == Sweep(s, ids, {}, now);
  }

  lemma ReleaseKeeps(k: KeysOf, s: Store, segments: set<Key>, now: Time)
    requires Inv(k, s)
    ensures Inv(k, s.(tm := Release(s.tm, segments, now)))
  {
    var tm := Release(s.tm, segments, now);
    forall t | t in tm.reviews ensures ReviewOk(k, tm, t, tm.reviews[t]) {
      assert ReviewOk(k, s.tm, t, s.tm.reviews[t]);
    }
    forall id | id in tm.versions ensures VersionOk(k, tm, id, tm.versions[id]) {
      assert VersionOk(k, s.tm, id, s.tm.versions[id]);
    }
    SameVersionsKeepCache(k, s, tm);
  }

  // ---- serving a page ----

  lemma HitIsCurrent(k: KeysOf, s: Store, seg: Key, tier: int)
    requires KeysOk(k) && Inv(k, s) && HitOf(s, k(seg), tier).Some?
    ensures var st := HitOf(s, k(seg), tier).value.stored;
            && (st.origin.HUMAN? ==> CurrentApproval(s.tm, k(seg).approved, st))
            && (st.origin.MT? ==> CurrentMachine(s.tm, k(seg).machine, st))
  {
    hide KeysOk;
    var keys := k(seg);
    var st := HitOf(s, keys, tier).value.stored;
    if ApprovedKey(keys.approved) in s.cache {
      CachedApprover(k, s, keys.approved);
    }
    if MachineKey(keys.machine) in s.cache {
      assert CurrentMachine(s.tm, keys.machine, s.cache[MachineKey(keys.machine)]);
    }
    if CachedHit(s.cache, keys, tier).None? {
      MemoryHitIsCurrent(k, s, seg, tier);
    }
  }

  lemma MemoryHitIsCurrent(k: KeysOf, s: Store, seg: Key, tier: int)
    requires KeysOk(k) && Inv(k, s) && MemoryHit(s.tm, k(seg), tier).Some?
    ensures var st := MemoryHit(s.tm, k(seg), tier).value.stored;
            && (st.origin.HUMAN? ==> CurrentApproval(s.tm, k(seg).approved, st))
            && (st.origin.MT? ==> CurrentMachine(s.tm, k(seg).machine, st))
  {
    hide CacheOk, KeysOk;
    var keys := k(seg);
    var st := MemoryHit(s.tm, keys, tier).value.stored;
    if st.origin.HUMAN? {
      var t :| Approves(s.tm, t, keys.approved) && ApprovedOf(s.tm, keys.approved).value == ApprovalOf(s.tm, t);
      ApproverIs(k, s, t, keys.approved);
      KeysOfSegment(k, seg);
      assert ReviewOk(k, s.tm, t, s.tm.reviews[t]);
      assert VersionOk(k, s.tm, st.version, s.tm.versions[st.version]);
    } else {
      assert VersionOk(k, s.tm, st.version, s.tm.versions[st.version]);
    }
  }

  lemma {:induction false} CacheAfterKeeps(k: KeysOf, s: Store, page: seq<PageItem>, n: nat)
    requires KeysOk(k) && Inv(k, s) && n <= |page|
    ensures Inv(k, Store(s.tm, CacheAfter(s, LookupItems(k, page), n)))
  {
    hide KeysOk, Inv, CurrentMachine, CurrentApproval, HitOf;
    var items := LookupItems(k, page);
    if n == 0 {
      assert Store(s.tm, s.cache) == s;
    } else {
      CacheAfterKeeps(k, s, page, n - 1);
      var seg, tier := page[n - 1].segment, GateTier(page[n - 1].tier);
      var hit := HitOf(s, k(seg), tier);
      if hit.Some? {
        HitIsCurrent(k, s, seg, tier);
        var before := Store(s.tm, CacheAfter(s, items, n - 1));
        if hit.value.stored.origin.HUMAN? {
          SetApproved(k, before, k(seg).approved, hit.value.stored);
        } else {
          SetMachine(k, before, k(seg).machine, hit.value.stored);
        }
      }
    }
  }

  /** Serving leaves versions alone and only adds review items. */
  ghost predicate Grows(a: TM, b: TM) {
    b.versions == a.versions && b.next == a.next && a.reviews.Keys <= b.reviews.Keys
  }

  ghost predicate ShownAtTierTwo(k: KeysOf, s: Store, item: PageItem) {
    var hit := PageHit(k, s, item);
    hit.Some? && hit.value.stored.origin.MT? && item.passes && GateTier(item.tier) == 2
  }

  lemma {:induction false} ServedKeeps(k: KeysOf, s: Store, page: seq<PageItem>, site: string, now: Time, n: nat)
    requires KeysOk(k) && Inv(k, s) && n <= |page|
    ensures var b := ServedUpTo(k, s, page, site, now, n);
            && Inv(k, b) && Grows(s.tm, b.tm)
            && forall i :: 0 <= i < n && ShownAtTierTwo(k, s, page[i]) && !page[i].down ==> page[i].segment in b.tm.reviews
  {
    hide KeysOk, Inv, HitOf, EnsureReview, CurrentMachine, CurrentApproval;
    if n == 0 {
      CacheAfterKeeps(k, s, page, |page|);
    } else {
      ServedKeeps(k, s, page, site, now, n - 1);
      var before := ServedUpTo(k, s, page, site, now, n - 1);
      var item := page[n - 1];
      var hit := PageHit(k, s, item);
      if hit.Some? && item.passes && GateTier(item.tier) == 2 && !item.down {
        HitIsCurrent(k, s, item.segment, 2);
        if hit.value.stored.origin.MT? {
          CurrentMoves(s.tm, before.tm, k(item.segment).machine, hit.value.stored);
        }
        EnsureReviewKeeps(k, before, item.segment, hit.value.stored, site, now);
      }
    }
  }

  // ---- runs ----

  lemma StepKeeps(k: KeysOf, s: Store, op: Op)
    requires KeysOk(k) && Inv(k, s)
    ensures Inv(k, Step(k, s, op))
  {
    hide KeysOk, Inv;
    match op
    case Record(seg, m, review, now) => RecordKeeps(k, s, seg, m, review, now);
    case ApproveIt(seg, a, now) => ApproveKeeps(k, s, seg, a, now);
    case ServePage(page, site, now) => ServedKeeps(k, s, page, site, now, |page|);
    case Publish(terms, now) => PublishKeeps(k, s, terms, now);
    case Retention(before, now) => ExpireKeeps(k, s, before, now);
    case ReleaseOwed(segments, now) => ReleaseKeeps(k, s, segments, now);
    case DropMachine(key) => DropKeeps(k, s, key);
  }

  lemma {:induction false} RunsKeep(k: KeysOf, ops: seq<Op>)
    requires KeysOk(k)
    ensures Inv(k, RunOps(k, ops))
  {
    if ops != [] {
      RunsKeep(k, ops[..|ops| - 1]);
      StepKeeps(k, RunOps(k, ops[..|ops| - 1]), ops[|ops| - 1]);
    }
  }

  /**
   Over every run from empty stores, machine entries of the cache dropped at any time, a lookup
   gives at every tier the version the memory alone would give.
   */
  lemma CacheNeverChangesAnAnswer(k: KeysOf, ops: seq<Op>, seg: Key, tier: TierHint)
    requires KeysOk(k)
    ensures var s := RunOps(k, ops);
            var h, m := HitOf(s, k(seg), GateTier(tier)), HitOf(s.(cache := map[]), k(seg), GateTier(tier));
            && (h.Some? <==> m.Some?)
            && (h.Some? ==> h.value.stored.version == m.value.stored.version
                            && h.value.stored.origin == m.value.stored.origin
                            && h.value.stored.target == m.value.stored.target)
  {
    RunsKeep(k, ops);
    CacheIsCoherent(k, RunOps(k, ops), k(seg), GateTier(tier));
  }

  /** Over every run, whatever is not tier 2 or 3 is served only the approval that stands now. */
  lemma TierOneNeverGetsMachine(k: KeysOf, ops: seq<Op>, seg: Key, tier: TierHint)
    requires KeysOk(k) && tier != IntTier(2) && tier != IntTier(3)
    requires HitOf(RunOps(k, ops), k(seg), GateTier(tier)).Some?
    ensures var s := RunOps(k, ops);
            var st := HitOf(s, k(seg), GateTier(tier)).value.stored;
            && st.origin.HUMAN? && seg in s.tm.reviews && s.tm.reviews[seg].state.APPROVED?
            && st.version == s.tm.reviews[seg].current
  {
    RunsKeep(k, ops);
    TierOneIsApproved(k, RunOps(k, ops), seg);
  }

  /**
   Over every run, machine output shown on a Tier 2 page has a review item at that moment, unless the
   review queue is down just then.
   */
  lemma TierTwoIsReviewed(k: KeysOf, ops: seq<Op>, page: seq<PageItem>, site: string, now: Time, i: nat)
    requires KeysOk(k) && i < |page| && ShownAtTierTwo(k, RunOps(k, ops), page[i]) && !page[i].down
    ensures page[i].segment in ServedUpTo(k, RunOps(k, ops), page, site, now, i + 1).tm.reviews
    ensures page[i].segment in Step(k, RunOps(k, ops), ServePage(page, site, now)).tm.reviews
  {
    hide Inv, RunOps, ShownAtTierTwo;
    RunsKeep(k, ops);
    ServedKeeps(k, RunOps(k, ops), page, site, now, i + 1);
    ServedKeeps(k, RunOps(k, ops), page, site, now, |page|);
  }

  /**
   What a serve could not flag the next one flags: over every run, the value a lookup gives says it is
   flagged only where there is a review item.
   */
  lemma FlaggedMeansReviewed(k: KeysOf, ops: seq<Op>, seg: Key, tier: TierHint)
    requires KeysOk(k) && HitOf(RunOps(k, ops), k(seg), GateTier(tier)).Some?
    requires var st := HitOf(RunOps(k, ops), k(seg), GateTier(tier)).value.stored; st.origin.MT? && st.review
    ensures seg in RunOps(k, ops).tm.reviews
  {
    RunsKeep(k, ops);
    var s := RunOps(k, ops);
    HitIsCurrent(k, s, seg, GateTier(tier));
    var st := HitOf(s, k(seg), GateTier(tier)).value.stored;
    assert VersionOk(k, s.tm, st.version, s.tm.versions[st.version]);
    assert k(s.tm.versions[st.version].segment).machine == k(seg).machine;
  }

  /** Over every run, an open review item asks about a live machine version of its own segment. */
  lemma OpenItemsAskAboutLiveOutput(k: KeysOf, ops: seq<Op>, seg: Key)
    requires KeysOk(k)
    requires var tm := RunOps(k, ops).tm; seg in tm.reviews && IsOpen(tm.reviews[seg].state)
    ensures var tm := RunOps(k, ops).tm;
            Serves(tm, tm.reviews[seg].current, k(seg).machine) && tm.versions[tm.reviews[seg].current].segment == seg
  {
    RunsKeep(k, ops);
    var tm := RunOps(k, ops).tm;
    assert ReviewOk(k, tm, seg, tm.reviews[seg]);
    assert VersionOk(k, tm, tm.reviews[seg].current, tm.versions[tm.reviews[seg].current]);
  }

  /** Over every run, a key is approved for one segment only, which is what a batched lookup relies on. */
  lemma OneApprovalPerKey(k: KeysOf, ops: seq<Op>, s: Key, t: Key, key: Key)
    requires KeysOk(k) && Approves(RunOps(k, ops).tm, s, key) && Approves(RunOps(k, ops).tm, t, key)
    ensures s == t
  {
    RunsKeep(k, ops);
    ApproverIs(k, RunOps(k, ops), s, key);
    ApproverIs(k, RunOps(k, ops), t, key);
  }

  // ---- what a step may change ----

  lemma FlagSteps(tm: TM, f: Flagging, now: Time)
    ensures var b := FlagForReview(tm, f, now).0;
            OnlyNewer(tm, b) && DecisionsKept(tm, b) && b.versions == tm.versions && b.next == tm.next
            && tm.reviews.Keys <= b.reviews.Keys
  {
  }

  lemma OnlyNewerTwice(a: TM, b: TM, c: TM)
    requires OnlyNewer(a, b) && OnlyNewer(b, c) && DecisionsKept(a, b) && DecisionsKept(b, c)
    requires a.reviews.Keys <= b.reviews.Keys
    ensures OnlyNewer(a, c) && DecisionsKept(a, c)
  {
  }

  /** Serving never reopens a decision, and moves open items to newer versions only. */
  lemma {:induction false} ServedSteps(k: KeysOf, s: Store, page: seq<PageItem>, site: string, now: Time, n: nat)
    requires n <= |page|
    ensures var b := ServedUpTo(k, s, page, site, now, n).tm;
            OnlyNewer(s.tm, b) && DecisionsKept(s.tm, b) && Grows(s.tm, b)
  {
    hide HitOf, FlagForReview;
    if n > 0 {
      ServedSteps(k, s, page, site, now, n - 1);
      var before := ServedUpTo(k, s, page, site, now, n - 1);
      var item := page[n - 1];
      var hit := PageHit(k, s, item);
      if hit.Some? {
        var f := FlaggingOf(k(item.segment), hit.value.stored, ReviewRequest(site, REQUEST), now);
        FlagSteps(before.tm, f, now);
        OnlyNewerTwice(s.tm, before.tm, FlagForReview(before.tm, f, now).0);
      }
    }
  }

  lemma StoreSteps(k: KeysOf, tm: TM, keys: SegmentKeys, m: Machine, now: Time)
    requires MemoryOk(k, tm)
    ensures var b := StoreMachine(tm, keys, m, now).0; Immutable(tm, b) && b.reviews == tm.reviews
  {
    MemoryNext(k, tm);
    hide MemoryOk;
  }

  /** Reviews moved after versions were added. */
  lemma StepsAfter(a: TM, mid: TM, b: TM)
    requires Immutable(a, mid) && mid.reviews == a.reviews
    requires OnlyNewer(mid, b) && DecisionsKept(mid, b) && b.versions == mid.versions && b.next == mid.next
    ensures OnlyNewer(a, b) && DecisionsKept(a, b) && Immutable(a, b)
  {
  }

  lemma NoSteps(tm: TM)
    ensures OnlyNewer(tm, tm) && DecisionsKept(tm, tm)
  {
  }

  /** New machine output leaves every decided item as it is. */
  lemma RecordSteps(k: KeysOf, s: Store, seg: Key, m: Machine, review: Option<ReviewRequest>, now: Time)
    requires Inv(k, s)
    ensures var b := RecordMachine(s, k(seg), m, review, now).tm;
            OnlyNewer(s.tm, b) && DecisionsKept(s.tm, b) && Immutable(s.tm, b)
  {
    hide FlagForReview, StoreMachine, MemoryOk, CacheOk, OnlyNewer, DecisionsKept, Immutable;
    var (tm, stored) := StoreMachine(s.tm, k(seg), m, now);
    StoreSteps(k, s.tm, k(seg), m, now);
    if review.Some? {
      var f := FlaggingOf(k(seg), stored, review.value, now);
      FlagSteps(tm, f, now);
      StepsAfter(s.tm, tm, FlagForReview(tm, f, now).0);
    } else {
      NoSteps(tm);
      StepsAfter(s.tm, tm, tm);
    }
  }

  lemma ApproveSteps(k: KeysOf, s: Store, seg: Key, a: Approval, now: Time)
    requires MemoryOk(k, s.tm)
    ensures var b := ApproveSegment(s, k(seg), a, now).tm; Immutable(s.tm, b) && OnlyNewer(s.tm, b)
  {
    hide Approve, AddVersion, MemoryOk;
    ApprovedIs(s.tm, k(seg), a, now);
    MemoryNext(k, s.tm);
  }

  lemma PublishSteps(s: Store, terms: set<string>, now: Time)
    ensures var b := PublishTerms(s, terms, now).tm; Immutable(s.tm, b) && OnlyNewer(s.tm, b)
  {
    hide Affected;
  }

  /** Every step keeps version content and ids, and moves open items to newer versions only. */
  lemma StepOnlyAdds(k: KeysOf, s: Store, op: Op)
    requires KeysOk(k) && Inv(k, s)
    ensures Immutable(s.tm, Step(k, s, op).tm) && OnlyNewer(s.tm, Step(k, s, op).tm)
  {
    hide KeysOk, HitOf, CacheOk, CurrentMachine, CurrentApproval, RecordMachine, ServedUpTo, ReviewOk, Affected;
    assert forall id :: id in s.tm.versions ==> VersionOk(k, s.tm, id, s.tm.versions[id]);
    match op
    case Record(seg, m, review, now) => RecordSteps(k, s, seg, m, review, now);
    case ServePage(page, site, now) => ServedSteps(k, s, page, site, now, |page|);
    case ApproveIt(seg, a, now) => ApproveSteps(k, s, seg, a, now);
    case Publish(terms, now) => PublishSteps(s, terms, now);
    case _ =>
  }

  /** Once written, a version keeps its id and content for the rest of every run. */
  lemma {:induction false} VersionsAreImmutable(k: KeysOf, ops: seq<Op>, n: nat)
    requires KeysOk(k) && n <= |ops|
    ensures Immutable(RunOps(k, ops[..n]).tm, RunOps(k, ops).tm)
    decreases |ops|
  {
    if n == |ops| {
      assert ops[..n] == ops;
    } else {
      var init := ops[..|ops| - 1];
      VersionsAreImmutable(k, init, n);
      assert init[..n] == ops[..n];
      RunsKeep(k, init);
      StepOnlyAdds(k, RunOps(k, init), ops[|ops| - 1]);
      ImmutableTwice(RunOps(k, ops[..n]).tm, RunOps(k, init).tm, RunOps(k, ops).tm);
    }
  }

  lemma ImmutableTwice(a: TM, b: TM, c: TM)
    requires Immutable(a, b) && Immutable(b, c)
    ensures Immutable(a, c)
  {
  }
}
