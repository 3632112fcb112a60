/**
 Tier-gated lookup over a cache and the translation memory, and what holds over whole runs of it:
 the cache never changes an answer, Tier 1 is served approvals only, and machine output shown at
 Tier 2 always has a review item.
 */
module TieredStore {
  import opened Wrappers
  import opened Memory

  const DAILY_CAP: nat := 500
  const DAY: Time := 86400

  /** The approved and machine namespaces of the cache. */
  datatype CacheKey = ApprovedKey(key: Key) | MachineKey(key: Key)

  type Cache = map<CacheKey, Stored>

  datatype Store = Store(tm: TM, cache: Cache)

  const NEW := Store(EMPTY, map[])

  // ---- tiers ----

  /** What a caller may put where a tier belongs. */
  datatype TierHint = IntTier(n: int) | BoolTier(b: bool) | OtherTier

  /** The gate fails closed: two hints open it, every other value is Tier 1. */
  function GateTier(t: TierHint): (r: int)
    ensures r in {1, 2, 3} && (r == 1 || t == IntTier(r))
    ensures r == 1 ==> t != IntTier(2) && t != IntTier(3)
  {
    if t.IntTier? && (t.n == 2 || t.n == 3) then t.n else 1
  }

  // ---- reads ----

  datatype Source = FROM_CACHE | FROM_TM

  datatype Hit = Hit(stored: Stored, source: Source)

  function CachedHit(cache: Cache, keys: SegmentKeys, tier: int): Option<Hit> {
    if ApprovedKey(keys.approved) in cache && cache[ApprovedKey(keys.approved)].origin.HUMAN? then
      Some(Hit(cache[ApprovedKey(keys.approved)], FROM_CACHE))
    else if tier >= 2 && MachineKey(keys.machine) in cache && cache[MachineKey(keys.machine)].origin.MT? then
      Some(Hit(cache[MachineKey(keys.machine)], FROM_CACHE))
    else None
  }

  ghost function MemoryHit(tm: TM, keys: SegmentKeys, tier: int): Option<Hit> {
    var a, m := ApprovedOf(tm, keys.approved), MachineOf(tm, keys.machine);
    if a.Some? && a.value.origin.HUMAN? then Some(Hit(a.value, FROM_TM))
    else if tier >= 2 && m.Some? then Some(Hit(m.value, FROM_TM))
    else None
  }

  /** The answer for one segment: the cache first, then the memory. */
  ghost function HitOf(s: Store, keys: SegmentKeys, tier: int): Option<Hit> {
    var c := CachedHit(s.cache, keys, tier);
    if c.Some? then c else MemoryHit(s.tm, keys, tier)
  }

  /** Where a hit from the memory is put in the cache. */
  function Backfill(cache: Cache, keys: SegmentKeys, hit: Option<Hit>): Cache {
    if hit.None? || hit.value.source.FROM_CACHE? then cache
    else if hit.value.stored.origin.HUMAN? then cache[ApprovedKey(keys.approved) := hit.value.stored]
    else cache[MachineKey(keys.machine) := hit.value.stored]
  }

  datatype LookupItem = LookupItem(keys: SegmentKeys, tier: TierHint)

  /** The cache after the first `n` items of a batch were answered. */
  ghost function CacheAfter(s: Store, items: seq<LookupItem>, n: nat): Cache
    requires n <= |items|
  {
    if n == 0 then s.cache
    else
      var item := items[n - 1];
      Backfill(CacheAfter(s, items, n - 1), item.keys, HitOf(s, item.keys, GateTier(item.tier)))
  }

  // ---- writes ----

  datatype ReviewRequest = ReviewRequest(site: string, raisedBy: RaisedBy)

  function FlaggingOf(keys: SegmentKeys, stored: Stored, r: ReviewRequest, now: Time): Flagging {
    Flagging(keys.segment, stored.version, r.site, r.raisedBy,
             if r.raisedBy.REQUEST? then Some(DAILY_CAP) else None, now - DAY)
  }

  function RecordMachine(s: Store, keys: SegmentKeys, m: Machine, review: Option<ReviewRequest>, now: Time): Store {
    var (tm, stored) := StoreMachine(s.tm, keys, m, now);
    if review.None? then Store(tm, s.cache[MachineKey(keys.machine) := stored])
    else
      var flagged := FlagForReview(tm, FlaggingOf(keys, stored, review.value, now), now).0;
      Store(flagged, s.cache[MachineKey(keys.machine) := stored.(review := true)])
  }

  /** Opens a review item for machine output on a page, once; the cached entry then says so. */
  function EnsureReview(s: Store, keys: SegmentKeys, stored: Stored, site: string, now: Time): Store {
    if !stored.origin.MT? || stored.review then s
    else
      var f := FlaggingOf(keys, stored, ReviewRequest(site, REQUEST), now);
      Store(FlagForReview(s.tm, f, now).0, s.cache[MachineKey(keys.machine) := stored.(review := true)])
  }

  function ApproveSegment(s: Store, keys: SegmentKeys, a: Approval, now: Time): Store {
    var (tm, stored) := Approve(s.tm, keys, a, now);
    Store(tm, s.cache[ApprovedKey(keys.approved) := stored] - {MachineKey(keys.machine)})
  }

  function Entries(machine: set<Key>, approved: set<Key>): set<CacheKey> {
    (set k | k in machine :: MachineKey(k)) + (set k | k in approved :: ApprovedKey(k))
  }

  function PublishTerms(s: Store, terms: set<string>, now: Time): Store {
    var (tm, r) := InvalidateTerms(s.tm, terms, now);
    Store(tm, s.cache - Entries(r.machine, r.approved))
  }

  function Expire(s: Store, before: Time, now: Time): Store {
    var (tm, keys) := ExpireMachine(s.tm, before, now);
    Store(tm, s.cache - Entries(keys, {}))
  }

  // ---- serving a page ----

  /**
   One segment of a page: its tier, whether stored output passes re-validation for it, and whether
   the review queue is down when it would be flagged.
   */
  datatype PageItem = PageItem(segment: Key, tier: TierHint, passes: bool, down: bool)

  type KeysOf = Key -> SegmentKeys

  function LookupItems(k: KeysOf, page: seq<PageItem>): (r: seq<LookupItem>)
    ensures |r| == |page| && forall i :: 0 <= i < |r| ==> r[i] == LookupItem(k(page[i].segment), page[i].tier)
  {
    seq(|page|, i requires 0 <= i < |page| => LookupItem(k(page[i].segment), page[i].tier))
  }

  /** The answer a page item gets from the batched lookup. */
  ghost function PageHit(k: KeysOf, s: Store, item: PageItem): Option<Hit> {
    HitOf(s, k(item.segment), GateTier(item.tier))
  }

  /** The store after the batch was looked up and its first `n` items were served. */
  ghost function ServedUpTo(k: KeysOf, s: Store, page: seq<PageItem>, site: string, now: Time, n: nat): Store
    requires n <= |page|
  {
    if n == 0 then Store(s.tm, CacheAfter(s, LookupItems(k, page), |page|))
    else
      var before := ServedUpTo(k, s, page, site, now, n - 1);
      var item := page[n - 1];
      var hit := PageHit(k, s, item);
      if hit.Some? && item.passes && GateTier(item.tier) == 2 && !item.down
      then EnsureReview(before, k(item.segment), hit.value.stored, site, now) else before
  }

  ghost function Serve(k: KeysOf, s: Store, page: seq<PageItem>, site: string, now: Time): Store {
    ServedUpTo(k, s, page, site, now, |page|)
  }

  // ---- runs ----

  datatype Op =
    | Record(segment: Key, m: Machine, review: Option<ReviewRequest>, now: Time)
    | ApproveIt(segment: Key, a: Approval, now: Time)
    | ServePage(page: seq<PageItem>, site: string, now: Time)
    | Publish(terms: set<string>, now: Time)
    | Retention(before: Time, now: Time)
    | ReleaseOwed(segments: set<Key>, now: Time)
    | DropMachine(key: Key)  // a machine entry evicted, or past its time to live

  ghost function Step(k: KeysOf, s: Store, op: Op): Store {
    match op
    case Record(seg, m, review, now) => RecordMachine(s, k(seg), m, review, now)
    case ApproveIt(seg, a, now) => ApproveSegment(s, k(seg), a, now)
    case ServePage(page, site, now) => Serve(k, s, page, site, now)
    case Publish(terms, now) => PublishTerms(s, terms, now)
    case Retention(before, now) => Expire(s, before, now)
    case ReleaseOwed(segments, now) => s.(tm := Release(s.tm, segments, now))
    case DropMachine(key) => s.(cache := s.cache - {MachineKey(key)})
  }

  ghost function RunOps(k: KeysOf, ops: seq<Op>): Store {
    if ops == [] then NEW else Step(k, RunOps(k, ops[..|ops| - 1]), ops[|ops| - 1])
  }

  // ---- the invariant ----

  /** One approved key and one machine key per segment, and none shared. */
  ghost predicate KeysOk(k: KeysOf) {
    && (forall s :: k(s).segment == s)
    && (forall s, t :: k(s).approved == k(t).approved ==> s == t)
    && (forall s, t :: k(s).machine == k(t).machine ==> s == t)
  }

  ghost predicate VersionOk(k: KeysOf, tm: TM, id: nat, v: Version) {
    && 1 <= id < tm.next && v.id == id && v.gfp == k(v.segment).gfp
    && v.lookup == (if v.origin.MT? then k(v.segment).machine else k(v.segment).approved)
  }

  ghost predicate ReviewOk(k: KeysOf, tm: TM, s: Key, item: ReviewItem) {
    && item.current in tm.versions && tm.versions[item.current].segment == s
    && (item.state.APPROVED? ==> item.approvedKey == Some(k(s).approved) && tm.versions[item.current].origin.HUMAN?)
    && (IsOpen(item.state) ==> tm.versions[item.current].origin.MT? && tm.versions[item.current].invalidatedAt.None?)
  }

  ghost predicate MemoryOk(k: KeysOf, tm: TM) {
    && tm.next >= 1
    && (forall id :: id in tm.versions ==> VersionOk(k, tm, id, tm.versions[id]))
    && (forall s :: s in tm.reviews ==> ReviewOk(k, tm, s, tm.reviews[s]))
  }

  /** A cached approval is the current one. */
  ghost predicate CurrentApproval(tm: TM, key: Key, st: Stored) {
    && st.version in tm.versions
    && var v := tm.versions[st.version];
       && v.origin.HUMAN? && v.lookup == key && st.origin.HUMAN? && st.target == v.target
       && v.segment in tm.reviews && tm.reviews[v.segment].state.APPROVED?
       && tm.reviews[v.segment].current == st.version
  }

  /** A cached machine version is the latest live one, and its review bit is true only with a review item. */
  ghost predicate CurrentMachine(tm: TM, key: Key, st: Stored) {
    && Serves(tm, st.version, key) && st.origin.MT? && st.target == tm.versions[st.version].target
    && (forall id: nat :: st.version < id < tm.next ==> !Serves(tm, id, key))
    && (st.review ==> tm.versions[st.version].segment in tm.reviews)
  }

  ghost predicate CacheOk(k: KeysOf, s: Store) {
    && (forall key :: ApprovedKey(key) in s.cache ==> CurrentApproval(s.tm, key, s.cache[ApprovedKey(key)]))
    && (forall key :: MachineKey(key) in s.cache ==> CurrentMachine(s.tm, key, s.cache[MachineKey(key)]))
    && (forall seg :: seg in s.tm.reviews && s.tm.reviews[seg].state.APPROVED? ==>
          ApprovedKey(k(seg).approved) in s.cache)
  }

  ghost predicate Inv(k: KeysOf, s: Store) {
    MemoryOk(k, s.tm) && CacheOk(k, s)
  }

  // ---- the cache never changes an answer ----

  /** Whoever approves `key` is the segment the key belongs to, and its version is a human one. */
  lemma ApproverIs(k: KeysOf, s: Store, seg: Key, key: Key)
    requires Inv(k, s) && Approves(s.tm, seg, key)
    ensures k(seg).approved == key && ApprovalOf(s.tm, seg).version == s.tm.reviews[seg].current
    ensures ApprovalOf(s.tm, seg).origin.HUMAN?
  {
    assert ReviewOk(k, s.tm, seg, s.tm.reviews[seg]);
    assert VersionOk(k, s.tm, s.tm.reviews[seg].current, s.tm.versions[s.tm.reviews[seg].current]);
  }

  lemma CachedApprover(k: KeysOf, s: Store, key: Key)
    requires Inv(k, s) && ApprovedKey(key) in s.cache
    ensures var c := s.cache[ApprovedKey(key)];
            && c.origin.HUMAN? && c.version in s.tm.versions
            && var seg := s.tm.versions[c.version].segment;
               Approves(s.tm, seg, key) && s.tm.reviews[seg].current == c.version
               && c.target == s.tm.versions[c.version].target
  {
    var c := s.cache[ApprovedKey(key)];
    assert CurrentApproval(s.tm, key, c);
    var v := s.tm.versions[c.version];
    assert VersionOk(k, s.tm, c.version, v);
    assert ReviewOk(k, s.tm, v.segment, s.tm.reviews[v.segment]);
  }

  /** The batched read finds the one segment approved under a key. */
  lemma ApprovedOfIs(k: KeysOf, s: Store, seg: Key, key: Key)
    requires KeysOk(k) && Inv(k, s) && Approves(s.tm, seg, key)
    ensures ApprovedOf(s.tm, key) == Some(ApprovalOf(s.tm, seg))
  {
    hide Inv, ApprovalOf;
    assert ApprovedOf(s.tm, key).Some?;
    var t :| Approves(s.tm, t, key) && ApprovedOf(s.tm, key).value == ApprovalOf(s.tm, t);
    ApproverIs(k, s, seg, key);
    ApproverIs(k, s, t, key);
  }

  /** An approval in the memory is in the cache. */
  lemma ApproverIsCached(k: KeysOf, s: Store, seg: Key, key: Key)
    requires Inv(k, s) && Approves(s.tm, seg, key)
    ensures ApprovedKey(key) in s.cache
  {
    ApproverIs(k, s, seg, key);
  }

  lemma ApprovalIs(k: KeysOf, s: Store, key: Key)
    requires KeysOk(k) && Inv(k, s)
    ensures ApprovedOf(s.tm, key).Some? <==> ApprovedKey(key) in s.cache
    ensures ApprovedKey(key) in s.cache ==>
              var a, c := ApprovedOf(s.tm, key).value, s.cache[ApprovedKey(key)];
              a.version == c.version && a.origin == c.origin == HUMAN && a.target == c.target
  {
    hide Inv, KeysOk;
    if ApprovedKey(key) in s.cache {
      CachedApprover(k, s, key);
      var seg := s.tm.versions[s.cache[ApprovedKey(key)].version].segment;
      ApprovedOfIs(k, s, seg, key);
      ApproverIs(k, s, seg, key);
    } else if ApprovedOf(s.tm, key).Some? {
      var t :| Approves(s.tm, t, key);
      ApproverIsCached(k, s, t, key);
    }
  }

  lemma MachineIs(k: KeysOf, s: Store, key: Key)
    requires Inv(k, s) && MachineKey(key) in s.cache
    ensures var m, c := MachineOf(s.tm, key), s.cache[MachineKey(key)];
            && m.Some? && m.value.version == c.version && m.value.origin == c.origin == MT
            && m.value.target == c.target && (c.review ==> m.value.review)
  {
    var c := s.cache[MachineKey(key)];
    assert CurrentMachine(s.tm, key, c);
    assert c.version < s.tm.next by { assert VersionOk(k, s.tm, c.version, s.tm.versions[c.version]); }
  }

  /** The answer with the cache is the version, origin and text the memory alone would give. */
  lemma CacheIsCoherent(k: KeysOf, s: Store, keys: SegmentKeys, tier: int)
    requires KeysOk(k) && Inv(k, s)
    ensures var h, m := HitOf(s, keys, tier), MemoryHit(s.tm, keys, tier);
            && (h.Some? <==> m.Some?)
            && (h.Some? ==> h.value.stored.version == m.value.stored.version
                            && h.value.stored.origin == m.value.stored.origin
                            && h.value.stored.target == m.value.stored.target)
  {
    hide Inv, KeysOk, ApprovedOf, MachineOf;
    ApprovalIs(k, s, keys.approved);
    if MachineKey(keys.machine) in s.cache { MachineIs(k, s, keys.machine); }
  }

  /** Tier 1 is served nothing but the approval that stands now. */
  lemma TierOneIsApproved(k: KeysOf, s: Store, seg: Key)
    requires KeysOk(k) && Inv(k, s) && HitOf(s, k(seg), 1).Some?
    ensures var st := HitOf(s, k(seg), 1).value.stored;
            && st.origin.HUMAN? && seg in s.tm.reviews && s.tm.reviews[seg].state.APPROVED?
            && st.version == s.tm.reviews[seg].current
  {
    ApprovalIs(k, s, k(seg).approved);
    var t :| Approves(s.tm, t, k(seg).approved) && ApprovedOf(s.tm, k(seg).approved).value == ApprovalOf(s.tm, t);
    assert k(t).approved == k(seg).approved;
  }
}
