/** The translation memory: immutable versions, one review item per segment, glossary hits. */
module Memory {
  import opened Wrappers

  type Key = string
  type Time = int

  datatype Origin = MT | HUMAN

  datatype ReviewState = PENDING_REVIEW | OWED | APPROVED | NEEDS_RECHECK | REJECTED

  datatype RaisedBy = REQUEST | OPERATOR

  datatype FlagOutcome = CREATED | EXISTS | STILL_OWED

  /** A reviewer's decision is still to come. */
  predicate IsOpen(s: ReviewState) {
    s.PENDING_REVIEW? || s.OWED?
  }

  datatype SegmentKeys = SegmentKeys(segment: Key, approved: Key, machine: Key, gfp: string)

  /** What a lookup returns. */
  datatype Stored = Stored(version: nat, origin: Origin, target: string, review: bool)

  datatype Version = Version(
    id: nat, segment: Key, lookup: Key, origin: Origin, target: string, gfp: string,
    model: Option<string>, author: Option<string>, tagIntegrity: Option<bool>,
    createdAt: Time, invalidatedAt: Option<Time>)

  datatype ReviewItem = ReviewItem(
    segment: Key, approvedKey: Option<Key>, state: ReviewState, current: nat,
    site: Option<string>, updatedAt: Time, createdAt: Time, raisedBy: RaisedBy)

  /** The state of the memory. */
  datatype TM = TM(
    versions: map<nat, Version>, segments: map<Key, string>, reviews: map<Key, ReviewItem>,
    hits: set<(string, Key, string)>, next: nat)

  const EMPTY := TM(map[], map[], map[], {}, 1)

  // ---- writes ----

  function AddVersion(tm: TM, v: Version, source: string, terms: set<string>): TM {
    TM(tm.versions[v.id := v],
       if v.segment in tm.segments then tm.segments else tm.segments[v.segment := source],
       tm.reviews,
       tm.hits + (set t | t in terms :: (t, v.segment, v.gfp)),
       v.id + 1)
  }

  datatype Machine = Machine(source: string, target: string, model: string, terms: set<string>, tagIntegrity: Option<bool>)

  function StoreMachine(tm: TM, keys: SegmentKeys, m: Machine, now: Time): (TM, Stored) {
    var v := Version(tm.next, keys.segment, keys.machine, MT, m.target, keys.gfp, Some(m.model), None,
                     m.tagIntegrity, now, None);
    (AddVersion(tm, v, m.source, m.terms), Stored(v.id, MT, m.target, false))
  }

  datatype Approval = Approval(source: string, target: string, author: string, terms: set<string>, site: Option<string>)

  function Approve(tm: TM, keys: SegmentKeys, a: Approval, now: Time): (TM, Stored) {
    var v := Version(tm.next, keys.segment, keys.approved, HUMAN, a.target, keys.gfp, None, Some(a.author),
                     Some(true), now, None);
    var previous := if keys.segment in tm.reviews then Some(tm.reviews[keys.segment]) else None;
    var item := ReviewItem(
      keys.segment, Some(keys.approved), APPROVED, v.id,
      if a.site.Some? then a.site else if previous.Some? then previous.value.site else None,
      now, if previous.Some? then previous.value.createdAt else now,
      if previous.Some? then previous.value.raisedBy else OPERATOR);
    var added := AddVersion(tm, v, a.source, a.terms);
    (added.(reviews := added.reviews[keys.segment := item]), Stored(v.id, HUMAN, a.target, false))
  }

  /** The segments whose items count against a site's daily cap. */
  function OpenedBy(tm: TM, site: string, since: Time): set<Key> {
    set s | s in tm.reviews && tm.reviews[s].site == Some(site) && tm.reviews[s].raisedBy.REQUEST?
            && !tm.reviews[s].state.OWED? && tm.reviews[s].createdAt >= since
  }

  datatype Flagging = Flagging(segment: Key, version: nat, site: string, raisedBy: RaisedBy, cap: Option<nat>, since: Time)

  function FlagForReview(tm: TM, f: Flagging, now: Time): (TM, FlagOutcome) {
    if f.segment in tm.reviews then
      var item := tm.reviews[f.segment];
      if IsOpen(item.state) && item.current < f.version
      then (tm.(reviews := tm.reviews[f.segment := item.(current := f.version, updatedAt := now)]), EXISTS)
      else (tm, EXISTS)
    else
      var owed := f.cap.Some? && |OpenedBy(tm, f.site, f.since)| >= f.cap.value;
      var item := ReviewItem(f.segment, None, if owed then OWED else PENDING_REVIEW, f.version, Some(f.site),
                             now, now, f.raisedBy);
      (tm.(reviews := tm.reviews[f.segment := item]), if owed then STILL_OWED else CREATED)
  }

  /** Owed items moved into the reviewers' queue. */
  function Release(tm: TM, segments: set<Key>, now: Time): TM {
    tm.(reviews := map s | s in tm.reviews ::
          if s in segments && tm.reviews[s].state.OWED?
          then tm.reviews[s].(state := PENDING_REVIEW, updatedAt := now) else tm.reviews[s])
  }

  function Invalidated(versions: map<nat, Version>, ids: set<nat>, now: Time): map<nat, Version> {
    map id | id in versions :: if id in ids then versions[id].(invalidatedAt := Some(now)) else versions[id]
  }

  /** An open item about a version that is no longer served asks about nothing. */
  predicate AsksNothing(versions: map<nat, Version>, item: ReviewItem) {
    IsOpen(item.state) && item.current in versions && versions[item.current].invalidatedAt.Some?
  }

  function CloseInvalidated(tm: TM): TM {
    tm.(reviews := map s | s in tm.reviews && !AsksNothing(tm.versions, tm.reviews[s]) :: tm.reviews[s])
  }

  /** The lookup keys of some versions. */
  function LookupKeys(versions: map<nat, Version>, ids: set<nat>): set<Key> {
    set id | id in ids && id in versions :: versions[id].lookup
  }

  function Affected(tm: TM, terms: set<string>): set<(Key, string)> {
    set h | h in tm.hits && h.0 in terms :: (h.1, h.2)
  }

  /** Live machine versions that depend on a changed term. */
  function StaleMachine(tm: TM, affected: set<(Key, string)>): set<nat> {
    set id | id in tm.versions && tm.versions[id].origin.MT? && tm.versions[id].invalidatedAt.None?
             && (tm.versions[id].segment, tm.versions[id].gfp) in affected
  }

  /** Approvals that depend on a changed term. */
  function StaleApprovals(tm: TM, affected: set<(Key, string)>): set<Key> {
    set s | s in tm.reviews && tm.reviews[s].state.APPROVED? && tm.reviews[s].current in tm.versions
            && (s, tm.versions[tm.reviews[s].current].gfp) in affected
  }

  function Recheck(reviews: map<Key, ReviewItem>, segments: set<Key>, now: Time): map<Key, ReviewItem> {
    map s | s in reviews ::
      if s in segments then reviews[s].(state := NEEDS_RECHECK, updatedAt := now) else reviews[s]
  }

  function ApprovedKeys(reviews: map<Key, ReviewItem>, segments: set<Key>): set<Key> {
    set s | s in segments && s in reviews :: if reviews[s].approvedKey.Some? then reviews[s].approvedKey.value else ""
  }

  datatype Invalidation = Invalidation(machine: set<Key>, approved: set<Key>, recheck: set<Key>)

  function InvalidateTerms(tm: TM, terms: set<string>, now: Time): (TM, Invalidation) {
    var affected := Affected(tm, terms);
    var stale := StaleMachine(tm, affected);
    var recheck := StaleApprovals(tm, affected);
    (CloseInvalidated(tm.(versions := Invalidated(tm.versions, stale, now),
                          reviews := Recheck(tm.reviews, recheck, now))),
     Invalidation(LookupKeys(tm.versions, stale), ApprovedKeys(tm.reviews, recheck), recheck))
  }

  predicate Expirable(v: Version, before: Time) {
    v.origin.MT? && v.invalidatedAt.None? && v.createdAt < before
  }

  function ExpiredMachine(tm: TM, before: Time): set<nat> {
    set id | id in tm.versions && Expirable(tm.versions[id], before)
  }

  function ExpireMachine(tm: TM, before: Time, now: Time): (TM, set<Key>) {
    var ids := ExpiredMachine(tm, before);
    (CloseInvalidated(tm.(versions := Invalidated(tm.versions, ids, now))), LookupKeys(tm.versions, ids))
  }

  // ---- reads ----

  /** A machine version a lookup of `key` may return. */
  predicate Serves(tm: TM, id: nat, key: Key) {
    id in tm.versions && tm.versions[id].origin.MT? && tm.versions[id].lookup == key
    && tm.versions[id].invalidatedAt.None?
  }

  /** The latest machine version of a key with an id below `n`. */
  function Latest(tm: TM, key: Key, n: nat): (r: Option<nat>)
    ensures r.Some? ==> r.value < n && Serves(tm, r.value, key)
    ensures forall id: nat :: id < n && Serves(tm, id, key) ==> r.Some? && id <= r.value
  {
    if n == 0 then None else if Serves(tm, n - 1, key) then Some(n - 1) else Latest(tm, key, n - 1)
  }

  function MachineOf(tm: TM, key: Key): Option<Stored> {
    var id := Latest(tm, key, tm.next);
    if id.None? then None
    else
      var v := tm.versions[id.value];
      Some(Stored(id.value, MT, v.target, v.segment in tm.reviews))
  }

  predicate Approves(tm: TM, s: Key, key: Key) {
    s in tm.reviews && tm.reviews[s].state.APPROVED? && tm.reviews[s].approvedKey == Some(key)
    && tm.reviews[s].current in tm.versions
  }

  ghost function ApprovedOf(tm: TM, key: Key): (r: Option<Stored>)
    ensures r.None? <==> forall s :: !Approves(tm, s, key)
    ensures r.Some? ==> exists s :: Approves(tm, s, key) && r.value == ApprovalOf(tm, s)
  {
    if s :| Approves(tm, s, key) then Some(ApprovalOf(tm, s)) else None
  }

  function ApprovalOf(tm: TM, s: Key): Stored
    requires s in tm.reviews && tm.reviews[s].current in tm.versions
  {
    var v := tm.versions[tm.reviews[s].current];
    Stored(v.id, v.origin, v.target, true)
  }

  // ---- what no write may do ----

  /** Version content and ids are never rewritten; an invalidation is never taken back. */
  ghost predicate Immutable(a: TM, b: TM) {
    && a.next <= b.next
    && forall id :: id in a.versions ==>
         && id in b.versions
         && (b.versions[id] == a.versions[id]
             || (a.versions[id].invalidatedAt.None?
                 && b.versions[id] == a.versions[id].(invalidatedAt := b.versions[id].invalidatedAt)))
  }

  /** Open items only ever move to newer versions. */
  ghost predicate OnlyNewer(a: TM, b: TM) {
    forall s :: s in a.reviews && s in b.reviews && IsOpen(a.reviews[s].state) && IsOpen(b.reviews[s].state) ==>
      a.reviews[s].current <= b.reviews[s].current
  }

  /** What a reviewer decided stays decided. */
  ghost predicate DecisionsKept(a: TM, b: TM) {
    forall s :: s in a.reviews && !IsOpen(a.reviews[s].state) ==> s in b.reviews && b.reviews[s] == a.reviews[s]
  }
}
