/**
 The audit trail beside the store: what a change records, when it is refused, and that over whole runs
 no change the trail must show is missing from it.
 */
module Audit {
  import opened Wrappers
  import opened Memory
  import opened TieredStore
  import opened StoreRuns

  datatype Action = REVIEW_APPROVE | SEED_IMPORT

  datatype AuditEvent =
    | ApprovalEvent(actor: string, action: Action, segment: Key, version: nat, site: Option<string>)
    | PublishEvent(actor: string, termbase: string, terms: set<string>, machine: nat, recheck: nat)

  /** Whether the log accepts a record as it is given. */
  type Admits = AuditEvent -> bool

  /** Numbers are always admitted, so a record can be checked before its numbers are known. */
  ghost predicate NumbersPass(admits: Admits) {
    && (forall e: AuditEvent, v: nat :: e.ApprovalEvent? ==> (admits(e) <==> admits(e.(version := v))))
    && (forall e: AuditEvent, m: nat, r: nat :: e.PublishEvent? ==> (admits(e) <==> admits(e.(machine := m, recheck := r))))
  }

  datatype Audited = Audited(store: Store, trail: seq<AuditEvent>)

  function ApprovalRecord(s: Store, segment: Key, a: Approval, action: Action): AuditEvent {
    ApprovalEvent(a.author, action, segment, s.tm.next, a.site)
  }

  function PublishRecord(s: Store, terms: set<string>, actor: string, termbase: string, now: Time): AuditEvent {
    var r := InvalidateTerms(s.tm, terms, now).1;
    PublishEvent(actor, termbase, terms, |r.machine|, |r.recheck|)
  }

  /** An approval and its record, both. */
  function ApproveRecorded(w: Audited, keys: SegmentKeys, a: Approval, action: Action, now: Time): Audited {
    Audited(ApproveSegment(w.store, keys, a, now), w.trail + [ApprovalRecord(w.store, keys.segment, a, action)])
  }

  function PublishRecorded(w: Audited, terms: set<string>, actor: string, termbase: string, now: Time): Audited {
    Audited(PublishTerms(w.store, terms, now), w.trail + [PublishRecord(w.store, terms, actor, termbase, now)])
  }

  // ---- runs with refusals and failures ----

  /**
   One call: the operation, who asks and under which name, and whether what it needs besides the
   memory is down: the trail for an approval and a publication, the review queue for machine output.
   */
  datatype Call = Call(op: Op, actor: string, termbase: string, action: Action, down: bool)

  /** The call changes nothing: its record is refused, or what it needs is down. */
  predicate Refused(s: Store, admits: Admits, c: Call) {
    match c.op
    case ApproveIt(seg, a, now) => c.down || !admits(ApprovalRecord(s, seg, a, c.action))
    case Publish(terms, now) => c.down || !admits(PublishRecord(s, terms, c.actor, c.termbase, now))
    case Record(seg, m, review, now) => c.down && review.Some?
    case _ => false
  }

  ghost function Recorded(k: KeysOf, admits: Admits, w: Audited, c: Call): Audited {
    if Refused(w.store, admits, c) then w
    else match c.op
      case ApproveIt(seg, a, now) => ApproveRecorded(w, k(seg), a, c.action, now)
      case Publish(terms, now) => PublishRecorded(w, terms, c.actor, c.termbase, now)
      case _ => w.(store := Step(k, w.store, c.op))
  }

  ghost function RunCalls(k: KeysOf, admits: Admits, cs: seq<Call>): Audited {
    if cs == [] then Audited(NEW, []) else Recorded(k, admits, RunCalls(k, admits, cs[..|cs| - 1]), cs[|cs| - 1])
  }

  /** The operations that went through. */
  ghost function Done(k: KeysOf, admits: Admits, cs: seq<Call>): seq<Op> {
    if cs == [] then []
    else
      var init, c := cs[..|cs| - 1], cs[|cs| - 1];
      Done(k, admits, init) + if Refused(RunCalls(k, admits, init).store, admits, c) then [] else [c.op]
  }

  /** What is refused or fails leaves no trace: the store is that of the run of what went through. */
  lemma {:induction false} FailuresLeaveNoTrace(k: KeysOf, admits: Admits, cs: seq<Call>)
    ensures RunCalls(k, admits, cs).store == RunOps(k, Done(k, admits, cs))
  {
    hide Step, Refused;
    if cs != [] {
      var init, c := cs[..|cs| - 1], cs[|cs| - 1];
      FailuresLeaveNoTrace(k, admits, init);
      var before := RunCalls(k, admits, init);
      var ops := Done(k, admits, init);
      if Refused(before.store, admits, c) {
        assert Done(k, admits, cs) == ops + [] == ops;
      } else {
        RunOneMore(k, ops, c.op);
        RecordedStore(k, admits, before, c);
      }
    }
  }

  lemma RunOneMore(k: KeysOf, ops: seq<Op>, op: Op)
    ensures RunOps(k, ops + [op]) == Step(k, RunOps(k, ops), op)
  {
    hide Step;
    assert (ops + [op])[..|ops|] == ops;
  }

  lemma KeysOfOp(k: KeysOf, op: Op)
    requires KeysOk(k)
    ensures op.ApproveIt? ==> k(op.segment).segment == op.segment
  {
  }

  lemma RecordedStore(k: KeysOf, admits: Admits, w: Audited, c: Call)
    requires !Refused(w.store, admits, c)
    ensures Recorded(k, admits, w, c).store == Step(k, w.store, c.op)
  {
    hide ApproveSegment, PublishTerms;
  }

  // ---- no unaudited change ----

  /** The trail's entry for a human version: its author and its segment. */
  ghost predicate RecordsApproval(e: AuditEvent, v: Version) {
    e.ApprovalEvent? && e.version == v.id && e.segment == v.segment && v.author == Some(e.actor)
  }

  /** Each human version has one entry, and each entry is about a version there is. */
  ghost predicate Accounted(w: Audited) {
    && (forall id :: id in w.store.tm.versions && w.store.tm.versions[id].origin.HUMAN? ==>
          exists i :: 0 <= i < |w.trail| && RecordsApproval(w.trail[i], w.store.tm.versions[id]))
    && (forall i :: 0 <= i < |w.trail| && w.trail[i].ApprovalEvent? ==>
          && w.trail[i].version in w.store.tm.versions
          && w.store.tm.versions[w.trail[i].version].origin.HUMAN?
          && RecordsApproval(w.trail[i], w.store.tm.versions[w.trail[i].version]))
    && (forall i, j :: 0 <= i < j < |w.trail| && w.trail[i].ApprovalEvent? && w.trail[j].ApprovalEvent? ==>
          w.trail[i].version != w.trail[j].version)
  }

  predicate SameHuman(v: Version, w: Version) {
    w.origin == v.origin && w.id == v.id && w.segment == v.segment && w.author == v.author
  }

  /** Human versions that were there keep id, segment and author; what is new among them is `added`. */
  ghost predicate HumansKept(a: TM, b: TM, added: set<nat>) {
    && (forall id :: id in a.versions ==> id in b.versions && SameHuman(a.versions[id], b.versions[id]))
    && (forall id :: id in b.versions && id !in a.versions && b.versions[id].origin.HUMAN? ==> id in added)
  }

  lemma OthersAddNoHuman(k: KeysOf, s: Store, op: Op)
    requires KeysOk(k) && Inv(k, s) && !op.ApproveIt?
    ensures HumansKept(s.tm, Step(k, s, op).tm, {})
  {
    hide KeysOk, HitOf, CacheOk, CurrentMachine, CurrentApproval, FlagForReview, Affected, ReviewOk;
    assert forall id :: id in s.tm.versions ==> VersionOk(k, s.tm, id, s.tm.versions[id]);
    match op
    case Record(seg, m, review, now) =>
      var (tm, stored) := StoreMachine(s.tm, k(seg), m, now);
      if review.Some? { FlagSteps(tm, FlaggingOf(k(seg), stored, review.value, now), now); }
    case ServePage(page, site, now) => ServedSteps(k, s, page, site, now, |page|);
    case _ =>
  }

  lemma ApprovalAddsOne(k: KeysOf, s: Store, seg: Key, a: Approval, now: Time)
    requires KeysOk(k) && Inv(k, s)
    ensures var b := ApproveSegment(s, k(seg), a, now).tm;
            && HumansKept(s.tm, b, {s.tm.next}) && s.tm.next !in s.tm.versions && s.tm.next in b.versions
            && b.versions[s.tm.next].origin.HUMAN? && b.versions[s.tm.next].id == s.tm.next
            && b.versions[s.tm.next].segment == seg && b.versions[s.tm.next].author == Some(a.author)
  {
    hide CacheOk, ReviewOk;
    KeysOfSegment(k, seg);
    assert forall id :: id in s.tm.versions ==> VersionOk(k, s.tm, id, s.tm.versions[id]);
  }

  /** A call that adds no human version and no entry for one keeps the books. */
  lemma KeptAccounts(a: Audited, b: Audited, more: seq<AuditEvent>)
    requires Accounted(a) && HumansKept(a.store.tm, b.store.tm, {}) && b.trail == a.trail + more
    requires forall i :: 0 <= i < |more| ==> !more[i].ApprovalEvent?
    ensures Accounted(b)
  {
    forall id | id in b.store.tm.versions && b.store.tm.versions[id].origin.HUMAN?
      ensures exists i :: 0 <= i < |b.trail| && RecordsApproval(b.trail[i], b.store.tm.versions[id])
    {
      var i :| 0 <= i < |a.trail| && RecordsApproval(a.trail[i], a.store.tm.versions[id]);
      assert b.trail[i] == a.trail[i];
    }
  }

  lemma AddedAccount(a: Audited, b: Audited, e: AuditEvent)
    requires Accounted(a) && b.trail == a.trail + [e] && e.ApprovalEvent? && e.version !in a.store.tm.versions
    requires HumansKept(a.store.tm, b.store.tm, {e.version}) && e.version in b.store.tm.versions
    requires b.store.tm.versions[e.version].origin.HUMAN? && RecordsApproval(e, b.store.tm.versions[e.version])
    ensures Accounted(b)
  {
    var n := |a.trail|;
    assert b.trail[n] == e;
    forall id | id in b.store.tm.versions && b.store.tm.versions[id].origin.HUMAN?
      ensures exists i :: 0 <= i < |b.trail| && RecordsApproval(b.trail[i], b.store.tm.versions[id])
    {
      if id in a.store.tm.versions {
        var i :| 0 <= i < |a.trail| && RecordsApproval(a.trail[i], a.store.tm.versions[id]);
        assert b.trail[i] == a.trail[i];
      } else {
        assert RecordsApproval(b.trail[n], b.store.tm.versions[id]);
      }
    }
    forall i | 0 <= i < n && b.trail[i].ApprovalEvent? ensures b.trail[i].version != e.version {
      assert a.trail[i] == b.trail[i];
    }
  }

  lemma CallAccounts(k: KeysOf, admits: Admits, w: Audited, c: Call)
    requires KeysOk(k) && Inv(k, w.store) && Accounted(w)
    ensures Accounted(Recorded(k, admits, w, c))
  {
    hide Accounted, Inv, HumansKept, InvalidateTerms, Refused, PublishTerms, ApproveSegment;
    var b := Recorded(k, admits, w, c);
    if !Refused(w.store, admits, c) {
      if c.op.ApproveIt? {
        KeysOfOp(k, c.op);
        ApprovalAddsOne(k, w.store, c.op.segment, c.op.a, c.op.now);
        AddedAccount(w, b, ApprovalRecord(w.store, c.op.segment, c.op.a, c.action));
      } else {
        RecordedStore(k, admits, w, c);
        OthersAddNoHuman(k, w.store, c.op);
        if c.op.Publish? {
          KeptAccounts(w, b, [PublishRecord(w.store, c.op.terms, c.actor, c.termbase, c.op.now)]);
        } else {
          assert b.trail == w.trail + [];
          KeptAccounts(w, b, []);
        }
      }
    }
  }

  /**
   Over every run, whatever is refused and whatever fails: a human version is in the memory if and
   only if the trail has an entry for it, with its author and its segment, and it has just one.
   */
  lemma {:induction false} NoUnauditedApproval(k: KeysOf, admits: Admits, cs: seq<Call>)
    requires KeysOk(k)
    ensures Accounted(RunCalls(k, admits, cs))
  {
    hide Recorded, Accounted, Inv;
    if cs == [] {
      NothingYet();
    } else {
      var init := cs[..|cs| - 1];
      NoUnauditedApproval(k, admits, init);
      FailuresLeaveNoTrace(k, admits, init);
      RunsKeep(k, Done(k, admits, init));
      CallAccounts(k, admits, RunCalls(k, admits, init), cs[|cs| - 1]);
    }
  }

  lemma NothingYet()
    ensures Accounted(Audited(NEW, []))
  {
  }

  /** The trail is never rewritten. */
  lemma {:induction false} TrailOnlyGrows(k: KeysOf, admits: Admits, cs: seq<Call>, n: nat)
    requires n <= |cs|
    ensures RunCalls(k, admits, cs[..n]).trail <= RunCalls(k, admits, cs).trail
    decreases |cs|
  {
    hide Step, Refused;
    if n == |cs| {
      assert cs[..n] == cs;
    } else {
      var init := cs[..|cs| - 1];
      assert init[..n] == cs[..n];
      TrailOnlyGrows(k, admits, init, n);
    }
  }

  lemma {:induction false} DoneGrows(k: KeysOf, admits: Admits, cs: seq<Call>, n: nat)
    requires n <= |cs|
    ensures Done(k, admits, cs[..n]) <= Done(k, admits, cs)
    decreases |cs|
  {
    hide Refused, RunCalls;
    if n == |cs| {
      assert cs[..n] == cs;
    } else {
      var init := cs[..|cs| - 1];
      assert init[..n] == cs[..n];
      DoneGrows(k, admits, init, n);
    }
  }

  lemma EntryIsTrue(w: Audited, i: nat)
    requires Accounted(w) && i < |w.trail| && w.trail[i].ApprovalEvent?
    ensures w.trail[i].version in w.store.tm.versions
    ensures RecordsApproval(w.trail[i], w.store.tm.versions[w.trail[i].version])
  {
  }

  lemma SameTarget(a: TM, b: TM, id: nat)
    requires Immutable(a, b) && id in a.versions
    ensures id in b.versions && b.versions[id].target == a.versions[id].target
  {
  }

  /**
   What the trail says of an approval at any moment of a run it says for ever, and it stays true: the
   version it names is there to the end, by that author, for that segment, with the text approved.
   */
  lemma RecordsStayTrue(k: KeysOf, admits: Admits, cs: seq<Call>, n: nat, i: nat)
    requires KeysOk(k) && n <= |cs|
    requires i < |RunCalls(k, admits, cs[..n]).trail| && RunCalls(k, admits, cs[..n]).trail[i].ApprovalEvent?
    ensures var early, late := RunCalls(k, admits, cs[..n]), RunCalls(k, admits, cs);
            var e := early.trail[i];
            && i < |late.trail| && late.trail[i] == e
            && e.version in early.store.tm.versions && e.version in late.store.tm.versions
            && RecordsApproval(e, late.store.tm.versions[e.version])
            && late.store.tm.versions[e.version].target == early.store.tm.versions[e.version].target
  {
    hide RunCalls, Done, RunOps, Accounted, RecordsApproval, Immutable, KeysOk;
    TrailOnlyGrows(k, admits, cs, n);
    NoUnauditedApproval(k, admits, cs[..n]);
    NoUnauditedApproval(k, admits, cs);
    EntryIsTrue(RunCalls(k, admits, cs[..n]), i);
    EntryIsTrue(RunCalls(k, admits, cs), i);
    FailuresLeaveNoTrace(k, admits, cs[..n]);
    FailuresLeaveNoTrace(k, admits, cs);
    DoneGrows(k, admits, cs, n);
    var ops := Done(k, admits, cs);
    var m := |Done(k, admits, cs[..n])|;
    assert ops[..m] == Done(k, admits, cs[..n]);
    VersionsAreImmutable(k, ops, m);
    SameTarget(RunCalls(k, admits, cs[..n]).store.tm, RunCalls(k, admits, cs).store.tm,
               RunCalls(k, admits, cs[..n]).trail[i].version);
  }
}
