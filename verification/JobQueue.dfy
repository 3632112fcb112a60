/** The leased job queue: its operations as functions on its rows, and what every run keeps. */
module JobQueue {
  import opened Wrappers

  const VALIDATION_PREFIX := "validation:"
  const FAILURE_MEMORY_SECONDS: real := 86400.0
  const LEASE_EXPIRED := "lease expired"

  datatype Job = Job(machineKey: string, segmentKey: string, approvedKey: string, maskedSource: string, gfp: string,
                     termIds: seq<string>, siteId: string, modelVersion: string, priority: int, review: bool)

  datatype Phase = Pending | Running | Done | Failed

  datatype Row = Row(id: nat, job: Job, state: Phase, attempts: nat, availableAt: real, claimedBy: Option<string>,
                     leaseUntil: Option<real>, lastError: Option<string>, finishedAt: Option<real>, createdAt: real)
  {
    predicate Active() {
      state.Pending? || state.Running?
    }
  }

  datatype ClaimedJob = ClaimedJob(id: nat, job: Job, attempts: nat)

  datatype Config = Config(maxDepth: int, maxAttempts: int)

  datatype Queue = Queue(rows: map<nat, Row>, next: nat)
  {
    /** Ids are dense: 1 up to `next`, and no row is ever dropped. */
    ghost predicate Dense() {
      next >= 1 && (forall id: nat :: id in rows <==> 1 <= id < next) && forall id :: id in rows ==> rows[id].id == id
    }
  }

  // ---- enqueue ----

  predicate Holds(q: Queue, id: nat, key: string) {
    id in q.rows && q.rows[id].job.machineKey == key && q.rows[id].Active()
  }

  /** The first active row of a key, from `id` on. */
  function FirstActive(q: Queue, key: string, id: nat): (r: Option<nat>)
    ensures r.Some? ==> Holds(q, r.value, key) && id <= r.value < q.next
    ensures r.None? ==> forall i: nat :: id <= i < q.next ==> !Holds(q, i, key)
    decreases q.next - id
  {
    if id >= q.next then None else if Holds(q, id, key) then Some(id) else FirstActive(q, key, id + 1)
  }

  /** A key that is active already takes the new request in: never less urgent, never less reviewed. */
  function Merged(was: Job, job: Job): Job {
    was.(review := was.review || job.review, priority := if job.priority < was.priority then job.priority else was.priority)
  }

  predicate RemembersFailure(r: Row, key: string, now: real) {
    && r.job.machineKey == key && r.state.Failed?
    && r.lastError.Some? && VALIDATION_PREFIX <= r.lastError.value
    && r.finishedAt.Some? && now - r.finishedAt.value < FAILURE_MEMORY_SECONDS
  }

  predicate RecentlyInvalid(q: Queue, key: string, now: real) {
    exists id :: id in q.rows && RemembersFailure(q.rows[id], key, now)
  }

  function PendingIds(q: Queue): set<nat> {
    set id | id in q.rows && q.rows[id].state.Pending?
  }

  function Depth(q: Queue): nat {
    |PendingIds(q)|
  }

  function NewRow(id: nat, job: Job, now: real): Row {
    Row(id, job, Pending, 0, now, None, None, None, None, now)
  }

  function Enqueue(q: Queue, cfg: Config, job: Job, translated: bool, now: real): (Queue, bool) {
    var active := FirstActive(q, job.machineKey, 1);
    if active.Some? then
      var r := q.rows[active.value];
      (q.(rows := q.rows[active.value := r.(job := Merged(r.job, job))]), true)
    else if translated || RecentlyInvalid(q, job.machineKey, now) then (q, true)
    else if Depth(q) >= cfg.maxDepth then (q, false)
    else (Queue(q.rows[q.next := NewRow(q.next, job, now)], q.next + 1), true)
  }

  // ---- claim ----

  predicate Ready(r: Row, now: real) {
    r.state.Pending? && r.availableAt <= now
  }

  /** More urgent first, then waiting longer, then enqueued earlier. */
  predicate Before(a: Row, b: Row) {
    || a.job.priority < b.job.priority
    || (a.job.priority == b.job.priority
        && (a.availableAt < b.availableAt || (a.availableAt == b.availableAt && a.id < b.id)))
  }

  function ReadyIds(q: Queue, now: real, n: nat): (r: seq<nat>)
    ensures forall i :: 0 <= i < |r| ==> r[i] < n && r[i] in q.rows && Ready(q.rows[r[i]], now)
  {
    if n == 0 then []
    else ReadyIds(q, now, n - 1) + if n - 1 in q.rows && Ready(q.rows[n - 1], now) then [n - 1] else []
  }

  function Insert(q: Queue, id: nat, sorted: seq<nat>): (r: seq<nat>)
    requires id in q.rows && forall i :: 0 <= i < |sorted| ==> sorted[i] in q.rows
    ensures |r| == |sorted| + 1 && forall i :: 0 <= i < |r| ==> r[i] == id || r[i] in sorted
  {
    if sorted == [] || Before(q.rows[id], q.rows[sorted[0]]) then [id] + sorted
    else [sorted[0]] + Insert(q, id, sorted[1..])
  }

  function Sorted(q: Queue, ids: seq<nat>): (r: seq<nat>)
    requires forall i :: 0 <= i < |ids| ==> ids[i] in q.rows
    ensures |r| == |ids| && forall i :: 0 <= i < |r| ==> r[i] in q.rows && r[i] in ids
  {
    if ids == [] then [] else Insert(q, ids[|ids| - 1], Sorted(q, ids[..|ids| - 1]))
  }

  function Chosen(q: Queue, limit: nat, now: real): (r: seq<nat>)
    ensures forall i :: 0 <= i < |r| ==> r[i] in q.rows
  {
    var all := Sorted(q, ReadyIds(q, now, q.next));
    if limit < |all| then all[..limit] else all
  }

  function ClaimedRow(r: Row, worker: string, until: real): Row {
    r.(state := Running, claimedBy := Some(worker), leaseUntil := Some(until), attempts := r.attempts + 1)
  }

  function ClaimRows(q: Queue, ids: seq<nat>, worker: string, until: real): Queue {
    q.(rows := map id | id in q.rows :: if id in ids then ClaimedRow(q.rows[id], worker, until) else q.rows[id])
  }

  function Handed(q: Queue, ids: seq<nat>): seq<ClaimedJob>
    requires forall i :: 0 <= i < |ids| ==> ids[i] in q.rows
  {
    seq(|ids|, i requires 0 <= i < |ids| => ClaimedJob(ids[i], q.rows[ids[i]].job, q.rows[ids[i]].attempts + 1))
  }

  // ---- finishing ----

  predicate Owns(q: Queue, id: nat, worker: string) {
    id in q.rows && q.rows[id].state.Running? && q.rows[id].claimedBy == Some(worker)
  }

  function Complete(q: Queue, id: nat, worker: string, now: real): Queue {
    if !Owns(q, id, worker) then q
    else q.(rows := q.rows[id := q.rows[id].(state := Done, finishedAt := Some(now), claimedBy := None, leaseUntil := None)])
  }

  function Pow2(n: nat): nat {
    if n == 0 then 1 else 2 * Pow2(n - 1)
  }

  function BackoffSeconds(attempts: nat): real {
    (if Pow2(attempts) < 600 then Pow2(attempts) else 600) as real
  }

  function FailedRow(r: Row, cfg: Config, error: string, retry: bool, now: real): Row {
    var s := r.(lastError := Some(error), claimedBy := None, leaseUntil := None);
    if retry && r.attempts < cfg.maxAttempts then s.(state := Pending, availableAt := now + BackoffSeconds(r.attempts))
    else s.(state := Failed, finishedAt := Some(now))
  }

  function Fail(q: Queue, cfg: Config, id: nat, worker: string, error: string, retry: bool, now: real): Queue {
    if !Owns(q, id, worker) then q else q.(rows := q.rows[id := FailedRow(q.rows[id], cfg, error, retry, now)])
  }

  predicate Expired(r: Row, now: real) {
    r.state.Running? && r.leaseUntil.Some? && r.leaseUntil.value < now
  }

  function SweptRow(r: Row, cfg: Config, now: real): Row {
    if !Expired(r, now) then r
    else
      var s := r.(claimedBy := None, leaseUntil := None, lastError := Some(LEASE_EXPIRED));
      if r.attempts >= cfg.maxAttempts then s.(state := Failed, finishedAt := Some(now))
      else s.(state := Pending, availableAt := now)
  }

  function Sweep(q: Queue, cfg: Config, now: real): Queue {
    q.(rows := map id | id in q.rows :: SweptRow(q.rows[id], cfg, now))
  }

  // ---- runs ----

  datatype Event =
    | Asked(job: Job, translated: bool, now: real)
    | Claims(worker: string, limit: nat, lease: real, now: real)
    | Completes(id: nat, worker: string, now: real)
    | Fails(id: nat, worker: string, error: string, retry: bool, now: real)
    | Sweeps(now: real)

  function Step(q: Queue, cfg: Config, e: Event): Queue {
    match e
    case Asked(job, translated, now) => Enqueue(q, cfg, job, translated, now).0
    case Claims(worker, limit, lease, now) => ClaimRows(q, Chosen(q, limit, now), worker, now + lease)
    case Completes(id, worker, now) => Complete(q, id, worker, now)
    case Fails(id, worker, error, retry, now) => Fail(q, cfg, id, worker, error, retry, now)
    case Sweeps(now) => Sweep(q, cfg, now)
  }

  const EMPTY := Queue(map[], 1)

  function Run(cfg: Config, es: seq<Event>): Queue {
    if es == [] then EMPTY else Step(Run(cfg, es[..|es| - 1]), cfg, es[|es| - 1])
  }

  // ---- the invariant ----

  /** The most a row is ever claimed: a first claim needs no attempts left. */
  function MaxClaims(cfg: Config): int {
    if cfg.maxAttempts < 1 then 1 else cfg.maxAttempts
  }

  ghost predicate RowOk(r: Row, cfg: Config) {
    && (r.state.Running? <==> r.claimedBy.Some?) && (r.state.Running? <==> r.leaseUntil.Some?)
    && (r.Active() <==> r.finishedAt.None?)
    && (r.state.Pending? ==> r.attempts < MaxClaims(cfg))
    && (!r.state.Pending? ==> 1 <= r.attempts <= MaxClaims(cfg))
  }

  ghost predicate OneActivePerKey(q: Queue) {
    forall a: nat, b: nat ::
      (a in q.rows && b in q.rows && q.rows[a].Active() && q.rows[b].Active()
       && q.rows[a].job.machineKey == q.rows[b].job.machineKey)
      ==> a == b
  }

  ghost predicate Inv(q: Queue, cfg: Config) {
    q.Dense() && OneActivePerKey(q) && forall id :: id in q.rows ==> RowOk(q.rows[id], cfg)
  }

  /** The job of a row never changes but to become more urgent or to be flagged. */
  predicate Grows(was: Job, job: Job) {
    && job == was.(priority := job.priority, review := job.review)
    && job.priority <= was.priority && (was.review ==> job.review)
  }

  /** One row through one step: it stays, its job only grows, and what is finished never changes. */
  predicate Follows(was: Row, r: Row) {
    && r.id == was.id && r.createdAt == was.createdAt && Grows(was.job, r.job) && was.attempts <= r.attempts
    && (!was.Active() ==> r == was)
  }

  lemma ChosenIn(q: Queue, limit: nat, now: real, id: nat)
    requires id in Chosen(q, limit, now)
    ensures id in q.rows && Ready(q.rows[id], now)
  {
    var ids := ReadyIds(q, now, q.next);
    var all := Sorted(q, ids);
    assert id in all;
    assert id in ids;
  }

  lemma EnqueueKeeps(q: Queue, cfg: Config, job: Job, translated: bool, now: real)
    requires Inv(q, cfg)
    ensures Inv(Enqueue(q, cfg, job, translated, now).0, cfg)
  {
    hide RecentlyInvalid, Depth;
    var after := Enqueue(q, cfg, job, translated, now).0;
    var active := FirstActive(q, job.machineKey, 1);
    if active.None? {
      forall id | id in q.rows ensures !Holds(q, id, job.machineKey) {}
    }
  }

  /** Rows changed one by one, keys and activity only lost: the invariant carries over. */
  lemma RowsChanged(q: Queue, after: Queue, cfg: Config)
    requires Inv(q, cfg) && after.next == q.next && after.rows.Keys == q.rows.Keys
    requires forall id :: id in q.rows ==> RowOk(after.rows[id], cfg) && Follows(q.rows[id], after.rows[id])
    ensures Inv(after, cfg)
  {
    hide RowOk;
    forall id: nat ensures id in after.rows <==> id in q.rows {
      assert id in after.rows.Keys <==> id in q.rows.Keys;
    }
    forall id | id in after.rows ensures after.rows[id].id == id && after.rows[id].job.machineKey == q.rows[id].job.machineKey {
      assert id in q.rows;
    }
    forall a: nat, b: nat | a in after.rows && b in after.rows && after.rows[a].Active() && after.rows[b].Active()
                            && after.rows[a].job.machineKey == after.rows[b].job.machineKey
      ensures a == b
    {
      assert Follows(q.rows[a], after.rows[a]) && Follows(q.rows[b], after.rows[b]);
    }
  }

  lemma StepFollows(q: Queue, cfg: Config, e: Event)
    requires Inv(q, cfg)
    ensures forall id :: id in q.rows ==> id in Step(q, cfg, e).rows && Follows(q.rows[id], Step(q, cfg, e).rows[id])
  {
    hide RecentlyInvalid, Depth, Chosen, OneActivePerKey, Enqueue;
    match e
    case Asked(job, translated, now) =>
      EnqueueFollows(q, cfg, job, translated, now);
    case Claims(worker, limit, lease, now) =>
      forall id | id in Chosen(q, limit, now) ensures id in q.rows && Ready(q.rows[id], now) { ChosenIn(q, limit, now, id); }
    case Completes(id, worker, now) =>
    case Fails(id, worker, error, retry, now) =>
    case Sweeps(now) =>
  }

  lemma EnqueueFollows(q: Queue, cfg: Config, job: Job, translated: bool, now: real)
    requires q.Dense()
    ensures var after := Enqueue(q, cfg, job, translated, now).0;
            forall id :: id in q.rows ==> id in after.rows && Follows(q.rows[id], after.rows[id])
  {
    hide RecentlyInvalid, Depth;
    forall id | id in q.rows ensures id != q.next {}
  }

  lemma ClaimedRowsOk(q: Queue, cfg: Config, ids: seq<nat>, worker: string, until: real)
    requires Inv(q, cfg) && forall id :: id in ids ==> id in q.rows && q.rows[id].state.Pending?
    ensures ClaimRows(q, ids, worker, until).rows.Keys == q.rows.Keys && ClaimRows(q, ids, worker, until).next == q.next
    ensures forall id :: id in q.rows ==> RowOk(ClaimRows(q, ids, worker, until).rows[id], cfg)
  {
    hide OneActivePerKey;
    forall id | id in q.rows ensures RowOk(ClaimRows(q, ids, worker, until).rows[id], cfg) {
      assert RowOk(q.rows[id], cfg);
    }
  }

  lemma StepKeeps(q: Queue, cfg: Config, e: Event)
    requires Inv(q, cfg)
    ensures Inv(Step(q, cfg, e), cfg)
  {
    hide Follows, RowOk, Inv, Enqueue, ClaimRows, Complete, Fail, Sweep, Chosen;
    var after := Step(q, cfg, e);
    StepFollows(q, cfg, e);
    match e
    case Asked(job, translated, now) =>
      EnqueueKeeps(q, cfg, job, translated, now);
    case Claims(worker, limit, lease, now) =>
      var ids := Chosen(q, limit, now);
      forall id | id in ids ensures id in q.rows && q.rows[id].state.Pending? { ChosenIn(q, limit, now, id); }
      ClaimedRowsOk(q, cfg, ids, worker, now + lease);
      RowsChanged(q, after, cfg);
    case Completes(id, worker, now) =>
      FinishedRowsOk(q, cfg, e);
      RowsChanged(q, after, cfg);
    case Fails(id, worker, error, retry, now) =>
      FinishedRowsOk(q, cfg, e);
      RowsChanged(q, after, cfg);
    case Sweeps(now) =>
      FinishedRowsOk(q, cfg, e);
      RowsChanged(q, after, cfg);
  }

  lemma FinishedRowsOk(q: Queue, cfg: Config, e: Event)
    requires Inv(q, cfg) && (e.Completes? || e.Fails? || e.Sweeps?)
    ensures Step(q, cfg, e).rows.Keys == q.rows.Keys && Step(q, cfg, e).next == q.next
    ensures forall id :: id in q.rows ==> RowOk(Step(q, cfg, e).rows[id], cfg)
  {
    hide OneActivePerKey;
    var after := Step(q, cfg, e);
    forall id | id in q.rows ensures id in after.rows && RowOk(after.rows[id], cfg) {
      assert RowOk(q.rows[id], cfg);
    }
  }

  /**
   In every run: one active row per key, running exactly when held under a lease, finished exactly
   when it has an end, and never claimed more often than allowed.
   */
  lemma {:induction false} RunKeeps(cfg: Config, es: seq<Event>)
    ensures Inv(Run(cfg, es), cfg)
  {
    hide Step;
    if es != [] {
      RunKeeps(cfg, es[..|es| - 1]);
      StepKeeps(Run(cfg, es[..|es| - 1]), cfg, es[|es| - 1]);
    }
  }

  /** From any moment of a run on: no row is lost, jobs only grow, finished rows stay as they are. */
  lemma {:induction false} RunFollows(cfg: Config, es: seq<Event>, n: nat, id: nat)
    requires n <= |es| && id in Run(cfg, es[..n]).rows
    ensures id in Run(cfg, es).rows && Follows(Run(cfg, es[..n]).rows[id], Run(cfg, es).rows[id])
    decreases |es|
  {
    hide Step;
    if n == |es| {
      assert es[..n] == es;
    } else {
      var init := es[..|es| - 1];
      assert init[..n] == es[..n];
      RunFollows(cfg, init, n, id);
      RunKeeps(cfg, init);
      StepFollows(Run(cfg, init), cfg, es[|es| - 1]);
    }
  }

  // ---- claims ----

  /** How often the events of a run hand out a row. */
  function TimesClaimed(cfg: Config, es: seq<Event>, id: nat): nat {
    if es == [] then 0
    else
      var init, e := es[..|es| - 1], es[|es| - 1];
      TimesClaimed(cfg, init, id) + if e.Claims? && id in Chosen(Run(cfg, init), e.limit, e.now) then 1 else 0
  }

  lemma {:induction false} ClaimsAreAttempts(cfg: Config, es: seq<Event>, id: nat)
    ensures var q := Run(cfg, es);
            TimesClaimed(cfg, es, id) == if id in q.rows then q.rows[id].attempts else 0
  {
    if es != [] {
      var init, e := es[..|es| - 1], es[|es| - 1];
      ClaimsAreAttempts(cfg, init, id);
      var q := Run(cfg, init);
      RunKeeps(cfg, init);
      if e.Claims? && id in Chosen(q, e.limit, e.now) { ChosenIn(q, e.limit, e.now, id); }
      AttemptsStep(q, cfg, e, id);
    }
  }

  lemma AttemptsStep(q: Queue, cfg: Config, e: Event, id: nat)
    requires Inv(q, cfg)
    ensures var after := Step(q, cfg, e);
            && (id in q.rows ==> id in after.rows)
            && (id in after.rows ==> after.rows[id].attempts == (if id in q.rows then q.rows[id].attempts else 0)
                                     + if e.Claims? && id in Chosen(q, e.limit, e.now) then 1 else 0)
  {
    hide Chosen, RecentlyInvalid, Depth;
    if e.Claims? && id in Chosen(q, e.limit, e.now) { ChosenIn(q, e.limit, e.now, id); }
  }

  /** A row is handed out at most as often as the queue allows, or once where it allows no attempt. */
  lemma ClaimedAtMost(cfg: Config, es: seq<Event>, id: nat)
    ensures TimesClaimed(cfg, es, id) <= MaxClaims(cfg)
  {
    ClaimsAreAttempts(cfg, es, id);
    RunKeeps(cfg, es);
    if id in Run(cfg, es).rows { assert RowOk(Run(cfg, es).rows[id], cfg); }
  }

  // ---- the order of claims ----

  ghost predicate Ordered(q: Queue, ids: seq<nat>) {
    && (forall i :: 0 <= i < |ids| ==> ids[i] in q.rows)
    && (forall i, j :: 0 <= i < j < |ids| ==> Before(q.rows[ids[i]], q.rows[ids[j]]))
  }

  lemma {:induction false} InsertOrdered(q: Queue, id: nat, sorted: seq<nat>)
    requires id in q.rows && q.Dense() && Ordered(q, sorted) && id !in sorted
    ensures Ordered(q, Insert(q, id, sorted))
    ensures forall x :: x in Insert(q, id, sorted) <==> x == id || x in sorted
  {
    hide Row.Active;
    if sorted != [] {
      var rest := sorted[1..];
      assert sorted == [sorted[0]] + rest;
      assert sorted[0] != id;
      InsertOrdered(q, id, rest);
    }
  }

  lemma {:induction false} SortedOrdered(q: Queue, ids: seq<nat>)
    requires q.Dense() && forall i :: 0 <= i < |ids| ==> ids[i] in q.rows
    requires forall i, j :: 0 <= i < j < |ids| ==> ids[i] != ids[j]
    ensures Ordered(q, Sorted(q, ids)) && forall x :: x in Sorted(q, ids) <==> x in ids
  {
    if ids != [] {
      var init, id := ids[..|ids| - 1], ids[|ids| - 1];
      assert ids == init + [id];
      SortedOrdered(q, init);
      InsertOrdered(q, id, Sorted(q, init));
    }
  }

  lemma {:induction false} ReadyIdsAre(q: Queue, now: real, n: nat)
    ensures var ids := ReadyIds(q, now, n);
            && (forall i, j :: 0 <= i < j < |ids| ==> ids[i] != ids[j])
            && forall id: nat :: id in ids <==> id < n && id in q.rows && Ready(q.rows[id], now)
  {
    if n > 0 {
      ReadyIdsAre(q, now, n - 1);
    }
  }

  /**
   A claim takes ready rows in order, as many as asked for or all there are, and nothing it leaves
   behind comes before anything it takes.
   */
  lemma ClaimTakesLeast(q: Queue, limit: nat, now: real)
    requires q.Dense()
    ensures var ids := Chosen(q, limit, now);
            && Ordered(q, ids) && |ids| <= limit
            && (forall id :: id in ids ==> Ready(q.rows[id], now))
            && forall id :: id in q.rows && Ready(q.rows[id], now) && id !in ids ==>
                 |ids| == limit && forall x :: x in ids ==> Before(q.rows[x], q.rows[id])
  {
    hide ReadyIds, Sorted, Before;
    var ready := ReadyIds(q, now, q.next);
    ReadyIdsAre(q, now, q.next);
    SortedOrdered(q, ready);
    var all := Sorted(q, ready);
    var ids := Chosen(q, limit, now);
    forall id | id in q.rows && Ready(q.rows[id], now) && id !in ids
      ensures |ids| == limit && forall x :: x in ids ==> Before(q.rows[x], q.rows[id])
    {
      assert id in all;
      var j :| 0 <= j < |all| && all[j] == id;
      assert forall k :: 0 <= k < |ids| ==> ids[k] == all[k] && ids[k] in ids;
      assert j >= limit;
      forall x | x in ids ensures Before(q.rows[x], q.rows[id]) {
        var i :| 0 <= i < |ids| && ids[i] == x;
        assert all[i] == x;
      }
    }
  }

  // ---- what callers may rely on ----

  /**
   Enqueueing answers no only to a key that needs work when there is no room for it; otherwise the key is
   active afterwards, at least as urgent and at least as reviewed as asked, or it needs none.
   */
  lemma EnqueueAnswers(q: Queue, cfg: Config, job: Job, translated: bool, now: real)
    requires Inv(q, cfg)
    ensures var (after, ok) := Enqueue(q, cfg, job, translated, now);
            var idle := forall id :: id in q.rows ==> !Holds(q, id, job.machineKey);
            && (!ok <==> idle && !translated && !RecentlyInvalid(q, job.machineKey, now) && Depth(q) >= cfg.maxDepth)
            && (ok ==> (idle && (translated || RecentlyInvalid(q, job.machineKey, now)))
                       || exists id :: id in after.rows && Holds(after, id, job.machineKey)
                                       && after.rows[id].job.priority <= job.priority
                                       && (job.review ==> after.rows[id].job.review))
  {
    hide RecentlyInvalid, Depth;
    var (after, ok) := Enqueue(q, cfg, job, translated, now);
    var active := FirstActive(q, job.machineKey, 1);
    if active.Some? {
      assert Holds(after, active.value, job.machineKey);
    } else {
      forall id | id in q.rows ensures !Holds(q, id, job.machineKey) {}
      if ok && after != q { assert Holds(after, q.next, job.machineKey); }
    }
  }
}
