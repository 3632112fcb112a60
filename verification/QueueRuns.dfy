/** Runs of the queue: how deep it gets, how often a row is handed out, and who finishes it. */
module QueueRuns {
  import opened Wrappers
  import opened JobQueue

  // ---- the depth ----

  /** Enqueueing adds a row exactly when it accepts work that is not there yet. */
  predicate Adds(q: Queue, cfg: Config, job: Job, translated: bool, now: real) {
    && FirstActive(q, job.machineKey, 1).None? && !translated && !RecentlyInvalid(q, job.machineKey, now)
    && Depth(q) < cfg.maxDepth
  }

  /** A failure that is retried. */
  predicate GoesBack(q: Queue, cfg: Config, id: nat, worker: string, retry: bool) {
    Owns(q, id, worker) && retry && q.rows[id].attempts < cfg.maxAttempts
  }

  /** The expired rows that a sweep gives back. */
  function GivenBack(q: Queue, cfg: Config, now: real): set<nat> {
    set id | id in q.rows && Expired(q.rows[id], now) && q.rows[id].attempts < cfg.maxAttempts
  }

  /** How many rows an event makes pending. */
  function Gained(q: Queue, cfg: Config, e: Event): nat {
    match e
    case Asked(job, translated, now) => if Adds(q, cfg, job, translated, now) then 1 else 0
    case Claims(_, _, _, _) => 0
    case Completes(_, _, _) => 0
    case Fails(id, worker, _, retry, _) => if GoesBack(q, cfg, id, worker, retry) then 1 else 0
    case Sweeps(now) => |GivenBack(q, cfg, now)|
  }

  lemma EnqueueDepth(q: Queue, cfg: Config, job: Job, translated: bool, now: real)
    requires Inv(q, cfg)
    ensures Depth(Enqueue(q, cfg, job, translated, now).0) == Depth(q) + if Adds(q, cfg, job, translated, now) then 1 else 0
  {
    hide RecentlyInvalid, FirstActive, OneActivePerKey, RowOk;
    var after := Enqueue(q, cfg, job, translated, now).0;
    if Adds(q, cfg, job, translated, now) {
      assert q.next !in q.rows;
      assert PendingIds(after) == PendingIds(q) + {q.next};
    } else {
      assert PendingIds(after) == PendingIds(q);
    }
  }

  function Members(ids: seq<nat>): set<nat> {
    set id | id in ids
  }

  lemma {:induction false} DistinctCount(ids: seq<nat>)
    requires forall i, j :: 0 <= i < j < |ids| ==> ids[i] != ids[j]
    ensures |Members(ids)| == |ids|
  {
    if ids != [] {
      var init, last := ids[..|ids| - 1], ids[|ids| - 1];
      assert ids == init + [last];
      DistinctCount(init);
      assert last !in init;
      assert Members(ids) == Members(init) + {last};
    }
  }

  lemma ClaimDepth(q: Queue, cfg: Config, worker: string, limit: nat, now: real, until: real)
    requires Inv(q, cfg)
    ensures Depth(ClaimRows(q, Chosen(q, limit, now), worker, until)) == Depth(q) - |Chosen(q, limit, now)|
  {
    hide Chosen, OneActivePerKey, RowOk, Before;
    var ids := Chosen(q, limit, now);
    ClaimTakesLeast(q, limit, now);
    BeforeItself(q, ids);
    DistinctCount(ids);
    var taken := Members(ids);
    forall id | id in taken ensures id in PendingIds(q) { assert Ready(q.rows[id], now); }
    var after := ClaimRows(q, ids, worker, until);
    forall id: nat ensures id in PendingIds(after) <==> id in PendingIds(q) - taken {
      assert id in after.rows <==> id in q.rows;
    }
    assert PendingIds(after) == PendingIds(q) - taken;
  }

  lemma BeforeItself(q: Queue, ids: seq<nat>)
    requires Ordered(q, ids)
    ensures forall i, j :: 0 <= i < j < |ids| ==> ids[i] != ids[j]
  {
  }

  lemma FailDepth(q: Queue, cfg: Config, id: nat, worker: string, error: string, retry: bool, now: real)
    requires Inv(q, cfg)
    ensures Depth(Fail(q, cfg, id, worker, error, retry, now)) == Depth(q) + if GoesBack(q, cfg, id, worker, retry) then 1 else 0
  {
    hide OneActivePerKey, RowOk, BackoffSeconds;
    var after := Fail(q, cfg, id, worker, error, retry, now);
    if GoesBack(q, cfg, id, worker, retry) {
      assert id !in PendingIds(q);
      assert PendingIds(after) == PendingIds(q) + {id};
    } else {
      assert PendingIds(after) == PendingIds(q);
    }
  }

  lemma SweepDepth(q: Queue, cfg: Config, now: real)
    ensures Depth(Sweep(q, cfg, now)) == Depth(q) + |GivenBack(q, cfg, now)|
  {
    assert PendingIds(q) !! GivenBack(q, cfg, now);
    assert PendingIds(Sweep(q, cfg, now)) == PendingIds(q) + GivenBack(q, cfg, now);
  }

  /** What each operation does to the depth. */
  lemma DepthStep(q: Queue, cfg: Config, e: Event)
    requires Inv(q, cfg)
    ensures Depth(Step(q, cfg, e)) == Depth(q) + Gained(q, cfg, e) - if e.Claims? then |Chosen(q, e.limit, e.now)| else 0
  {
    hide Depth, Inv, Adds, GoesBack, GivenBack, Enqueue, ClaimRows, Chosen, Fail, Sweep, Complete;
    match e
    case Asked(job, translated, now) => EnqueueDepth(q, cfg, job, translated, now);
    case Claims(worker, limit, lease, now) => ClaimDepth(q, cfg, worker, limit, now, now + lease);
    case Completes(id, worker, now) => CompleteDepth(q, id, worker, now);
    case Fails(id, worker, error, retry, now) => FailDepth(q, cfg, id, worker, error, retry, now);
    case Sweeps(now) => SweepDepth(q, cfg, now);
  }

  lemma CompleteDepth(q: Queue, id: nat, worker: string, now: real)
    ensures Depth(Complete(q, id, worker, now)) == Depth(q)
  {
    assert PendingIds(Complete(q, id, worker, now)) == PendingIds(q);
  }

  /** There is room for what a failure or a sweep gives back. */
  predicate Fits(q: Queue, cfg: Config, e: Event) {
    match e
    case Fails(id, worker, _, retry, _) => GoesBack(q, cfg, id, worker, retry) ==> Depth(q) < cfg.maxDepth
    case Sweeps(now) => Depth(q) + |GivenBack(q, cfg, now)| <= cfg.maxDepth
    case _ => true
  }

  /** One event keeps a depth within its bound if and only if there is room for what it gives back. */
  lemma StepWithinBound(q: Queue, cfg: Config, e: Event)
    requires Inv(q, cfg) && Depth(q) <= cfg.maxDepth
    ensures Depth(Step(q, cfg, e)) <= cfg.maxDepth <==> Fits(q, cfg, e)
  {
    hide Depth, Inv, GoesBack, GivenBack, Step, Chosen;
    DepthStep(q, cfg, e);
  }

  /**
   The bound on the depth is checked on enqueueing only.  A run stays within it throughout if and
   only if it is no negative number and every failure and sweep has room for what it gives back.
   */
  lemma RunWithinBound(cfg: Config, es: seq<Event>)
    ensures (forall n :: 0 <= n <= |es| ==> Depth(Run(cfg, es[..n])) <= cfg.maxDepth)
            <==> cfg.maxDepth >= 0 && forall n :: 0 <= n < |es| ==> Fits(Run(cfg, es[..n]), cfg, es[n])
  {
    hide Depth, Run, Inv, Fits, Step;
    EmptyDepth(cfg);
    assert es[..0] == [];
    if forall n :: 0 <= n <= |es| ==> Depth(Run(cfg, es[..n])) <= cfg.maxDepth {
      assert Depth(Run(cfg, es[..0])) <= cfg.maxDepth;
      forall n | 0 <= n < |es| ensures Fits(Run(cfg, es[..n]), cfg, es[n]) {
        assert Depth(Run(cfg, es[..n])) <= cfg.maxDepth && Depth(Run(cfg, es[..n + 1])) <= cfg.maxDepth;
        RunOn(cfg, es, n);
        RunKeeps(cfg, es[..n]);
        StepWithinBound(Run(cfg, es[..n]), cfg, es[n]);
      }
    }
    if cfg.maxDepth >= 0 && forall n :: 0 <= n < |es| ==> Fits(Run(cfg, es[..n]), cfg, es[n]) {
      forall n | 0 <= n <= |es| ensures Depth(Run(cfg, es[..n])) <= cfg.maxDepth { FittingRun(cfg, es, n); }
    }
  }

  lemma EmptyDepth(cfg: Config)
    ensures Run(cfg, []) == EMPTY && Depth(EMPTY) == 0
  {
    assert PendingIds(EMPTY) == {};
  }

  lemma RunOn(cfg: Config, es: seq<Event>, n: nat)
    requires n < |es|
    ensures Run(cfg, es[..n + 1]) == Step(Run(cfg, es[..n]), cfg, es[n])
  {
    hide Step;
    assert es[..n + 1][..n] == es[..n];
  }

  lemma {:induction false} FittingRun(cfg: Config, es: seq<Event>, n: nat)
    requires n <= |es| && cfg.maxDepth >= 0 && forall i :: 0 <= i < |es| ==> Fits(Run(cfg, es[..i]), cfg, es[i])
    ensures Depth(Run(cfg, es[..n])) <= cfg.maxDepth
  {
    hide Depth, Run, Inv, Fits, Step;
    if n == 0 {
      EmptyDepth(cfg);
      assert es[..0] == [];
    } else {
      FittingRun(cfg, es, n - 1);
      RunOn(cfg, es, n - 1);
      RunKeeps(cfg, es[..n - 1]);
      StepWithinBound(Run(cfg, es[..n - 1]), cfg, es[n - 1]);
    }
  }

  // ---- small runs ----

  lemma RunTwo(cfg: Config, a: Event, b: Event)
    ensures Run(cfg, [a, b]) == Step(Step(EMPTY, cfg, a), cfg, b) && Run(cfg, [a]) == Step(EMPTY, cfg, a)
  {
    hide Step;
    var one, two := [a], [a, b];
    assert two[..1] == one && one[..0] == [] && Run(cfg, []) == EMPTY;
    assert Run(cfg, one) == Step(EMPTY, cfg, a);
    assert two[|two| - 1] == b && Run(cfg, two) == Step(Run(cfg, two[..|two| - 1]), cfg, b);
  }

  lemma RunFour(cfg: Config, a: Event, b: Event, c: Event, d: Event)
    ensures Run(cfg, [a, b, c, d]) == Step(Step(Step(Step(EMPTY, cfg, a), cfg, b), cfg, c), cfg, d)
  {
    hide Step;
    assert [a, b, c, d][..3] == [a, b, c] && [a, b, c][..2] == [a, b];
    RunTwo(cfg, a, b);
    assert Run(cfg, [a, b, c]) == Step(Run(cfg, [a, b]), cfg, c);
  }

  lemma FirstJob(cfg: Config, a: Job)
    requires cfg.maxDepth >= 1
    ensures Step(EMPTY, cfg, Asked(a, false, 0.0)) == Queue(map[1 := NewRow(1, a, 0.0)], 2)
  {
    hide Chosen;
    assert PendingIds(EMPTY) == {};
  }

  lemma FirstClaim(cfg: Config, a: Job)
    ensures Chosen(Queue(map[1 := NewRow(1, a, 0.0)], 2), 1, 0.0) == [1]
    ensures Step(Queue(map[1 := NewRow(1, a, 0.0)], 2), cfg, Claims("w", 1, 60.0, 0.0))
            == Queue(map[1 := ClaimedRow(NewRow(1, a, 0.0), "w", 60.0)], 2)
  {
    var q1 := Queue(map[1 := NewRow(1, a, 0.0)], 2);
    OnlyOneChosen(q1);
    hide Chosen;
    assert 0.0 + 60.0 == 60.0;
    assert ClaimRows(q1, [1], "w", 60.0).rows == map[1 := ClaimedRow(NewRow(1, a, 0.0), "w", 60.0)];
  }

  lemma OnlyOneChosen(q: Queue)
    requires q.next == 2 && q.rows.Keys == {1} && Ready(q.rows[1], 0.0)
    ensures Chosen(q, 1, 0.0) == [1]
  {
    assert 0 !in q.rows && 1 in q.rows;
    assert ReadyIds(q, 0.0, 0) == [] && ReadyIds(q, 0.0, 1) == [] && ReadyIds(q, 0.0, 2) == [1];
    assert [1][..0] == [];
    assert Sorted(q, [1]) == [1];
  }

  lemma SecondJob(cfg: Config, row: Row, b: Job)
    requires row.job.machineKey != b.machineKey && cfg.maxDepth == 1 && row.state.Running?
    ensures Step(Queue(map[1 := row], 2), cfg, Asked(b, false, 0.0)) == Queue(map[1 := row, 2 := NewRow(2, b, 0.0)], 3)
  {
    hide Chosen;
    var q := Queue(map[1 := row], 2);
    assert !Holds(q, 1, b.machineKey) && PendingIds(q) == {};
    assert !RecentlyInvalid(q, b.machineKey, 0.0);
  }

  /** A retried failure goes past the bound. */
  lemma RetryPassesTheBound(a: Job, b: Job)
    requires a.machineKey != b.machineKey
    ensures var cfg := Config(1, 5);
            var es := [Asked(a, false, 0.0), Claims("w", 1, 60.0, 0.0), Asked(b, false, 0.0), Fails(1, "w", "upstream", true, 1.0)];
            Depth(Run(cfg, es)) == 2 > cfg.maxDepth
  {
    hide Run, Chosen, ClaimRows, Enqueue;
    var cfg := Config(1, 5);
    FirstJob(cfg, a);
    FirstClaim(cfg, a);
    SecondJob(cfg, ClaimedRow(NewRow(1, a, 0.0), "w", 60.0), b);
    var failing := Fails(1, "w", "upstream", true, 1.0);
    RunFour(cfg, Asked(a, false, 0.0), Claims("w", 1, 60.0, 0.0), Asked(b, false, 0.0), failing);
    var q3 := Queue(map[1 := ClaimedRow(NewRow(1, a, 0.0), "w", 60.0), 2 := NewRow(2, b, 0.0)], 3);
    assert PendingIds(Step(q3, cfg, failing)) == {1, 2};
  }

  // ---- how often a row is handed out ----

  /** With room for a job, its first claim needs no attempt left. */
  lemma FirstClaimIsFree(cfg: Config, a: Job)
    requires cfg.maxDepth >= 1
    ensures TimesClaimed(cfg, [Asked(a, false, 0.0), Claims("w", 1, 60.0, 0.0)], 1) == 1
  {
    hide Run, Chosen, Step;
    var e, f := Asked(a, false, 0.0), Claims("w", 1, 60.0, 0.0);
    RunTwo(cfg, e, f);
    FirstJob(cfg, a);
    FirstClaim(cfg, a);
    assert [e, f][..1] == [e] && [e][..0] == [];
    assert TimesClaimed(cfg, [e], 1) == 0;
  }

  /** Without room nothing is ever enqueued. */
  lemma {:induction false} NoRoomNoRows(cfg: Config, es: seq<Event>)
    requires cfg.maxDepth <= 0
    ensures Run(cfg, es) == EMPTY
  {
    hide Chosen, Depth;
    if es != [] { NoRoomNoRows(cfg, es[..|es| - 1]); }
  }

  const SOME_JOB := Job("machine", "segment", "approved", "text", "", [], "site", "model", 0, false)

  /**
   The limit on attempts is looked at after a claim only.  Every run hands every row out at most so
   often if and only if the queue allows at least one attempt, or neither an attempt nor a job.
   */
  lemma ClaimsWithinAttempts(cfg: Config)
    ensures (forall es, id :: TimesClaimed(cfg, es, id) <= cfg.maxAttempts)
            <==> cfg.maxAttempts >= 1 || (cfg.maxAttempts == 0 && cfg.maxDepth <= 0)
  {
    hide TimesClaimed;
    if cfg.maxAttempts >= 1 {
      forall es, id ensures TimesClaimed(cfg, es, id) <= cfg.maxAttempts { ClaimedAtMost(cfg, es, id); }
    } else if cfg.maxDepth >= 1 {
      FirstClaimIsFree(cfg, SOME_JOB);
      assert TimesClaimed(cfg, [Asked(SOME_JOB, false, 0.0), Claims("w", 1, 60.0, 0.0)], 1) > cfg.maxAttempts;
    } else {
      forall es, id ensures TimesClaimed(cfg, es, id) == 0 {
        ClaimsAreAttempts(cfg, es, id);
        NoRoomNoRows(cfg, es);
      }
      assert TimesClaimed(cfg, [], 1) == 0;
    }
  }

  // ---- who holds a row, and who finishes it ----

  /** The worker that the last claim of a row handed it to. */
  function LastClaimer(cfg: Config, es: seq<Event>, id: nat): Option<string> {
    if es == [] then None
    else
      var init, e := es[..|es| - 1], es[|es| - 1];
      if e.Claims? && id in Chosen(Run(cfg, init), e.limit, e.now) then Some(e.worker) else LastClaimer(cfg, init, id)
  }

  /** The events that take a row from the worker that holds it: its own word, or a sweep behind its lease. */
  predicate Releases(q: Queue, e: Event, id: nat, worker: string)
    requires Owns(q, id, worker)
  {
    match e
    case Completes(i, w, _) => i == id && w == worker
    case Fails(i, w, _, _, _) => i == id && w == worker
    case Sweeps(now) => Expired(q.rows[id], now)
    case _ => false
  }

  /** A held row is let go by just those events; until then it stays with its worker under the same lease. */
  lemma HeldUntilReleased(q: Queue, cfg: Config, e: Event, id: nat, worker: string)
    requires Inv(q, cfg) && Owns(q, id, worker)
    ensures var after := Step(q, cfg, e);
            && id in after.rows
            && (after.rows[id].state.Running? <==> !Releases(q, e, id, worker))
            && (after.rows[id].state.Running? ==> Owns(after, id, worker) && after.rows[id].leaseUntil == q.rows[id].leaseUntil)
            && (after.rows[id].state.Done? <==> e.Completes? && Releases(q, e, id, worker))
  {
    hide Chosen, RecentlyInvalid, Depth, OneActivePerKey, BackoffSeconds;
    if e.Claims? && id in Chosen(q, e.limit, e.now) { ChosenIn(q, e.limit, e.now, id); }
    assert RowOk(q.rows[id], cfg);
  }

  /** A row comes into a worker's hands only by a claim, and is done only by its holder's completion. */
  lemma NotHeldStep(q: Queue, cfg: Config, e: Event, id: nat)
    requires Inv(q, cfg) && !(id in q.rows && q.rows[id].state.Running?)
    ensures var after := Step(q, cfg, e);
            && (id in after.rows && after.rows[id].state.Running? ==>
                  e.Claims? && id in Chosen(q, e.limit, e.now) && after.rows[id].claimedBy == Some(e.worker))
            && (id in after.rows && after.rows[id].state.Done? ==> id in q.rows && q.rows[id].state.Done?)
  {
    hide Chosen, RecentlyInvalid, Depth, OneActivePerKey, BackoffSeconds, FirstActive;
  }

  lemma OnlyPendingIsClaimed(q: Queue, cfg: Config, e: Event, id: nat)
    requires Inv(q, cfg) && e.Claims? && id in Chosen(q, e.limit, e.now)
    ensures id in q.rows && q.rows[id].state.Pending?
  {
    hide Chosen;
    ChosenIn(q, e.limit, e.now, id);
  }

  /** In every run the holder of a row is the worker its last claim handed it to. */
  lemma {:induction false} HolderIsLastClaimer(cfg: Config, es: seq<Event>, id: nat, worker: string)
    requires Owns(Run(cfg, es), id, worker)
    ensures LastClaimer(cfg, es, id) == Some(worker)
  {
    hide Step, Chosen, Inv;
    var init, e := es[..|es| - 1], es[|es| - 1];
    var q := Run(cfg, init);
    RunKeeps(cfg, init);
    if id in q.rows && q.rows[id].state.Running? {
      if e.Claims? && id in Chosen(q, e.limit, e.now) { OnlyPendingIsClaimed(q, cfg, e, id); }
      RunningIsHeld(q, cfg, id);
      HeldUntilReleased(q, cfg, e, id, q.rows[id].claimedBy.value);
      HolderIsLastClaimer(cfg, init, id, worker);
    } else {
      NotHeldStep(q, cfg, e, id);
    }
  }

  lemma RunningIsHeld(q: Queue, cfg: Config, id: nat)
    requires Inv(q, cfg) && id in q.rows && q.rows[id].state.Running?
    ensures q.rows[id].claimedBy.Some? && Owns(q, id, q.rows[id].claimedBy.value) && q.rows[id].leaseUntil.Some?
  {
    assert RowOk(q.rows[id], cfg);
  }

  /** From event `n` to event `m` the row is in the worker's hands. */
  ghost predicate HeldFrom(cfg: Config, es: seq<Event>, n: nat, m: nat, id: nat, worker: string)
    requires n <= m <= |es|
  {
    forall k :: n <= k <= m ==> Owns(Run(cfg, es[..k]), id, worker)
  }

  /** None of the events from `n` to `m` lets the row go. */
  ghost predicate NotReleased(cfg: Config, es: seq<Event>, n: nat, m: nat, id: nat, worker: string)
    requires n <= m <= |es|
  {
    forall k :: n <= k < m && Owns(Run(cfg, es[..k]), id, worker) ==> !Releases(Run(cfg, es[..k]), es[k], id, worker)
  }

  /**
   In every run a worker keeps the row it holds exactly until one of three events: it completes the
   row, it fails it, or a sweep comes past its lease.
   */
  lemma {:induction false} HeldUntilLetGo(cfg: Config, es: seq<Event>, n: nat, m: nat, id: nat, worker: string)
    requires n <= m <= |es| && Owns(Run(cfg, es[..n]), id, worker)
    ensures HeldFrom(cfg, es, n, m, id, worker) <==> NotReleased(cfg, es, n, m, id, worker)
    decreases m - n
  {
    hide Run, Step, Inv, Owns, Releases;
    if n < m {
      HeldUntilLetGo(cfg, es, n, m - 1, id, worker);
      if HeldFrom(cfg, es, n, m - 1, id, worker) { LastEvent(cfg, es, m - 1, id, worker); }
    }
  }

  lemma LastEvent(cfg: Config, es: seq<Event>, n: nat, id: nat, worker: string)
    requires n < |es| && Owns(Run(cfg, es[..n]), id, worker)
    ensures Owns(Run(cfg, es[..n + 1]), id, worker) <==> !Releases(Run(cfg, es[..n]), es[n], id, worker)
  {
    hide Run, Step, Inv, Releases;
    RunOn(cfg, es, n);
    RunKeeps(cfg, es[..n]);
    HeldUntilReleased(Run(cfg, es[..n]), cfg, es[n], id, worker);
  }

  /** The `n`th event completes the row, by the worker that holds it then. */
  ghost predicate CompletedAt(cfg: Config, es: seq<Event>, n: nat, id: nat) {
    && n < |es| && es[n].Completes? && es[n].id == id
    && LastClaimer(cfg, es[..n], id) == Some(es[n].worker) == LastClaimer(cfg, es, id)
  }

  /**
   In every run a row is done only because the worker that its last claim handed it to completed it;
   nobody has claimed it since.
   */
  lemma {:induction false} DoneByItsHolder(cfg: Config, es: seq<Event>, id: nat) returns (n: nat)
    requires id in Run(cfg, es).rows && Run(cfg, es).rows[id].state.Done?
    ensures CompletedAt(cfg, es, n, id)
  {
    hide Step, Chosen, Inv;
    var init, e := es[..|es| - 1], es[|es| - 1];
    var q := Run(cfg, init);
    RunKeeps(cfg, init);
    if id in q.rows && q.rows[id].state.Running? {
      RunningIsHeld(q, cfg, id);
      var worker := q.rows[id].claimedBy.value;
      HeldUntilReleased(q, cfg, e, id, worker);
      HolderIsLastClaimer(cfg, init, id, worker);
      n := |es| - 1;
    } else {
      NotHeldStep(q, cfg, e, id);
      n := DoneByItsHolder(cfg, init, id);
      assert init[..n] == es[..n];
      if e.Claims? && id in Chosen(q, e.limit, e.now) { OnlyPendingIsClaimed(q, cfg, e, id); }
    }
  }

  /**
   A job whose worker died is never stuck.  Whatever else happens, by the first sweep behind the lease
   the row has left the worker's hands.
   */
  lemma {:induction false} DeadWorkerIsFreed(cfg: Config, es: seq<Event>, n: nat, k: nat, id: nat) returns (m: nat)
    requires n <= k < |es| && es[k].Sweeps?
    requires id in Run(cfg, es[..n]).rows && Run(cfg, es[..n]).rows[id].state.Running?
    requires Run(cfg, es[..n]).rows[id].leaseUntil.Some? && Run(cfg, es[..n]).rows[id].leaseUntil.value < es[k].now
    ensures n < m <= k + 1 && id in Run(cfg, es[..m]).rows && !Run(cfg, es[..m]).rows[id].state.Running?
    decreases k - n
  {
    hide Step, Inv, Run;
    var q := Run(cfg, es[..n]);
    RunKeeps(cfg, es[..n]);
    RunningIsHeld(q, cfg, id);
    HeldUntilReleased(q, cfg, es[n], id, q.rows[id].claimedBy.value);
    RunOn(cfg, es, n);
    m := n + 1;
    if Run(cfg, es[..m]).rows[id].state.Running? {
      m := DeadWorkerIsFreed(cfg, es, n + 1, k, id);
    }
  }
}
