/** How long the queue waits and remembers, told from the events of a run. */
module QueueTimes {
  import opened Wrappers
  import opened JobQueue
  import opened QueueRuns

  // ---- the wait before a retry ----

  /** A second before the first retry, then twice as long each time, ten minutes at most. */
  lemma BackoffIs(n: nat)
    ensures BackoffSeconds(0) == 1.0
    ensures BackoffSeconds(n + 1) == if 2.0 * BackoffSeconds(n) < 600.0 then 2.0 * BackoffSeconds(n) else 600.0
  {
  }

  /** The `n`th event hands the row out. */
  ghost predicate HandsOut(cfg: Config, es: seq<Event>, n: nat, id: nat)
    requires n < |es|
  {
    es[n].Claims? && id in Chosen(Run(cfg, es[..n]), es[n].limit, es[n].now)
  }

  /** The `n`th event sends the row back for another try. */
  ghost predicate SendsBack(cfg: Config, es: seq<Event>, n: nat, id: nat)
    requires n < |es|
  {
    && es[n].Fails? && es[n].id == id && es[n].retry && Owns(Run(cfg, es[..n]), id, es[n].worker)
    && Run(cfg, es[..n]).rows[id].attempts < cfg.maxAttempts
  }

  ghost predicate Waits(q: Queue, id: nat, until: real) {
    id in q.rows && q.rows[id].state.Pending? && q.rows[id].availableAt == until
  }

  lemma WaitsOn(q: Queue, cfg: Config, e: Event, id: nat, until: real)
    requires Inv(q, cfg) && Waits(q, id, until) && !(e.Claims? && id in Chosen(q, e.limit, e.now))
    ensures Waits(Step(q, cfg, e), id, until)
  {
    hide Chosen;
  }

  lemma {:induction false} WaitsUntilHandedOut(cfg: Config, es: seq<Event>, n: nat, m: nat, id: nat, until: real)
    requires n <= m <= |es| && Waits(Run(cfg, es[..n]), id, until)
    requires forall k :: n <= k < m ==> !HandsOut(cfg, es, k, id)
    ensures Waits(Run(cfg, es[..m]), id, until)
    decreases m - n
  {
    hide Run, Step, Inv, Waits, Chosen;
    if n < m {
      WaitsUntilHandedOut(cfg, es, n, m - 1, id, until);
      RunOn(cfg, es, m - 1);
      RunKeeps(cfg, es[..m - 1]);
      assert !HandsOut(cfg, es, m - 1, id);
      WaitsOn(Run(cfg, es[..m - 1]), cfg, es[m - 1], id, until);
    }
  }

  lemma SentBack(q: Queue, cfg: Config, e: Event, id: nat)
    requires e.Fails? && e.id == id && e.retry && Owns(q, id, e.worker) && q.rows[id].attempts < cfg.maxAttempts
    ensures Waits(Step(q, cfg, e), id, e.now + BackoffSeconds(q.rows[id].attempts))
  {
  }

  /**
   In every run, a row sent back for another try is ready from the end of its wait on, and not before:
   the claim that next hands it out comes no earlier.
   */
  lemma RetryWaits(cfg: Config, es: seq<Event>, n: nat, m: nat, id: nat)
    requires n < m <= |es| && SendsBack(cfg, es, n, id) && forall k :: n < k < m ==> !HandsOut(cfg, es, k, id)
    ensures var q, until := Run(cfg, es[..m]), es[n].now + BackoffSeconds(Run(cfg, es[..n]).rows[id].attempts);
            && id in q.rows && (forall now: real :: Ready(q.rows[id], now) <==> until <= now)
            && (m < |es| && HandsOut(cfg, es, m, id) ==> until <= es[m].now)
  {
    hide Run, Step, Inv, Chosen, BackoffSeconds;
    var until := es[n].now + BackoffSeconds(Run(cfg, es[..n]).rows[id].attempts);
    RunOn(cfg, es, n);
    SentBack(Run(cfg, es[..n]), cfg, es[n], id);
    WaitsUntilHandedOut(cfg, es, n + 1, m, id, until);
    if m < |es| && HandsOut(cfg, es, m, id) {
      ChosenIn(Run(cfg, es[..m]), es[m].limit, es[m].now, id);
    }
  }

  // ---- the memory of failures ----

  predicate SaysValidation(error: string) {
    |error| >= 11 && error[..11] == "validation:"
  }

  /** The `n`th event fails the row for good. */
  ghost predicate FailsForGood(cfg: Config, es: seq<Event>, n: nat, id: nat)
    requires n < |es|
  {
    && es[n].Fails? && es[n].id == id && Owns(Run(cfg, es[..n]), id, es[n].worker)
    && (es[n].retry ==> Run(cfg, es[..n]).rows[id].attempts >= cfg.maxAttempts)
  }

  /** The `n`th event fails a row of this key for good, for failing validation. */
  ghost predicate FailsValidation(cfg: Config, es: seq<Event>, n: nat, key: string)
    requires n < |es|
  {
    && es[n].Fails? && FailsForGood(cfg, es, n, es[n].id) && SaysValidation(es[n].error)
    && Run(cfg, es[..n]).rows[es[n].id].job.machineKey == key
  }

  ghost predicate Invalid(r: Row, key: string, at: real) {
    && r.job.machineKey == key && r.state.Failed? && r.lastError.Some? && SaysValidation(r.lastError.value)
    && r.finishedAt == Some(at)
  }

  lemma PrefixIs(error: string)
    ensures VALIDATION_PREFIX <= error <==> SaysValidation(error)
  {
    assert |VALIDATION_PREFIX| == 11;
    if VALIDATION_PREFIX <= error { assert error[..11] == VALIDATION_PREFIX; }
  }

  lemma SaysBegins(error: string)
    requires SaysValidation(error)
    ensures error[0] == 'v'
  {
    assert error[..11][0] == error[0];
  }

  lemma LeaseIsNoValidation()
    ensures !SaysValidation(LEASE_EXPIRED)
  {
    if SaysValidation(LEASE_EXPIRED) { SaysBegins(LEASE_EXPIRED); }
  }

  /** What one event does to what a row says of its failure. */
  lemma InvalidStep(q: Queue, cfg: Config, e: Event, id: nat, key: string, at: real)
    requires Inv(q, cfg)
    ensures var b := Step(q, cfg, e);
            (id in b.rows && Invalid(b.rows[id], key, at))
            <==> (id in q.rows && Invalid(q.rows[id], key, at))
                 || (e.Fails? && e.id == id && e.now == at && Owns(q, id, e.worker) && q.rows[id].job.machineKey == key
                     && (e.retry ==> q.rows[id].attempts >= cfg.maxAttempts) && SaysValidation(e.error))
  {
    hide Chosen, SaysValidation, OneActivePerKey, BackoffSeconds;
    LeaseIsNoValidation();
    if e.Asked? {
      hide RecentlyInvalid, Depth;
    } else if id in q.rows {
      FailedOnly(q, cfg, e, id);
    }
  }

  /** Only a failure and a sweep past the lease make a row a failed one. */
  lemma FailedOnly(q: Queue, cfg: Config, e: Event, id: nat)
    requires Inv(q, cfg) && id in q.rows && !e.Asked?
    ensures var r, b := q.rows[id], Step(q, cfg, e);
            && id in b.rows && b.rows[id].job == r.job
            && (!b.rows[id].state.Failed? || b.rows[id] == r || (e.Sweeps? && b.rows[id].lastError == Some(LEASE_EXPIRED))
                || (e.Fails? && e.id == id && Owns(q, id, e.worker) && b.rows[id] == FailedRow(r, cfg, e.error, e.retry, e.now)))
            && (r.state.Failed? ==> b.rows[id] == r)
            && (e.Fails? && e.id == id && Owns(q, id, e.worker) ==> b.rows[id] == FailedRow(r, cfg, e.error, e.retry, e.now))
  {
    hide Chosen, OneActivePerKey, BackoffSeconds;
    if e.Claims? && id in Chosen(q, e.limit, e.now) { ChosenIn(q, e.limit, e.now, id); }
  }

  lemma {:induction false} InvalidSince(cfg: Config, es: seq<Event>, id: nat, key: string, at: real)
    ensures (id in Run(cfg, es).rows && Invalid(Run(cfg, es).rows[id], key, at))
            <==> exists n :: 0 <= n < |es| && es[n].Fails? && es[n].id == id && es[n].now == at && FailsValidation(cfg, es, n, key)
  {
    if es != [] {
      hide Run, Step, Inv, Invalid, Owns, SaysValidation;
      var n := |es| - 1;
      var init := es[..n];
      InvalidSince(cfg, init, id, key, at);
      RunKeeps(cfg, init);
      RunOn(cfg, es, n);
      assert es[..n + 1] == es;
      InvalidStep(Run(cfg, init), cfg, es[n], id, key, at);
      forall k | 0 <= k < n ensures FailsValidation(cfg, init, k, key) <==> FailsValidation(cfg, es, k, key) {
        assert init[..k] == es[..k];
      }
    }
  }

  /** A row of the key failed validation for good less than a day before. */
  ghost predicate FailedLately(cfg: Config, es: seq<Event>, key: string, now: real) {
    exists n :: 0 <= n < |es| && FailsValidation(cfg, es, n, key) && now - es[n].now < 24.0 * 60.0 * 60.0
  }

  /** What the queue remembers of a key is what happened to it in the last day. */
  lemma RemembersADay(cfg: Config, es: seq<Event>, key: string, now: real)
    ensures RecentlyInvalid(Run(cfg, es), key, now) <==> FailedLately(cfg, es, key, now)
  {
    hide Run, FailsForGood, Owns, SaysValidation;
    var q := Run(cfg, es);
    if RecentlyInvalid(q, key, now) {
      var id :| id in q.rows && RemembersFailure(q.rows[id], key, now);
      PrefixIs(q.rows[id].lastError.value);
      InvalidSince(cfg, es, id, key, q.rows[id].finishedAt.value);
    }
    if FailedLately(cfg, es, key, now) {
      var n :| 0 <= n < |es| && FailsValidation(cfg, es, n, key) && now - es[n].now < 24.0 * 60.0 * 60.0;
      InvalidSince(cfg, es, es[n].id, key, es[n].now);
      PrefixIs(q.rows[es[n].id].lastError.value);
      assert RemembersFailure(q.rows[es[n].id], key, now);
    }
  }

  /**
   Over every run, asking for a job makes a row for it if and only if no row of its key is active, it
   is not translated, none of its key failed validation for good within a day, and there is room.
   */
  lemma AddsARowIff(cfg: Config, es: seq<Event>, job: Job, translated: bool, now: real)
    ensures var q := Run(cfg, es);
            var b := Run(cfg, es + [Asked(job, translated, now)]);
            b.next == q.next + 1
            <==> (forall id :: id in q.rows && q.rows[id].job.machineKey == job.machineKey ==> !q.rows[id].Active())
                 && !translated && !FailedLately(cfg, es, job.machineKey, now) && Depth(q) < cfg.maxDepth
    ensures var q := Run(cfg, es);
            var b := Run(cfg, es + [Asked(job, translated, now)]);
            b.next == q.next || (b.next == q.next + 1 && q.next in b.rows && b.rows[q.next] == NewRow(q.next, job, now))
  {
    hide FailedLately, Depth, RecentlyInvalid;
    var all := es + [Asked(job, translated, now)];
    assert all[..|es|] == es;
    RemembersADay(cfg, es, job.machineKey, now);
    RunKeeps(cfg, es);
    var q := Run(cfg, es);
    if FirstActive(q, job.machineKey, 1).None? {
      forall id | id in q.rows && q.rows[id].job.machineKey == job.machineKey ensures !q.rows[id].Active() {
        assert !Holds(q, id, job.machineKey);
      }
    }
  }

  /**
   Asked for again, an active row becomes as urgent as the more urgent of the two requests, and is
   reviewed if either asked for it; nothing else changes.
   */
  lemma AskedAgain(q: Queue, cfg: Config, job: Job, translated: bool, now: real, id: nat)
    requires Inv(q, cfg) && id in q.rows && q.rows[id].job.machineKey == job.machineKey && q.rows[id].Active()
    ensures var (b, ok) := Enqueue(q, cfg, job, translated, now);
            var was := q.rows[id].job;
            && ok && b.next == q.next && b.rows.Keys == q.rows.Keys
            && (forall k :: k in q.rows && k != id ==> b.rows[k] == q.rows[k])
            && b.rows[id] == q.rows[id].(job := b.rows[id].job)
            && b.rows[id].job == was.(priority := b.rows[id].job.priority, review := b.rows[id].job.review)
            && b.rows[id].job.priority <= was.priority && b.rows[id].job.priority <= job.priority
            && b.rows[id].job.priority in {was.priority, job.priority}
            && (b.rows[id].job.review <==> was.review || job.review)
  {
    assert Holds(q, id, job.machineKey);
  }
}
