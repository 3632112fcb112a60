/** The in-memory queue: rows changed in place, each method tied to the queue's specification. */
module QueueObject {
  import opened Wrappers
  import opened JobQueue

  lemma FirstActiveIs(q: Queue, key: string, from: nat, id: nat)
    requires from <= id < q.next && Holds(q, id, key) && forall i: nat :: from <= i < id ==> !Holds(q, i, key)
    ensures FirstActive(q, key, from) == Some(id)
    decreases id - from
  {
    if from < id { FirstActiveIs(q, key, from + 1, id); }
  }

  lemma CountOne(s: set<nat>, t: set<nat>, id: nat, more: bool)
    requires id !in s && t == (if more then s + {id} else s)
    ensures |t| == |s| + if more then 1 else 0
  {
  }

  /** The rows a sweep changes. */
  function ExpiredIds(q: Queue, now: real): set<nat> {
    set id | id in q.rows && Expired(q.rows[id], now)
  }

  lemma ReadySnoc(q: Queue, now: real, id: nat)
    requires id in q.rows
    ensures ReadyIds(q, now, id + 1) == ReadyIds(q, now, id) + if Ready(q.rows[id], now) then [id] else []
  {
  }

  class InMemoryQueue {
    const maxDepth: int
    const maxAttempts: int
    var rows: map<nat, Row>
    var next: nat

    function Settings(): Config {
      Config(maxDepth, maxAttempts)
    }

    function State(): Queue
      reads this
    {
      Queue(rows, next)
    }

    ghost predicate Valid()
      reads this
    {
      Inv(State(), Settings())
    }

    constructor (maxDepth: int, maxAttempts: int)
      ensures Valid() && State() == EMPTY && Settings() == Config(maxDepth, maxAttempts)
    {
      this.maxDepth := maxDepth;
      this.maxAttempts := maxAttempts;
      rows := map[];
      next := 1;
    }

    method CurrentDepth() returns (d: nat)
      requires Valid()
      ensures d == Depth(State())
    {
      d := 0;
      ghost var seen: set<nat> := {};
      for id := 1 to next
        invariant seen == set i | i in rows && i < id && rows[i].state.Pending?
        invariant d == |seen|
      {
        ghost var before := seen;
        if rows[id].state.Pending? {
          d := d + 1;
          seen := seen + {id};
        }
        CountOne(before, seen, id, rows[id].state.Pending?);
      }
      assert seen == PendingIds(State());
    }

    /** Whether the key failed validation too recently to be tried again. */
    method FailedRecently(key: string, now: real) returns (r: bool)
      requires Valid()
      ensures r == RecentlyInvalid(State(), key, now)
    {
      for id := 1 to next
        invariant forall i :: i in rows && i < id ==> !RemembersFailure(rows[i], key, now)
      {
        if RemembersFailure(rows[id], key, now) {
          return true;
        }
      }
      r := false;
    }

    method Enqueue(job: Job, translated: bool, now: real) returns (ok: bool)
      requires Valid()
      modifies this
      ensures Valid()
      ensures (State(), ok) == JobQueue.Enqueue(old(State()), Settings(), job, translated, now)
    {
      EnqueueKeeps(State(), Settings(), job, translated, now);
      for id := 1 to next
        invariant State() == old(State())
        invariant forall i: nat :: 1 <= i < id ==> !Holds(State(), i, job.machineKey)
      {
        var r := rows[id];
        if r.job.machineKey == job.machineKey && r.Active() {
          FirstActiveIs(State(), job.machineKey, 1, id);
          var urgent := if job.priority < r.job.priority then job.priority else r.job.priority;
          rows := rows[id := r.(job := r.job.(review := r.job.review || job.review, priority := urgent))];
          return true;
        }
      }
      assert FirstActive(State(), job.machineKey, 1).None?;
      if translated {
        return true;
      }
      var failed := FailedRecently(job.machineKey, now);
      if failed {
        return true;
      }
      var depth := CurrentDepth();
      if depth >= maxDepth {
        return false;
      }
      rows := rows[next := Row(next, job, Pending, 0, now, None, None, None, None, now)];
      next := next + 1;
      ok := true;
    }

    /** The ids of the ready rows, in the order they were enqueued. */
    method ReadyRows(now: real) returns (ids: seq<nat>)
      requires Valid()
      ensures ids == ReadyIds(State(), now, next)
    {
      InvIsDense(State(), Settings());
      ghost var q := State();
      assert 0 !in rows && forall id: nat :: 1 <= id < next ==> id in rows;
      assert ReadyIds(q, now, 1) == [];
      assert q.rows == rows;
      hide *;
      ids := [];
      for id := 1 to next
        invariant ids == ReadyIds(q, now, id)
      {
        ReadySnoc(q, now, id);
        if Ready(rows[id], now) {
          ids := ids + [id];
        }
      }
    }

    method Claim(worker: string, limit: nat, lease: real, now: real) returns (claimed: seq<ClaimedJob>)
      requires Valid()
      modifies this
      ensures Valid() && State() == ClaimRows(old(State()), Chosen(old(State()), limit, now), worker, now + lease)
      ensures claimed == Handed(old(State()), Chosen(old(State()), limit, now))
    {
      hide Inv, ClaimRows, Chosen, Handed, Sorted, ReadyIds, Apart;
      ClaimKeeps(State(), Settings(), worker, limit, lease, now);
      InvIsDense(State(), Settings());
      ChosenApart(State(), limit, now);
      ChosenIs(State(), limit, now);
      var ready := ReadyRows(now);
      var all := Sorted(State(), ready);
      var ids := if limit < |all| then all[..limit] else all;
      claimed := HandOut(ids, worker, now + lease);
    }

    /** The loop over the rows chosen. */
    method HandOut(ids: seq<nat>, worker: string, until: real) returns (claimed: seq<ClaimedJob>)
      requires Apart(State(), ids)
      modifies this
      ensures State() == ClaimRows(old(State()), ids, worker, until)
      ensures claimed == Handed(old(State()), ids)
    {
      ghost var was := State();
      ClaimNothing(was, worker, until);
      claimed := [];
      hide ClaimRows, Handed;
      for k := 0 to |ids|
        invariant next == was.next && rows == ClaimRows(was, ids[..k], worker, until).rows
        invariant claimed == Handed(was, ids[..k])
      {
        ClaimOneMore(was, ids, k, worker, until);
        var id := ids[k];
        rows := rows[id := rows[id].(state := Running, claimedBy := Some(worker), leaseUntil := Some(until),
                                     attempts := rows[id].attempts + 1)];
        claimed := claimed + [ClaimedJob(id, rows[id].job, rows[id].attempts)];
      }
      assert ids[..|ids|] == ids;
      ClaimKeepsNext(was, ids, worker, until);
    }

    method Complete(id: nat, worker: string, now: real)
      requires Valid()
      modifies this
      ensures Valid() && State() == JobQueue.Complete(old(State()), id, worker, now)
    {
      StepKeeps(State(), Settings(), Completes(id, worker, now));
      if Owns(State(), id, worker) {
        rows := rows[id := rows[id].(state := Done, finishedAt := Some(now), claimedBy := None, leaseUntil := None)];
      }
    }

    method Fail(id: nat, worker: string, error: string, retry: bool, now: real)
      requires Valid()
      modifies this
      ensures Valid() && State() == JobQueue.Fail(old(State()), Settings(), id, worker, error, retry, now)
    {
      StepKeeps(State(), Settings(), Fails(id, worker, error, retry, now));
      if !Owns(State(), id, worker) {
        return;
      }
      var r := rows[id].(lastError := Some(error), claimedBy := None, leaseUntil := None);
      if retry && r.attempts < maxAttempts {
        r := r.(state := Pending, availableAt := now + BackoffSeconds(r.attempts));
      } else {
        r := r.(state := Failed, finishedAt := Some(now));
      }
      rows := rows[id := r];
    }

    /** One row of a sweep. */
    method SweepRow(row: Row, now: real) returns (r: Row)
      ensures r == SweptRow(row, Settings(), now)
    {
      r := row;
      if r.state.Running? && r.leaseUntil.Some? && r.leaseUntil.value < now {
        r := r.(claimedBy := None, leaseUntil := None, lastError := Some(LEASE_EXPIRED));
        if r.attempts >= maxAttempts {
          r := r.(state := Failed, finishedAt := Some(now));
        } else {
          r := r.(state := Pending, availableAt := now);
        }
      }
    }

    method Sweep(now: real) returns (count: nat)
      requires Valid()
      modifies this
      ensures Valid() && State() == JobQueue.Sweep(old(State()), Settings(), now)
      ensures count == |ExpiredIds(old(State()), now)|
    {
      ghost var was := State();
      hide Inv, SweptBelow, ExpiredBelow, ExpiredIds, SweptRow;
      SweepKeeps(was, Settings(), now);
      InvIsDense(was, Settings());
      SweptAll(was, Settings(), now);
      count := SweepRows(now);
    }

    /** The loop over the rows. */
    method SweepRows(now: real) returns (count: nat)
      requires State().Dense()
      modifies this`rows
      ensures rows == SweptBelow(old(State()), Settings(), now, next)
      ensures count == |ExpiredBelow(old(State()), now, next)|
    {
      ghost var was, cfg := State(), Settings();
      hide SweptBelow, ExpiredBelow, SweptRow;
      SweptNone(was, cfg, now);
      count := 0;
      ghost var seen: set<nat> := {};
      for id := 1 to next
        invariant rows == SweptBelow(was, cfg, now, id)
        invariant seen == ExpiredBelow(was, now, id) && count == |seen|
      {
        SweptOneMore(was, cfg, now, id);
        CountOne(seen, ExpiredBelow(was, now, id + 1), id, Expired(was.rows[id], now));
        var r := rows[id];
        if r.state.Running? && r.leaseUntil.Some? && r.leaseUntil.value < now {
          count := count + 1;
          seen := seen + {id};
        }
        var after := SweepRow(r, now);
        rows := rows[id := after];
      }
    }
  }

  /** Rows with every expired one below `n` swept. */
  ghost function SweptBelow(q: Queue, cfg: Config, now: real, n: nat): map<nat, Row> {
    map i | i in q.rows :: if i < n then SweptRow(q.rows[i], cfg, now) else q.rows[i]
  }

  ghost function ExpiredBelow(q: Queue, now: real, n: nat): set<nat> {
    set i | i in q.rows && i < n && Expired(q.rows[i], now)
  }

  lemma SweptNone(q: Queue, cfg: Config, now: real)
    requires q.Dense()
    ensures q.rows == SweptBelow(q, cfg, now, 1) && ExpiredBelow(q, now, 1) == {}
  {
  }

  lemma SweptOneMore(q: Queue, cfg: Config, now: real, n: nat)
    requires n in q.rows
    ensures var before := SweptBelow(q, cfg, now, n);
            && n in before && before[n] == q.rows[n]
            && SweptBelow(q, cfg, now, n + 1) == before[n := SweptRow(q.rows[n], cfg, now)]
    ensures n !in ExpiredBelow(q, now, n)
    ensures ExpiredBelow(q, now, n + 1) == if Expired(q.rows[n], now) then ExpiredBelow(q, now, n) + {n} else ExpiredBelow(q, now, n)
  {
  }

  lemma SweepKeeps(q: Queue, cfg: Config, now: real)
    requires Inv(q, cfg)
    ensures Inv(Sweep(q, cfg, now), cfg)
  {
    hide Inv, Sweep;
    StepKeeps(q, cfg, Sweeps(now));
  }

  lemma SweptAll(q: Queue, cfg: Config, now: real)
    requires q.Dense()
    ensures SweptBelow(q, cfg, now, q.next) == Sweep(q, cfg, now).rows && Sweep(q, cfg, now).next == q.next
    ensures ExpiredBelow(q, now, q.next) == ExpiredIds(q, now)
  {
  }

  /** Rows of the queue, no one twice. */
  ghost predicate Apart(q: Queue, ids: seq<nat>) {
    && (forall i :: 0 <= i < |ids| ==> ids[i] in q.rows)
    && (forall i, j :: 0 <= i < j < |ids| ==> ids[i] != ids[j])
  }

  lemma ChosenApart(q: Queue, limit: nat, now: real)
    requires q.Dense()
    ensures Apart(q, Chosen(q, limit, now))
  {
    hide Chosen;
    ClaimTakesLeast(q, limit, now);
    var ids := Chosen(q, limit, now);
    forall i, j | 0 <= i < j < |ids| ensures ids[i] != ids[j] {
      assert Before(q.rows[ids[i]], q.rows[ids[j]]);
    }
  }

  lemma ClaimKeeps(q: Queue, cfg: Config, worker: string, limit: nat, lease: real, now: real)
    requires Inv(q, cfg)
    ensures Inv(ClaimRows(q, Chosen(q, limit, now), worker, now + lease), cfg)
  {
    hide Inv, ClaimRows, Chosen;
    StepKeeps(q, cfg, Claims(worker, limit, lease, now));
  }

  lemma ChosenIs(q: Queue, limit: nat, now: real)
    ensures var all := Sorted(q, ReadyIds(q, now, q.next));
            Chosen(q, limit, now) == if limit < |all| then all[..limit] else all
  {
    hide Sorted, ReadyIds;
  }

  lemma InvIsDense(q: Queue, cfg: Config)
    requires Inv(q, cfg)
    ensures q.Dense()
  {
  }

  lemma ClaimKeepsNext(q: Queue, ids: seq<nat>, worker: string, until: real)
    ensures ClaimRows(q, ids, worker, until).next == q.next
  {
  }

  lemma ClaimNothing(q: Queue, worker: string, until: real)
    ensures q.rows == ClaimRows(q, [], worker, until).rows && Handed(q, []) == []
  {
  }

  lemma ClaimOneMore(q: Queue, ids: seq<nat>, k: nat, worker: string, until: real)
    requires k < |ids| && Apart(q, ids)
    ensures var done := ClaimRows(q, ids[..k], worker, until).rows;
            && ids[k] in done && done[ids[k]] == q.rows[ids[k]]
            && ClaimRows(q, ids[..k + 1], worker, until).rows == done[ids[k] := ClaimedRow(q.rows[ids[k]], worker, until)]
            && Handed(q, ids[..k + 1]) == Handed(q, ids[..k]) + [ClaimedJob(ids[k], q.rows[ids[k]].job, q.rows[ids[k]].attempts + 1)]
  {
    assert ids[..k + 1] == ids[..k] + [ids[k]];
    assert ids[k] !in ids[..k];
  }
}
