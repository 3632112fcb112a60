/** The upstream quota: a share of the rate is the worker's own, and live traffic cannot touch it. */
module Quotas {
  import opened Wrappers
  import opened Buckets

  class Bucket {
    const rate: real
    const capacity: real
    var tokens: real
    var updated: real

    function Shape(): Params {
      Params(rate, capacity)
    }

    function State(): Level
      reads this
    {
      Level(tokens, updated)
    }

    constructor (rate: real, capacity: real, now: real)
      ensures Shape() == Params(rate, capacity) && State() == Level(capacity, now)
    {
      this.rate, this.capacity := rate, capacity;
      tokens, updated := capacity, now;
    }

    method TakeTokens(n: int, now: real) returns (ok: bool)
      modifies this
      ensures (State(), ok) == Take(Shape(), old(State()), n, now)
    {
      assert Gain(rate, now - updated) == (now - updated) * rate;
      hide Gain;
      var filled := tokens + (now - updated) * rate;
      tokens := if capacity < filled then capacity else filled;
      updated := now;
      if tokens >= n as real {
        tokens := tokens - n as real;
        return true;
      }
      ok := false;
    }
  }

  datatype Side = Live | Worker

  /** The rate of one side, and what it can save up. */
  function SideParams(perSecond: real, workerShare: real, burstSeconds: real, side: Side): Params {
    var rate := if side.Live? then perSecond * (1.0 - workerShare) else perSecond * workerShare;
    Params(rate, rate * burstSeconds)
  }

  datatype Quota = Quota(live: Level, worker: Level)

  class QuotaManager {
    const live: Bucket
    const worker: Bucket

    ghost predicate Valid() {
      live != worker
    }

    function State(): Quota
      reads live, worker
    {
      Quota(live.State(), worker.State())
    }

    constructor (perSecond: real, workerShare: real, burstSeconds: real, now: real)
      ensures Valid() && fresh(live) && fresh(worker)
      ensures live.Shape() == SideParams(perSecond, workerShare, burstSeconds, Live)
      ensures worker.Shape() == SideParams(perSecond, workerShare, burstSeconds, Worker)
      ensures State() == Quota(Level(live.capacity, now), Level(worker.capacity, now))
    {
      var liveRate, workerRate := perSecond * (1.0 - workerShare), perSecond * workerShare;
      var l := new Bucket(liveRate, liveRate * burstSeconds, now);
      var w := new Bucket(workerRate, workerRate * burstSeconds, now);
      live, worker := l, w;
    }

    /** Only a share from nought to one makes a quota. */
    static method Create(perSecond: real, workerShare: real, burstSeconds: real, now: real)
      returns (r: Option<QuotaManager>)
      ensures r.Some? <==> 0.0 <= workerShare <= 1.0
      ensures r.Some? ==>
                && r.value.Valid()
                && r.value.live.Shape() == SideParams(perSecond, workerShare, burstSeconds, Live)
                && r.value.worker.Shape() == SideParams(perSecond, workerShare, burstSeconds, Worker)
                && r.value.State() == Quota(Level(r.value.live.capacity, now), Level(r.value.worker.capacity, now))
    {
      if !(0.0 <= workerShare <= 1.0) {
        return None;
      }
      var q := new QuotaManager(perSecond, workerShare, burstSeconds, now);
      r := Some(q);
    }

    method TryLive(n: int, now: real) returns (ok: bool)
      requires Valid()
      modifies live
      ensures (live.State(), ok) == Take(live.Shape(), old(live.State()), n, now)
      ensures worker.State() == old(worker.State())
    {
      ok := live.TakeTokens(n, now);
    }

    method TryWorker(n: int, now: real) returns (ok: bool)
      requires Valid()
      modifies worker
      ensures (worker.State(), ok) == Take(worker.Shape(), old(worker.State()), n, now)
      ensures live.State() == old(live.State())
    {
      ok := worker.TakeTokens(n, now);
    }
  }

  // ---- runs ----

  datatype Try = Try(side: Side, call: Call)

  datatype Shares = Shares(live: Params, worker: Params)

  function ParamsOf(s: Shares, side: Side): Params {
    if side.Live? then s.live else s.worker
  }

  function LevelOf(q: Quota, side: Side): Level {
    if side.Live? then q.live else q.worker
  }

  function Step(s: Shares, q: Quota, t: Try): (Quota, bool) {
    var (l, ok) := Take(ParamsOf(s, t.side), LevelOf(q, t.side), t.call.n, t.call.now);
    (if t.side.Live? then q.(live := l) else q.(worker := l), ok)
  }

  function Run(s: Shares, q: Quota, ts: seq<Try>): Quota {
    if ts == [] then q else Step(s, Run(s, q, ts[..|ts| - 1]), ts[|ts| - 1]).0
  }

  /** What one side was answered in a run of both. */
  function AnswersOf(s: Shares, q: Quota, ts: seq<Try>, side: Side): seq<bool> {
    if ts == [] then []
    else
      var init, t := ts[..|ts| - 1], ts[|ts| - 1];
      AnswersOf(s, q, init, side) + if t.side == side then [Step(s, Run(s, q, init), t).1] else []
  }

  function CallsOf(ts: seq<Try>, side: Side): seq<Call> {
    if ts == [] then []
    else CallsOf(ts[..|ts| - 1], side) + if ts[|ts| - 1].side == side then [ts[|ts| - 1].call] else []
  }

  /** Each side is answered as if it were alone, whatever the other does. */
  lemma {:induction false} SidesAreApart(s: Shares, q: Quota, ts: seq<Try>, side: Side)
    ensures AnswersOf(s, q, ts, side) == Answers(ParamsOf(s, side), LevelOf(q, side), CallsOf(ts, side))
    ensures LevelOf(Run(s, q, ts), side) == After(ParamsOf(s, side), LevelOf(q, side), CallsOf(ts, side))
  {
    hide Take;
    if ts != [] {
      var init, t := ts[..|ts| - 1], ts[|ts| - 1];
      SidesAreApart(s, q, init, side);
      if t.side == side {
        AfterSnoc(ParamsOf(s, side), LevelOf(q, side), CallsOf(init, side), t.call);
      } else {
        assert CallsOf(ts, side) == CallsOf(init, side) && AnswersOf(s, q, ts, side) == AnswersOf(s, q, init, side);
      }
    }
  }

  /** Live traffic can never change what the worker is granted. */
  lemma WorkerIsNotStarved(s: Shares, q: Quota, a: seq<Try>, b: seq<Try>)
    requires CallsOf(a, Worker) == CallsOf(b, Worker)
    ensures AnswersOf(s, q, a, Worker) == AnswersOf(s, q, b, Worker)
  {
    SidesAreApart(s, q, a, Worker);
    SidesAreApart(s, q, b, Worker);
  }

  /** What the answers grant of some calls. */
  function Spent(answers: seq<bool>, calls: seq<Call>): nat
    requires |answers| == |calls|
  {
    if calls == [] then 0
    else
      var n := |calls| - 1;
      Spent(answers[..n], calls[..n]) + if answers[n] then calls[n].n else 0
  }

  lemma {:induction false} SpentIsGranted(p: Params, l: Level, calls: seq<Call>, j: nat)
    requires j <= |calls|
    ensures Spent(Answers(p, l, calls)[..j], calls[..j]) == Granted(p, l, calls[..j])
  {
    hide Take, After, Answers;
    var answers := Answers(p, l, calls);
    if j > 0 {
      SpentIsGranted(p, l, calls, j - 1);
      assert answers[..j][..j - 1] == answers[..j - 1] && calls[..j][..j - 1] == calls[..j - 1];
      assert answers[..j][j - 1] == answers[j - 1] && calls[..j][j - 1] == calls[j - 1];
      AnswersPrefix(p, l, calls, j - 1);
    }
  }

  function SharesOf(perSecond: real, share: real, burst: real): Shares {
    Shares(SideParams(perSecond, share, burst, Live), SideParams(perSecond, share, burst, Worker))
  }

  /** The part of the rate that is one side's own. */
  function ShareOf(share: real, side: Side): real {
    match side
    case Live => 1.0 - share
    case Worker => share
  }

  /**
   In any run of live and worker calls, mixed as they come, what one side's calls `i` up to `j` were
   granted is within that side's share of the rate.
   */
  lemma SideStaysInItsShare(perSecond: real, share: real, burst: real, q: Quota, ts: seq<Try>, side: Side, i: nat, j: nat)
    requires perSecond >= 0.0 && 0.0 <= share <= 1.0 && burst >= 0.0
    requires LevelOf(q, side).tokens >= 0.0 && InOrder(LevelOf(q, side), CallsOf(ts, side)) && i < j <= |CallsOf(ts, side)|
    ensures var calls, answers := CallsOf(ts, side), AnswersOf(SharesOf(perSecond, share, burst), q, ts, side);
            && |answers| == |calls|
            && Spent(answers[..j], calls[..j]) as real - Spent(answers[..i], calls[..i]) as real
               <= Gain(perSecond * ShareOf(share, side), burst + (calls[j - 1].now - calls[i].now))
  {
    var calls, p, l := CallsOf(ts, side), SideParams(perSecond, share, burst, side), LevelOf(q, side);
    SidesAreApart(SharesOf(perSecond, share, burst), q, ts, side);
    hide Granted, InOrder, CallsOf, SideParams, AnswersOf, Answers, Spent;
    SideParamsAre(perSecond, share, burst, side);
    SpentIsGranted(p, l, calls, i);
    SpentIsGranted(p, l, calls, j);
    GrantsAreBounded(p, l, calls, i, j);
    AllowanceOf(p, burst, calls[i].now, calls[j - 1].now);
  }

  lemma SideParamsAre(perSecond: real, share: real, burst: real, side: Side)
    requires perSecond >= 0.0 && 0.0 <= share <= 1.0 && burst >= 0.0
    ensures var p := SideParams(perSecond, share, burst, side);
            p.Sane() && p.capacity == Gain(p.rate, burst) && p.rate == perSecond * ShareOf(share, side)
  {
    GainIs(perSecond, 1.0 - share, 0.0);
    GainIs(perSecond, share, 0.0);
    GainIs(perSecond * (1.0 - share), burst, 0.0);
    GainIs(perSecond * share, burst, 0.0);
  }

  lemma AllowanceOf(p: Params, burst: real, from: real, to: real)
    requires p.capacity == Gain(p.rate, burst)
    ensures Allowance(p, from, to) == Gain(p.rate, burst + (to - from))
  {
    GainIs(p.rate, burst, to - from);
  }

  /** No stretch of one side's calls asks for more than its share brings in over it and the burst. */
  ghost predicate FitsItsShare(perSecond: real, share: real, burst: real, calls: seq<Call>, side: Side) {
    forall i, j :: 0 <= i <= j < |calls| ==>
      Asked(calls, i, j + 1) as real <= Gain(perSecond * ShareOf(share, side), burst + (calls[j].now - calls[i].now))
  }

  lemma FitsIsConforms(perSecond: real, share: real, burst: real, p: Params, calls: seq<Call>, side: Side)
    requires p.capacity == Gain(p.rate, burst) && p.rate == perSecond * ShareOf(share, side)
    ensures Conforms(p, calls) <==> FitsItsShare(perSecond, share, burst, calls, side)
  {
    hide Asked, Gain, Allowance;
    forall i, j | 0 <= i <= j < |calls|
      ensures Allowance(p, calls[i].now, calls[j].now)
              == Gain(perSecond * ShareOf(share, side), burst + (calls[j].now - calls[i].now))
    {
      AllowanceOf(p, burst, calls[i].now, calls[j].now);
    }
  }

  /**
   From full buckets, a side is granted each of its calls if and only if no stretch of them asks for
   more than its own share, whatever the other side does.
   */
  lemma SideIsServedIff(perSecond: real, share: real, burst: real, q: Quota, ts: seq<Try>, side: Side)
    requires perSecond >= 0.0 && 0.0 <= share <= 1.0 && burst >= 0.0
    requires LevelOf(q, side).tokens == SideParams(perSecond, share, burst, side).capacity
    requires InOrder(LevelOf(q, side), CallsOf(ts, side))
    ensures (forall i :: 0 <= i < |AnswersOf(SharesOf(perSecond, share, burst), q, ts, side)| ==>
               AnswersOf(SharesOf(perSecond, share, burst), q, ts, side)[i])
            <==> FitsItsShare(perSecond, share, burst, CallsOf(ts, side), side)
  {
    var calls, p, l := CallsOf(ts, side), SideParams(perSecond, share, burst, side), LevelOf(q, side);
    SidesAreApart(SharesOf(perSecond, share, burst), q, ts, side);
    hide Granted, InOrder, CallsOf, SideParams, AnswersOf, Answers, Asked, Gain, Allowance, Conforms, FitsItsShare;
    SideParamsAre(perSecond, share, burst, side);
    NeverRefusedIff(p, l, calls);
    FitsIsConforms(perSecond, share, burst, p, calls, side);
    var answers := AnswersOf(SharesOf(perSecond, share, burst), q, ts, side);
    assert answers == Answers(p, l, calls) && |answers| == |calls|;
  }
}
