/** Token buckets, over the reals: what a bucket can grant in any stretch of time. */
module Buckets {

  datatype Params = Params(rate: real, capacity: real)
  {
    predicate Sane() {
      rate >= 0.0 && capacity >= 0.0
    }
  }

  datatype Level = Level(tokens: real, updated: real)

  /** What a rate brings in over some time. */
  function Gain(rate: real, elapsed: real): real {
    elapsed * rate
  }

  lemma GainIs(rate: real, a: real, b: real)
    ensures Gain(rate, a) + Gain(rate, b) == Gain(rate, a + b) && Gain(rate, 0.0) == 0.0
    ensures rate >= 0.0 && a >= 0.0 ==> Gain(rate, a) >= 0.0
  {
  }

  /** Tokens there are at `now`: what was left, refilled at the rate, never above the capacity. */
  function Available(p: Params, l: Level, now: real): real {
    var t := l.tokens + Gain(p.rate, now - l.updated);
    if p.capacity < t then p.capacity else t
  }

  function Take(p: Params, l: Level, n: int, now: real): (Level, bool) {
    var t := Available(p, l, now);
    if t >= n as real then (Level(t - n as real, now), true) else (Level(t, now), false)
  }

  datatype Call = Call(n: nat, now: real)

  /** The level after some calls, from a first level. */
  function After(p: Params, l: Level, calls: seq<Call>): Level {
    if calls == [] then l
    else Take(p, After(p, l, calls[..|calls| - 1]), calls[|calls| - 1].n, calls[|calls| - 1].now).0
  }

  function Answers(p: Params, l: Level, calls: seq<Call>): (r: seq<bool>)
    ensures |r| == |calls|
  {
    if calls == [] then []
    else
      var init, c := calls[..|calls| - 1], calls[|calls| - 1];
      Answers(p, l, init) + [Take(p, After(p, l, init), c.n, c.now).1]
  }

  /** Tokens granted by some calls. */
  function Granted(p: Params, l: Level, calls: seq<Call>): nat {
    if calls == [] then 0
    else
      var init, c := calls[..|calls| - 1], calls[|calls| - 1];
      Granted(p, l, init) + if Take(p, After(p, l, init), c.n, c.now).1 then c.n else 0
  }

  /** The clock never goes back. */
  ghost predicate InOrder(l: Level, calls: seq<Call>) {
    && (forall i :: 0 <= i < |calls| ==> l.updated <= calls[i].now)
    && (forall i, j :: 0 <= i < j < |calls| ==> calls[i].now <= calls[j].now)
  }

  /** One call: what is granted and what is left was there or has come in, and fits the bucket. */
  lemma TakeIs(p: Params, l: Level, n: nat, now: real)
    ensures var (after, ok) := Take(p, l, n, now);
            var spent := if ok then n as real else 0.0;
            && after.updated == now
            && after.tokens + spent <= p.capacity
            && after.tokens + spent <= l.tokens + Gain(p.rate, now - l.updated)
    ensures p.Sane() && l.tokens >= 0.0 && now >= l.updated ==> Take(p, l, n, now).0.tokens >= 0.0
  {
    GainIs(p.rate, now - l.updated, 0.0);
    hide Gain;
  }

  lemma {:induction false} NeverNegative(p: Params, l: Level, calls: seq<Call>)
    requires p.Sane() && l.tokens >= 0.0 && InOrder(l, calls)
    ensures After(p, l, calls).tokens >= 0.0
    ensures After(p, l, calls).updated == if calls == [] then l.updated else calls[|calls| - 1].now
  {
    hide Take;
    if calls != [] {
      var init, c := calls[..|calls| - 1], calls[|calls| - 1];
      NeverNegative(p, l, init);
      TakeIs(p, After(p, l, init), c.n, c.now);
    }
  }

  /** What the calls from `i` up to `j` spent, and what is left, was there or came in since. */
  lemma {:induction false} Conserved(p: Params, l: Level, calls: seq<Call>, i: nat, j: nat)
    requires p.Sane() && l.tokens >= 0.0 && InOrder(l, calls) && i < j <= |calls|
    ensures Granted(p, l, calls[..j]) as real - Granted(p, l, calls[..i]) as real + After(p, l, calls[..j]).tokens
         <= p.capacity + Gain(p.rate, calls[j - 1].now - calls[i].now)
    decreases j
  {
    hide Take, InOrder, Gain;
    var c := calls[j - 1];
    assert calls[..j][..j - 1] == calls[..j - 1] && calls[..j][j - 1] == c;
    TakeIs(p, After(p, l, calls[..j - 1]), c.n, c.now);
    if j == i + 1 {
      GainIs(p.rate, 0.0, 0.0);
    } else {
      Conserved(p, l, calls, i, j - 1);
      PrefixInOrder(l, calls, j - 1);
      NeverNegative(p, l, calls[..j - 1]);
      assert calls[..j - 1][j - 2] == calls[j - 2];
      GainIs(p.rate, calls[j - 2].now - calls[i].now, c.now - calls[j - 2].now);
    }
  }

  lemma PrefixInOrder(l: Level, calls: seq<Call>, j: nat)
    requires InOrder(l, calls) && j <= |calls|
    ensures InOrder(l, calls[..j])
  {
  }

  /** The capacity, and what the rate brings in over a stretch of time. */
  function Allowance(p: Params, from: real, to: real): real {
    p.capacity + Gain(p.rate, to - from)
  }

  /** In any window a bucket grants at most its capacity and what the rate brings in. */
  lemma GrantsAreBounded(p: Params, l: Level, calls: seq<Call>, i: nat, j: nat)
    requires p.Sane() && l.tokens >= 0.0 && InOrder(l, calls) && i < j <= |calls|
    ensures Granted(p, l, calls[..j]) as real - Granted(p, l, calls[..i]) as real
         <= Allowance(p, calls[i].now, calls[j - 1].now)
  {
    hide Granted, After, InOrder, Gain;
    Conserved(p, l, calls, i, j);
    PrefixInOrder(l, calls, j);
    NeverNegative(p, l, calls[..j]);
  }

  // ---- which callers are never refused ----

  /** What calls `i` up to `j` ask for. */
  function Asked(calls: seq<Call>, i: nat, j: nat): nat
    requires i <= j <= |calls|
  {
    if i == j then 0 else Asked(calls, i, j - 1) + calls[j - 1].n
  }

  /** No stretch of calls asks for more than the capacity and what comes in meanwhile. */
  ghost predicate Conforms(p: Params, calls: seq<Call>) {
    forall i, j :: 0 <= i <= j < |calls| ==> Asked(calls, i, j + 1) as real <= Allowance(p, calls[i].now, calls[j].now)
  }

  ghost predicate AllGranted(p: Params, l: Level, calls: seq<Call>) {
    forall k :: 0 <= k < |calls| ==> Answers(p, l, calls)[k]
  }

  lemma {:induction false} AnswersPrefix(p: Params, l: Level, calls: seq<Call>, j: nat)
    requires j < |calls|
    ensures Answers(p, l, calls)[j] == Take(p, After(p, l, calls[..j]), calls[j].n, calls[j].now).1
  {
    hide Take;
    if j < |calls| - 1 {
      var init := calls[..|calls| - 1];
      AnswersPrefix(p, l, init, j);
      assert init[..j] == calls[..j];
    }
  }

  /** What there is at a call, all calls before it granted: the capacity, less what some stretch of them has drained. */
  lemma {:induction false} AvailableIs(p: Params, l: Level, calls: seq<Call>, j: nat) returns (i: nat)
    requires p.Sane() && l.tokens == p.capacity && InOrder(l, calls) && j < |calls|
    requires forall k :: 0 <= k < j ==> Answers(p, l, calls)[k]
    ensures i <= j
    ensures Available(p, After(p, l, calls[..j]), calls[j].now)
            == Allowance(p, calls[i].now, calls[j].now) - Asked(calls, i, j) as real
  {
    hide Gain, InOrder, Answers;
    GainIs(p.rate, 0.0, 0.0);
    var before := After(p, l, calls[..j]);
    if j == 0 {
      i := 0;
      FullStays(p, l, calls);
      assert calls[..0] == [];
    } else {
      var was := calls[j - 1];
      AnswersPrefix(p, l, calls, j - 1);
      assert calls[..j][..j - 1] == calls[..j - 1];
      assert before.tokens == Available(p, After(p, l, calls[..j - 1]), was.now) - was.n as real && before.updated == was.now;
      if p.capacity < before.tokens + Gain(p.rate, calls[j].now - was.now) {
        i := j;
        assert calls[j].now - calls[j].now == 0.0;
      } else {
        i := AvailableIs(p, l, calls, j - 1);
        GainIs(p.rate, was.now - calls[i].now, calls[j].now - was.now);
        assert was.now - calls[i].now + (calls[j].now - was.now) == calls[j].now - calls[i].now;
      }
    }
  }

  /** A full bucket is still full at the first call. */
  lemma FullStays(p: Params, l: Level, calls: seq<Call>)
    requires p.Sane() && l.tokens == p.capacity && InOrder(l, calls) && calls != []
    ensures Available(p, l, calls[0].now) == p.capacity
  {
    GainIs(p.rate, calls[0].now - l.updated, 0.0);
  }

  lemma {:induction false} ConformingIsGranted(p: Params, l: Level, calls: seq<Call>, j: nat)
    requires p.Sane() && l.tokens == p.capacity && InOrder(l, calls) && Conforms(p, calls) && j < |calls|
    ensures Answers(p, l, calls)[j]
    decreases j
  {
    hide Gain, InOrder, Answers, After;
    forall k | 0 <= k < j ensures Answers(p, l, calls)[k] { ConformingIsGranted(p, l, calls, k); }
    var i := AvailableIs(p, l, calls, j);
    assert Asked(calls, i, j + 1) as real <= Allowance(p, calls[i].now, calls[j].now);
    AnswersPrefix(p, l, calls, j);
  }

  lemma {:induction false} GrantedIsAsked(p: Params, l: Level, calls: seq<Call>, i: nat, j: nat)
    requires i <= j <= |calls| && AllGranted(p, l, calls)
    ensures Granted(p, l, calls[..j]) - Granted(p, l, calls[..i]) == Asked(calls, i, j)
    decreases j - i
  {
    hide Take, After;
    if i < j {
      GrantedIsAsked(p, l, calls, i, j - 1);
      AnswersPrefix(p, l, calls, j - 1);
      assert calls[..j][..j - 1] == calls[..j - 1] && calls[..j][j - 1] == calls[j - 1];
    }
  }

  /**
   A bucket that starts full grants every call of a run if and only if no stretch of the run asks for
   more than the capacity and what the rate brings in over it.
   */
  lemma NeverRefusedIff(p: Params, l: Level, calls: seq<Call>)
    requires p.Sane() && l.tokens == p.capacity && InOrder(l, calls)
    ensures AllGranted(p, l, calls) <==> Conforms(p, calls)
  {
    hide Answers, Asked, Allowance, InOrder, Granted;
    if Conforms(p, calls) {
      forall j | 0 <= j < |calls| ensures Answers(p, l, calls)[j] { ConformingIsGranted(p, l, calls, j); }
    }
    if AllGranted(p, l, calls) {
      forall i, j | 0 <= i <= j < |calls| ensures Asked(calls, i, j + 1) as real <= Allowance(p, calls[i].now, calls[j].now) {
        GrantedIsAsked(p, l, calls, i, j + 1);
        GrantsAreBounded(p, l, calls, i, j + 1);
      }
    }
  }

  lemma AfterSnoc(p: Params, l: Level, calls: seq<Call>, c: Call)
    ensures After(p, l, calls + [c]) == Take(p, After(p, l, calls), c.n, c.now).0
    ensures Answers(p, l, calls + [c]) == Answers(p, l, calls) + [Take(p, After(p, l, calls), c.n, c.now).1]
  {
    assert (calls + [c])[..|calls|] == calls;
  }
}
