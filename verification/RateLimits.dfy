/**
 The per-client rate limiter: one token bucket a key, in a table that forgets the key unused longest
 when it is full.  What forgetting costs is stated exactly: nothing, to a key that comes back before
 as many other keys as the table holds.
 */
module RateLimits {
  import opened Buckets

  datatype Table = Table(order: seq<string>, levels: map<string, Level>)
  {
    /** Keys in order of last use, oldest first, each once, each with its level. */
    ghost predicate Sound() {
      && (forall i, j :: 0 <= i < j < |order| ==> order[i] != order[j])
      && (forall k :: k in levels <==> k in order)
    }
  }

  datatype Limits = Limits(perMinute: real, burst: real, maxKeys: int)
  {
    function Bucket(): Params {
      Params(perMinute / 60.0, burst)
    }
  }

  /** The coldest keys forgotten until there is room for one more. */
  function Evict(t: Table, maxKeys: int): (r: Table)
    requires t.Sound() && maxKeys >= 1
    ensures r.Sound() && |r.order| < maxKeys
    decreases |t.order|
  {
    if |t.order| < maxKeys then t
    else Evict(Forget(t), maxKeys)
  }

  function Forget(t: Table): (r: Table)
    requires t.Sound() && t.order != []
    ensures r.Sound() && r.order == t.order[1..]
  {
    assert t.order == [t.order[0]] + t.order[1..];
    Table(t.order[1..], t.levels - {t.order[0]})
  }

  function Without(order: seq<string>, key: string): (r: seq<string>)
    ensures forall k :: k in r <==> k in order && k != key
  {
    if order == [] then []
    else
      assert order == [order[0]] + order[1..];
      (if order[0] == key then [] else [order[0]]) + Without(order[1..], key)
  }

  lemma {:induction false} WithoutApart(order: seq<string>, key: string)
    requires forall i, j :: 0 <= i < j < |order| ==> order[i] != order[j]
    ensures var r := Without(order, key); forall i, j :: 0 <= i < j < |r| ==> r[i] != r[j]
    ensures |Without(order, key)| == |order| - if key in order then 1 else 0
  {
    if order != [] {
      WithoutApart(order[1..], key);
      assert order == [order[0]] + order[1..];
      assert order[0] !in order[1..];
    }
  }

  /** The key put last, with its new level. */
  function Touch(t: Table, key: string, l: Level): (r: Table)
    requires t.Sound()
    ensures r.Sound()
  {
    WithoutApart(t.order, key);
    Table(Without(t.order, key) + [key], t.levels[key := l])
  }

  function LevelOf(t: Table, lim: Limits, key: string, now: real): Level {
    if key in t.levels then t.levels[key] else Level(lim.burst, now)
  }

  function Allow(t: Table, lim: Limits, key: string, now: real): (r: (Table, bool))
    requires t.Sound() && lim.maxKeys >= 1
    ensures r.0.Sound()
  {
    var (l, ok) := Take(lim.Bucket(), LevelOf(t, lim, key, now), 1, now);
    (Touch(if key in t.levels then t else Evict(t, lim.maxKeys), key, l), ok)
  }

  // ---- the limiter as it is ----

  class RateLimiter {
    const perMinute: real
    const burst: real
    const maxKeys: int
    var order: seq<string>
    var levels: map<string, Level>

    function Settings(): Limits {
      Limits(perMinute, burst, maxKeys)
    }

    function State(): Table
      reads this
    {
      Table(order, levels)
    }

    ghost predicate Valid()
      reads this
    {
      State().Sound() && maxKeys >= 1
    }

    constructor (perMinute: real, burst: real, maxKeys: int)
      requires maxKeys >= 1
      ensures Valid() && State() == Table([], map[]) && Settings() == Limits(perMinute, burst, maxKeys)
    {
      this.perMinute, this.burst, this.maxKeys := perMinute, burst, maxKeys;
      order, levels := [], map[];
    }

    method Ask(key: string, now: real) returns (ok: bool)
      requires Valid()
      modifies this
      ensures Valid() && (State(), ok) == Allow(old(State()), Settings(), key, now)
    {
      ghost var was := State();
      var l := if key in levels then levels[key] else Level(burst, now);
      assert Gain(perMinute / 60.0, now - l.updated) == (now - l.updated) * perMinute / 60.0;
      hide Gain;
      var tokens := l.tokens + (now - l.updated) * perMinute / 60.0;
      if burst < tokens {
        tokens := burst;
      }
      assert tokens == Available(Settings().Bucket(), LevelOf(was, Settings(), key, now), now);
      if key !in levels {
        while |order| >= maxKeys
          invariant Valid() && Evict(State(), maxKeys) == Evict(was, maxKeys)
          invariant key !in levels
          decreases |order|
        {
          assert Forget(State()) == Table(order[1..], levels - {order[0]});
          order, levels := order[1..], levels - {order[0]};
        }
      }
      WithoutApart(order, key);
      ghost var room := State();
      levels := levels[key := if tokens >= 1.0 then Level(tokens - 1.0, now) else Level(tokens, now)];
      order := Without(order, key) + [key];
      assert State() == Touch(room, key, levels[key]);
      ok := tokens >= 1.0;
    }
  }

  // ---- runs ----

  datatype Ask = Ask(key: string, now: real)

  const FRESH := Table([], map[])

  function TableAfter(lim: Limits, h: seq<Ask>): (t: Table)
    requires lim.maxKeys >= 1
    ensures t.Sound()
  {
    if h == [] then FRESH else Allow(TableAfter(lim, h[..|h| - 1]), lim, h[|h| - 1].key, h[|h| - 1].now).0
  }

  /** What the limiter answered to the calls of one key. */
  function AnswersTo(lim: Limits, h: seq<Ask>, key: string): seq<bool>
    requires lim.maxKeys >= 1
  {
    if h == [] then []
    else
      var init, a := h[..|h| - 1], h[|h| - 1];
      AnswersTo(lim, init, key) + if a.key == key then [Allow(TableAfter(lim, init), lim, key, a.now).1] else []
  }

  /** The calls of one key, as calls on a bucket of its own. */
  function Own(h: seq<Ask>, key: string): seq<Call> {
    if h == [] then []
    else Own(h[..|h| - 1], key) + if h[|h| - 1].key == key then [Call(1, h[|h| - 1].now)] else []
  }

  predicate Asked(h: seq<Ask>, key: string) {
    exists i :: 0 <= i < |h| && h[i].key == key
  }

  /** The other keys that asked since a key's last call. */
  function Others(h: seq<Ask>, key: string): set<string> {
    if h == [] || h[|h| - 1].key == key then {} else Others(h[..|h| - 1], key) + {h[|h| - 1].key}
  }

  /** Each call of a key finds it still in the table: too few others came in between. */
  ghost predicate Steady(h: seq<Ask>, key: string, maxKeys: int) {
    h == [] ||
    (var init, a := h[..|h| - 1], h[|h| - 1];
     Steady(init, key, maxKeys) && (a.key == key && Asked(init, key) ==> |Others(init, key)| < maxKeys))
  }

  // ---- who is remembered ----

  /** The keys behind a key in the order of last use. */
  function Behind(order: seq<string>, key: string): set<string> {
    if order == [] then {}
    else if order[0] == key then (set k | k in order[1..])
    else Behind(order[1..], key)
  }

  lemma {:induction false} BehindAppend(order: seq<string>, key: string, x: string)
    requires key in order && x != key
    ensures Behind(order + [x], key) == Behind(order, key) + {x}
  {
    assert (order + [x])[1..] == order[1..] + [x];
    if order[0] != key {
      assert order == [order[0]] + order[1..];
      BehindAppend(order[1..], key, x);
    }
  }

  lemma {:induction false} BehindWithout(order: seq<string>, key: string, x: string)
    requires key in order && x != key
    ensures Behind(Without(order, x), key) == Behind(order, key) - {x}
  {
    assert order == [order[0]] + order[1..];
    if order[0] == x {
      BehindWithout(order[1..], key, x);
      assert Without(order, x) == Without(order[1..], x);
    } else {
      assert Without(order, x)[1..] == Without(order[1..], x);
      if order[0] != key { BehindWithout(order[1..], key, x); }
    }
  }

  lemma SetOfSeq(s: seq<string>)
    requires forall i, j :: 0 <= i < j < |s| ==> s[i] != s[j]
    ensures |set k | k in s| == |s|
  {
    if s != [] {
      SetOfSeq(s[1..]);
      assert s == [s[0]] + s[1..];
      assert (set k | k in s) == (set k | k in s[1..]) + {s[0]};
    }
  }

  lemma {:induction false} BehindSize(order: seq<string>, key: string)
    requires key in order && forall i, j :: 0 <= i < j < |order| ==> order[i] != order[j]
    ensures |Behind(order, key)| < |order|
    ensures order[0] == key ==> |Behind(order, key)| == |order| - 1
  {
    if order[0] == key {
      SetOfSeq(order[1..]);
    } else {
      assert order == [order[0]] + order[1..];
      BehindSize(order[1..], key);
    }
  }

  /** A key that asked is in the table exactly when fewer others asked since than the table holds. */
  ghost predicate Remembers(t: Table, h: seq<Ask>, key: string, maxKeys: int) {
    && (key in t.order <==> Asked(h, key) && |Others(h, key)| < maxKeys)
    && (key in t.order ==> Behind(t.order, key) == Others(h, key))
  }

  lemma AskedSnoc(h: seq<Ask>, key: string)
    requires h != []
    ensures Asked(h, key) <==> Asked(h[..|h| - 1], key) || h[|h| - 1].key == key
  {
    var init := h[..|h| - 1];
    if Asked(init, key) {
      var i :| 0 <= i < |init| && init[i].key == key;
      assert h[i].key == key;
    }
    if Asked(h, key) && h[|h| - 1].key != key {
      var i :| 0 <= i < |h| && h[i].key == key;
      assert init[i].key == key;
    }
  }

  lemma {:induction false} RemembersTheRecent(lim: Limits, h: seq<Ask>, key: string)
    requires lim.maxKeys >= 1
    ensures Remembers(TableAfter(lim, h), h, key, lim.maxKeys) && |TableAfter(lim, h).order| <= lim.maxKeys
  {
    if h != [] {
      var init, a := h[..|h| - 1], h[|h| - 1];
      RemembersTheRecent(lim, init, key);
      RoomFor(lim, init, a.key);
      TableAfterIs(lim, h);
      if key == a.key {
        OwnCallRemembers(lim, h);
      } else {
        OtherCallRemembers(lim, h, key);
      }
    }
  }

  /** The table with a place free for a key, or with the key in it. */
  function RoomIn(t: Table, maxKeys: int, x: string): (r: Table)
    requires t.Sound() && maxKeys >= 1
    ensures r.Sound()
  {
    if x in t.levels then t else Evict(t, maxKeys)
  }

  lemma TableAfterIs(lim: Limits, h: seq<Ask>)
    requires lim.maxKeys >= 1 && h != []
    ensures var room := RoomIn(TableAfter(lim, h[..|h| - 1]), lim.maxKeys, h[|h| - 1].key);
            TableAfter(lim, h).order == Without(room.order, h[|h| - 1].key) + [h[|h| - 1].key]
  {
    hide Take;
  }

  lemma OwnCallRemembers(lim: Limits, h: seq<Ask>)
    requires lim.maxKeys >= 1 && h != []
    ensures Remembers(TableAfter(lim, h), h, h[|h| - 1].key, lim.maxKeys)
  {
    hide TableAfter, RoomIn, Behind;
    var key := h[|h| - 1].key;
    TableAfterIs(lim, h);
    var room := RoomIn(TableAfter(lim, h[..|h| - 1]), lim.maxKeys, key);
    BehindLast(Without(room.order, key), key);
  }

  lemma OtherCallRemembers(lim: Limits, h: seq<Ask>, key: string)
    requires lim.maxKeys >= 1 && h != [] && h[|h| - 1].key != key
    requires var t := TableAfter(lim, h[..|h| - 1]);
             Remembers(t, h[..|h| - 1], key, lim.maxKeys) && |t.order| <= lim.maxKeys
    requires |TableAfter(lim, h).order| <= lim.maxKeys
    ensures Remembers(TableAfter(lim, h), h, key, lim.maxKeys)
  {
    hide TableAfter, RoomIn, Behind, Without;
    var init, x := h[..|h| - 1], h[|h| - 1].key;
    var room := RoomIn(TableAfter(lim, init), lim.maxKeys, x);
    var order := TableAfter(lim, h).order;
    AskedSnoc(h, key);
    TableAfterIs(lim, h);
    RoomKeeps(lim, init, key, x);
    assert order == Without(room.order, x) + [x];
    assert Others(h, key) == Others(init, key) + {x};
    assert key in order <==> key in room.order;
    if key in room.order {
      BehindWithout(room.order, key, x);
      BehindAppend(Without(room.order, x), key, x);
      BehindSize(order, key);
    }
  }

  lemma {:induction false} BehindLast(order: seq<string>, key: string)
    requires key !in order
    ensures Behind(order + [key], key) == {}
  {
    assert (order + [key])[1..] == if order == [] then [] else order[1..] + [key];
    if order != [] { BehindLast(order[1..], key); }
  }

  /** Making room leaves at most one place less than the table has, unless the key is there already. */
  lemma RoomFor(lim: Limits, h: seq<Ask>, x: string)
    requires lim.maxKeys >= 1 && |TableAfter(lim, h).order| <= lim.maxKeys
    ensures var t := TableAfter(lim, h);
            var room := RoomIn(t, lim.maxKeys, x);
            && |Without(room.order, x)| < lim.maxKeys
            && (room.order == t.order || (x !in t.levels && |t.order| == lim.maxKeys && room.order == t.order[1..]))
  {
    var t := TableAfter(lim, h);
    var room := RoomIn(t, lim.maxKeys, x);
    WithoutApart(room.order, x);
    if x !in t.levels && |t.order| == lim.maxKeys {
      assert Evict(t, lim.maxKeys) == Evict(Forget(t), lim.maxKeys) == Forget(t);
    }
  }

  lemma BehindTail(order: seq<string>, key: string)
    requires order != [] && key != order[0]
    ensures Behind(order[1..], key) == Behind(order, key) && (key in order <==> key in order[1..])
  {
    assert order == [order[0]] + order[1..];
  }

  /** Making room for one key forgets another exactly when that other has run out of time. */
  lemma RoomKeeps(lim: Limits, h: seq<Ask>, key: string, x: string)
    requires lim.maxKeys >= 1 && key != x
    requires Remembers(TableAfter(lim, h), h, key, lim.maxKeys) && |TableAfter(lim, h).order| <= lim.maxKeys
    ensures var t := TableAfter(lim, h);
            var room := RoomIn(t, lim.maxKeys, x);
            && (key in room.order ==> key in t.order && Behind(room.order, key) == Others(h, key))
            && (key !in room.order && Asked(h, key) ==> |Others(h, key) + {x}| >= lim.maxKeys)
  {
    hide TableAfter, RoomIn, Without, Behind, Others, Asked;
    var t := TableAfter(lim, h);
    RoomFor(lim, h, x);
    var room := RoomIn(t, lim.maxKeys, x);
    if room.order != t.order {
      if key != t.order[0] {
        BehindTail(t.order, key);
      } else {
        BehindSize(t.order, key);
        BehindIn(t.order, key, x);
        assert |Others(h, key) + {x}| == |Others(h, key)| + 1;
      }
    }
    if key !in t.order && Asked(h, key) {
      Grows(Others(h, key), x);
    }
  }

  lemma Grows(s: set<string>, x: string)
    ensures |s + {x}| >= |s|
  {
    if x in s { assert s + {x} == s; }
  }

  lemma BehindIn(order: seq<string>, key: string, x: string)
    ensures x in Behind(order, key) ==> x in order
  {
    if order != [] && order[0] != key { BehindIn(order[1..], key, x); }
  }

  /** The table never grows past its bound. */
  lemma TableIsBounded(lim: Limits, h: seq<Ask>)
    requires lim.maxKeys >= 1
    ensures |TableAfter(lim, h).levels| <= lim.maxKeys
  {
    RemembersTheRecent(lim, h, "");
    var t := TableAfter(lim, h);
    SetOfSeq(t.order);
    assert t.levels.Keys == set k | k in t.order;
  }

  // ---- refinement ----

  /** The level of a key's own bucket, which is full at its first call. */
  function Ideal(lim: Limits, calls: seq<Call>): Level {
    if calls == [] then Level(lim.burst, 0.0) else After(lim.Bucket(), Level(lim.burst, calls[0].now), calls)
  }

  /** What a bucket of the key's own would answer. */
  function IdealAnswers(lim: Limits, calls: seq<Call>): seq<bool> {
    if calls == [] then [] else Answers(lim.Bucket(), Level(lim.burst, calls[0].now), calls)
  }

  lemma {:induction false} OwnIffAsked(h: seq<Ask>, key: string)
    ensures Own(h, key) == [] <==> !Asked(h, key)
  {
    if h != [] {
      OwnIffAsked(h[..|h| - 1], key);
      AskedSnoc(h, key);
    }
  }

  lemma IdealSnoc(lim: Limits, calls: seq<Call>, now: real)
    ensures var start := if calls == [] then Level(lim.burst, now) else Ideal(lim, calls);
            && Ideal(lim, calls + [Call(1, now)]) == Take(lim.Bucket(), start, 1, now).0
            && IdealAnswers(lim, calls + [Call(1, now)]) == IdealAnswers(lim, calls) + [Take(lim.Bucket(), start, 1, now).1]
  {
    var first := if calls == [] then now else calls[0].now;
    AfterSnoc(lim.Bucket(), Level(lim.burst, first), calls, Call(1, now));
  }

  lemma {:induction false} EvictKeepsLevels(t: Table, maxKeys: int, key: string)
    requires t.Sound() && maxKeys >= 1
    ensures var r := Evict(t, maxKeys); key in r.levels ==> key in t.levels && r.levels[key] == t.levels[key]
    decreases |t.order|
  {
    if |t.order| >= maxKeys { EvictKeepsLevels(Forget(t), maxKeys, key); }
  }

  /** One call of another key: a level that is still there has not changed. */
  lemma OtherKeepsLevel(t: Table, lim: Limits, other: string, now: real, key: string)
    requires t.Sound() && lim.maxKeys >= 1 && other != key
    ensures var r := Allow(t, lim, other, now).0; key in r.levels ==> key in t.levels && r.levels[key] == t.levels[key]
  {
    EvictKeepsLevels(t, lim.maxKeys, key);
  }

  /** For a steady key the table holds the level of a bucket of its own, and answers alike. */
  lemma {:induction false} RefinesOwnBucket(lim: Limits, h: seq<Ask>, key: string)
    requires lim.maxKeys >= 1 && Steady(h, key, lim.maxKeys)
    ensures var t := TableAfter(lim, h); key in t.levels ==> t.levels[key] == Ideal(lim, Own(h, key))
    ensures AnswersTo(lim, h, key) == IdealAnswers(lim, Own(h, key))
  {
    if h != [] {
      var init, a := h[..|h| - 1], h[|h| - 1];
      var t := TableAfter(lim, init);
      RefinesOwnBucket(lim, init, key);
      if a.key == key {
        RemembersTheRecent(lim, init, key);
        OwnIffAsked(init, key);
        IdealSnoc(lim, Own(init, key), a.now);
        assert LevelOf(t, lim, key, a.now)
            == if Own(init, key) == [] then Level(lim.burst, a.now) else Ideal(lim, Own(init, key));
      } else {
        OtherKeepsLevel(t, lim, a.key, a.now, key);
        assert Own(h, key) == Own(init, key);
      }
    }
  }

  ghost predicate ClockForward(h: seq<Ask>) {
    forall i, j :: 0 <= i < j < |h| ==> h[i].now <= h[j].now
  }

  /** Calls for one each, in order, none after `until`. */
  ghost predicate OnesUntil(c: seq<Call>, until: real) {
    && (forall i, j :: 0 <= i < j < |c| ==> c[i].now <= c[j].now)
    && (forall i :: 0 <= i < |c| ==> c[i].n == 1 && c[i].now <= until)
  }

  lemma OneMore(c: seq<Call>, until: real, now: real)
    requires OnesUntil(c, until) && until <= now
    ensures OnesUntil(c, now) && OnesUntil(c + [Call(1, now)], now)
  {
  }

  lemma {:induction false} OwnOnes(h: seq<Ask>, key: string)
    requires ClockForward(h) && h != []
    ensures OnesUntil(Own(h, key), h[|h| - 1].now)
  {
    hide OnesUntil;
    var init, last := h[..|h| - 1], h[|h| - 1];
    if init == [] {
      FirstOne(last);
      var none: seq<Call> := [];
      assert Own(init, key) == none && none + none == none && none + [Call(1, last.now)] == [Call(1, last.now)];
      assert Own(h, key) == none + if last.key == key then [Call(1, last.now)] else none;
    } else {
      assert init[|init| - 1] == h[|h| - 2];
      OwnOnes(init, key);
      OneMore(Own(init, key), init[|init| - 1].now, last.now);
      assert Own(init, key) + [] == Own(init, key);
    }
  }

  lemma FirstOne(a: Ask)
    ensures OnesUntil([], a.now) && OnesUntil([Call(1, a.now)], a.now)
  {
  }

  lemma OwnInOrder(h: seq<Ask>, key: string)
    requires ClockForward(h)
    ensures var c := Own(h, key); forall i, j :: 0 <= i < j < |c| ==> c[i].now <= c[j].now
    ensures var c := Own(h, key); forall i :: 0 <= i < |c| ==> c[i].n == 1 && h != [] && c[i].now <= h[|h| - 1].now
  {
    if h != [] { OwnOnes(h, key); }
  }

  function Count(answers: seq<bool>): nat {
    if answers == [] then 0 else Count(answers[..|answers| - 1]) + if answers[|answers| - 1] then 1 else 0
  }

  lemma {:induction false} GrantedIsCount(p: Params, l: Level, calls: seq<Call>)
    requires forall i :: 0 <= i < |calls| ==> calls[i].n == 1
    ensures Granted(p, l, calls) == Count(Answers(p, l, calls))
  {
    if calls != [] {
      var init := calls[..|calls| - 1];
      GrantedIsCount(p, l, init);
      assert Answers(p, l, calls)[..|init|] == Answers(p, l, init);
    }
  }

  lemma {:induction false} AnswersPrefix(p: Params, l: Level, calls: seq<Call>, i: nat)
    requires i <= |calls|
    ensures Answers(p, l, calls)[..i] == Answers(p, l, calls[..i])
  {
    if i < |calls| {
      var init := calls[..|calls| - 1];
      AnswersPrefix(p, l, init, i);
      assert init[..i] == calls[..i];
      assert Answers(p, l, calls)[..i] == Answers(p, l, init)[..i];
    } else {
      assert calls[..i] == calls;
    }
  }

  lemma StartsInOrder(l: Level, calls: seq<Call>)
    requires calls != [] && l.updated == calls[0].now
    requires forall i, j :: 0 <= i < j < |calls| ==> calls[i].now <= calls[j].now
    ensures InOrder(l, calls)
  {
  }

  lemma OwnBucketIsLimited(p: Params, l: Level, calls: seq<Call>, i: nat, j: nat)
    requires p.Sane() && l.tokens >= 0.0 && i < j <= |calls| && l.updated == calls[0].now
    requires forall i, j :: 0 <= i < j < |calls| ==> calls[i].now <= calls[j].now
    requires forall i :: 0 <= i < |calls| ==> calls[i].n == 1
    ensures Count(Answers(p, l, calls)[..j]) as real - Count(Answers(p, l, calls)[..i]) as real
         <= Allowance(p, calls[i].now, calls[j - 1].now)
  {
    hide Answers, Granted, Count, InOrder;
    StartsInOrder(l, calls);
    GrantsAreBounded(p, l, calls, i, j);
    AnswersPrefix(p, l, calls, i);
    AnswersPrefix(p, l, calls, j);
    GrantedIsCount(p, l, calls[..i]);
    GrantedIsCount(p, l, calls[..j]);
  }

  lemma BucketIsSane(lim: Limits)
    requires lim.perMinute >= 0.0 && lim.burst >= 0.0
    ensures lim.Bucket().Sane() && lim.Bucket().capacity == lim.burst
  {
  }

  /** A steady key is let through, from its call `i` up to its call `j`, at most the burst and the rate's worth. */
  lemma SteadyKeyIsLimited(lim: Limits, h: seq<Ask>, key: string, i: nat, j: nat)
    requires lim.maxKeys >= 1 && lim.perMinute >= 0.0 && lim.burst >= 0.0
    requires ClockForward(h) && Steady(h, key, lim.maxKeys) && i < j <= |Own(h, key)|
    ensures |AnswersTo(lim, h, key)| == |Own(h, key)|
    ensures Count(AnswersTo(lim, h, key)[..j]) as real - Count(AnswersTo(lim, h, key)[..i]) as real
         <= Allowance(lim.Bucket(), Own(h, key)[i].now, Own(h, key)[j - 1].now)
  {
    hide Answers, Steady, Own, AnswersTo, Count, Limits.Bucket, Allowance;
    var calls := Own(h, key);
    RefinesOwnBucket(lim, h, key);
    OwnInOrder(h, key);
    var p := lim.Bucket();
    BucketIsSane(lim);
    assert AnswersTo(lim, h, key) == Answers(p, Level(lim.burst, calls[0].now), calls);
    OwnBucketIsLimited(p, Level(lim.burst, calls[0].now), calls, i, j);
  }
}
