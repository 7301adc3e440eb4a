/**
 What the limiter promises over whole runs.  Everything rests on one number
 per IP, its level: the tokens its bucket would hold if refilled right now,
 where an IP without a bucket counts as full.
 */
module LimiterTheorems {
  import opened TokenBuckets

  ghost function Level(l: Limits, m: Buckets, ip: string, t: real): real {
    if ip in m then Refill(l, m[ip], t) else l.burst as real
  }

  // ---- The one product in the model ----

  lemma EarnedMono(l: Limits, d: real, e: real)
    requires 0.0 <= l.rate && d <= e
    ensures Earned(l, d) <= Earned(l, e)
    ensures 0.0 <= d ==> 0.0 <= Earned(l, d)
  {
  }

  lemma EarnedAdds(l: Limits, d: real, e: real)
    ensures Earned(l, d + e) == Earned(l, d) + Earned(l, e)
    ensures Earned(l, 0.0) == 0.0
  {
  }

  /** What every state of a run satisfies at the current time. */
  ghost predicate Settled(m: Buckets, t: real) {
    forall ip :: ip in m ==> m[ip].lastFill == m[ip].lastUsed <= t
  }

  ghost predicate Solvent(m: Buckets) {
    forall ip :: ip in m ==> 0.0 <= m[ip].tokens
  }

  lemma SettledNext(l: Limits, m: Buckets, t: real, e: Event)
    requires Settled(m, t) && Ordered(t, [e])
    ensures Settled(Next(l, m, e), e.now)
  {
  }

  lemma {:induction false} SettledAfter(l: Limits, m: Buckets, t: real, events: seq<Event>)
    requires Settled(m, t) && Ordered(t, events)
    ensures Settled(After(l, m, events), LastTime(t, events))
    decreases |events|
  {
    hide Earned;
    if events != [] {
      SettledNext(l, m, t, events[0]);
      SettledAfter(l, Next(l, m, events[0]), events[0].now, events[1..]);
    }
  }

  lemma SolventNext(l: Limits, m: Buckets, t: real, e: Event)
    requires Settled(m, t) && Solvent(m) && Ordered(t, [e]) && 0.0 <= l.rate && 0 <= l.burst
    ensures Solvent(Next(l, m, e))
  {
    hide Earned;
    if e.Call? {
      var b := if e.ip in m then m[e.ip] else Bucket(l.burst as real, e.created, e.created);
      EarnedMono(l, 0.0, e.now - b.lastFill);
      assert 0.0 <= Refill(l, b, e.now);
    }
  }

  lemma {:induction false} SolventAfter(l: Limits, m: Buckets, t: real, events: seq<Event>)
    requires Settled(m, t) && Solvent(m) && Ordered(t, events) && 0.0 <= l.rate && 0 <= l.burst
    ensures Solvent(After(l, m, events))
    decreases |events|
  {
    hide Earned;
    if events != [] {
      SettledNext(l, m, t, events[0]);
      SolventNext(l, m, t, events[0]);
      SolventAfter(l, Next(l, m, events[0]), events[0].now, events[1..]);
    }
  }

  /** Between events a level rises at the configured rate up to the burst. */
  lemma LevelRises(l: Limits, m: Buckets, ip: string, t: real, u: real)
    requires 0.0 <= l.rate && t <= u
    ensures Level(l, m, ip, u) == Min(l.burst as real, Level(l, m, ip, t) + Earned(l, u - t))
  {
    hide Earned;
    EarnedMono(l, 0.0, u - t);
    if ip in m {
      var f := m[ip].lastFill;
      EarnedAdds(l, t - f, u - t);
      assert (t - f) + (u - t) == u - f;
    }
  }

  /** A call's answer depends on its level alone, and only admission lowers it. */
  lemma CallSpends(l: Limits, m: Buckets, t: real, e: Event, ip: string)
    requires 0.0 <= l.rate && e.Call? && Ordered(t, [e])
    ensures Admits(l, m, ip, e) <==> ip == e.ip && 1.0 <= Level(l, m, ip, e.now)
    ensures var level := Level(l, m, e.ip, e.now);
            && Reply(l, m, e) == [if level < 1.0 then REFUSED else Answer(true, (level - 1.0).Floor)]
            && Level(l, Next(l, m, e), e.ip, e.now) == if level < 1.0 then level else level - 1.0
    ensures ip != e.ip ==> Level(l, Next(l, m, e), ip, e.now) == Level(l, m, ip, e.now)
  {
    hide Earned;
    EarnedMono(l, 0.0, e.now - e.created);
    EarnedAdds(l, 0.0, 0.0);
  }

  /** Sweeping never lowers a level. */
  lemma SweepRaises(l: Limits, m: Buckets, now: real, ip: string)
    ensures Level(l, m, ip, now) <= Level(l, Evict(l, m, now), ip, now)
  {
    hide Earned;
  }

  /** An idle bucket is full again before it can be forgotten. */
  ghost predicate RefillsBeforeEviction(l: Limits) {
    0.0 <= l.rate && 0 <= l.burst && l.burst as real <= Earned(l, l.maxAge)
  }

  /** If idle buckets are always full, sweeping changes no level. */
  lemma SweepKeepsLevel(l: Limits, m: Buckets, now: real, ip: string)
    requires Settled(m, now) && Solvent(m) && RefillsBeforeEviction(l)
    ensures Level(l, Evict(l, m, now), ip, now) == Level(l, m, ip, now)
  {
    hide Earned;
    if ip in m && m[ip].lastUsed < now - l.maxAge {
      var b := m[ip];
      EarnedMono(l, l.maxAge, now - b.lastFill);
      assert Refill(l, b, now) == l.burst as real;
      assert ip !in Evict(l, m, now);
    }
  }

  ghost predicate SameLevels(l: Limits, m: Buckets, n: Buckets, t: real) {
    forall ip :: Level(l, m, ip, t) == Level(l, n, ip, t)
  }

  lemma SameLevelsLater(l: Limits, m: Buckets, n: Buckets, t: real, u: real)
    requires 0.0 <= l.rate && t <= u && SameLevels(l, m, n, t)
    ensures SameLevels(l, m, n, u)
  {
    hide Earned;
    forall ip ensures Level(l, m, ip, u) == Level(l, n, ip, u) {
      LevelRises(l, m, ip, t, u);
      LevelRises(l, n, ip, t, u);
    }
  }

  lemma SameLevelsCall(l: Limits, m: Buckets, n: Buckets, t: real, e: Event)
    requires 0.0 <= l.rate && e.Call? && Ordered(t, [e]) && SameLevels(l, m, n, t)
    ensures Reply(l, m, e) == Reply(l, n, e)
    ensures SameLevels(l, Next(l, m, e), Next(l, n, e), e.now)
  {
    hide Earned;
    SameLevelsLater(l, m, n, t, e.now);
    forall ip ensures Level(l, Next(l, m, e), ip, e.now) == Level(l, Next(l, n, e), ip, e.now) {
      CallSpends(l, m, t, e, ip);
      CallSpends(l, n, t, e, ip);
    }
    CallSpends(l, m, t, e, e.ip);
    CallSpends(l, n, t, e, e.ip);
  }

  lemma SameLevelsSweep(l: Limits, m: Buckets, now: real)
    requires RefillsBeforeEviction(l) && Settled(m, now) && Solvent(m)
    ensures SameLevels(l, Evict(l, m, now), m, now)
  {
    forall ip ensures Level(l, Evict(l, m, now), ip, now) == Level(l, m, ip, now) {
      SweepKeepsLevel(l, m, now, ip);
    }
  }

  /** Bisimulation: a swept state and an unswept one at the same levels answer alike for ever. */
  lemma {:induction false} SweptRunAgrees(l: Limits, m: Buckets, n: Buckets, t: real, events: seq<Event>)
    requires RefillsBeforeEviction(l)
    requires Settled(m, t) && Solvent(m) && SameLevels(l, m, n, t) && Ordered(t, events)
    ensures Run(l, m, events) == Run(l, n, WithoutSweeps(events))
    decreases |events|
  {
    hide Earned;
    if events != [] {
      var e, rest := events[0], WithoutSweeps(events[1..]);
      var m' := Next(l, m, e);
      SettledNext(l, m, t, e);
      SolventNext(l, m, t, e);
      if e.Call? {
        SameLevelsCall(l, m, n, t, e);
        SweptRunAgrees(l, m', Next(l, n, e), e.now, events[1..]);
        assert WithoutSweeps(events) == [e] + rest;
        assert ([e] + rest)[0] == e && ([e] + rest)[1..] == rest;
      } else {
        SameLevelsLater(l, m, n, t, e.now);
        SameLevelsSweep(l, m, e.now);
        SweptRunAgrees(l, m', n, e.now, events[1..]);
        assert WithoutSweeps(events) == rest;
      }
    }
  }

  /** With a burst below one token nobody is ever admitted, swept or not. */
  lemma {:induction false} NothingAdmitted(l: Limits, m: Buckets, events: seq<Event>)
    requires l.burst < 1
    ensures Run(l, m, events) == Run(l, map[], WithoutSweeps(events))
    ensures forall a :: a in Run(l, m, events) ==> a == REFUSED
  {
    hide Earned;
    RefusedThroughout(l, m, events);
    RefusedThroughout(l, map[], WithoutSweeps(events));
    SameNumberOfCalls(events);
  }

  ghost function Calls(events: seq<Event>): nat {
    if events == [] then 0 else (if events[0].Call? then 1 else 0) + Calls(events[1..])
  }

  lemma {:induction false} SameNumberOfCalls(events: seq<Event>)
    ensures Calls(WithoutSweeps(events)) == Calls(events)
  {
    if events != [] {
      SameNumberOfCalls(events[1..]);
      if events[0].Call? {
        var w := WithoutSweeps(events);
        assert w[1..] == WithoutSweeps(events[1..]);
      } else {
        assert WithoutSweeps(events) == WithoutSweeps(events[1..]);
      }
    }
  }

  lemma {:induction false} RefusedThroughout(l: Limits, m: Buckets, events: seq<Event>)
    requires l.burst < 1
    ensures Run(l, m, events) == seq(Calls(events), i => REFUSED)
    decreases |events|
  {
    hide Earned;
    if events != [] {
      RefusedThroughout(l, Next(l, m, events[0]), events[1..]);
    }
  }

  // ---- Eviction ----

  ghost predicate EvictionInvisible(l: Limits) {
    forall t: real, events :: Ordered(t, events) ==> Run(l, map[], events) == Run(l, map[], WithoutSweeps(events))
  }

  /** k calls of one IP at one instant. */
  ghost function Volley(ip: string, k: nat, t: real): (es: seq<Event>)
    ensures |es| == k && Ordered(t, es) && WithoutSweeps(es) == es
    ensures LastTime(t, es) == t
  {
    if k == 0 then [] else
    var rest := Volley(ip, k - 1, t);
    var es := [Call(ip, t, t)] + rest;
    assert es[1..] == rest;
    es
  }

  /** Whether ip's bucket, if any, was last filled at t. */
  ghost predicate Fresh(m: Buckets, ip: string, t: real) {
    ip in m ==> m[ip] == Bucket(m[ip].tokens, t, t)
  }

  lemma CallAtOnce(l: Limits, m: Buckets, ip: string, t: real)
    requires Fresh(m, ip, t) && Level(l, m, ip, t) >= 1.0
    ensures var e := Call(ip, t, t);
            && Next(l, m, e) == m[ip := Bucket(Level(l, m, ip, t) - 1.0, t, t)]
            && Level(l, Next(l, m, e), ip, t) == Level(l, m, ip, t) - 1.0
            && Admits(l, m, ip, e)
  {
    hide Earned;
    EarnedAdds(l, 0.0, 0.0);
  }

  /** A volley drains a level of k or more by k. */
  lemma {:induction false} VolleyDrains(l: Limits, m: Buckets, ip: string, k: nat, t: real)
    requires Fresh(m, ip, t) && Level(l, m, ip, t) >= k as real
    ensures var n := After(l, m, Volley(ip, k, t));
            n == if k == 0 then m else m[ip := Bucket(Level(l, m, ip, t) - k as real, t, t)]
    ensures Served(l, m, ip, Volley(ip, k, t)) == k
    decreases k
  {
    hide Earned;
    if k > 0 {
      var e := Call(ip, t, t);
      var es := Volley(ip, k, t);
      assert es[0] == e && es[1..] == Volley(ip, k - 1, t);
      CallAtOnce(l, m, ip, t);
      var left := Level(l, m, ip, t) - k as real;
      var m' := Next(l, m, e);
      VolleyDrains(l, m', ip, k - 1, t);
      assert m'[ip := Bucket(left, t, t)] == m[ip := Bucket(left, t, t)];
    }
  }

  /** An instant just past the idle age at which a drained bucket is still not full. */
  ghost function PastIdle(l: Limits): (t: real)
    requires 1 <= l.burst && Earned(l, l.maxAge) < l.burst as real && 0.0 <= l.maxAge
    ensures l.maxAge < t && Earned(l, t) < l.burst as real
    ensures Earned(l, t - l.maxAge) < 1.0
  {
    if l.rate <= 0.0 then
      EarnedAdds(l, l.maxAge, 1.0);
      assert (l.maxAge + 1.0) - l.maxAge == 1.0;
      l.maxAge + 1.0
    else
      var room := Min(1.0, l.burst as real - Earned(l, l.maxAge));
      var gap := room / (2.0 * l.rate);
      assert Earned(l, gap) == room / 2.0;
      EarnedAdds(l, l.maxAge, gap);
      assert (l.maxAge + gap) - l.maxAge == gap;
      l.maxAge + gap
  }

  /** A drained bucket idling past the idle age: the sweep fills it, waiting does not. */
  lemma SweepForgets(l: Limits, m: Buckets, ip: string, t: real)
    requires m == map[ip := Bucket(0.0, 0.0, 0.0)] && l.maxAge < t
    requires 1 <= l.burst && Earned(l, t) < l.burst as real
    ensures Run(l, m, [Sweep(t), Call(ip, t, t)]) == [Answer(true, l.burst - 1)]
    ensures Run(l, m, [Call(ip, t, t)]) != [Answer(true, l.burst - 1)]
  {
    hide Earned;
    var last := Call(ip, t, t);
    EarnedAdds(l, 0.0, 0.0);
    assert t - t == 0.0 && Evict(l, m, t) == map[];
    assert [Sweep(t), last][1..] == [last];
    RunOne(l, map[], last);
    RunOne(l, m, last);
    assert (l.burst as real - 1.0).Floor == l.burst - 1;
    assert t - 0.0 == t && Refill(l, m[ip], t) == Earned(l, t);
    assert Reply(l, m, last)[0] != Answer(true, l.burst - 1);
  }

  lemma RunOne(l: Limits, m: Buckets, e: Event)
    ensures Run(l, m, [e]) == Reply(l, m, e)
    ensures After(l, m, [e]) == Next(l, m, e)
  {
    hide Earned;
    assert [e][1..] == [];
    assert Run(l, Next(l, m, e), []) == [];
  }

  lemma SweepThenCall(ip: string, t: real, u: real)
    requires t <= u
    ensures var last := [Sweep(u), Call(ip, u, u)];
            Ordered(t, last) && WithoutSweeps(last) == [Call(ip, u, u)]
  {
    assert [Sweep(u), Call(ip, u, u)][1..] == [Call(ip, u, u)];
    assert Ordered(u, [Call(ip, u, u)]);
    assert WithoutSweeps([Call(ip, u, u)]) == [Call(ip, u, u)];
  }

  /** Two continuations told apart after a run are told apart with it. */
  lemma TellApart(l: Limits, a: seq<Event>, x: seq<Event>, y: seq<Event>)
    requires Run(l, After(l, map[], a), x) != Run(l, After(l, map[], a), y)
    ensures Run(l, map[], a + x) != Run(l, map[], a + y)
  {
    hide Earned;
    RunConcat(l, map[], a, x);
    RunConcat(l, map[], a, y);
    var k := |Run(l, map[], a)|;
    assert Run(l, map[], a + x)[k..] == Run(l, After(l, map[], a), x);
    assert Run(l, map[], a + y)[k..] == Run(l, After(l, map[], a), y);
  }

  /** Drain a bucket, let it idle just past the idle age, sweep, call again: the answers differ. */
  lemma EvictionShows(l: Limits, ip: string)
    requires 1 <= l.burst && Earned(l, l.maxAge) < l.burst as real && 0.0 <= l.maxAge
    ensures !EvictionInvisible(l)
  {
    hide Earned;
    var t := PastIdle(l);
    var drain, last := Volley(ip, l.burst, 0.0), [Sweep(t), Call(ip, t, t)];
    SweepThenCall(ip, 0.0, t);
    OrderedConcat(0.0, drain, last);
    WithoutSweepsConcat(drain, last);
    DrainFromStart(l, ip);
    SweepForgets(l, map[ip := Bucket(0.0, 0.0, 0.0)], ip, t);
    TellApart(l, drain, last, [Call(ip, t, t)]);
  }

  lemma DrainFromStart(l: Limits, ip: string)
    requires 1 <= l.burst
    ensures After(l, map[], Volley(ip, l.burst, 0.0)) == map[ip := Bucket(0.0, 0.0, 0.0)]
  {
    hide Earned;
    VolleyDrains(l, map[], ip, l.burst, 0.0);
  }

  lemma {:induction false} WithoutSweepsConcat(a: seq<Event>, b: seq<Event>)
    ensures WithoutSweeps(a + b) == WithoutSweeps(a) + WithoutSweeps(b)
  {
    if a == [] {
      assert a + b == b;
    } else {
      assert (a + b)[0] == a[0] && (a + b)[1..] == a[1..] + b;
      WithoutSweepsConcat(a[1..], b);
    }
  }

  /** Forgetting idle buckets is invisible exactly when they refill before they are forgotten. */
  lemma EvictionInvisibleExactly(l: Limits)
    requires 0.0 <= l.maxAge
    ensures EvictionInvisible(l) <==> l.burst < 1 || l.burst as real <= Earned(l, l.maxAge)
  {
    hide Earned;
    if l.burst < 1 {
      forall t: real, events | Ordered(t, events)
        ensures Run(l, map[], events) == Run(l, map[], WithoutSweeps(events))
      {
        NothingAdmitted(l, map[], events);
      }
    } else if l.burst as real <= Earned(l, l.maxAge) {
      RateIsPositive(l);
      forall t: real, events | Ordered(t, events)
        ensures Run(l, map[], events) == Run(l, map[], WithoutSweeps(events))
      {
        SweptRunAgrees(l, map[], map[], t, events);
      }
    } else {
      EvictionShows(l, "ip");
    }
  }

  lemma RateIsPositive(l: Limits)
    requires 0.0 <= l.maxAge && 1 <= l.burst && l.burst as real <= Earned(l, l.maxAge)
    ensures RefillsBeforeEviction(l) && 0.0 < l.rate
  {
    if l.rate <= 0.0 {
      EarnedMono(l.(rate := -l.rate), 0.0, l.maxAge);
      assert false;
    }
  }

  /** In the configuration's own terms: the burst must be at most thirty minutes' worth of calls. */
  lemma ConfiguredEviction(perMinute: int, burst: int)
    ensures EvictionInvisible(Configured(perMinute, burst)) <==> burst < 1 || burst <= 30 * perMinute
  {
    var l := Configured(perMinute, burst);
    EvictionInvisibleExactly(l);
    assert Earned(l, l.maxAge) == (30 * perMinute) as real;
  }
}
