/**
 Quantitative promises of the limiter: the sliding-window bound, optimality of
 greedy admission, independence of IPs, refused calls costing nothing, and the
 advertised sixty-second retry.
 */
module LimiterBounds {
  import opened TokenBuckets
  import opened LimiterTheorems

  // ---- Sliding window ----

  /** Within the stretch mid of the run pre + mid, lying in [s, t], ip gets at most burst + rate * (t - s) calls in. */
  ghost predicate StretchWithin(l: Limits, pre: seq<Event>, mid: seq<Event>, ip: string, s: real, t: real) {
    s <= t && (mid != [] ==> s <= mid[0].now && LastTime(s, mid) <= t)
    ==> Served(l, After(l, map[], pre), ip, mid) as real <= l.burst as real + Earned(l, t - s)
  }

  ghost predicate WindowBound(l: Limits) {
    forall t0: real, pre, mid, ip, s: real, t: real ::
      Ordered(t0, pre + mid) ==> StretchWithin(l, pre, mid, ip, s, t)
  }

  lemma LevelIsSolvent(l: Limits, m: Buckets, ip: string, t: real)
    requires 0.0 <= l.rate && 0 <= l.burst && Settled(m, t) && Solvent(m)
    ensures 0.0 <= Level(l, m, ip, t) <= l.burst as real
  {
    hide Earned;
    if ip in m { EarnedMono(l, 0.0, t - m[ip].lastFill); }
  }

  /** One event conserves the level of ip: what it spends is what it had. */
  lemma EventConserves(l: Limits, m: Buckets, ip: string, t: real, e: Event)
    requires RefillsBeforeEviction(l) && Settled(m, t) && Solvent(m) && Ordered(t, [e])
    ensures Level(l, Next(l, m, e), ip, e.now) + (if Admits(l, m, ip, e) then 1.0 else 0.0) == Level(l, m, ip, e.now)
  {
    hide Earned;
    SettledNext(l, m, t, e);
    if e.Call? { CallSpends(l, m, t, e, ip); } else { SweepKeepsLevel(l, m, e.now, ip); }
  }

  /** ... so, counted from the previous event, it spends at most what it had plus what it earned since. */
  lemma EventPays(l: Limits, m: Buckets, ip: string, t: real, e: Event)
    requires RefillsBeforeEviction(l) && Settled(m, t) && Solvent(m) && Ordered(t, [e])
    ensures Level(l, Next(l, m, e), ip, e.now) + (if Admits(l, m, ip, e) then 1.0 else 0.0)
            <= Level(l, m, ip, t) + Earned(l, e.now - t)
  {
    hide Earned;
    EventConserves(l, m, ip, t, e);
    LevelRises(l, m, ip, t, e.now);
  }

  /** The level pays for the calls still to be admitted. */
  lemma {:induction false} LevelPays(l: Limits, m: Buckets, ip: string, t: real, events: seq<Event>)
    requires RefillsBeforeEviction(l) && Settled(m, t) && Solvent(m) && Ordered(t, events)
    ensures Served(l, m, ip, events) as real <= Level(l, m, ip, t) + Earned(l, LastTime(t, events) - t)
    decreases |events|
  {
    hide Earned;
    LevelIsSolvent(l, m, ip, t);
    EarnedAdds(l, 0.0, 0.0);
    if events != [] {
      var e := events[0];
      var u, end := e.now, LastTime(t, events);
      SettledNext(l, m, t, e);
      SolventNext(l, m, t, e);
      EventPays(l, m, ip, t, e);
      LevelPays(l, Next(l, m, e), ip, u, events[1..]);
      assert end == LastTime(u, events[1..]);
      EarnedAdds(l, end - u, u - t);
      assert (end - u) + (u - t) == end - t;
    }
  }

  /** A stretch starting at its first event: that event meets a level of at most the burst. */
  lemma StretchBound(l: Limits, m: Buckets, ip: string, t: real, events: seq<Event>)
    requires RefillsBeforeEviction(l) && Settled(m, t) && Solvent(m) && Ordered(t, events) && events != []
    ensures Served(l, m, ip, events) as real <= l.burst as real + Earned(l, LastTime(t, events) - events[0].now)
  {
    var e := events[0];
    hide Earned;
    SettledNext(l, m, t, e);
    SolventNext(l, m, t, e);
    LevelPays(l, Next(l, m, e), ip, e.now, events[1..]);
    LevelIsSolvent(l, m, ip, e.now);
    EventConserves(l, m, ip, t, e);
    assert LastTime(t, events) == LastTime(e.now, events[1..]);
  }

  /** A sweep past the idle age forgets a drained bucket, so a second volley is admitted in full. */
  lemma SecondVolley(l: Limits, m: Buckets, ip: string, t: real)
    requires m == map[ip := Bucket(0.0, 0.0, 0.0)] && l.maxAge < t && 1 <= l.burst
    ensures Served(l, m, ip, [Sweep(t)] + Volley(ip, l.burst, t)) == l.burst
  {
    hide Earned;
    VolleyDrains(l, map[], ip, l.burst, t);
    var again := [Sweep(t)] + Volley(ip, l.burst, t);
    assert again[0] == Sweep(t) && again[1..] == Volley(ip, l.burst, t);
    assert Evict(l, m, t) == map[];
  }

  lemma TwoVolleysOrdered(ip: string, k: nat, t: real)
    requires 0.0 <= t && 0 < k
    ensures var both := Volley(ip, k, 0.0) + ([Sweep(t)] + Volley(ip, k, t));
            Ordered(0.0, both) && both[0].now == 0.0 && LastTime(0.0, both) == t
  {
    var drain, again := Volley(ip, k, 0.0), [Sweep(t)] + Volley(ip, k, t);
    assert again[0] == Sweep(t) && again[1..] == Volley(ip, k, t);
    OrderedConcat(0.0, drain, again);
    assert (drain + again)[2 * k] == Volley(ip, k, t)[k - 1];
  }

  /** Two full volleys with a sweep between them, inside a window too short to pay for both. */
  lemma TwoVolleys(l: Limits, ip: string)
    requires 1 <= l.burst && Earned(l, l.maxAge) < l.burst as real && 0.0 <= l.maxAge
    ensures !WindowBound(l)
  {
    var t := PastIdle(l);
    hide Earned, Served;
    TwoVolleysOverspend(l, ip, t);
    TwoVolleysOrdered(ip, l.burst, t);
    var both := Volley(ip, l.burst, 0.0) + ([Sweep(t)] + Volley(ip, l.burst, t));
    assert [] + both == both;
  }

  lemma TwoVolleysOverspend(l: Limits, ip: string, t: real)
    requires 1 <= l.burst && Earned(l, t) < l.burst as real && 0.0 <= l.maxAge < t
    ensures !StretchWithin(l, [], Volley(ip, l.burst, 0.0) + ([Sweep(t)] + Volley(ip, l.burst, t)), ip, 0.0, t)
  {
    hide Earned;
    TwoVolleysServed(l, ip, t);
    TwoVolleysOrdered(ip, l.burst, t);
    assert After(l, map[], []) == map[] && t - 0.0 == t;
  }

  lemma TwoVolleysServed(l: Limits, ip: string, t: real)
    requires 1 <= l.burst && l.maxAge < t
    ensures Served(l, map[], ip, Volley(ip, l.burst, 0.0) + ([Sweep(t)] + Volley(ip, l.burst, t))) == 2 * l.burst
  {
    hide Earned;
    var drain, again := Volley(ip, l.burst, 0.0), [Sweep(t)] + Volley(ip, l.burst, t);
    VolleyDrains(l, map[], ip, l.burst, 0.0);
    SecondVolley(l, map[ip := Bucket(0.0, 0.0, 0.0)], ip, t);
    ServedConcat(l, map[], ip, drain, again);
  }

  lemma {:induction false} ServedConcat(l: Limits, m: Buckets, ip: string, a: seq<Event>, b: seq<Event>)
    ensures Served(l, m, ip, a + b) == Served(l, m, ip, a) + Served(l, After(l, m, a), ip, b)
    decreases |a|
  {
    if a == [] {
      assert a + b == b;
    } else {
      assert (a + b)[0] == a[0] && (a + b)[1..] == a[1..] + b;
      ServedConcat(l, Next(l, m, a[0]), ip, a[1..], b);
    }
  }

  lemma WindowHolds(l: Limits, t0: real, pre: seq<Event>, mid: seq<Event>, ip: string, s: real, t: real)
    requires RefillsBeforeEviction(l) && Ordered(t0, pre + mid)
    ensures StretchWithin(l, pre, mid, ip, s, t)
  {
    hide Earned;
    if s <= t && (mid != [] ==> s <= mid[0].now && LastTime(s, mid) <= t) {
      EarnedMono(l, 0.0, t - s);
      if mid != [] {
        OrderedConcat(t0, pre, mid);
        SettledAfter(l, map[], t0, pre) by { NobodyYet(t0); }
        SolventAfter(l, map[], t0, pre) by { NobodyYet(t0); }
        StretchBound(l, After(l, map[], pre), ip, LastTime(t0, pre), mid);
        EarnedMono(l, LastTime(s, mid) - mid[0].now, t - s);
      }
    }
  }

  lemma NobodyYet(t: real)
    ensures Settled(map[], t) && Solvent(map[])
  {
  }

  /** With a burst below one nothing is admitted, so a bound that is never negative holds. */
  lemma {:induction false} NothingServed(l: Limits, m: Buckets, ip: string, events: seq<Event>)
    requires l.burst < 1
    ensures Served(l, m, ip, events) == 0
    decreases |events|
  {
    hide Earned;
    if events != [] { NothingServed(l, Next(l, m, events[0]), ip, events[1..]); }
  }

  /** No window is so short or so long that the bound for it is negative. */
  lemma EmptyWindows(l: Limits, t: real)
    requires WindowBound(l) && 0.0 <= t
    ensures 0.0 <= l.burst as real + Earned(l, t)
  {
    var none: seq<Event> := [];
    assert none + none == none;
    assert Ordered(0.0, none + none);
    assert StretchWithin(l, none, none, "", 0.0, t);
    assert t - 0.0 == t;
  }

  lemma BoundNeedsSigns(l: Limits)
    requires WindowBound(l) && l.burst < 1
    ensures 0 <= l.burst && 0.0 <= l.rate
  {
    EmptyWindows(l, 0.0);
    if l.rate < 0.0 {
      var t := 1.0 / -l.rate;
      assert Earned(l, t) == -1.0;
      EmptyWindows(l, t);
    }
  }

  /** The bound the token bucket is there for holds exactly when eviction cannot refill a bucket early and,
      for limits that admit nothing, when the bound itself is never negative. */
  lemma WindowBoundExactly(l: Limits)
    requires 0.0 <= l.maxAge
    ensures WindowBound(l) <==>
            if 1 <= l.burst then l.burst as real <= Earned(l, l.maxAge) else l.burst == 0 && 0.0 <= l.rate
  {
    if 1 <= l.burst {
      hide Earned;
      if l.burst as real <= Earned(l, l.maxAge) {
        RateIsPositive(l);
        forall t0: real, pre, mid, ip, s: real, t: real | Ordered(t0, pre + mid)
          ensures StretchWithin(l, pre, mid, ip, s, t)
        {
          WindowHolds(l, t0, pre, mid, ip, s, t);
        }
      } else {
        TwoVolleys(l, "ip");
      }
    } else if l.burst == 0 && 0.0 <= l.rate {
      hide Earned;
      forall t0: real, pre, mid, ip, s: real, t: real | Ordered(t0, pre + mid)
        ensures StretchWithin(l, pre, mid, ip, s, t)
      {
        NothingServed(l, After(l, map[], pre), ip, mid);
        if s <= t { EarnedMono(l, 0.0, t - s); }
      }
    } else if WindowBound(l) {
      BoundNeedsSigns(l);
      assert false;
    }
  }

  // ---- Greedy admission is optimal ----

  /** Whether an unswept bucket at the given level could pay for the chosen calls of ip. */
  ghost predicate Affordable(l: Limits, ip: string, level: real, t: real, events: seq<Event>, chosen: seq<bool>)
    requires |chosen| == |events|
    decreases |events|
  {
    events == [] ||
    var e := events[0];
    var there := Min(l.burst as real, level + Earned(l, e.now - t));
    var pays := e.Call? && e.ip == ip && chosen[0];
    && (pays ==> 1.0 <= there)
    && Affordable(l, ip, if pays then there - 1.0 else there, e.now, events[1..], chosen[1..])
  }

  ghost function Chosen(ip: string, events: seq<Event>, chosen: seq<bool>): nat
    requires |chosen| == |events|
    decreases |events|
  {
    if events == [] then 0
    else (if events[0].Call? && events[0].ip == ip && chosen[0] then 1 else 0) + Chosen(ip, events[1..], chosen[1..])
  }

  /** The choice the limiter itself makes. */
  ghost function Greedy(l: Limits, m: Buckets, ip: string, events: seq<Event>): (chosen: seq<bool>)
    ensures |chosen| == |events|
    decreases |events|
  {
    if events == [] then []
    else [Admits(l, m, ip, events[0])] + Greedy(l, Next(l, m, events[0]), ip, events[1..])
  }

  /** Exchange argument: being `ahead` admissions up makes good a level lower by as much. */
  lemma {:induction false} GreedyStaysAhead(l: Limits, m: Buckets, ip: string, t: real, events: seq<Event>,
                                            level: real, chosen: seq<bool>, ahead: nat)
    requires 0.0 <= l.rate && Ordered(t, events) && |chosen| == |events|
    requires Affordable(l, ip, level, t, events, chosen)
    requires level <= Level(l, m, ip, t) + ahead as real
    ensures Chosen(ip, events, chosen) <= Served(l, m, ip, events) + ahead
    decreases |events|
  {
    hide Earned;
    if events != [] {
      var e := events[0];
      var u := e.now;
      var there := Min(l.burst as real, level + Earned(l, u - t));
      LevelRises(l, m, ip, t, u);
      assert there <= Level(l, m, ip, u) + ahead as real;
      if e.Call? {
        CallSpends(l, m, t, e, ip);
        var pays, admits := e.ip == ip && chosen[0], Admits(l, m, ip, e);
        assert admits <==> e.ip == ip && 1.0 <= Level(l, m, ip, u);
        var ahead' := ahead + (if admits then 1 else 0) - (if pays then 1 else 0);
        var left := if pays then there - 1.0 else there;
        GreedyStaysAhead(l, Next(l, m, e), ip, u, events[1..], left, chosen[1..], ahead');
      } else {
        SweepRaises(l, m, u, ip);
        GreedyStaysAhead(l, Next(l, m, e), ip, u, events[1..], there, chosen[1..], ahead);
      }
    }
  }

  /** No choice of calls a bucket of the same rate and burst could pay for admits more than Allow does.
      Every prefix of a run is a run, so this holds at every prefix. */
  lemma GreedyIsOptimal(l: Limits, ip: string, t: real, events: seq<Event>, chosen: seq<bool>)
    requires 0.0 <= l.rate && Ordered(t, events) && |chosen| == |events|
    requires Affordable(l, ip, l.burst as real, t, events, chosen)
    ensures Chosen(ip, events, chosen) <= Served(l, map[], ip, events)
  {
    GreedyStaysAhead(l, map[], ip, t, events, l.burst as real, chosen, 0);
  }

  /** And when eviction is harmless Allow's own choice is one of those, so it is the best of them. */
  lemma {:induction false} GreedyIsAffordable(l: Limits, m: Buckets, ip: string, t: real, events: seq<Event>)
    requires RefillsBeforeEviction(l) && Settled(m, t) && Solvent(m) && Ordered(t, events)
    ensures Affordable(l, ip, Level(l, m, ip, t), t, events, Greedy(l, m, ip, events))
    ensures Chosen(ip, events, Greedy(l, m, ip, events)) == Served(l, m, ip, events)
    decreases |events|
  {
    hide Earned;
    if events != [] {
      var e := events[0];
      SettledNext(l, m, t, e);
      SolventNext(l, m, t, e);
      LevelRises(l, m, ip, t, e.now);
      GreedyIsAffordable(l, Next(l, m, e), ip, e.now, events[1..]);
      assert Greedy(l, m, ip, events)[1..] == Greedy(l, Next(l, m, e), ip, events[1..]);
      if e.Call? { CallSpends(l, m, t, e, ip); } else { SweepKeepsLevel(l, m, e.now, ip); }
    }
  }

  // ---- Other IPs are free ----

  /** Deleting every call of every other IP changes no answer ip gets, whatever the limits. */
  lemma {:induction false} OtherIPsAreFree(l: Limits, m: Buckets, n: Buckets, ip: string, events: seq<Event>)
    requires (ip in m <==> ip in n) && (ip in m ==> m[ip] == n[ip])
    ensures AnswersTo(l, m, ip, events) == Run(l, n, OnlyOf(ip, events))
    decreases |events|
  {
    if events != [] {
      var e, rest := events[0], OnlyOf(ip, events[1..]);
      if e.Call? && e.ip != ip {
        OtherIPsAreFree(l, Next(l, m, e), n, ip, events[1..]);
        assert OnlyOf(ip, events) == rest;
      } else {
        OtherIPsAreFree(l, Next(l, m, e), Next(l, n, e), ip, events[1..]);
        assert OnlyOf(ip, events)[0] == e && OnlyOf(ip, events)[1..] == rest;
      }
    }
  }

  // ---- Refused calls are free ----

  /** Dropping call c from a run drops its answer and changes no other. */
  ghost predicate Droppable(l: Limits, pre: seq<Event>, c: Event, post: seq<Event>) {
    Run(l, map[], pre + post) == Run(l, map[], pre) + Run(l, After(l, map[], pre + [c]), post)
  }

  ghost predicate RefusalsAreFree(l: Limits) {
    forall t: real, pre, c, post ::
      Ordered(t, pre + ([c] + post)) && c.Call? && Reply(l, After(l, map[], pre), c) == [REFUSED]
      ==> Droppable(l, pre, c, post)
  }

  lemma DropRefused(l: Limits, t: real, pre: seq<Event>, c: Event, post: seq<Event>)
    requires Ordered(t, pre + ([c] + post)) && c.Call? && Reply(l, After(l, map[], pre), c) == [REFUSED]
    requires l.burst < 1 || RefillsBeforeEviction(l)
    ensures Droppable(l, pre, c, post)
  {
    hide Earned;
    var m := After(l, map[], pre);
    var n := Next(l, m, c);
    RunConcat(l, map[], pre, post);
    RunConcat(l, map[], pre, [c]);
    RunOne(l, m, c);
    if l.burst < 1 {
      RefusedThroughout(l, m, post);
      RefusedThroughout(l, n, post);
    } else {
      var now := LastTime(t, pre);
      OrderedConcat(t, pre, [c] + post);
      assert ([c] + post)[1..] == post;
      SettledAfter(l, map[], t, pre);
      SolventAfter(l, map[], t, pre);
      SettledNext(l, m, now, c);
      SolventNext(l, m, now, c);
      CallSpends(l, m, now, c, c.ip);
      forall ip ensures Level(l, n, ip, c.now) == Level(l, m, ip, c.now) {
        CallSpends(l, m, now, c, ip);
      }
      SweptRunAgrees(l, n, m, c.now, post);
      SweptRunAgrees(l, m, m, c.now, post);
    }
  }

  /** A drained bucket refused d seconds later, and swept just as it is about to be forgotten. */
  lemma RefusedIsKept(l: Limits, m: Buckets, ip: string, d: real, t: real)
    requires m == map[ip := Bucket(0.0, 0.0, 0.0)] && 1 <= l.burst && d <= t <= d + l.maxAge
    requires Earned(l, d) < 1.0 && Earned(l, t) < l.burst as real
    ensures Reply(l, m, Call(ip, d, d)) == [REFUSED]
    ensures Run(l, Next(l, m, Call(ip, d, d)), [Sweep(t), Call(ip, t, t)]) != [Answer(true, l.burst - 1)]
  {
    hide Earned;
    assert d - 0.0 == d && Refill(l, m[ip], d) == Earned(l, d);
    var n, again := Next(l, m, Call(ip, d, d)), Call(ip, t, t);
    assert n == map[ip := Bucket(Earned(l, d), d, d)];
    assert Evict(l, n, t) == n;
    assert [Sweep(t), again][1..] == [again];
    RunOne(l, n, again);
    EarnedAdds(l, d, t - d);
    assert d + (t - d) == t && Refill(l, n[ip], t) == Earned(l, t);
    assert Run(l, n, [Sweep(t), again]) == Run(l, n, [again]);
    assert Reply(l, n, again)[0] != Answer(true, l.burst - 1);
  }

  /** A refused call between draining and sweeping keeps the bucket alive; without it the bucket is forgotten. */
  lemma RefusalKeepsBucket(l: Limits, ip: string)
    requires 1 <= l.burst && Earned(l, l.maxAge) < l.burst as real && 0.0 <= l.maxAge
    ensures !RefusalsAreFree(l)
  {
    hide Earned, Run, After;
    var t := PastIdle(l);
    var d := t - l.maxAge;
    var pre, c, post := Volley(ip, l.burst, 0.0), Call(ip, d, d), [Sweep(t), Call(ip, t, t)];
    var m: Buckets := map[ip := Bucket(0.0, 0.0, 0.0)];
    DrainFromStart(l, ip);
    SweepThenCall(ip, d, t);
    assert ([c] + post)[1..] == post;
    OrderedConcat(0.0, pre, [c] + post);
    RefusedIsKept(l, m, ip, d, t);
    SweepForgets(l, m, ip, t);
    RunConcat(l, map[], pre, [c]);
    RunOne(l, m, c);
    NotDroppable(l, pre, c, post);
  }

  lemma NotDroppable(l: Limits, pre: seq<Event>, c: Event, post: seq<Event>)
    requires Run(l, After(l, map[], pre), post) != Run(l, After(l, map[], pre + [c]), post)
    ensures !Droppable(l, pre, c, post)
  {
    hide Run, After;
    RunConcat(l, map[], pre, post);
    var k := |Run(l, map[], pre)|;
    assert Run(l, map[], pre + post)[k..] == Run(l, After(l, map[], pre), post);
    assert (Run(l, map[], pre) + Run(l, After(l, map[], pre + [c]), post))[k..]
        == Run(l, After(l, map[], pre + [c]), post);
  }

  /** Refused calls cost nothing exactly when eviction is invisible. */
  lemma RefusalsAreFreeExactly(l: Limits)
    requires 0.0 <= l.maxAge
    ensures RefusalsAreFree(l) <==> l.burst < 1 || l.burst as real <= Earned(l, l.maxAge)
  {
    hide Earned;
    if l.burst < 1 || l.burst as real <= Earned(l, l.maxAge) {
      if 1 <= l.burst { RateIsPositive(l); }
      forall t: real, pre, c, post
        | Ordered(t, pre + ([c] + post)) && c.Call? && Reply(l, After(l, map[], pre), c) == [REFUSED]
        ensures Droppable(l, pre, c, post)
      {
        DropRefused(l, t, pre, c, post);
      }
    } else {
      RefusalKeepsBucket(l, "ip");
    }
  }

  // ---- The advertised retry ----

  /** Seconds the Retry-After header asks a refused client to wait. */
  const RETRY_AFTER := 60.0

  /** A client refused at some point and let in for nothing since is admitted once it has waited that long. */
  ghost predicate RetryIsHonoured(l: Limits) {
    forall t: real, pre, c, mid, again ::
      && Ordered(t, pre + ([c] + (mid + [again])))
      && c.Call? && again.Call? && again.ip == c.ip && c.now + RETRY_AFTER <= again.now
      && Reply(l, After(l, map[], pre), c) == [REFUSED]
      && Served(l, After(l, map[], pre + [c]), c.ip, mid) == 0
      ==> Admits(l, After(l, After(l, map[], pre + [c]), mid), c.ip, again)
  }

  /** While an IP gets nothing in, its level climbs to the burst at no less than the rate. */
  lemma {:induction false} WaitingPays(l: Limits, m: Buckets, ip: string, t: real, events: seq<Event>)
    requires 0.0 <= l.rate && Ordered(t, events) && Served(l, m, ip, events) == 0
    ensures var u := LastTime(t, events);
            Level(l, After(l, m, events), ip, u) >= Min(l.burst as real, Level(l, m, ip, t) + Earned(l, u - t))
    decreases |events|
  {
    hide Earned;
    if events == [] {
      LevelRises(l, m, ip, t, t);
    } else {
      var e := events[0];
      var v, u := e.now, LastTime(t, events);
      assert u == LastTime(v, events[1..]);
      OrderedLast(v, events[1..]);
      LevelRises(l, m, ip, t, v);
      WaitingPays(l, Next(l, m, e), ip, v, events[1..]);
      if e.Call? { CallSpends(l, m, t, e, ip); } else { SweepRaises(l, m, v, ip); }
      EarnedAdds(l, u - v, v - t);
      assert (u - v) + (v - t) == u - t;
      EarnedMono(l, 0.0, u - v);
    }
  }

  lemma RetryHonoured(l: Limits, t: real, pre: seq<Event>, c: Event, mid: seq<Event>, again: Event)
    requires 1.0 <= Earned(l, RETRY_AFTER) && 1 <= l.burst
    requires Ordered(t, pre + ([c] + (mid + [again])))
    requires c.Call? && again.Call? && again.ip == c.ip && c.now + RETRY_AFTER <= again.now
    requires Served(l, After(l, map[], pre + [c]), c.ip, mid) == 0
    ensures Admits(l, After(l, After(l, map[], pre + [c]), mid), c.ip, again)
  {
    assert 0.0 < l.rate;
    hide Earned;
    var m := After(l, map[], pre + [c]);
    assert pre + ([c] + (mid + [again])) == (pre + [c]) + (mid + [again]);
    OrderedConcat(t, pre + [c], mid + [again]);
    OrderedConcat(c.now, mid, [again]);
    SettledAfter(l, map[], t, pre + [c]);
    SolventAfter(l, map[], t, pre + [c]);
    LevelIsSolvent(l, m, c.ip, c.now);
    WaitingPays(l, m, c.ip, c.now, mid);
    var n, u := After(l, m, mid), LastTime(c.now, mid);
    LevelRises(l, n, c.ip, u, again.now);
    EarnedAdds(l, again.now - u, u - c.now);
    assert (again.now - u) + (u - c.now) == again.now - c.now;
    EarnedMono(l, RETRY_AFTER, again.now - c.now);
    OrderedLast(c.now, mid);
    EarnedMono(l, 0.0, again.now - u);
    CallSpends(l, n, u, again, c.ip);
  }

  lemma RetryRefused(l: Limits, ip: string)
    requires l.burst < 1 || Earned(l, RETRY_AFTER) < 1.0
    ensures !RetryIsHonoured(l)
  {
    hide Earned;
    var pre := if l.burst < 1 then [] else Volley(ip, l.burst, 0.0);
    var c, again := Call(ip, 0.0, 0.0), Call(ip, RETRY_AFTER, RETRY_AFTER);
    var m := After(l, map[], pre);
    if 1 <= l.burst { DrainFromStart(l, ip); }
    EarnedAdds(l, 0.0, 0.0);
    assert Level(l, m, ip, 0.0) < 1.0;
    assert Reply(l, m, c) == [REFUSED];
    RunConcat(l, map[], pre, [c]);
    RunOne(l, m, c);
    var n := Next(l, m, c);
    assert Refill(l, n[ip], RETRY_AFTER) == Min(l.burst as real, n[ip].tokens + Earned(l, RETRY_AFTER));
    assert !Admits(l, n, ip, again);
    assert After(l, n, []) == n && Served(l, n, ip, []) == 0;
    assert [] + [again] == [again] && ([c] + [again])[1..] == [again];
    assert Ordered(RETRY_AFTER, []) && Ordered(0.0, [again]) && Ordered(0.0, [c] + [again]);
    OrderedConcat(0.0, pre, [c] + ([] + [again]));
    assert Ordered(0.0, pre + ([c] + ([] + [again])));
    assert !Admits(l, After(l, After(l, map[], pre + [c]), []), c.ip, again);
  }

  /** The sixty-second promise is kept exactly by the configurations that allow at least one call a minute. */
  lemma RetryIsHonouredExactly(perMinute: int, burst: int)
    ensures RetryIsHonoured(Configured(perMinute, burst)) <==> 1 <= perMinute && 1 <= burst
  {
    var l := Configured(perMinute, burst);
    assert Earned(l, RETRY_AFTER) == perMinute as real;
    if 1 <= perMinute && 1 <= burst {
      forall t: real, pre, c, mid, again |
        && Ordered(t, pre + ([c] + (mid + [again])))
        && c.Call? && again.Call? && again.ip == c.ip && c.now + RETRY_AFTER <= again.now
        && Reply(l, After(l, map[], pre), c) == [REFUSED]
        && Served(l, After(l, map[], pre + [c]), c.ip, mid) == 0
        ensures Admits(l, After(l, After(l, map[], pre + [c]), mid), c.ip, again)
      {
        RetryHonoured(l, t, pre, c, mid, again);
      }
    } else {
      RetryRefused(l, "ip");
    }
  }
}
