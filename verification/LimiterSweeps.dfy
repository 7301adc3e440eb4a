/**
 What a sweep forgets, told from the history alone: an IP's last call decides,
 not the tokens it had left.
 */
module LimiterSweeps {
  import opened Wrappers
  import opened TokenBuckets
  import opened LimiterTheorems

  /** When ip last called. */
  ghost function LastCall(ip: string, events: seq<Event>): Option<real> {
    if events == [] then None
    else
      var last := events[|events| - 1];
      if last.Call? && last.ip == ip then Some(last.now) else LastCall(ip, events[..|events| - 1])
  }

  /** Whether some sweep found ip's last call more than maxAge ago. */
  ghost predicate Forgotten(maxAge: real, ip: string, events: seq<Event>) {
    events != [] &&
    var last, before := events[|events| - 1], events[..|events| - 1];
    if last.Call? && last.ip == ip then false
    else || Forgotten(maxAge, ip, before)
         || (last.Sweep? && LastCall(ip, before).Some? && LastCall(ip, before).value < last.now - maxAge)
  }

  lemma AfterLast(l: Limits, m: Buckets, events: seq<Event>)
    requires events != []
    ensures After(l, m, events)
         == Next(l, After(l, m, events[..|events| - 1]), events[|events| - 1])
  {
    var before, last := events[..|events| - 1], events[|events| - 1];
    assert before + [last] == events;
    RunConcat(l, m, before, [last]);
    RunOne(l, After(l, m, before), last);
  }

  /** One sweep deletes the buckets last used before its cutoff, and touches no other. */
  lemma SweepDeletes(l: Limits, m: Buckets, now: real, ip: string)
    ensures var n := Next(l, m, Sweep(now));
            && (ip in n <==> ip in m && now - l.maxAge <= m[ip].lastUsed)
            && (ip in n ==> n[ip] == m[ip])
  {
  }

  /** After any run an IP has a bucket exactly if it has called and not been forgotten since,
      and the bucket was last used at its last call. */
  lemma {:induction false} BucketsExactly(l: Limits, events: seq<Event>, ip: string)
    ensures var m := After(l, map[], events);
            && (ip in m <==> LastCall(ip, events).Some? && !Forgotten(l.maxAge, ip, events))
            && (ip in m ==> m[ip].lastUsed == LastCall(ip, events).value)
    decreases |events|
  {
    hide Earned, Refill, After, Evict;
    if events == [] {
      NoEvents(l);
    } else {
      var before, last := events[..|events| - 1], events[|events| - 1];
      BucketsExactly(l, before, ip);
      AfterLast(l, map[], events);
      if last.Sweep? {
        SweepDeletes(l, After(l, map[], before), last.now, ip);
      }
    }
  }

  lemma NoEvents(l: Limits)
    ensures After(l, map[], []) == map[]
  {
  }

  /** The clock readings of a run that ends by time t. */
  lemma {:induction false} LastCallPast(t0: real, events: seq<Event>, ip: string)
    requires Ordered(t0, events)
    ensures LastCall(ip, events).Some? ==> LastCall(ip, events).value <= LastTime(t0, events)
    decreases |events|
  {
    if events != [] {
      var before, last := events[..|events| - 1], events[|events| - 1];
      assert before + [last] == events;
      OrderedConcat(t0, before, [last]);
      LastCallPast(t0, before, ip);
    }
  }

  /** An earlier sweep forgets nothing a later one would keep. */
  lemma {:induction false} EarlierSweepsForgetLess(maxAge: real, t0: real, events: seq<Event>, ip: string, t: real)
    requires Ordered(t0, events) && LastTime(t0, events) <= t
    requires LastCall(ip, events).Some? && t - maxAge <= LastCall(ip, events).value
    ensures !Forgotten(maxAge, ip, events)
    decreases |events|
  {
    if events != [] {
      var before, last := events[..|events| - 1], events[|events| - 1];
      assert before + [last] == events;
      OrderedConcat(t0, before, [last]);
      assert LastTime(t0, before) <= last.now;
      if !(last.Call? && last.ip == ip) {
        EarlierSweepsForgetLess(maxAge, t0, before, ip, t);
      }
    }
  }

  /** After a sweep at t an IP has a bucket exactly if its last call was at t - maxAge or later,
      whatever its tokens and whatever was swept before. */
  lemma SweepKeepsExactly(l: Limits, t0: real, events: seq<Event>, t: real, ip: string)
    requires Ordered(t0, events + [Sweep(t)])
    ensures ip in After(l, map[], events + [Sweep(t)])
            <==> LastCall(ip, events).Some? && t - l.maxAge <= LastCall(ip, events).value
  {
    var all := events + [Sweep(t)];
    assert all[..|all| - 1] == events && all[|all| - 1] == Sweep(t);
    OrderedConcat(t0, events, [Sweep(t)]);
    BucketsExactly(l, all, ip);
    if LastCall(ip, events).Some? && t - l.maxAge <= LastCall(ip, events).value {
      EarlierSweepsForgetLess(l.maxAge, t0, events, ip, t);
    }
  }

  /** Events that are no calls of ip give it no bucket. */
  lemma {:induction false} NobodyElseOpens(l: Limits, m: Buckets, events: seq<Event>, ip: string)
    requires ip !in m && forall e :: e in events ==> !(e.Call? && e.ip == ip)
    ensures ip !in After(l, m, events)
    decreases |events|
  {
    if events != [] {
      assert events[0] in events;
      NobodyElseOpens(l, Next(l, m, events[0]), events[1..], ip);
    }
  }

  /** A sweep more than maxAge after an IP's last call leaves it a fresh bucket: its next call is answered
      as its first was, however few or many tokens it had left. */
  lemma IdleStartsAfresh(l: Limits, t0: real, events: seq<Event>, t: real, mid: seq<Event>, c: Event)
    requires 0.0 <= l.rate && c.Call?
    requires Ordered(t0, events + [Sweep(t)] + mid + [c])
    requires LastCall(c.ip, events).None? || LastCall(c.ip, events).value < t - l.maxAge
    requires forall e :: e in mid ==> !(e.Call? && e.ip == c.ip)
    ensures Reply(l, After(l, map[], events + [Sweep(t)] + mid), c)
         == [if 1 <= l.burst then Answer(true, l.burst - 1) else Answer(false, 0)]
  {
    var swept := events + [Sweep(t)];
    OrderedConcat(t0, swept + mid, [c]);
    OrderedConcat(t0, swept, mid);
    SweepKeepsExactly(l, t0, events, t, c.ip);
    var m := After(l, map[], swept);
    RunConcat(l, map[], swept, mid);
    NobodyElseOpens(l, m, mid, c.ip);
    FirstCall(l, After(l, m, mid), LastTime(t0, swept + mid), c);
  }

  lemma FirstCall(l: Limits, m: Buckets, t: real, c: Event)
    requires 0.0 <= l.rate && c.Call? && c.ip !in m && Ordered(t, [c])
    ensures Reply(l, m, c) == [if 1 <= l.burst then Answer(true, l.burst - 1) else Answer(false, 0)]
  {
    hide Earned;
    EarnedMono(l, 0.0, c.now - c.created);
  }
}
