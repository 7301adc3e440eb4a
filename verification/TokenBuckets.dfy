/**
 The per-IP token-bucket limiter as a function of its event history: calls to
 Allow and background sweeps, each carrying the clock readings it made.
 Time is in seconds and, like the tokens, exact.
 */
module TokenBuckets {

  /** What NewRateLimiter fixes, plus the idle age its sweeper uses. */
  datatype Limits = Limits(rate: real, burst: int, maxAge: real)

  datatype Bucket = Bucket(tokens: real, lastFill: real, lastUsed: real)

  type Buckets = map<string, Bucket>

  datatype Answer = Answer(ok: bool, remaining: int)

  const REFUSED := Answer(false, 0)

  /** A call reads the clock when it opens a bucket and again as "now". */
  datatype Event =
    | Call(ip: string, created: real, now: real)
    | Sweep(now: real)

  /** The idle age NewRateLimiter passes to its sweeper: thirty minutes. */
  const IDLE_AGE := 1800.0

  /** The limits the gateway builds from RATE_LIMIT_PER_IP and RATE_BURST_PER_IP. */
  function Configured(perMinute: int, burst: int): Limits {
    Limits(perMinute as real / 60.0, burst, IDLE_AGE)
  }

  function Min(x: real, y: real): real {
    if x < y then x else y
  }

  /** Tokens that accrue over some time. */
  function Earned(l: Limits, elapsed: real): real {
    elapsed * l.rate
  }

  /** Tokens in bucket b once it has been refilled up to time now. */
  function Refill(l: Limits, b: Bucket, now: real): real {
    Min(l.burst as real, b.tokens + Earned(l, now - b.lastFill))
  }

  /** One call: refill, then take a token if there is a whole one. */
  function Allow(l: Limits, m: Buckets, ip: string, created: real, now: real): (Buckets, Answer) {
    var b := if ip in m then m[ip] else Bucket(l.burst as real, created, created);
    var level := Refill(l, b, now);
    if level < 1.0 then
      (m[ip := Bucket(level, now, now)], REFUSED)
    else
      (m[ip := Bucket(level - 1.0, now, now)], Answer(true, (level - 1.0).Floor))
  }

  /** One sweep: forget every bucket last used before the cutoff. */
  function Evict(l: Limits, m: Buckets, now: real): Buckets {
    map ip | ip in m && !(m[ip].lastUsed < now - l.maxAge) :: m[ip]
  }

  function Next(l: Limits, m: Buckets, e: Event): Buckets {
    match e
    case Call(ip, created, now) => Allow(l, m, ip, created, now).0
    case Sweep(now) => Evict(l, m, now)
  }

  function Reply(l: Limits, m: Buckets, e: Event): seq<Answer> {
    match e
    case Call(ip, created, now) => [Allow(l, m, ip, created, now).1]
    case Sweep(_) => []
  }

  function After(l: Limits, m: Buckets, events: seq<Event>): Buckets
    decreases |events|
  {
    if events == [] then m else After(l, Next(l, m, events[0]), events[1..])
  }

  /** The answers given to the calls of a run, in order. */
  function Run(l: Limits, m: Buckets, events: seq<Event>): seq<Answer>
    decreases |events|
  {
    if events == [] then []
    else Reply(l, m, events[0]) + Run(l, Next(l, m, events[0]), events[1..])
  }

  /** The clock never runs backwards. */
  predicate Ordered(t: real, events: seq<Event>)
    decreases |events|
  {
    events == [] ||
    (&& t <= events[0].now
     && (events[0].Call? ==> t <= events[0].created <= events[0].now)
     && Ordered(events[0].now, events[1..]))
  }

  function WithoutSweeps(events: seq<Event>): seq<Event> {
    if events == [] then []
    else (if events[0].Sweep? then [] else [events[0]]) + WithoutSweeps(events[1..])
  }

  /** The run an IP would see if no other IP ever called. */
  function OnlyOf(ip: string, events: seq<Event>): seq<Event> {
    if events == [] then []
    else (if events[0].Call? && events[0].ip != ip then [] else [events[0]]) + OnlyOf(ip, events[1..])
  }

  /** The answers one IP gets out of a run shared with others. */
  function AnswersTo(l: Limits, m: Buckets, ip: string, events: seq<Event>): seq<Answer>
    decreases |events|
  {
    if events == [] then []
    else (if events[0].Call? && events[0].ip != ip then [] else Reply(l, m, events[0]))
         + AnswersTo(l, Next(l, m, events[0]), ip, events[1..])
  }

  /** Whether e is a call of ip that gets through in state m. */
  predicate Admits(l: Limits, m: Buckets, ip: string, e: Event) {
    e.Call? && e.ip == ip && Allow(l, m, e.ip, e.created, e.now).1.ok
  }

  /** How many calls of ip a run admits. */
  function Served(l: Limits, m: Buckets, ip: string, events: seq<Event>): nat
    decreases |events|
  {
    if events == [] then 0
    else (if Admits(l, m, ip, events[0]) then 1 else 0) + Served(l, Next(l, m, events[0]), ip, events[1..])
  }

  lemma {:induction false} RunConcat(l: Limits, m: Buckets, a: seq<Event>, b: seq<Event>)
    ensures After(l, m, a + b) == After(l, After(l, m, a), b)
    ensures Run(l, m, a + b) == Run(l, m, a) + Run(l, After(l, m, a), b)
    decreases |a|
  {
    if a == [] {
      assert a + b == b;
    } else {
      assert (a + b)[0] == a[0] && (a + b)[1..] == a[1..] + b;
      RunConcat(l, Next(l, m, a[0]), a[1..], b);
    }
  }

  function LastTime(t: real, events: seq<Event>): real {
    if events == [] then t else events[|events| - 1].now
  }

  lemma {:induction false} OrderedConcat(t: real, a: seq<Event>, b: seq<Event>)
    ensures Ordered(t, a + b) <==> Ordered(t, a) && Ordered(LastTime(t, a), b)
    decreases |a|
  {
    if a == [] {
      assert a + b == b;
    } else {
      assert (a + b)[0] == a[0] && (a + b)[1..] == a[1..] + b;
      OrderedConcat(a[0].now, a[1..], b);
    }
  }

  lemma {:induction false} OrderedLast(t: real, a: seq<Event>)
    requires Ordered(t, a)
    ensures t <= LastTime(t, a)
    decreases |a|
  {
    if a != [] { OrderedLast(a[0].now, a[1..]); }
  }
}
