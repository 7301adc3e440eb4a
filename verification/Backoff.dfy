/**
 Retrying with exponential backoff under a deadline, as ExtractWithRetry and
 AppendRowWithRetry both do.  Times are in nanoseconds since the job's context
 was created; arithmetic on durations wraps at 64 bits.  The wait is a race of
 the timer against the deadline that the earlier one wins.
 */
module Backoff {
  import opened Wrappers

  const SECOND := 1_000_000_000

  const INT64 := 0x8000_0000_0000_0000

  function Wrap(x: int): int {
    (x + INT64) % (2 * INT64) - INT64
  }

  function Pow2(k: nat): (p: nat)
    ensures 1 <= p
  {
    if k == 0 then 1 else 2 * Pow2(k - 1)
  }

  /** The wait after a failed attempt, in nanoseconds: doubling from one second, as 64-bit arithmetic computes it. */
  function Delay(attempt: nat): int
    requires 1 <= attempt
  {
    Wrap(Wrap(Pow2(attempt - 1)) * SECOND)
  }

  /** One attempt: how long it took, what it yielded, and which channel select picks if both are ready. */
  datatype Try<T> = Try(took: nat, value: Option<T>, timerFirst: bool)

  datatype Report<T> = Report(value: Option<T>, attempts: nat, waited: int, at: int)

  function Later(a: int, b: int): int {
    if a < b then b else a
  }

  /** Whether a wait entered at time t ends by its timer rather than by the deadline. */
  predicate TimerWins(t: int, delay: int, deadline: int, timerFirst: bool) {
    var fires, expires := Later(t, t + delay), Later(t, deadline);
    fires < expires || (fires == expires && timerFirst)
  }

  /** The loop from a given attempt on. */
  function Retry<T>(t: int, deadline: int, attempt: nat, total: int, waited: int, world: nat -> Try<T>): Report<T>
    requires 1 <= attempt
    decreases total - attempt
  {
    if attempt > total then Report(None, attempt - 1, waited, t) else
    var u := t + world(attempt).took;
    if world(attempt).value.Some? then Report(world(attempt).value, attempt, waited, u)
    else if attempt < total then
      var delay := Delay(attempt);
      if TimerWins(u, delay, deadline, world(attempt).timerFirst) then
        Retry(Later(u, u + delay), deadline, attempt + 1, total, waited + Later(0, delay), world)
      else Report(None, attempt, waited, Later(u, deadline))
    else Report(None, attempt, waited, u)
  }

  /** The retry loop around the LLM call.  world(k) is the k-th attempt, timed and with its outcome. */
  method ExtractWithRetry<T>(start: int, deadline: int, maxRetries: int, world: nat -> Try<T>)
      returns (value: Option<T>, attempts: nat, ghost waited: int, at: int)
    ensures var r := Retry(start, deadline, 1, Wrap(maxRetries + 1), 0, world);
            value == r.value && attempts == r.attempts && at == r.at
    ensures waited == Retry(start, deadline, 1, Wrap(maxRetries + 1), 0, world).waited
  {
    var total := Wrap(maxRetries + 1);
    var attempt: nat := 1;
    attempts, waited, at := 0, 0, start;
    while attempt <= total
      invariant 1 <= attempt && attempts == attempt - 1
      invariant Retry(at, deadline, attempt, total, waited, world) == Retry(start, deadline, 1, total, 0, world)
      decreases total - attempt
    {
      attempts := attempt;
      at := at + world(attempt).took;
      if world(attempt).value.Some? {
        return world(attempt).value, attempts, waited, at;
      }
      if attempt < total {
        var delay := Delay(attempt);
        if TimerWins(at, delay, deadline, world(attempt).timerFirst) {
          at := Later(at, at + delay);
          waited := waited + Later(0, delay);
        } else {
          at := Later(at, deadline);
          return None, attempts, waited, at;
        }
      } else {
        return None, attempts, waited, at;
      }
      attempt := attempt + 1;
    }
    return None, attempts, waited, at;
  }

  // ---- Powers of two ----

  lemma {:induction false} Pow2Monotone(j: nat, k: nat)
    requires j <= k
    ensures Pow2(j) <= Pow2(k)
    decreases k
  {
    if j < k { Pow2Monotone(j, k - 1); }
  }

  lemma Pow2Values()
    ensures Pow2(33) == 0x2_0000_0000 && Pow2(34) == 0x4_0000_0000
  {
    assert Pow2(8) == 0x100;
    assert Pow2(16) == 0x1_0000;
    assert Pow2(24) == 0x100_0000;
    assert Pow2(32) == 0x1_0000_0000;
  }

  /** The largest e with Pow2(e) <= n. */
  function Log2(n: nat): nat
    requires 1 <= n
  {
    if n == 1 then 0 else 1 + Log2(n / 2)
  }

  lemma {:induction false} Log2Brackets(n: nat)
    requires 1 <= n
    ensures Pow2(Log2(n)) <= n < Pow2(Log2(n) + 1)
  {
    if n > 1 { Log2Brackets(n / 2); }
  }

  // ---- The shift and the multiplication ----

  lemma WrapSmall(x: int)
    requires -INT64 <= x < INT64
    ensures Wrap(x) == x
  {
  }

  /** The computed delay is the intended one exactly up to the thirty-fourth attempt. */
  lemma DelayExactly(attempt: nat)
    requires 1 <= attempt
    ensures Delay(attempt) == Pow2(attempt - 1) * SECOND <==> attempt <= 34
  {
    Pow2Values();
    var p := Pow2(attempt - 1);
    if attempt <= 34 {
      Pow2Monotone(attempt - 1, 33);
      assert p * SECOND <= 0x2_0000_0000 * SECOND < INT64;
      WrapSmall(p);
      WrapSmall(p * SECOND);
    } else {
      Pow2Monotone(34, attempt - 1);
      assert p * SECOND >= 0x4_0000_0000 * SECOND >= INT64;
    }
  }

  // ---- The budget ----

  /** Seconds waited before an attempt, if every delay is as intended. */
  function WaitedBefore(attempt: nat): int
    requires 1 <= attempt
  {
    (Pow2(attempt - 1) - 1) * SECOND
  }

  lemma ReachableDelay(attempt: nat, deadline: int)
    requires 1 <= attempt && deadline < INT64 && (attempt >= 2 ==> WaitedBefore(attempt) <= deadline)
    ensures attempt <= 34 && Delay(attempt) == Pow2(attempt - 1) * SECOND
    ensures WaitedBefore(attempt + 1) == WaitedBefore(attempt) + Delay(attempt)
  {
    Pow2Values();
    if attempt > 34 { Pow2Monotone(34, attempt - 1); }
    DelayExactly(attempt);
  }

  /** What holds on reaching an attempt holds of the whole report. */
  lemma {:induction false} RetryBudget<T>(start: int, t: int, deadline: int, attempt: nat, total: int,
                                          waited: int, world: nat -> Try<T>)
    requires 0 <= start && deadline < INT64 && 1 <= attempt && (attempt <= total || attempt == 1)
    requires waited == WaitedBefore(attempt) && start + waited <= t && (attempt >= 2 ==> t <= deadline)
    ensures var r := Retry(t, deadline, attempt, total, waited, world);
            && (r.attempts >= 1 ==> r.waited == WaitedBefore(r.attempts))
            && start + r.waited <= r.at
            && (r.attempts >= 2 ==> start + r.waited <= deadline)
            && r.attempts <= Later(0, total)
    decreases total - attempt
  {
    hide Delay, Pow2;
    if attempt < total && world(attempt).value.None? {
      var u := t + world(attempt).took;
      ReachableDelay(attempt, deadline);
      var delay := Delay(attempt);
      if TimerWins(u, delay, deadline, world(attempt).timerFirst) {
        RetryBudget(start, u + delay, deadline, attempt + 1, total, waited + delay, world);
      }
    }
  }

  /** Before its last attempt the loop has waited exactly 2^(k-1) - 1 seconds, and k is at most log2(T + 1) + 1. */
  lemma AttemptsWithinDeadline<T>(start: int, deadline: int, total: int, world: nat -> Try<T>)
    requires 0 <= start && start <= deadline < INT64
    ensures var r := Retry(start, deadline, 1, total, 0, world);
            && (r.attempts >= 1 ==> r.waited == (Pow2(r.attempts - 1) - 1) * SECOND)
            && r.attempts <= Log2((deadline - start) / SECOND + 1) + 1
            && r.attempts <= 34
  {
    RetryBudget(start, start, deadline, 1, total, 0, world);
    hide Retry;
    var r := Retry(start, deadline, 1, total, 0, world);
    if r.attempts >= 2 {
      ReachableDelay(r.attempts, deadline);
      AttemptsFromWait(deadline - start, r.attempts);
    }
  }

  lemma AttemptsFromWait(left: int, attempts: nat)
    requires 1 <= attempts && WaitedBefore(attempts) <= left
    ensures attempts <= Log2(left / SECOND + 1) + 1
  {
    var seconds := left / SECOND;
    assert Pow2(attempts - 1) - 1 <= seconds;
    Log2Brackets(seconds + 1);
    hide Log2, Pow2;
    if attempts - 1 > Log2(seconds + 1) { Pow2Monotone(Log2(seconds + 1) + 1, attempts - 1); }
  }

  /** Attempts that fail at once, with the timer winning ties. */
  function Hopeless<T>(): nat -> Try<T> {
    k => Try(0, None, true)
  }

  lemma {:induction false} HopelessReaches<T>(deadline: int, attempt: nat, total: int)
    requires 0 <= deadline < INT64 && 1 <= attempt <= total
    requires WaitedBefore(attempt) <= deadline
    ensures var r := Retry<T>(WaitedBefore(attempt), deadline, attempt, total, WaitedBefore(attempt), Hopeless<T>());
            && attempt <= r.attempts <= total
            && (r.attempts < total ==> deadline < WaitedBefore(r.attempts + 1))
    decreases total - attempt
  {
    ReachableDelay(attempt, deadline);
    if attempt < total && WaitedBefore(attempt + 1) <= deadline {
      HopelessReaches<T>(deadline, attempt + 1, total);
    }
  }

  lemma AttemptsFilled(left: int, attempts: nat)
    requires 0 <= left < WaitedBefore(attempts + 1)
    ensures Log2(left / SECOND + 1) + 1 <= attempts
  {
    var seconds := left / SECOND;
    assert seconds < Pow2(attempts) - 1;
    Log2Brackets(seconds + 1);
    hide Log2, Pow2;
    if attempts < Log2(seconds + 1) + 1 { Pow2Monotone(attempts, Log2(seconds + 1)); }
  }

  /** The bound is attained: a loop whose attempts all fail at once makes every attempt the deadline allows. */
  lemma BudgetAttained<T>(deadline: int, total: int)
    requires 0 <= deadline < INT64 && 1 <= total
    ensures var most := Log2(deadline / SECOND + 1) + 1;
            Retry<T>(0, deadline, 1, total, 0, Hopeless<T>()).attempts == if total < most then total else most
  {
    var seconds := deadline / SECOND;
    HopelessReaches<T>(deadline, 1, total);
    AttemptsWithinDeadline(0, deadline, total, Hopeless<T>());
    hide Retry, Log2;
    var r := Retry<T>(0, deadline, 1, total, 0, Hopeless<T>());
    if r.attempts < total { AttemptsFilled(deadline, r.attempts); }
  }

  /** Extraction and export share one deadline: what both loops have waited fits in it together. */
  lemma SharedDeadline<T, U>(deadline: int, llmTotal: int, sheetTotal: int, llm: nat -> Try<T>, sheet: nat -> Try<U>)
    requires 0 <= deadline < INT64
    ensures var first := Retry(0, deadline, 1, llmTotal, 0, llm);
            var second := Retry(first.at, deadline, 1, sheetTotal, 0, sheet);
            first.attempts >= 1 && second.attempts >= 2 ==>
              (Pow2(first.attempts - 1) - 1 + (Pow2(second.attempts - 1) - 1)) * SECOND <= deadline
  {
    RetryBudget(0, 0, deadline, 1, llmTotal, 0, llm);
    var first := Retry(0, deadline, 1, llmTotal, 0, llm);
    if first.attempts >= 1 {
      RetryBudget(first.at, first.at, deadline, 1, sheetTotal, 0, sheet);
    }
  }

  // ---- When the loop goes on and when it stops ----

  /** When attempt k begins if every wait before it runs its course: the time the attempts took,
      and a wait of one second, two, four and so on after each. */
  function Begins<T>(start: int, world: nat -> Try<T>, k: nat): int
    requires 1 <= k
  {
    if k == 1 then start
    else Begins(start, world, k - 1) + world(k - 1).took + Pow2(k - 2) * SECOND
  }

  /** The first k attempts fail, and the waits after them all end before the deadline. */
  ghost predicate FailsInTime<T>(start: int, deadline: int, world: nat -> Try<T>, k: nat) {
    && (forall i :: 1 <= i <= k ==> world(i).value.None?)
    && (forall i :: 2 <= i <= k + 1 ==> Begins(start, world, i) < deadline)
  }

  lemma {:induction false} BeginsAfterWaits<T>(start: int, world: nat -> Try<T>, k: nat)
    requires 1 <= k
    ensures start + WaitedBefore(k) <= Begins(start, world, k)
    decreases k
  {
    if k > 1 { BeginsAfterWaits(start, world, k - 1); }
  }

  /** Any wait that can end in time is computed as intended. */
  lemma DelayInTime<T>(start: int, deadline: int, world: nat -> Try<T>, k: nat)
    requires 0 <= start && deadline < INT64 && 1 <= k
    requires k >= 2 ==> Begins(start, world, k) <= deadline
    ensures k <= 34 && Delay(k) == Pow2(k - 1) * SECOND
  {
    BeginsAfterWaits(start, world, k);
    ReachableDelay(k, deadline);
  }

  /** With time left the loop goes on, however ties are decided. */
  lemma WaitGoesOn<T>(start: int, deadline: int, total: int, world: nat -> Try<T>, k: nat, waited: int)
    requires 0 <= start && deadline < INT64 && 1 <= k < total
    requires world(k).value.None? && Begins(start, world, k + 1) < deadline
    ensures Retry(Begins(start, world, k), deadline, k, total, waited, world)
         == Retry(Begins(start, world, k + 1), deadline, k + 1, total, waited + Pow2(k - 1) * SECOND, world)
  {
    hide Pow2;
    DelayInTime(start, deadline, world, k);
  }

  lemma BeginsFirst<T>(start: int, world: nat -> Try<T>)
    ensures Begins(start, world, 1) == start
  {
  }

  lemma FailsSooner<T>(start: int, deadline: int, world: nat -> Try<T>, k: nat, j: nat)
    requires FailsInTime(start, deadline, world, k) && j <= k
    ensures FailsInTime(start, deadline, world, j)
  {
  }

  lemma WaitedMore(k: nat)
    requires 1 <= k
    ensures WaitedBefore(k + 1) == WaitedBefore(k) + Pow2(k - 1) * SECOND && WaitedBefore(1) == 0
  {
  }

  lemma {:induction false} ReachesAttempt<T>(start: int, deadline: int, total: int, world: nat -> Try<T>, k: nat)
    requires 0 <= start && deadline < INT64 && 1 <= k <= total && FailsInTime(start, deadline, world, k - 1)
    ensures Retry(start, deadline, 1, total, 0, world)
         == Retry(Begins(start, world, k), deadline, k, total, WaitedBefore(k), world)
    decreases k
  {
    hide Retry, Begins, WaitedBefore;
    if k > 1 {
      assert Begins(start, world, k) < deadline && world(k - 1).value.None?;
      FailsSooner(start, deadline, world, k - 1, k - 2);
      WaitedMore(k - 1);
      ReachesAttempt(start, deadline, total, world, k - 1);
      WaitGoesOn(start, deadline, total, world, k - 1, WaitedBefore(k - 1));
    } else {
      WaitedMore(1);
      assert Begins(start, world, 1) == start by { BeginsFirst(start, world); }
    }
  }

  /** If attempts fail and their waits end before the deadline, the next attempt is made; if it succeeds
      its value is the answer. */
  lemma SucceedsInTime<T>(start: int, deadline: int, total: int, world: nat -> Try<T>, k: nat)
    requires 0 <= start && deadline < INT64 && 1 <= k <= total && FailsInTime(start, deadline, world, k - 1)
    requires world(k).value.Some?
    ensures Retry(start, deadline, 1, total, 0, world)
         == Report(world(k).value, k, (Pow2(k - 1) - 1) * SECOND, Begins(start, world, k) + world(k).took)
  {
    ReachesAttempt(start, deadline, total, world, k);
  }

  /** If all attempts fail and all but the last are waited out, they are all there are, and there is no last wait. */
  lemma GivesUpAfterAll<T>(start: int, deadline: int, total: int, world: nat -> Try<T>)
    requires 0 <= start && deadline < INT64 && 1 <= total && FailsInTime(start, deadline, world, total - 1)
    requires world(total).value.None?
    ensures Retry(start, deadline, 1, total, 0, world)
         == Report(None, total, (Pow2(total - 1) - 1) * SECOND, Begins(start, world, total) + world(total).took)
  {
    ReachesAttempt(start, deadline, total, world, total);
  }

  /** If a wait would end after the deadline the loop stops, with no further attempt, at the deadline
      or at once if that has passed. */
  lemma StopsAtDeadline<T>(start: int, deadline: int, total: int, world: nat -> Try<T>, k: nat)
    requires 0 <= start && deadline < INT64 && 1 <= k < total && FailsInTime(start, deadline, world, k - 1)
    requires world(k).value.None? && deadline < Begins(start, world, k + 1)
    ensures var failed := Begins(start, world, k) + world(k).took;
            Retry(start, deadline, 1, total, 0, world)
            == Report(None, k, (Pow2(k - 1) - 1) * SECOND, if failed < deadline then deadline else failed)
  {
    ReachesAttempt(start, deadline, total, world, k);
    DelayInTime(start, deadline, world, k);
  }

  /** A wait that ends exactly at the deadline goes either way: on to the next attempt, or no further. */
  lemma TieGoesEitherWay<T>(start: int, deadline: int, total: int, world: nat -> Try<T>, k: nat)
    requires 0 <= start && deadline < INT64 && 1 <= k < total && FailsInTime(start, deadline, world, k - 1)
    requires world(k).value.None? && deadline == Begins(start, world, k + 1)
    ensures Retry(start, deadline, 1, total, 0, world)
         == if world(k).timerFirst then Retry(deadline, deadline, k + 1, total, (Pow2(k) - 1) * SECOND, world)
            else Report(None, k, (Pow2(k - 1) - 1) * SECOND, deadline)
  {
    ReachesAttempt(start, deadline, total, world, k);
    DelayInTime(start, deadline, world, k);
  }

  /** Negative retries, and the one number of retries that one more attempt makes wrap, give no attempt at all;
      any other number gives at least one. */
  lemma NoAttempts<T>(start: int, deadline: int, maxRetries: int, world: nat -> Try<T>)
    requires -INT64 <= maxRetries < INT64
    ensures var r := Retry(start, deadline, 1, Wrap(maxRetries + 1), 0, world);
            if 0 <= maxRetries < INT64 - 1 then Wrap(maxRetries + 1) == maxRetries + 1 && 1 <= r.attempts
            else r == Report(None, 0, 0, start)
  {
    var total := Wrap(maxRetries + 1);
    hide Retry;
    if 1 <= total {
      AtLeastOne(start, deadline, 1, total, 0, world);
    } else {
      NotEvenOne(start, deadline, total, world);
    }
  }

  lemma {:induction false} AtLeastOne<T>(t: int, deadline: int, attempt: nat, total: int, waited: int,
                                         world: nat -> Try<T>)
    requires 1 <= attempt <= total
    ensures attempt <= Retry(t, deadline, attempt, total, waited, world).attempts
    decreases total - attempt
  {
    hide Delay, TimerWins;
    var u, delay := t + world(attempt).took, Delay(attempt);
    if attempt < total && world(attempt).value.None? && TimerWins(u, delay, deadline, world(attempt).timerFirst) {
      AtLeastOne(Later(u, u + delay), deadline, attempt + 1, total, waited + Later(0, delay), world);
    }
  }

  lemma NotEvenOne<T>(t: int, deadline: int, total: int, world: nat -> Try<T>)
    requires total < 1
    ensures Retry(t, deadline, 1, total, 0, world) == Report(None, 0, 0, t)
  {
  }

  /** Two worlds that differ only in how ties are decided. */
  ghost predicate SameButTies<T(!new)>(world: nat -> Try<T>, other: nat -> Try<T>) {
    forall k: nat :: world(k).took == other(k).took && world(k).value == other(k).value
  }

  lemma {:induction false} SameBegins<T(!new)>(start: int, world: nat -> Try<T>, other: nat -> Try<T>, k: nat)
    requires 1 <= k && SameButTies(world, other)
    ensures Begins(start, world, k) == Begins(start, other, k)
    decreases k
  {
    if k > 1 { SameBegins(start, world, other, k - 1); }
  }

  lemma {:induction false} TiesFrom<T(!new)>(start: int, deadline: int, total: int, world: nat -> Try<T>,
                                             other: nat -> Try<T>, k: nat)
    requires 0 <= start && deadline < INT64 && 1 <= k <= total && SameButTies(world, other)
    requires FailsInTime(start, deadline, world, k - 1)
    requires forall i :: k < i <= total ==> Begins(start, world, i) != deadline
    ensures Retry(start, deadline, 1, total, 0, world) == Retry(start, deadline, 1, total, 0, other)
    decreases total - k
  {
    hide Retry;
    forall i: nat | 1 <= i <= k ensures Begins(start, other, i) == Begins(start, world, i) {
      SameBegins(start, world, other, i);
    }
    assert FailsInTime(start, deadline, other, k - 1);
    if world(k).value.Some? {
      SucceedsInTime(start, deadline, total, world, k);
      SucceedsInTime(start, deadline, total, other, k);
    } else if k == total {
      GivesUpAfterAll(start, deadline, total, world);
      GivesUpAfterAll(start, deadline, total, other);
    } else {
      SameBegins(start, world, other, k + 1);
      if deadline < Begins(start, world, k + 1) {
        StopsAtDeadline(start, deadline, total, world, k);
        StopsAtDeadline(start, deadline, total, other, k);
      } else {
        TiesFrom(start, deadline, total, world, other, k + 1);
      }
    }
  }

  /** Unless some wait ends exactly at the deadline, nothing depends on which of two ready channels is picked. */
  lemma OnlyTiesDepend<T(!new)>(start: int, deadline: int, total: int, world: nat -> Try<T>, other: nat -> Try<T>)
    requires 0 <= start && deadline < INT64 && SameButTies(world, other)
    requires forall i :: 1 < i <= total ==> Begins(start, world, i) != deadline
    ensures Retry(start, deadline, 1, total, 0, world) == Retry(start, deadline, 1, total, 0, other)
  {
    if 1 <= total { TiesFrom(start, deadline, total, world, other, 1); }
  }
}
