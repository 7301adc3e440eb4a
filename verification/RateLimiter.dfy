/**
 The limiter as the gateway runs it: token buckets updated in place, held in a
 map that a sweep deletes from.  Each clock reading is a parameter, in the
 order the code takes it; the lock makes each method one atomic step.
 */
module RateLimiting {
  import opened TokenBuckets

  class TokenBucket {
    var tokens: real
    const burst: int
    const rate: real
    var lastFill: real
    var lastUsed: real

    constructor (tokens: real, burst: int, rate: real, lastFill: real, lastUsed: real)
      ensures this.tokens == tokens && this.lastFill == lastFill && this.lastUsed == lastUsed
    {
      this.tokens, this.burst, this.rate, this.lastFill, this.lastUsed := tokens, burst, rate, lastFill, lastUsed;
    }

    ghost function View(): Bucket
      reads this
    {
      Bucket(tokens, lastFill, lastUsed)
    }

    /** The part of Allow that touches one bucket: refill it, then take a token if there is one. */
    method Spend(ghost l: Limits, rate: real, burst: int, now: real) returns (ok: bool, remaining: int)
      requires l.rate == rate && l.burst == burst
      modifies this
      ensures var level := Refill(l, old(View()), now);
              && View() == Bucket(if level < 1.0 then level else level - 1.0, now, now)
              && Answer(ok, remaining) == if level < 1.0 then REFUSED else Answer(true, (level - 1.0).Floor)
    {
      var elapsed := now - lastFill;
      tokens := tokens + elapsed * rate;
      if tokens > burst as real {
        tokens := burst as real;
      }
      lastFill := now;
      lastUsed := now;
      if tokens < 1.0 {
        return false, 0;
      }
      tokens := tokens - 1.0;
      return true, tokens.Floor;
    }
  }

  class RateLimiter {
    var buckets: map<string, TokenBucket>
    const rate: real
    const burst: int

    /** No two IPs share a bucket. */
    ghost predicate Valid()
      reads this
    {
      forall i, j :: i in buckets && j in buckets && i != j ==> buckets[i] != buckets[j]
    }

    ghost function View(): Buckets
      reads this, buckets.Values
    {
      map ip | ip in buckets :: buckets[ip].View()
    }

    constructor (ratePerSec: real, burst: int)
      ensures Valid() && View() == map[]
      ensures rate == ratePerSec && this.burst == burst
    {
      buckets, rate, this.burst := map[], ratePerSec, burst;
    }

    method Allow(ip: string, filled: real, used: real, now: real) returns (ok: bool, remaining: int)
      requires Valid()
      modifies this, buckets.Values
      ensures Valid() && fresh(buckets.Values - old(buckets.Values))
      ensures (View(), Answer(ok, remaining))
           == TokenBuckets.Allow(Limits(rate, burst, IDLE_AGE), old(View()), ip, filled, now)
    {
      hide Earned;
      ghost var was := View();
      if ip !in buckets {
        var opening := new TokenBucket(burst as real, burst, rate, filled, used);
        buckets := buckets[ip := opening];
      }
      var b := buckets[ip];
      ok, remaining := b.Spend(Limits(rate, burst, IDLE_AGE), rate, burst, now);
      assert View() == was[ip := b.View()];
    }

    /** One tick of the cleanup loop. */
    method Sweep(maxAge: real, now: real)
      requires Valid()
      modifies this
      ensures Valid() && buckets.Values <= old(buckets.Values)
      ensures forall id :: id in buckets <==> id in old(buckets) && !(old(buckets[id].lastUsed) < now - maxAge)
      ensures forall id :: id in buckets ==>
                buckets[id] == old(buckets)[id] && buckets[id].View() == old(buckets[id].View())
      ensures View() == Evict(Limits(rate, burst, maxAge), old(View()), now)
    {
      var cutoff := now - maxAge;
      var all := buckets;
      var todo := buckets.Keys;
      while todo != {}
        invariant todo <= all.Keys && buckets.Keys <= all.Keys
        invariant forall id :: id in buckets ==> buckets[id] == all[id]
        invariant forall id :: id in all ==> (id in buckets <==> id in todo || !(all[id].lastUsed < cutoff))
        decreases todo
      {
        var id :| id in todo;
        todo := todo - {id};
        if buckets[id].lastUsed < cutoff {
          buckets := buckets - {id};
        }
      }
    }
  }
}
