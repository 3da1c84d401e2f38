// The token bucket that paces calls to the cloud API.
module RateLimiter {
  // A monotonic clock: readings never go back, and a sleep lasts at least as long as asked.
  class Clock {
    var now: real

    constructor ()
      ensures now == 0.0
    {
      now := 0.0;
    }

    method Read() returns (t: real)
      modifies this
      ensures t == now >= old(now)
    {
      var passed: real :| passed >= 0.0;
      now := now + passed;
      t := now;
    }

    method Sleep(wait: real)
      requires wait >= 0.0
      modifies this
      ensures now >= old(now) + wait
    {
      var extra: real :| extra >= 0.0;
      now := now + wait + extra;
    }
  }

  // What has been refilled between two times.
  function Refilled(rate: real, from_: real, to: real): real {
    rate * (to - from_)
  }

  lemma RefilledAdds(rate: real, a: real, b: real, c: real)
    ensures Refilled(rate, a, c) == Refilled(rate, a, b) + Refilled(rate, b, c)
  {
    assert rate * (c - a) == rate * (b - a) + rate * (c - b);
  }

  lemma RefilledPositive(rate: real, a: real, b: real)
    requires rate > 0.0 && a <= b
    ensures Refilled(rate, a, b) >= 0.0
  {}

  // Grants i .. j (inclusive) fit the burst capacity and what is refilled between them.
  ghost predicate Paced(grants: seq<real>, capacity: int, rate: real) {
    forall i, j :: 0 <= i <= j < |grants| ==> (j - i + 1) as real <= capacity as real + Refilled(rate, grants[i], grants[j])
  }

  // The tokens left and the grants since the i-th fit the capacity and what has been refilled since.
  ghost predicate PaidFor(grants: seq<real>, tokens: real, capacity: int, rate: real, last: real) {
    forall i :: 0 <= i < |grants| ==>
      tokens + (|grants| - i) as real <= capacity as real + Refilled(rate, grants[i], last)
  }

  ghost predicate Sorted(times: seq<real>) {
    forall i, j :: 0 <= i <= j < |times| ==> times[i] <= times[j]
  }

  class RateLimiter {
    const rate: real
    const capacity: int
    const clock: Clock
    var tokens: real
    var lastRefill: real
    ghost var grants: seq<real>  // when each acquire was granted, oldest first

    ghost predicate Valid()
      reads this, clock
    {
      && rate > 0.0 && capacity >= 1
      && 0.0 <= tokens <= capacity as real
      && lastRefill <= clock.now
      && Sorted(grants + [lastRefill])
      && PaidFor(grants, tokens, capacity, rate, lastRefill)
      && Paced(grants, capacity, rate)
    }

    constructor (rate: real, capacity: int, clock: Clock)
      requires rate > 0.0 && capacity >= 1
      modifies clock
      ensures Valid() && grants == [] && tokens == capacity as real
      ensures this.rate == rate && this.capacity == capacity && this.clock == clock
    {
      var t := clock.Read();
      this.rate, this.capacity, this.clock := rate, capacity, clock;
      tokens, lastRefill := capacity as real, t;
      grants := [];
    }

    method Refill()
      requires Valid()
      modifies this`tokens, this`lastRefill, clock
      ensures Valid()
      ensures lastRefill == clock.now >= old(clock.now)
      ensures tokens == Min(capacity as real, old(tokens) + Refilled(rate, old(lastRefill), lastRefill))
      ensures tokens >= Min(old(tokens), 1.0)
    {
      var t := clock.Read();
      var elapsed := t - lastRefill;
      RefillPays(grants, tokens, capacity, rate, lastRefill, t);
      tokens := Min(capacity as real, tokens + elapsed * rate);
      lastRefill := t;
    }

    // One grant: at once, or after a single sleep.
    method Acquire() returns (sleeps: nat)
      requires Valid()
      modifies this`tokens, this`lastRefill, this`grants, clock
      ensures Valid()
      ensures grants == old(grants) + [lastRefill] && lastRefill >= old(clock.now)
      ensures tokens == Min(capacity as real, old(tokens) + Refilled(rate, old(lastRefill), lastRefill)) - 1.0
      ensures sleeps <= 1 && (old(tokens) >= 1.0 ==> sleeps == 0)
    {
      sleeps := 0;
      while true
        invariant Valid() && grants == old(grants) && clock.now >= old(clock.now)
        invariant sleeps <= 1 && (sleeps == 1 ==> old(tokens) < 1.0)
        invariant sleeps == 0 ==> tokens == old(tokens) && lastRefill == old(lastRefill)
        invariant sleeps == 1 ==> tokens == Min(capacity as real, old(tokens) + Refilled(rate, old(lastRefill), lastRefill))
        invariant sleeps == 1 ==> tokens < 1.0 && tokens + Refilled(rate, lastRefill, clock.now) >= 1.0
        decreases 1 - sleeps
      {
        ghost var t, last, woken := tokens, lastRefill, clock.now;
        Refill();
        if sleeps == 1 {
          Chained(capacity, rate, old(tokens), old(lastRefill), t, last, lastRefill);
          Enough(capacity, rate, t, last, woken, lastRefill);
        }
        if tokens >= 1.0 {
          GrantPays(grants, tokens, capacity, rate, lastRefill);
          tokens := tokens - 1.0;
          grants := grants + [lastRefill];
          return;
        }
        Pause();
        sleeps := sleeps + 1;
      }
    }

    // Sleep until a whole token has been refilled.
    method Pause()
      requires Valid() && tokens < 1.0 && lastRefill == clock.now
      modifies clock
      ensures Valid() && clock.now >= old(clock.now)
      ensures tokens + Refilled(rate, lastRefill, clock.now) >= 1.0
    {
      var wait := (1.0 - tokens) / rate;
      WaitRefills(tokens, rate, wait);
      clock.Sleep(wait);
      RefilledAdds(rate, lastRefill, lastRefill + wait, clock.now);
      RefilledPositive(rate, lastRefill + wait, clock.now);
      assert Refilled(rate, lastRefill, lastRefill + wait) == rate * wait;
    }
  }

  // Two refills in a row, the first of which did not fill the bucket, are one.
  lemma Chained(capacity: int, rate: real, t0: real, last0: real, t1: real, last1: real, last2: real)
    requires rate > 0.0 && capacity >= 1 && last1 <= last2 && t1 < 1.0
    requires t1 == Min(capacity as real, t0 + Refilled(rate, last0, last1))
    ensures Min(capacity as real, t1 + Refilled(rate, last1, last2)) == Min(capacity as real, t0 + Refilled(rate, last0, last2))
  {
    RefilledAdds(rate, last0, last1, last2);
  }

  lemma Enough(capacity: int, rate: real, t: real, last: real, woken: real, now: real)
    requires rate > 0.0 && capacity >= 1 && woken <= now
    requires t + Refilled(rate, last, woken) >= 1.0
    ensures Min(capacity as real, t + Refilled(rate, last, now)) >= 1.0
  {
    RefilledAdds(rate, last, woken, now);
    RefilledPositive(rate, woken, now);
  }

  function Min(a: real, b: real): real {
    if a <= b then a else b
  }

  lemma RefillPays(grants: seq<real>, tokens: real, capacity: int, rate: real, last: real, t: real)
    requires rate > 0.0 && last <= t && 0.0 <= tokens
    requires Sorted(grants + [last]) && PaidFor(grants, tokens, capacity, rate, last)
    ensures (t - last) * rate == Refilled(rate, last, t) >= 0.0
    ensures Sorted(grants + [t])
    ensures forall x :: x <= tokens + Refilled(rate, last, t) ==> PaidFor(grants, x, capacity, rate, t)
  {
    RefilledPositive(rate, last, t);
    forall i | 0 <= i < |grants|
      ensures tokens + Refilled(rate, last, t) + (|grants| - i) as real <= capacity as real + Refilled(rate, grants[i], t)
    {
      RefilledAdds(rate, grants[i], last, t);
    }
    SortedLater(grants, last, t);
  }

  lemma SortedLater(grants: seq<real>, last: real, t: real)
    requires Sorted(grants + [last]) && last <= t
    ensures Sorted(grants + [t]) && Sorted(grants + [last] + [t])
  {
    var was, now, both := grants + [last], grants + [t], grants + [last] + [t];
    forall i, j | 0 <= i <= j < |now| ensures now[i] <= now[j] {
      assert was[i] <= was[j];
    }
    forall i, j | 0 <= i <= j < |both| ensures both[i] <= both[j] {
      if j < |was| { assert was[i] <= was[j]; } else if i < |was| { assert was[i] <= was[|was| - 1]; }
    }
  }

  lemma GrantPays(grants: seq<real>, tokens: real, capacity: int, rate: real, last: real)
    requires Sorted(grants + [last]) && PaidFor(grants, tokens, capacity, rate, last)
    requires Paced(grants, capacity, rate) && 1.0 <= tokens <= capacity as real
    ensures Sorted(grants + [last] + [last])
    ensures PaidFor(grants + [last], tokens - 1.0, capacity, rate, last)
    ensures Paced(grants + [last], capacity, rate)
  {
    SortedLater(grants, last, last);
    var now := grants + [last];
    assert Refilled(rate, last, last) == 0.0;
    forall i | 0 <= i < |now|
      ensures tokens - 1.0 + (|now| - i) as real <= capacity as real + Refilled(rate, now[i], last)
    {
      if i < |grants| { assert now[i] == grants[i]; }
    }
    forall i, j | 0 <= i <= j < |now|
      ensures (j - i + 1) as real <= capacity as real + Refilled(rate, now[i], now[j])
    {
      if j < |grants| { assert now[i] == grants[i] && now[j] == grants[j]; }
    }
  }

  lemma WaitRefills(tokens: real, rate: real, wait: real)
    requires rate > 0.0 && tokens < 1.0 && wait == (1.0 - tokens) / rate
    ensures wait >= 0.0 && tokens + rate * wait == 1.0
  {}

  // ----- what pacing means for an interval of time -----

  // How many grants lie in [from, to].
  function Between(grants: seq<real>, from_: real, to: real): nat {
    if grants == [] then 0
    else Between(grants[..|grants| - 1], from_, to) +
         if from_ <= grants[|grants| - 1] <= to then 1 else 0
  }

  // The grants in an interval are consecutive: i up to but not including j.
  lemma {:induction false} BetweenIsRange(grants: seq<real>, from_: real, to: real) returns (i: nat, j: nat)
    requires Sorted(grants)
    ensures i <= j <= |grants| && Between(grants, from_, to) == j - i
    ensures i < j ==> from_ <= grants[i] && grants[j - 1] <= to
    ensures j < |grants| && i < j ==> grants[|grants| - 1] > to
  {
    if grants == [] {
      return 0, 0;
    }
    var n := |grants| - 1;
    i, j := BetweenIsRange(grants[..n], from_, to);
    if from_ <= grants[n] <= to {
      if i == j { i := n; }
      j := n + 1;
    }
  }

  // Any interval holds at most capacity + rate * length grants.
  lemma RateBound(grants: seq<real>, capacity: int, rate: real, from_: real, to: real)
    requires Paced(grants, capacity, rate) && Sorted(grants) && rate > 0.0 && capacity >= 1 && from_ <= to
    ensures Between(grants, from_, to) as real <= capacity as real + Refilled(rate, from_, to)
  {
    var i, j := BetweenIsRange(grants, from_, to);
    RefilledPositive(rate, from_, to);
    if i < j {
      RefilledAdds(rate, from_, grants[i], to);
      RefilledAdds(rate, grants[i], grants[j - 1], to);
      RefilledPositive(rate, from_, grants[i]);
      RefilledPositive(rate, grants[j - 1], to);
      assert ((j - 1) - i + 1) as real <= capacity as real + Refilled(rate, grants[i], grants[j - 1]);
    }
  }
}
