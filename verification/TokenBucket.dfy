/** The token bucket of the load tests, over exact reals. */
module TokenBucket {

  const MIN_RATE := 0.001
  const MIN_SLEEP := 0.01

  function Min(a: real, b: real): real {
    if a <= b then a else b
  }

  function Max(a: real, b: real): real {
    if a >= b then a else b
  }

  /** Tokens after the clock moved on by `elapsed`. */
  function Refilled(tokens: real, capacity: real, rate: real, elapsed: real): real {
    Min(capacity, tokens + Gain(elapsed, rate))
  }

  function Gain(elapsed: real, rate: real): real {
    elapsed * rate
  }

  class Bucket {
    const rate: real
    const capacity: int
    var tokens: real
    var lastRefill: real

    constructor (ratePerSecond: real, burstGiven: bool, burst: int, now: real)
      ensures rate == Max(ratePerSecond, MIN_RATE)
      ensures capacity == if burstGiven then burst else DefaultCapacity(ratePerSecond)
      ensures tokens == capacity as real && lastRefill == now
    {
      rate := Max(ratePerSecond, MIN_RATE);
      var c := if burstGiven then burst else DefaultCapacity(ratePerSecond);
      capacity := c;
      tokens := c as real;
      lastRefill := now;
    }

    ghost function View(): State
      reads this
    {
      State(tokens, lastRefill)
    }

    /** One pass through the lock: refill, then take a token or say how long to wait. */
    method Pass(now: real) returns (granted: bool, waitFor: real)
      requires rate > 0.0
      modifies this
      ensures lastRefill == now
      ensures granted <==> Refilled(old(tokens), capacity as real, rate, now - old(lastRefill)) >= 1.0
      ensures tokens == Refilled(old(tokens), capacity as real, rate, now - old(lastRefill)) - (if granted then 1.0 else 0.0)
      ensures !granted ==> waitFor > 0.0 && tokens + Gain(waitFor, rate) == 1.0
      ensures View() == Next(old(View()), capacity as real, rate, now)
      ensures granted == Grants(old(View()), capacity as real, rate, now)
    {
      var elapsed := now - lastRefill;
      lastRefill := now;
      tokens := Refilled(tokens, capacity as real, rate, elapsed);
      waitFor := 0.0;
      granted := tokens >= 1.0;
      if granted {
        tokens := tokens - 1.0;
      } else {
        waitFor := (1.0 - tokens) / rate;
        Quotient(1.0 - tokens, rate);
      }
    }

    /** An acquire that nobody else interferes with.  Before pass i + 1 the clock
        has moved on by the sleep and some `lag(i)`.  With room for one token it
        takes at most two passes. */
    method Acquire(start: real, lag: nat -> real) returns (passes: nat, now: real)
      requires rate > 0.0 && capacity >= 1
      requires lastRefill <= start && forall i :: lag(i) >= 0.0
      modifies this
      ensures 1 <= passes <= 2
      ensures now >= start && lastRefill == now
      ensures passes == 1 <==> Refilled(old(tokens), capacity as real, rate, start - old(lastRefill)) >= 1.0
    {
      ghost var first := Refilled(tokens, capacity as real, rate, start - lastRefill);
      passes := 0;
      now := start;
      var granted := false;
      while !granted
        invariant passes == 0 ==> !granted && now == start && tokens == old(tokens) && lastRefill == old(lastRefill)
        invariant passes > 0 ==> start <= lastRefill <= now && (granted ==> lastRefill == now)
        invariant passes == 1 ==> (granted <==> first >= 1.0)
        invariant passes == 1 && !granted ==> Refilled(tokens, capacity as real, rate, now - lastRefill) >= 1.0
        invariant passes > 1 ==> passes == 2 && granted && first < 1.0
        decreases 2 - passes
      {
        var waitFor;
        granted, waitFor := Pass(now);
        if !granted {
          var sleep := Max(waitFor, MIN_SLEEP) + lag(passes);
          LongEnough(sleep, waitFor, rate);
          now := now + sleep;
          assert now - lastRefill == sleep;
        }
        passes := passes + 1;
      }
    }
  }

  lemma Quotient(x: real, rate: real)
    requires rate > 0.0 && x > 0.0
    ensures Gain(x / rate, rate) == x && x / rate > 0.0
  {
  }

  lemma LongEnough(sleep: real, waitFor: real, rate: real)
    requires sleep >= waitFor && rate > 0.0
    ensures Gain(sleep, rate) >= Gain(waitFor, rate)
  {
  }

  function DefaultCapacity(ratePerSecond: real): int {
    var whole := if ratePerSecond >= 0.0 then ratePerSecond.Floor else -((-ratePerSecond).Floor);
    if whole > 1 then whole else 1
  }

  /** The capacity that goes with a rate: the rate cut to a whole number, and at least 1. */
  lemma DefaultCapacityIs(ratePerSecond: real)
    ensures var c := DefaultCapacity(ratePerSecond);
            c >= 1 && (ratePerSecond < 2.0 ==> c == 1)
            && (ratePerSecond >= 1.0 ==> c as real <= ratePerSecond < c as real + 1.0)
  {
  }

  // ----- any number of callers: passes in clock order -----

  datatype State = State(tokens: real, lastRefill: real)

  function Next(s: State, capacity: real, rate: real, now: real): State {
    var t := Refilled(s.tokens, capacity, rate, now - s.lastRefill);
    State(if t >= 1.0 then t - 1.0 else t, now)
  }

  predicate Grants(s: State, capacity: real, rate: real, now: real) {
    Refilled(s.tokens, capacity, rate, now - s.lastRefill) >= 1.0
  }

  function Run(s: State, capacity: real, rate: real, times: seq<real>): State {
    if times == [] then s
    else Next(Run(s, capacity, rate, times[..|times| - 1]), capacity, rate, times[|times| - 1])
  }

  function Granted(s: State, capacity: real, rate: real, times: seq<real>): nat {
    if times == [] then 0
    else
      var init := times[..|times| - 1];
      Granted(s, capacity, rate, init)
      + if Grants(Run(s, capacity, rate, init), capacity, rate, times[|times| - 1]) then 1 else 0
  }

  predicate InOrder(from: real, times: seq<real>) {
    && (forall t <- times :: from <= t)
    && (forall i, j :: 0 <= i < j < |times| ==> times[i] <= times[j])
  }

  function Last(from: real, times: seq<real>): real {
    if times == [] then from else times[|times| - 1]
  }

  lemma PartsInOrder(from: real, a: seq<real>, b: seq<real>)
    requires InOrder(from, a + b)
    ensures InOrder(from, a) && InOrder(Last(from, a), b)
  {
    var all := a + b;
    assert forall i | 0 <= i < |a| :: a[i] == all[i];
    assert forall i | 0 <= i < |b| :: b[i] == all[|a| + i];
    forall t <- b ensures Last(from, a) <= t {
      var i :| 0 <= i < |b| && b[i] == t;
      assert all[|a| + i] in all;
    }
    forall t <- a ensures from <= t {
      assert t in all;
    }
  }

  lemma Earned(rate: real, a: real, b: real, c: real)
    requires rate > 0.0 && b <= c
    ensures Gain(c - a, rate) == Gain(b - a, rate) + Gain(c - b, rate)
    ensures Gain(c - b, rate) >= 0.0 && Gain(0.0, rate) == 0.0
  {
  }

  predicate Within(s: State, capacity: real) {
    0.0 <= s.tokens <= capacity
  }

  lemma BalanceStep(s: State, capacity: real, rate: real, now: real)
    requires Within(s, capacity) && rate > 0.0 && s.lastRefill <= now
    ensures var r := Next(s, capacity, rate, now);
            && Within(r, capacity)
            && r.tokens + (if Grants(s, capacity, rate, now) then 1.0 else 0.0) <= s.tokens + Gain(now - s.lastRefill, rate)
  {
    Earned(rate, s.lastRefill, s.lastRefill, now);
  }

  /** Tokens stay within the bucket, and what was granted was either there at the
      beginning or has been refilled since. */
  lemma {:induction false} Balance(s: State, capacity: real, rate: real, times: seq<real>)
    requires Within(s, capacity) && rate > 0.0 && InOrder(s.lastRefill, times)
    ensures var r := Run(s, capacity, rate, times);
            && Within(r, capacity) && r.lastRefill == Last(s.lastRefill, times)
            && Granted(s, capacity, rate, times) as real + r.tokens <= s.tokens + Gain(r.lastRefill - s.lastRefill, rate)
  {
    if times != [] {
      var init, now := times[..|times| - 1], times[|times| - 1];
      assert times == init + [now] && now in [now];
      PartsInOrder(s.lastRefill, init, [now]);
      Balance(s, capacity, rate, init);
      var mid := Run(s, capacity, rate, init);
      BalanceStep(mid, capacity, rate, now);
      Earned(rate, s.lastRefill, mid.lastRefill, now);
    }
  }

  lemma RefillAgain(s: State, capacity: real, rate: real, now: real)
    ensures var filled := State(Refilled(s.tokens, capacity, rate, now - s.lastRefill), now);
            && Next(s, capacity, rate, now) == Next(filled, capacity, rate, now)
            && Grants(s, capacity, rate, now) == Grants(filled, capacity, rate, now)
  {
    assert Gain(now - now, rate) == 0.0;
  }

  /** Refilling at the moment of the first pass changes nothing. */
  lemma {:induction false} FirstRefill(s: State, capacity: real, rate: real, times: seq<real>)
    requires times != []
    ensures var filled := State(Refilled(s.tokens, capacity, rate, times[0] - s.lastRefill), times[0]);
            && Run(s, capacity, rate, times) == Run(filled, capacity, rate, times)
            && Granted(s, capacity, rate, times) == Granted(filled, capacity, rate, times)
  {
    var init := times[..|times| - 1];
    if init != [] {
      assert init[0] == times[0];
      FirstRefill(s, capacity, rate, init);
    } else {
      RefillAgain(s, capacity, rate, times[0]);
    }
  }

  /** In any stretch of passes, whoever made them and whatever went before, no
      more are granted than the capacity plus the rate times the length. */
  lemma AtMostCapacityPlusRate(s: State, capacity: real, rate: real, before: seq<real>, window: seq<real>)
    requires Within(s, capacity) && rate > 0.0
    requires window != [] && InOrder(s.lastRefill, before + window)
    ensures Granted(Run(s, capacity, rate, before), capacity, rate, window) as real
         <= capacity + Gain(window[|window| - 1] - window[0], rate)
  {
    PartsInOrder(s.lastRefill, before, window);
    Balance(s, capacity, rate, before);
    var mid := Run(s, capacity, rate, before);
    assert window[0] in window;
    WindowBound(mid, capacity, rate, window);
  }

  lemma WindowBound(s: State, capacity: real, rate: real, window: seq<real>)
    requires Within(s, capacity) && rate > 0.0 && window != [] && InOrder(s.lastRefill, window) && s.lastRefill <= window[0]
    ensures Granted(s, capacity, rate, window) as real <= capacity + Gain(window[|window| - 1] - window[0], rate)
  {
    var filled := State(Refilled(s.tokens, capacity, rate, window[0] - s.lastRefill), window[0]);
    Earned(rate, s.lastRefill, s.lastRefill, window[0]);
    FirstRefill(s, capacity, rate, window);
    Balance(filled, capacity, rate, window);
  }

  /** With room for less than one token nothing is ever granted, so an acquire
      needs a capacity of at least 1. */
  lemma {:induction false} NoRoomNoGrant(s: State, capacity: real, rate: real, times: seq<real>)
    requires capacity < 1.0
    ensures Granted(s, capacity, rate, times) == 0
  {
    if times != [] {
      NoRoomNoGrant(s, capacity, rate, times[..|times| - 1]);
    }
  }
}
