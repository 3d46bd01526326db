/** internal/engine/circuit.go: a circuit breaker with capped exponential backoff. */
module Circuit {
  import opened Durations

  datatype CircuitState = Closed | Open | HalfOpen

  /** The fields of a breaker that change. */
  datatype Breaker = Breaker(state: CircuitState, failureCount: nat, lastFailure: int, backoff: int)

  function Min(a: int, b: int): int {
    if a < b then a else b
  }

  function Pow3(n: nat): nat {
    if n == 0 then 1 else 3 * Pow3(n - 1)
  }

  /** One minute times three to the number of failures above the threshold, at most 20, and the cap. */
  function BackoffAfter(failures: int, threshold: int, maxBackoff: int): int
    requires failures >= threshold
  {
    Min(MINUTE * Pow3(Min(failures - threshold, 20)), maxBackoff)
  }

  predicate Attempts(b: Breaker, now: int) {
    b.state.Closed? || (b.state.Open? && Since(now, b.lastFailure) > b.backoff)
  }

  function Attempted(b: Breaker, now: int): Breaker {
    if b.state.Open? && Attempts(b, now) then b.(state := HalfOpen) else b
  }

  function Succeeded(b: Breaker): Breaker {
    b.(failureCount := 0, state := Closed, backoff := 0)
  }

  function Failed(b: Breaker, threshold: int, maxBackoff: int, now: int): Breaker {
    var counted := b.(failureCount := b.failureCount + 1, lastFailure := now);
    if counted.failureCount >= threshold
    then counted.(state := Open, backoff := BackoffAfter(counted.failureCount, threshold, maxBackoff))
    else counted
  }

  class CircuitBreaker {
    var state: CircuitState
    var failureCount: nat
    var lastFailure: int
    var backoffDuration: int
    const maxBackoff: int
    const threshold: int

    constructor (threshold: int, maxBackoff: int)
      ensures View() == New() && this.threshold == threshold && this.maxBackoff == maxBackoff
    {
      state, failureCount, lastFailure, backoffDuration := Closed, 0, 0, 0;
      this.threshold, this.maxBackoff := threshold, maxBackoff;
    }

    function View(): Breaker
      reads this
    {
      Breaker(state, failureCount, lastFailure, backoffDuration)
    }

    method ShouldAttempt(now: int) returns (attempt: bool)
      modifies this`state
      ensures attempt <==> Attempts(old(View()), now)
      ensures View() == Attempted(old(View()), now)
    {
      if state == Closed {
        return true;
      }
      if state == Open && Since(now, lastFailure) > backoffDuration {
        state := HalfOpen;
        return true;
      }
      return false;
    }

    method RecordSuccess()
      modifies this
      ensures View() == Succeeded(old(View()))
    {
      failureCount := 0;
      state := Closed;
      backoffDuration := 0;
    }

    method RecordFailure(now: int)
      modifies this
      ensures View() == Failed(old(View()), threshold, maxBackoff, now)
    {
      failureCount := failureCount + 1;
      lastFailure := now;
      if failureCount >= threshold {
        state := Open;
        var exponent := Min(failureCount - threshold, 20);
        backoffDuration := Min(MINUTE * Pow3(exponent), maxBackoff);
      }
    }
  }

  function New(): Breaker {
    Breaker(Closed, 0, 0, 0)
  }

  // ---------- Runs ----------

  /** One engine cycle of a breaker: it is asked at a time, and the phase, if attempted, ends at another. */
  datatype Tick = Tick(at: int, ok: bool, done: int)

  function Ticked(b: Breaker, threshold: int, maxBackoff: int, t: Tick): Breaker {
    if !Attempts(b, t.at) then b
    else if t.ok then Succeeded(Attempted(b, t.at))
    else Failed(Attempted(b, t.at), threshold, maxBackoff, t.done)
  }

  function After(ticks: seq<Tick>, threshold: int, maxBackoff: int): Breaker {
    if ticks == [] then New()
    else Ticked(After(ticks[..|ticks| - 1], threshold, maxBackoff), threshold, maxBackoff, ticks[|ticks| - 1])
  }

  /** What holds of a breaker between two cycles. */
  predicate Settled(b: Breaker, threshold: int, maxBackoff: int) {
    && !b.state.HalfOpen?
    && (b.state.Closed? <==> b.failureCount < threshold)
    && b.backoff == if b.failureCount < threshold then 0 else BackoffAfter(b.failureCount, threshold, maxBackoff)
  }

  lemma TickedSettled(b: Breaker, threshold: int, maxBackoff: int, t: Tick)
    requires threshold >= 1 && Settled(b, threshold, maxBackoff)
    ensures Settled(Ticked(b, threshold, maxBackoff, t), threshold, maxBackoff)
  {
  }

  /** Between cycles a breaker is never half-open, it is closed exactly below the threshold, and while
      open its backoff is the capped power of three. */
  lemma {:induction false} SettledAfter(ticks: seq<Tick>, threshold: int, maxBackoff: int)
    requires threshold >= 1
    ensures Settled(After(ticks, threshold, maxBackoff), threshold, maxBackoff)
    decreases |ticks|
  {
    if ticks != [] {
      SettledAfter(ticks[..|ticks| - 1], threshold, maxBackoff);
    }
  }

  /** The invariant holds over every run exactly when the threshold is positive. */
  lemma SettledIff(threshold: int, maxBackoff: int)
    ensures (forall ticks: seq<Tick> :: Settled(After(ticks, threshold, maxBackoff), threshold, maxBackoff)) <==> threshold >= 1
  {
    if threshold >= 1 {
      forall ticks: seq<Tick>
        ensures Settled(After(ticks, threshold, maxBackoff), threshold, maxBackoff)
      {
        SettledAfter(ticks, threshold, maxBackoff);
      }
    } else {
      var none: seq<Tick> := [];
      assert After(none, threshold, maxBackoff) == New();
    }
  }

  /** The cycle at position i attempted its phase. */
  predicate AttemptAt(ticks: seq<Tick>, threshold: int, maxBackoff: int, i: nat)
    requires i < |ticks|
  {
    Attempts(After(ticks[..i], threshold, maxBackoff), ticks[i].at)
  }

  /** The failed attempts since the last successful one. */
  function Streak(ticks: seq<Tick>, threshold: int, maxBackoff: int): nat {
    if ticks == [] then 0
    else
      var n := |ticks| - 1;
      if !AttemptAt(ticks, threshold, maxBackoff, n) then Streak(ticks[..n], threshold, maxBackoff)
      else if ticks[n].ok then 0
      else Streak(ticks[..n], threshold, maxBackoff) + 1
  }

  lemma {:induction false} FailuresAreStreak(ticks: seq<Tick>, threshold: int, maxBackoff: int)
    ensures After(ticks, threshold, maxBackoff).failureCount == Streak(ticks, threshold, maxBackoff)
    decreases |ticks|
  {
    if ticks != [] {
      FailuresAreStreak(ticks[..|ticks| - 1], threshold, maxBackoff);
    }
  }

  /** Attempts i and j with none between them. */
  predicate NextAttempt(ticks: seq<Tick>, threshold: int, maxBackoff: int, i: nat, j: nat) {
    && i < j < |ticks|
    && AttemptAt(ticks, threshold, maxBackoff, i) && AttemptAt(ticks, threshold, maxBackoff, j)
    && forall k :: i < k < j ==> !AttemptAt(ticks, threshold, maxBackoff, k)
  }

  lemma {:induction false} IdleKeeps(ticks: seq<Tick>, threshold: int, maxBackoff: int, i: nat, j: nat)
    requires i < j <= |ticks| && forall k :: i < k < j ==> !AttemptAt(ticks, threshold, maxBackoff, k)
    ensures After(ticks[..j], threshold, maxBackoff) == After(ticks[..i + 1], threshold, maxBackoff)
    decreases j
  {
    if i + 1 < j {
      IdleKeeps(ticks, threshold, maxBackoff, i, j - 1);
      assert ticks[..j][..j - 1] == ticks[..j - 1];
      assert !AttemptAt(ticks, threshold, maxBackoff, j - 1);
    }
  }

  /** In every run the next attempt after a failure that left f failures in a row, at least the threshold,
      comes more than the backoff for f failures after that failure. */
  lemma AttemptsSeparated(ticks: seq<Tick>, threshold: int, maxBackoff: int, i: nat, j: nat)
    requires threshold >= 1 && maxBackoff >= 0
    requires NextAttempt(ticks, threshold, maxBackoff, i, j)
    requires !ticks[i].ok && Streak(ticks[..i + 1], threshold, maxBackoff) >= threshold
    ensures ticks[j].at - ticks[i].done > BackoffAfter(Streak(ticks[..i + 1], threshold, maxBackoff), threshold, maxBackoff)
  {
    IdleKeeps(ticks, threshold, maxBackoff, i, j);
    var b := After(ticks[..i + 1], threshold, maxBackoff);
    assert ticks[..i + 1][..i] == ticks[..i];
    SettledAfter(ticks[..i + 1], threshold, maxBackoff);
    FailuresAreStreak(ticks[..i + 1], threshold, maxBackoff);
    assert b.lastFailure == ticks[i].done;
    assert Attempts(b, ticks[j].at);
  }

  /** Exactly when a phase is attempted, in terms of the last attempt before it: always after a success and
      always below the threshold of failures in a row; otherwise when more than the backoff for that many
      failures has passed since the last of them ended. The first cycle always attempts. */
  lemma AttemptIff(ticks: seq<Tick>, threshold: int, maxBackoff: int, i: nat, j: nat)
    requires threshold >= 1 && 0 <= maxBackoff < MAX_DURATION && i < j < |ticks|
    requires AttemptAt(ticks, threshold, maxBackoff, i)
    requires forall k :: i < k < j ==> !AttemptAt(ticks, threshold, maxBackoff, k)
    ensures var failures := Streak(ticks[..i + 1], threshold, maxBackoff);
      AttemptAt(ticks, threshold, maxBackoff, j) <==>
        ticks[i].ok || failures < threshold
        || ticks[j].at - ticks[i].done > BackoffAfter(failures, threshold, maxBackoff)
    ensures AttemptAt(ticks, threshold, maxBackoff, 0)
  {
    IdleKeeps(ticks, threshold, maxBackoff, i, j);
    var b := After(ticks[..i + 1], threshold, maxBackoff);
    assert ticks[..i + 1][..i] == ticks[..i];
    SettledAfter(ticks[..i], threshold, maxBackoff);
    SettledAfter(ticks[..i + 1], threshold, maxBackoff);
    FailuresAreStreak(ticks[..i + 1], threshold, maxBackoff);
    if b.failureCount >= threshold {
      BackoffGrows(b.failureCount, b.failureCount, threshold, maxBackoff);
    }
    hide BackoffAfter;
    assert AttemptAt(ticks, threshold, maxBackoff, j) <==> Attempts(b, ticks[j].at);
    assert !ticks[i].ok ==> b.lastFailure == ticks[i].done;
  }

  // ---------- The backoff ----------

  lemma {:induction false} Pow3Monotone(m: nat, n: nat)
    requires m <= n
    ensures Pow3(m) <= Pow3(n)
    decreases n
  {
    if m < n {
      Pow3Monotone(m, n - 1);
    }
  }

  /** Another failure never shortens the backoff, and no backoff exceeds the cap, so it fits 64 bits
      whenever the cap does. */
  lemma BackoffGrows(f: int, g: int, threshold: int, maxBackoff: int)
    requires threshold <= f <= g
    ensures BackoffAfter(f, threshold, maxBackoff) <= BackoffAfter(g, threshold, maxBackoff) <= maxBackoff
    ensures 0 <= maxBackoff <= MAX_DURATION ==> 0 <= BackoffAfter(f, threshold, maxBackoff) <= MAX_DURATION
  {
    Pow3Monotone(Min(f - threshold, 20), Min(g - threshold, 20));
  }

  /** Over a run in which nothing succeeds between positions i and j the backoff does not shrink. */
  lemma {:induction false} BackoffNeverShrinks(ticks: seq<Tick>, threshold: int, maxBackoff: int, i: nat, j: nat)
    requires threshold >= 1 && maxBackoff >= 0 && i <= j <= |ticks|
    requires forall k :: i <= k < j && AttemptAt(ticks, threshold, maxBackoff, k) ==> !ticks[k].ok
    ensures After(ticks[..i], threshold, maxBackoff).backoff <= After(ticks[..j], threshold, maxBackoff).backoff
    decreases j
  {
    if i < j {
      BackoffNeverShrinks(ticks, threshold, maxBackoff, i, j - 1);
      assert ticks[..j][..j - 1] == ticks[..j - 1];
      SettledAfter(ticks[..j - 1], threshold, maxBackoff);
      SettledAfter(ticks[..j], threshold, maxBackoff);
      var b, c := After(ticks[..j - 1], threshold, maxBackoff), After(ticks[..j], threshold, maxBackoff);
      assert AttemptAt(ticks, threshold, maxBackoff, j - 1) ==> c.failureCount == b.failureCount + 1;
      if b.failureCount >= threshold {
        BackoffGrows(b.failureCount, c.failureCount, threshold, maxBackoff);
      } else if c.failureCount >= threshold {
        BackoffGrows(c.failureCount, c.failureCount, threshold, maxBackoff);
      }
    }
  }
}
