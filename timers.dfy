/** The two frame counters of the game flow: the asteroid spawn counter of
    the gameplay state and the looping timer of the title screen. */
module Timers {
  import opened Config

  // ---------------------------------------------------------------------------
  // Asteroid spawn counter

  /** This tick's increment brings the counter up to the spawn rate. */
  predicate SpawnDue(t: int)
  {
    t + 1 >= ASTEROID_SPAWN_RATE
  }

  /** The counter after one tick: incremented, and reset to 0 on a tick
      that spawns. It stays below the spawn rate, and for a non-negative
      counter it is back at 0 exactly on the ticks that spawn. */
  function NextSpawnTimer(t: int): (r: int)
    ensures 0 <= t < ASTEROID_SPAWN_RATE ==> 0 <= r < ASTEROID_SPAWN_RATE
    ensures 0 <= t ==> (r == 0 <==> SpawnDue(t))
  {
    if SpawnDue(t) then 0 else t + 1
  }

  /** The counter `k` ticks after a fresh gameplay state started it at 0. */
  function SpawnTimerAfter(k: nat): int
  {
    if k == 0 then 0 else NextSpawnTimer(SpawnTimerAfter(k - 1))
  }

  /** Euclidean division is unique: a quotient and a remainder in [0, d)
      that rebuild `x` are the ones `/` and `%` give. */
  lemma DivModUnique(x: int, d: int, q: int, r: int)
    requires d >= 1 && 0 <= r < d && x == q * d + r
    ensures x / d == q && x % d == r
  {
    var q', r' := x / d, x % d;
    assert x == q' * d + r';
    assert (q - q') * d == r' - r;
    if q > q' {
      MulAtLeast(q - q', d);
    } else if q < q' {
      MulAtLeast(q' - q, d);
    }
  }

  lemma MulAtLeast(a: int, d: int)
    requires a >= 1 && d >= 1
    ensures a * d >= d
  {
    assert a * d == (a - 1) * d + d;
    assert (a - 1) * d >= 0;
  }

  /** If `q` is the remainder of `k`, the remainder of `k + 1` is `q + 1`,
      or 0 when that reaches the divisor. */
  lemma ModSucc(k: int, d: int)
    requires d >= 1
    ensures (k + 1) % d == if k % d + 1 == d then 0 else k % d + 1
  {
    var q := k / d;
    assert k == q * d + k % d;
    if k % d + 1 == d {
      DivModUnique(k + 1, d, q + 1, 0);
    } else {
      DivModUnique(k + 1, d, q, k % d + 1);
    }
  }

  /** Starting from 0, the counter after `k` ticks is `k` modulo the spawn
      rate. */
  lemma {:induction false} SpawnTimerIsModulo(k: nat)
    ensures SpawnTimerAfter(k) == k % ASTEROID_SPAWN_RATE
  {
    if k > 0 {
      SpawnTimerIsModulo(k - 1);
      ModSucc(k - 1, ASTEROID_SPAWN_RATE);
    }
  }

  /** An asteroid is spawned on tick `k + 1` exactly when `k + 1` is a
      multiple of the spawn rate: one every ASTEROID_SPAWN_RATE ticks. */
  lemma SpawnEveryRateTicks(k: nat)
    ensures SpawnDue(SpawnTimerAfter(k)) <==> (k + 1) % ASTEROID_SPAWN_RATE == 0
  {
    SpawnTimerIsModulo(k);
    ModSucc(k, ASTEROID_SPAWN_RATE);
  }

  // ---------------------------------------------------------------------------
  // Title screen timer

  /** The title timer after one tick: decremented, and put back to the full
      duration when it runs out. From any value up to one above the full
      duration it lands in [1, TITLE_SCREEN_DURATION]. */
  function NextTitleTimer(t: int): (r: int)
    ensures t <= TITLE_SCREEN_DURATION + 1 ==> 1 <= r <= TITLE_SCREEN_DURATION
    ensures r == t - 1 || r == TITLE_SCREEN_DURATION
  {
    if t - 1 <= 0 then TITLE_SCREEN_DURATION else t - 1
  }

  /** The title timer `k` ticks after it stood at `t`. */
  function TitleTimerAfter(t: int, k: nat): int
  {
    if k == 0 then t else NextTitleTimer(TitleTimerAfter(t, k - 1))
  }

  /** If `q` is the remainder of `k`, the remainder of `k - 1` is `q - 1`,
      or the divisor less one when `q` is 0. */
  lemma ModPred(k: int, d: int)
    requires d >= 1
    ensures (k - 1) % d == if k % d == 0 then d - 1 else k % d - 1
  {
    var q := k / d;
    assert k == q * d + k % d;
    if k % d == 0 {
      DivModUnique(k - 1, d, q - 1, d - 1);
    } else {
      DivModUnique(k - 1, d, q, k % d - 1);
    }
  }

  /** From a value in range, the title timer counts down cyclically with
      period TITLE_SCREEN_DURATION. */
  lemma {:induction false} TitleTimerCycles(t: int, k: nat)
    requires 1 <= t <= TITLE_SCREEN_DURATION
    ensures TitleTimerAfter(t, k) == (t - 1 - k) % TITLE_SCREEN_DURATION + 1
  {
    if k > 0 {
      TitleTimerCycles(t, k - 1);
      ModPred(t - 1 - (k - 1), TITLE_SCREEN_DURATION);
    }
  }

  /** After a whole period the title timer is back where it was. */
  lemma TitleTimerPeriod(t: int)
    requires 1 <= t <= TITLE_SCREEN_DURATION
    ensures TitleTimerAfter(t, TITLE_SCREEN_DURATION) == t
  {
    TitleTimerCycles(t, TITLE_SCREEN_DURATION);
    DivModUnique(t - 1 - TITLE_SCREEN_DURATION, TITLE_SCREEN_DURATION, -1, t - 1);
  }
}
