/** The reconnect backoff, and the agent loop that uses it. Delays are in seconds, as reals. */
module Backoffs {
  function Power(f: real, n: nat): real {
    if n == 0 then 1.0 else Power(f, n - 1) * f
  }

  function Growth(base: real, factor: real, n: nat): real {
    base * Power(factor, n)
  }

  function Min(a: real, b: real): real {
    if a <= b then a else b
  }

  /** The un-jittered delay for attempt `n`: exponential, and capped. */
  function Delay(base: real, factor: real, cap: real, n: nat): real {
    Min(Growth(base, factor, n), cap)
  }

  lemma PowerStep(base: real, factor: real, n: nat)
    requires base >= 0.0 && factor >= 1.0
    ensures Growth(base, factor, n + 1) == Growth(base, factor, n) * factor
    ensures 0.0 <= Growth(base, factor, n) <= Growth(base, factor, n + 1)
  {
    PowerPositive(factor, n);
    var d := base * Power(factor, n);
    Grows(base, 0.0, Power(factor, n));
    Grows(d, 1.0, factor);
  }

  lemma Grows(d: real, a: real, b: real)
    requires d >= 0.0 && a <= b
    ensures d * a <= d * b
  {
  }

  lemma {:induction false} PowerPositive(factor: real, n: nat)
    requires factor >= 1.0
    ensures Power(factor, n) >= 1.0
  {
    if n > 0 {
      PowerPositive(factor, n - 1);
      Grows(Power(factor, n - 1), 1.0, factor);
    }
  }

  lemma {:induction false} GrowthIsMonotone(base: real, factor: real, m: nat, n: nat)
    requires base >= 0.0 && factor >= 1.0 && m <= n
    ensures Growth(base, factor, m) <= Growth(base, factor, n)
  {
    if m < n {
      GrowthIsMonotone(base, factor, m, n - 1);
      PowerStep(base, factor, n - 1);
    }
  }

  /** Delays never shrink from one attempt to a later one. */
  lemma DelayIsMonotone(base: real, factor: real, cap: real, m: nat, n: nat)
    requires base >= 0.0 && factor >= 1.0 && m <= n
    ensures Delay(base, factor, cap, m) <= Delay(base, factor, cap, n)
  {
    GrowthIsMonotone(base, factor, m, n);
  }

  class Backoff {
    const base: real
    const factor: real
    const cap: real
    const jitter: real
    var attempt: nat

    constructor (base: real, factor: real, cap: real, jitter: real)
      ensures this.base == base && this.factor == factor && this.cap == cap && this.jitter == jitter
      ensures attempt == 0
    {
      this.base, this.factor, this.cap, this.jitter := base, factor, cap, jitter;
      attempt := 0;
    }

    method Reset()
      modifies this
      ensures attempt == 0
    {
      attempt := 0;
    }

    /** The loop stops early once it reaches the cap; the closed form does not show it. */
    method Base() returns (d: real)
      requires base >= 0.0 && factor >= 1.0
      ensures d == Delay(base, factor, cap, attempt)
    {
      d := base;
      var i := 0;
      while i < attempt
        invariant 0 <= i <= attempt
        invariant d == Growth(base, factor, i)
      {
        PowerStep(base, factor, i);
        d := d * factor;
        if d >= cap {
          GrowthIsMonotone(base, factor, i + 1, attempt);
          return cap;
        }
        i := i + 1;
      }
      if d > cap {
        d := cap;
      }
    }

    /** The next delay, within the jitter band around the un-jittered one; `u` is a random number in [0, 1). */
    method Next(u: real) returns (d: real)
      requires base >= 0.0 && factor >= 1.0 && cap >= 0.0 && 0.0 <= u < 1.0
      modifies this
      ensures attempt == old(attempt) + 1
      ensures var plain := Delay(base, factor, cap, old(attempt));
              if jitter <= 0.0 then d == plain else plain * (1.0 - jitter) <= d <= plain * (1.0 + jitter)
      ensures jitter > 0.0 ==> d == Delay(base, factor, cap, old(attempt)) * (1.0 + (u * 2.0 - 1.0) * jitter)
    {
      var plain := Base();
      attempt := attempt + 1;
      if jitter <= 0.0 {
        return plain;
      }
      var delta := Jitter(u, jitter);
      d := plain * (1.0 + delta);
      DelayIsPositive(base, factor, cap, attempt - 1);
      JitterRange(u, jitter);
      Band(plain, delta, jitter);
    }
  }

  lemma DelayIsPositive(base: real, factor: real, cap: real, n: nat)
    requires base >= 0.0 && factor >= 1.0 && cap >= 0.0
    ensures Delay(base, factor, cap, n) >= 0.0
  {
    PowerStep(base, factor, n);
  }

  /** A share of the delay between minus and plus `jitter`. */
  function Jitter(u: real, jitter: real): real {
    (u * 2.0 - 1.0) * jitter
  }

  lemma JitterRange(u: real, jitter: real)
    requires 0.0 <= u < 1.0 && jitter > 0.0
    ensures -jitter <= Jitter(u, jitter) <= jitter
  {
    Grows(jitter, -1.0, u * 2.0 - 1.0);
    Grows(jitter, u * 2.0 - 1.0, 1.0);
  }

  lemma Band(plain: real, delta: real, jitter: real)
    requires plain >= 0.0 && -jitter <= delta <= jitter
    ensures plain * (1.0 - jitter) <= plain * (1.0 + delta) <= plain * (1.0 + jitter)
  {
    Grows(plain, 1.0 - jitter, 1.0 + delta);
    Grows(plain, 1.0 + delta, 1.0 + jitter);
  }

  const BASE := 1.0
  const FACTOR := 2.0
  const CAP := 60.0
  const JITTER := 0.2

  /** The agent's n-th wait since its counter was reset, without jitter. */
  function Wait(n: nat): real {
    Delay(BASE, FACTOR, CAP, n)
  }

  function TotalWait(n: nat): real {
    if n == 0 then 0.0 else TotalWait(n - 1) + Wait(n - 1)
  }

  lemma {:induction false} WaitsAreCapped(n: nat)
    requires n >= 6
    ensures Wait(n) == CAP
    ensures TotalWait(n) == 63.0 + 60.0 * (n - 6) as real
  {
    if n == 6 {
      SmallPowers();
    } else {
      WaitsAreCapped(n - 1);
      SmallPowers();
      DelayIsMonotone(BASE, FACTOR, CAP, 6, n);
    }
  }

  lemma SmallPowers()
    ensures Power(FACTOR, 0) == 1.0 && Power(FACTOR, 1) == 2.0 && Power(FACTOR, 2) == 4.0
    ensures Power(FACTOR, 3) == 8.0 && Power(FACTOR, 4) == 16.0 && Power(FACTOR, 5) == 32.0 && Power(FACTOR, 6) == 64.0
    ensures TotalWait(6) == 63.0
  {
    assert Power(FACTOR, 0) == 1.0;
    assert Power(FACTOR, 1) == 2.0;
    assert Power(FACTOR, 2) == 4.0;
    assert Power(FACTOR, 3) == 8.0;
    assert Power(FACTOR, 4) == 16.0;
    assert Power(FACTOR, 5) == 32.0;
    assert TotalWait(2) == 3.0;
    assert TotalWait(4) == 15.0;
  }

  /** The waits since the last successful dial, in closed form: doubling up to the sixth, then a minute each. */
  lemma {:induction false} TotalWaitClosedForm(n: nat)
    ensures TotalWait(n) == if n <= 6 then Power(FACTOR, n) - 1.0 else 63.0 + 60.0 * (n - 6) as real
  {
    if n > 6 {
      WaitsAreCapped(n);
    } else if n > 0 {
      TotalWaitClosedForm(n - 1);
      SmallPowers();
      DelayIsMonotone(BASE, FACTOR, CAP, n - 1, 5);
    }
  }

  /** One turn of the agent's loop: a dial that failed, or one that led to a session, now over. */
  datatype Turn = Failed(u: real) | Served(u: real)

  /** The backoff counter after some turns: the waits since the last successful dial. */
  function Waits(turns: seq<Turn>): nat {
    if turns == [] then 0
    else if turns[|turns| - 1].Served? then 1
    else Waits(turns[..|turns| - 1]) + 1
  }

  /** The un-jittered waits of a run, one after each turn. */
  function Schedule(turns: seq<Turn>): seq<real> {
    if turns == [] then [] else Schedule(turns[..|turns| - 1]) + [Wait(Waits(turns) - 1)]
  }

  function Sum(ds: seq<real>): real {
    if ds == [] then 0.0 else Sum(ds[..|ds| - 1]) + ds[|ds| - 1]
  }

  lemma {:induction false} WaitsWithin(turns: seq<Turn>)
    ensures Waits(turns) <= |turns| == |Schedule(turns)|
  {
    if turns != [] {
      WaitsWithin(turns[..|turns| - 1]);
    }
  }

  lemma {:induction false} CountedWaitsAddUp(turns: seq<Turn>)
    ensures Waits(turns) <= |Schedule(turns)|
    ensures Sum(Schedule(turns)[|Schedule(turns)| - Waits(turns)..]) == TotalWait(Waits(turns))
  {
    WaitsWithin(turns);
    if turns != [] {
      var before := turns[..|turns| - 1];
      WaitsWithin(before);
      CountedWaitsAddUp(before);
      var s, n := Schedule(turns), Waits(turns);
      var tail := s[|s| - n..];
      if turns[|turns| - 1].Served? {
        assert tail == [Wait(0)] && tail[..0] == [];
        assert TotalWait(1) == TotalWait(0) + Wait(0);
      } else {
        assert tail[..n - 1] == Schedule(before)[|Schedule(before)| - Waits(before)..];
      }
    }
  }

  /**
   In every run, the waits from the last turn that was served add up to the closed form, and so do all
   of them when none was.
   */
  lemma WaitsSinceDial(turns: seq<Turn>)
    requires turns != []
    ensures |Schedule(turns)| == |turns|
    ensures forall j :: 0 <= j < |turns| && turns[j].Served? && (forall i :: j < i < |turns| ==> turns[i].Failed?) ==>
              Sum(Schedule(turns)[j..]) == TotalWait(|turns| - j)
    ensures (forall i :: 0 <= i < |turns| ==> turns[i].Failed?) ==> Sum(Schedule(turns)) == TotalWait(|turns|)
  {
    var last := |turns| - 1;
    WaitsWithin(turns);
    WaitsCount(turns, last);
    CountedWaitsAddUp(turns);
    assert turns[..last + 1] == turns && Schedule(turns)[0..] == Schedule(turns);
    forall j | 0 <= j < |turns| && turns[j].Served? && (forall i :: j < i < |turns| ==> turns[i].Failed?)
      ensures Sum(Schedule(turns)[j..]) == TotalWait(|turns| - j)
    {
      assert LastServed(turns, j, last);
    }
    assert (forall i :: 0 <= i < |turns| ==> turns[i].Failed?) ==> NoneServed(turns, last);
  }

  /** Within 20 per cent of the un-jittered delay after so many waits: doubling seconds, up to a minute. */
  predicate Near(d: real, n: nat) {
    if Power(2.0, n) <= 60.0 then 0.8 * Power(2.0, n) <= d <= 1.2 * Power(2.0, n) else 48.0 <= d <= 72.0
  }

  /** Turn `j` is the last that was served, up to turn `k`. */
  predicate LastServed(turns: seq<Turn>, j: int, k: int) {
    0 <= j <= k < |turns| && turns[j].Served? && forall i :: j < i <= k ==> turns[i].Failed?
  }

  predicate NoneServed(turns: seq<Turn>, k: int) {
    0 <= k < |turns| && forall i :: 0 <= i <= k ==> turns[i].Failed?
  }

  /** The wait after turn `k` is one of those since the last turn served, or since the start. */
  lemma {:induction false} WaitsCount(turns: seq<Turn>, k: nat)
    requires k < |turns|
    ensures forall j :: LastServed(turns, j, k) ==> Waits(turns[..k + 1]) == k - j + 1
    ensures NoneServed(turns, k) ==> Waits(turns[..k + 1]) == k + 1
  {
    var upTo := turns[..k + 1];
    assert upTo[..k] == turns[..k] && upTo[k] == turns[k];
    if k > 0 {
      WaitsCount(turns, k - 1);
    } else {
      assert turns[..0] == [];
    }
    forall j | LastServed(turns, j, k)
      ensures Waits(upTo) == k - j + 1
    {
      assert j < k ==> LastServed(turns, j, k - 1);
    }
    assert NoneServed(turns, k) && k > 0 ==> NoneServed(turns, k - 1);
  }

  lemma {:induction false} ScheduleAt(turns: seq<Turn>, k: nat)
    requires k < |turns|
    ensures |Schedule(turns)| == |turns| && Schedule(turns)[k] == Wait(Waits(turns[..k + 1]) - 1)
  {
    WaitsWithin(turns);
    var n := |turns| - 1;
    if k < n {
      ScheduleAt(turns[..n], k);
      assert turns[..n][..k + 1] == turns[..k + 1];
    } else {
      assert turns[..k + 1] == turns;
    }
  }

  /** What the schedule is at each turn, in terms of the turns alone. */
  lemma WaitIsSinceDial(turns: seq<Turn>, k: nat, d: real)
    requires k < |turns| == |Schedule(turns)| && 0.8 * Schedule(turns)[k] <= d <= 1.2 * Schedule(turns)[k]
    ensures forall j :: LastServed(turns, j, k) ==> Near(d, k - j)
    ensures NoneServed(turns, k) ==> Near(d, k)
  {
    WaitsCount(turns, k);
    ScheduleAt(turns, k);
  }

  /** Dials, serves sessions and waits, for as long as its context lives. */
  method RunAgent(turns: seq<Turn>) returns (waits: seq<real>)
    requires forall t <- turns :: 0.0 <= t.u < 1.0
    ensures |waits| == |turns| == |Schedule(turns)|
    ensures forall k :: 0 <= k < |turns| ==> 0.8 * Schedule(turns)[k] <= waits[k] <= 1.2 * Schedule(turns)[k] <= 72.0
    ensures forall j, k :: 0 <= j <= k < |turns| && turns[j].Served? && (forall i :: j < i <= k ==> turns[i].Failed?) ==>
              Near(waits[k], k - j)
    ensures forall k :: 0 <= k < |turns| && (forall i :: 0 <= i <= k ==> turns[i].Failed?) ==> Near(waits[k], k)
  {
    waits := WaitOut(turns);
    forall j, k | 0 <= j <= k < |turns| && turns[j].Served? && (forall i :: j < i <= k ==> turns[i].Failed?)
      ensures Near(waits[k], k - j)
    {
      assert LastServed(turns, j, k);
      WaitIsSinceDial(turns, k, waits[k]);
    }
    forall k | 0 <= k < |turns| && (forall i :: 0 <= i <= k ==> turns[i].Failed?)
      ensures Near(waits[k], k)
    {
      assert NoneServed(turns, k);
      WaitIsSinceDial(turns, k, waits[k]);
    }
  }

  /** The agent's loop, turn by turn. */
  method WaitOut(turns: seq<Turn>) returns (waits: seq<real>)
    requires forall t <- turns :: 0.0 <= t.u < 1.0
    ensures |waits| == |turns| == |Schedule(turns)|
    ensures forall k :: 0 <= k < |turns| ==> 0.8 * Schedule(turns)[k] <= waits[k] <= 1.2 * Schedule(turns)[k] <= 72.0
  {
    var backoff := new Backoff(BASE, FACTOR, CAP, JITTER);
    waits := [];
    var i := 0;
    while i < |turns|
      invariant 0 <= i <= |turns| && |waits| == i == |Schedule(turns[..i])|
      invariant backoff.attempt == Waits(turns[..i])
      invariant backoff.base == BASE && backoff.factor == FACTOR && backoff.cap == CAP && backoff.jitter == JITTER
      invariant forall k :: 0 <= k < i ==> 0.8 * Schedule(turns[..i])[k] <= waits[k] <= 1.2 * Schedule(turns[..i])[k] <= 72.0
    {
      if turns[i].Served? {
        backoff.Reset();
      }
      var d := backoff.Next(turns[i].u);
      assert turns[..i + 1][..i] == turns[..i];
      waits := waits + [d];
      i := i + 1;
    }
    assert turns[..i] == turns;
  }
}
