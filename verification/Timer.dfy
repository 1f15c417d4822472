/** timer.hpp: the periodic timer with its catch-up after missed periods. */
module Timer {
  import opened RealArithmetic

  /** Milliseconds as seconds. */
  function Seconds(periodMs: nat): real {
    periodMs as real / 1000.0
  }

  /** `last` after one execution at `now`; missed periods are skipped, not replayed. */
  function Advanced(last: real, period: real, now: real): real
    requires period > 0.0
  {
    if now - last > 2.0 * period
    then last + ((Quotient(now - last, period).Floor - 1) as real) * period + period
    else last + period
  }

  predicate Ready(last: real, period: real, now: real) {
    now - last >= period
  }

  /** How many grid points one execution moves ahead. */
  function Jump(last: real, period: real, now: real): nat
    requires period > 0.0 && Ready(last, period, now)
  {
    if now - last > 2.0 * period then
      QuotientAtLeast(now - last, 2.0, period);
      Quotient(now - last, period).Floor
    else 1
  }

  lemma QuotientAtLeast(x: real, n: real, period: real)
    requires period > 0.0 && x >= Mul(n, period)
    ensures Quotient(x, period) >= n
  {
    QuotientOfProduct(n, period);
    QuotientOrder(Mul(n, period), x, period);
  }

  /** One execution moves ahead by at least one whole period, not past the clock, and leaves at
      most one period of arrears. */
  lemma AdvanceIsOnGrid(last: real, period: real, now: real)
    requires period > 0.0 && Ready(last, period, now)
    ensures Jump(last, period, now) >= 1
    ensures Advanced(last, period, now) == last + Mul(Jump(last, period, now) as real, period)
    ensures Advanced(last, period, now) <= now <= Advanced(last, period, now) + period
  {
    if now - last > 2.0 * period {
      var q := Quotient(now - last, period);
      var n := q.Floor;
      QuotientAtLeast(now - last, 2.0, period);
      QuotientTimes(now - last, period);
      ProductMonotone(period, n as real, q);
      ProductMonotone(period, q, n as real + 1.0);
      assert (n - 1) as real * period + period == Mul(n as real, period);
    }
  }

  // ----- whole runs -----

  /** One pass of the node's loop: the clock as read by `is_ready` and then by `execute`. */
  datatype Poll = Poll(first: real, second: real)

  /** Clock readings do not go back. */
  predicate Nondecreasing(from: real, polls: seq<Poll>)
    decreases |polls|
  {
    polls == [] || (from <= polls[0].first <= polls[0].second && Nondecreasing(polls[0].second, polls[1..]))
  }

  /** Last execution time and number of callbacks after the polls. */
  function RunTimer(last: real, period: real, polls: seq<Poll>): (real, nat)
    requires period > 0.0
    decreases |polls|
  {
    if polls == [] then (last, 0)
    else if Ready(last, period, polls[0].first) then
      var (end, calls) := RunTimer(Advanced(last, period, polls[0].second), period, polls[1..]);
      (end, calls + 1)
    else RunTimer(last, period, polls[1..])
  }

  /** Grid points passed. */
  function Passed(last: real, period: real, polls: seq<Poll>): nat
    requires period > 0.0
    decreases |polls|
  {
    if polls == [] then 0
    else if Ready(last, period, polls[0].first) then
      (if Ready(last, period, polls[0].second) then Jump(last, period, polls[0].second) else 0)
      + Passed(Advanced(last, period, polls[0].second), period, polls[1..])
    else Passed(last, period, polls[1..])
  }

  function End(from: real, polls: seq<Poll>): real {
    if polls == [] then from else polls[|polls| - 1].second
  }

  lemma MulAdd(a: real, b: real, c: real)
    ensures Mul(a + b, c) == Mul(a, c) + Mul(b, c)
  {
  }

  /** The last execution time stays on the grid start + k * period and never ahead of the clock,
      and there is at most one callback for each grid point passed. */
  lemma {:induction false} StaysOnGrid(start: real, period: real, now: real, polls: seq<Poll>)
    requires period > 0.0 && start <= now && Nondecreasing(now, polls)
    ensures var (last, calls) := RunTimer(start, period, polls);
            && last == start + Mul(Passed(start, period, polls) as real, period)
            && calls <= Passed(start, period, polls)
            && last <= End(now, polls)
    decreases |polls|
  {
    if polls != [] {
      var p := polls[0];
      assert End(now, polls) == End(p.second, polls[1..]);
      if Ready(start, period, p.first) {
        AdvanceIsOnGrid(start, period, p.second);
        StaysOnGrid(Advanced(start, period, p.second), period, p.second, polls[1..]);
        MulAdd(Jump(start, period, p.second) as real,
               Passed(Advanced(start, period, p.second), period, polls[1..]) as real, period);
      } else {
        StaysOnGrid(start, period, p.second, polls[1..]);
      }
    }
  }

  /** However late the node polls, callbacks never exceed the elapsed time over the period. */
  lemma CallbacksWithinElapsed(start: real, period: real, polls: seq<Poll>)
    requires period > 0.0 && Nondecreasing(start, polls)
    ensures RunTimer(start, period, polls).1 as real <= Quotient(End(start, polls) - start, period)
  {
    StaysOnGrid(start, period, start, polls);
    CountBounded(RunTimer(start, period, polls).1, Passed(start, period, polls), End(start, polls) - start, period);
  }

  lemma CountBounded(calls: nat, passed: nat, elapsed: real, period: real)
    requires period > 0.0 && calls <= passed && Mul(passed as real, period) <= elapsed
    ensures calls as real <= Quotient(elapsed, period)
  {
    QuotientAtLeast(elapsed, passed as real, period);
  }

  // ----- the class -----

  class PeriodicTimer {
    var active: bool
    var hasCallback: bool
    var periodMs: nat
    var last: real

    ghost predicate Valid()
      reads this
    {
      active ==> hasCallback
    }

    constructor ()
      ensures Valid() && !active
    {
      active, hasCallback, periodMs, last := false, false, 0, 0.0;
    }

    method Start(period: nat, callback: bool, now: real) returns (ok: bool)
      requires Valid()
      modifies this
      ensures Valid() && ok == (!old(active) && callback)
      ensures ok ==> active && periodMs == period && last == now
      ensures !ok ==> active == old(active) && periodMs == old(periodMs) && last == old(last)
    {
      if active {
        return false;
      }
      if !callback {
        return false;
      }
      periodMs := period;
      hasCallback := true;
      last := now;
      active := true;
      return true;
    }

    method Stop()
      requires Valid()
      modifies this
      ensures Valid() && !active
    {
      if active {
        active := false;
        hasCallback := false;
        periodMs := 0;
        last := 0.0;
      }
    }

    method IsReady(now: real) returns (ready: bool)
      ensures ready == (active && hasCallback && Ready(last, Seconds(periodMs), now))
    {
      if !active || !hasCallback {
        return false;
      }
      var elapsedMs := (now - last) * 1000.0;
      return elapsedMs >= periodMs as real;
    }

    /** Reads the clock twice, moves `last`, and fires the callback at most once. */
    method Execute(p: Poll) returns (fired: bool)
      requires Valid() && (active ==> periodMs > 0)
      modifies this`last
      ensures Valid()
      ensures fired == (active && Ready(old(last), Seconds(periodMs), p.first))
      ensures last == if fired then Advanced(old(last), Seconds(periodMs), p.second) else old(last)
    {
      fired := IsReady(p.first);
      if !fired {
        return;
      }
      var periodS := Seconds(periodMs);
      if p.second - last > 2.0 * periodS {
        var missed := Quotient(p.second - last, periodS).Floor;
        last := last + (missed - 1) as real * periodS;
      }
      last := last + periodS;
    }
  }
}
