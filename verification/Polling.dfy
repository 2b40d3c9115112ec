/** Polling with exponential backoff (test/integration/lotelhelper/lotelhelper.go). Durations are in
  nanoseconds; the clock reads the time that polls and sleeps have taken. */
module Polling {
  const MILLI := 1_000_000
  const FIRST_BACKOFF := 250 * MILLI
  const MAX_BACKOFF := 4000 * MILLI
  const DEFAULT_TIMEOUT := 15_000 * MILLI

  /** One ingest and query: a number of records, or a failure that ends the test. */
  datatype Poll = Records(count: nat) | Broken

  /** Poll `i` takes `pollTime(i)`; sleep `i` takes at least as long as asked, by `oversleep(i)` more. */
  datatype World = World(poll: nat -> Poll, pollTime: nat -> nat, oversleep: nat -> nat)

  datatype Outcome = Found(count: nat) | TimedOut(count: nat) | Aborted

  function Pow2(n: nat): nat {
    if n == 0 then 1 else 2 * Pow2(n - 1)
  }

  /** The backoff after poll `i`: it doubles four times and then stays. */
  function Backoff(i: nat): nat {
    FIRST_BACKOFF * Pow2(if i < 4 then i else 4)
  }

  /** The time asked for in the first `n` sleeps. */
  function Slept(n: nat): nat {
    if n == 0 then 0 else Slept(n - 1) + Backoff(n - 1)
  }

  function EffectiveTimeout(timeout: int): (t: nat)
    ensures t > 0
  {
    if timeout <= 0 then DEFAULT_TIMEOUT else timeout
  }

  /** The largest number of polls within a timeout. */
  function PollBound(timeout: nat): nat {
    if timeout < 250 * MILLI then 2
    else if timeout < 750 * MILLI then 3
    else if timeout < 1750 * MILLI then 4
    else if timeout < 3750 * MILLI then 5
    else 6 + (timeout - 3750 * MILLI) / MAX_BACKOFF
  }

  lemma PowersOfTwo()
    ensures Pow2(0) == 1 && Pow2(1) == 2 && Pow2(2) == 4 && Pow2(3) == 8 && Pow2(4) == 16
  {
    assert Pow2(2) == 4;
    assert Pow2(3) == 8;
  }

  lemma BackoffValues(i: nat)
    ensures Backoff(0) == FIRST_BACKOFF
    ensures 0 < Backoff(i) <= MAX_BACKOFF && Backoff(i + 1) <= MAX_BACKOFF
    ensures Backoff(i) < MAX_BACKOFF <==> i < 4
    ensures Backoff(i + 1) == if Backoff(i) < MAX_BACKOFF then 2 * Backoff(i) else Backoff(i)
  {
    PowersOfTwo();
  }

  lemma {:induction false} SleptClosedForm(n: nat)
    ensures Slept(0) == 0 && Slept(1) == 250 * MILLI && Slept(2) == 750 * MILLI && Slept(3) == 1750 * MILLI
    ensures n >= 4 ==> Slept(n) == 3750 * MILLI + (n - 4) * MAX_BACKOFF
  {
    PowersOfTwo();
    assert Slept(1) == Slept(0) + Backoff(0);
    assert Slept(2) == Slept(1) + Backoff(1);
    assert Slept(3) == Slept(2) + Backoff(2);
    assert Slept(4) == Slept(3) + Backoff(3);
    if n > 4 {
      SleptClosedForm(n - 1);
    }
  }

  lemma SleptStep(n: nat)
    ensures Slept(n + 1) == Slept(n) + Backoff(n)
  {
  }

  /** The bound is the n for which the first n - 2 sleeps fit the timeout and one more does not. */
  lemma PollBoundIsExact(timeout: nat, n: nat)
    ensures n >= 2 && Slept(n - 2) <= timeout ==> n <= PollBound(timeout)
    ensures n >= 2 && Slept(n - 2) <= timeout < Slept(n - 1) <==> n == PollBound(timeout)
  {
    hide Slept, Backoff;
    if n >= 2 {
      SleptClosedForm(n - 2);
      SleptClosedForm(n - 1);
    }
  }

  /** waitForRecords. It always ends, within a number of polls that a closed form of the timeout
      bounds and that instant polls reach; it returns normally only with enough records. */
  method WaitForRecords(minCount: int, timeout: int, w: World) returns (outcome: Outcome, polls: nat, sleeps: seq<nat>)
    ensures 1 <= polls <= PollBound(EffectiveTimeout(timeout))
    ensures |sleeps| == polls - 1 && forall i | 0 <= i < |sleeps| :: sleeps[i] == Backoff(i)
    ensures forall i | 0 <= i < polls - 1 :: w.poll(i).Records? && w.poll(i).count < minCount
    ensures match outcome
      case Found(count) => w.poll(polls - 1) == Records(count) && count >= minCount
      case TimedOut(count) => w.poll(polls - 1) == Records(count) && count < minCount
      case Aborted => w.poll(polls - 1).Broken?
    ensures outcome.TimedOut? && (forall i :: w.pollTime(i) == 0) && (forall i :: w.oversleep(i) == 0) ==>
      polls == PollBound(EffectiveTimeout(timeout))
  {
    hide Backoff, Slept, PollBound;
    var t := timeout;
    if t <= 0 {
      t := DEFAULT_TIMEOUT;
    }
    var now := 0;
    ghost var instant := (forall i :: w.pollTime(i) == 0) && (forall i :: w.oversleep(i) == 0);
    var deadline := t;
    var backoff := FIRST_BACKOFF;
    polls, sleeps := 0, [];
    BackoffValues(0);
    SleptClosedForm(0);
    PollBoundIsExact(t, 2);
    while true
      invariant t == EffectiveTimeout(timeout) && deadline == t
      invariant backoff == Backoff(polls)
      invariant |sleeps| == polls && forall i | 0 <= i < |sleeps| :: sleeps[i] == Backoff(i)
      invariant now >= Slept(polls) && (polls > 0 ==> Slept(polls - 1) <= t)
      invariant instant ==> now == Slept(polls)
      invariant forall i | 0 <= i < polls :: w.poll(i).Records? && w.poll(i).count < minCount
      decreases deadline - now
    {
      var last := w.poll(polls);
      now := now + w.pollTime(polls);
      polls := polls + 1;
      PollBoundIsExact(t, polls);
      SleptStep(polls - 1);
      if last.Broken? {
        return Aborted, polls, sleeps;
      }
      if last.count >= minCount {
        return Found(last.count), polls, sleeps;
      }
      if now > deadline {
        return TimedOut(last.count), polls, sleeps;
      }
      now := now + backoff + w.oversleep(polls - 1);
      sleeps := sleeps + [backoff];
      BackoffValues(polls - 1);
      if backoff < MAX_BACKOFF {
        backoff := backoff * 2;
        // The clamp to MAX_BACKOFF never fires.
        assert backoff <= MAX_BACKOFF;
        if backoff > MAX_BACKOFF {
          backoff := MAX_BACKOFF;
        }
      }
    }
  }
}
