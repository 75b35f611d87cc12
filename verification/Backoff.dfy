/**
 Reporter-handle backoff: the counters of `app.reporter_handles`, the two functions that move them,
 and the one caller that reads `backoff_until` before it decides.

 Times are microseconds, the resolution of `timestamptz`.
 */
module Backoff {
  import opened Wrappers

  function Seconds(n: int): int {
    1_000_000 * n
  }

  const HOUR := Seconds(3600)
  const LONGEST := Seconds(900)

  function Least(a: int, b: int): int {
    if a < b then a else b
  }

  function Power2(e: nat): nat {
    if e == 0 then 1 else 2 * Power2(e - 1)
  }

  /** The delay in seconds after the given number of attempts, as the SQL writes it. */
  function Delay(attempts: nat): int
    requires attempts > 3
  {
    Least(900, 5 * Power2(Least(attempts - 4, 10)))
  }

  /** The documented reading: 5 seconds, doubling to at most 15 minutes. */
  function Doubling(attempts: nat): int
    requires attempts > 3
  {
    if attempts == 4 then 5 else Least(900, 2 * Doubling(attempts - 1))
  }

  lemma {:induction false} DelayDoubles(attempts: nat)
    requires attempts > 3
    ensures Delay(attempts) == Doubling(attempts)
    ensures 5 <= Delay(attempts) <= 900
    ensures attempts >= 12 ==> Delay(attempts) == 900
  {
    assert Power2(7) == 128;
    if attempts > 4 {
      DelayDoubles(attempts - 1);
    }
    if attempts >= 15 {
      assert Power2(10) == 8 * Power2(7);
    }
  }

  datatype Counters = Counters(failures: nat, lastFailureAt: Option<int>, backoffUntil: Option<int>)

  const FRESH := Counters(0, None, None)

  /** `reporter_handle_record_failure` on the row it names. */
  function Failed(c: Counters, now: int): Counters {
    var attempts := if c.lastFailureAt.None? || c.lastFailureAt.value < now - HOUR then 1 else c.failures + 1;
    Counters(attempts, Some(now),
             if attempts > 3 then Some(now + Seconds(Delay(attempts))) else c.backoffUntil)
  }

  /** The handle waits: the credentials are not accepted at this time, right or wrong. */
  predicate Waiting(c: Counters, now: int) {
    c.backoffUntil.Some? && c.backoffUntil.value > now
  }

  datatype Try = Try(matches: bool, at: int)

  predicate Accepted(c: Counters, t: Try) {
    t.matches && !Waiting(c, t.at)
  }

  /** One call of `authenticate`: a try that is not accepted is recorded, also while waiting. */
  function Tried(c: Counters, t: Try): Counters {
    if Accepted(c, t) then FRESH else Failed(c, t.at)
  }

  /** One row of `app.reporter_handles`, updated in place. */
  class ReporterHandle {
    var failureCount: nat
    var lastFailureAt: Option<int>
    var backoffUntil: Option<int>

    function Row(): Counters
      reads this
    {
      Counters(failureCount, lastFailureAt, backoffUntil)
    }

    constructor ()
      ensures Row() == FRESH
    {
      failureCount, lastFailureAt, backoffUntil := 0, None, None;
    }

    method RecordFailure(now: int)
      modifies this
      ensures Row() == Failed(old(Row()), now)
    {
      if lastFailureAt.None? || lastFailureAt.value < now - HOUR {
        failureCount := 1;
      } else {
        failureCount := failureCount + 1;
      }
      lastFailureAt := Some(now);
      var attempts := failureCount;
      if attempts > 3 {
        backoffUntil := Some(now + Seconds(Delay(attempts)));
      }
    }

    method RecordSuccess()
      modifies this
      ensures Row() == FRESH
    {
      failureCount := 0;
      lastFailureAt := None;
      backoffUntil := None;
    }

    method Authenticate(t: Try) returns (accepted: bool)
      modifies this
      ensures accepted == Accepted(old(Row()), t)
      ensures Row() == Tried(old(Row()), t)
    {
      var inBackoff := backoffUntil.Some? && backoffUntil.value > t.at;
      accepted := t.matches && !inBackoff;
      if accepted {
        RecordSuccess();
      } else {
        RecordFailure(t.at);
      }
    }
  }

  // ---- What every reachable row satisfies ----

  /** Past the third failure the wait is exactly the delay; before it any leftover wait is over. */
  ghost predicate Sound(c: Counters) {
    && (c.failures == 0 <==> c.lastFailureAt.None?)
    && (c.failures == 0 ==> c.backoffUntil.None?)
    && (c.failures > 3 ==> c.backoffUntil == Some(c.lastFailureAt.value + Seconds(Delay(c.failures))))
    && (1 <= c.failures <= 3 && c.backoffUntil.Some? ==> c.backoffUntil.value < c.lastFailureAt.value)
  }

  /** The clock never goes back: no try is earlier than the last recorded failure or the try before it. */
  ghost predicate InOrder(c: Counters, run: seq<Try>) {
    && (|run| > 0 && c.lastFailureAt.Some? ==> c.lastFailureAt.value <= run[0].at)
    && forall i, j :: 0 <= i < j < |run| ==> run[i].at <= run[j].at
  }

  function After(c: Counters, run: seq<Try>): Counters
    decreases |run|
  {
    if run == [] then c else After(Tried(c, run[0]), run[1..])
  }

  lemma TriedStaysSound(c: Counters, t: Try)
    requires Sound(c)
    requires c.lastFailureAt.Some? ==> c.lastFailureAt.value <= t.at
    ensures Sound(Tried(c, t))
  {
    if c.failures > 3 {
      DelayDoubles(c.failures);
    }
  }

  lemma InOrderTail(c: Counters, run: seq<Try>)
    requires InOrder(c, run) && run != []
    ensures InOrder(Tried(c, run[0]), run[1..])
  {
  }

  /** In every reachable row the wait ends at most 900 seconds after the last recorded failure. */
  lemma {:induction false} WaitIsBounded(run: seq<Try>, c: Counters)
    requires Sound(c) && InOrder(c, run)
    ensures Sound(After(c, run))
    ensures var r := After(c, run);
            r.backoffUntil.Some? ==> r.lastFailureAt.Some? && r.backoffUntil.value <= r.lastFailureAt.value + LONGEST
    decreases |run|
  {
    if run == [] {
      if c.failures > 3 {
        DelayDoubles(c.failures);
      }
    } else {
      TriedStaysSound(c, run[0]);
      InOrderTail(c, run);
      WaitIsBounded(run[1..], Tried(c, run[0]));
    }
  }

  /** When the hour passes and the counter starts again, the wait left over is already in the past. */
  lemma ResetLeavesNoWait(c: Counters, now: int)
    requires Sound(c) && c.lastFailureAt.Some? && c.lastFailureAt.value < now - HOUR
    ensures !Waiting(c, now) && Failed(c, now).failures == 1 && !Waiting(Failed(c, now), now)
  {
    if c.failures > 3 {
      DelayDoubles(c.failures);
    }
  }

  // ---- How fast guesses can be checked ----

  /** The times of the tries that were checked against the passphrase (the handle was not waiting). */
  function Checked(c: Counters, run: seq<Try>): seq<int>
    decreases |run|
  {
    if run == [] then []
    else (if Waiting(c, run[0].at) then [] else [run[0].at]) + Checked(Tried(c, run[0]), run[1..])
  }

  /** No try of the run was accepted. */
  ghost predicate AllRefused(c: Counters, run: seq<Try>)
    decreases |run|
  {
    run == [] || (!Accepted(c, run[0]) && AllRefused(Tried(c, run[0]), run[1..]))
  }

  function DelayFrom(attempts: nat): int {
    if attempts > 3 then Delay(attempts) else 0
  }

  /** The most that checked guesses, at 300 seconds each, can run ahead of the clock from this count on. */
  function Credit(failures: nat): (s: int)
    ensures s >= 300
    decreases 12 - failures
  {
    if failures >= 9 then 300
    else
      var later := Credit(failures + 1) - DelayFrom(failures + 1);
      300 + if later > 0 then later else 0
  }

  lemma CreditValues()
    ensures Credit(8) == 440 && Credit(7) == 660 && Credit(6) == 920 && Credit(5) == 1200
    ensures Credit(4) == 1490 && Credit(3) == 1785 && Credit(2) == 2085 && Credit(1) == 2385 && Credit(0) == 2685
    ensures Delay(4) == 5 && Delay(5) == 10 && Delay(6) == 20 && Delay(7) == 40 && Delay(8) == 80
    ensures Delay(9) == 160 && Delay(10) == 320 && Delay(11) == 640
  {
    assert Power2(3) == 8;
    assert Power2(5) == 4 * Power2(3);
    assert Power2(7) == 4 * Power2(5);
    assert Credit(9) == 300;
    assert Credit(8) == 440;
    assert Credit(7) == 660;
    assert Credit(6) == 920;
    assert Credit(5) == 1200;
    assert Credit(4) == 1490;
  }

  /** The credit pays for one more check and the wait after it; it also pays for a refusal while waiting. */
  lemma CreditPays(failures: nat)
    ensures Credit(failures) >= 300 + Credit(failures + 1) - DelayFrom(failures + 1)
    ensures failures > 3 ==> Credit(failures) >= Delay(failures) + Credit(failures + 1) - DelayFrom(failures + 1)
    ensures Credit(failures) <= 2685
  {
    CreditValues();
    if failures > 3 {
      DelayDoubles(failures);
    }
    DelayDoubles(failures + 4);
    if failures >= 9 {
      DelayDoubles(failures + 1);
      if failures >= 11 {
        assert Delay(failures + 1) == 900;
      }
    } else if failures == 0 {
    } else if failures == 1 {
    } else if failures == 2 {
    } else if failures == 3 {
    } else if failures == 4 {
    } else if failures == 5 {
    } else if failures == 6 {
    } else if failures == 7 {
    } else {
    }
  }

  function Wait(c: Counters): int {
    if c.failures > 3 then Seconds(Delay(c.failures)) else 0
  }

  /** What the clock and the credit still allow at a time, counted from the last recorded failure. */
  function Allowance(c: Counters, now: int): int
    requires c.lastFailureAt.Some?
  {
    now - c.lastFailureAt.value + Seconds(Credit(c.failures)) - Wait(c)
  }

  /** One recorded failure costs 300 seconds of the allowance if it was checked, and nothing if refused unread. */
  lemma AllowancePays(c: Counters, t: Try, now: int)
    requires Sound(c) && c.failures > 0 && c.lastFailureAt.value <= t.at <= now
    ensures !Waiting(c, t.at) ==> Seconds(300) <= Allowance(c, t.at)
    ensures !Waiting(c, t.at) ==> Seconds(300) + Allowance(Failed(c, t.at), now) <= Allowance(c, now)
    ensures Waiting(c, t.at) ==> Allowance(Failed(c, t.at), now) <= Allowance(c, now)
  {
    CreditPays(c.failures);
    CreditPays(0);
    if c.failures > 3 {
      DelayDoubles(c.failures);
    }
    CreditValues();
  }

  /** From any recorded failure on, the checked guesses stay within the allowance. */
  lemma {:induction false} CreditBound(c: Counters, run: seq<Try>)
    requires Sound(c) && c.failures > 0 && InOrder(c, run) && AllRefused(c, run)
    ensures var checked := Checked(c, run);
            checked != [] ==>
              c.lastFailureAt.value <= checked[|checked| - 1]
                && Seconds(300 * |checked|) <= Allowance(c, checked[|checked| - 1])
    decreases |run|
  {
    if run != [] {
      var t := run[0];
      TriedStaysSound(c, t);
      InOrderTail(c, run);
      CreditBound(Tried(c, t), run[1..]);
      var rest := Checked(Tried(c, t), run[1..]);
      var last := if rest == [] then t.at else rest[|rest| - 1];
      AllowancePays(c, t, last);
      CheckedLast(c, run);
    }
  }

  lemma CheckedLast(c: Counters, run: seq<Try>)
    requires run != []
    ensures var checked, rest := Checked(c, run), Checked(Tried(c, run[0]), run[1..]);
            && (Waiting(c, run[0].at) ==> checked == rest)
            && (!Waiting(c, run[0].at) ==>
                  && |checked| == 1 + |rest| && checked[0] == run[0].at
                  && checked[|checked| - 1] == if rest == [] then run[0].at else rest[|rest| - 1])
  {
  }

  /** Right after a recorded failure the allowance and that failure's own check fit into 2685 seconds. */
  lemma AllowanceAfterCheck(c: Counters, now: int)
    requires c.failures > 0 && c.lastFailureAt.Some?
    ensures Allowance(c, now) + Seconds(300) <= now - c.lastFailureAt.value + Seconds(2685)
  {
    CreditPays(c.failures - 1);
  }

  /** The bound, for a run whose first guess is checked. */
  lemma BoundFromTheFirst(c: Counters, run: seq<Try>)
    requires Sound(c) && InOrder(c, run) && AllRefused(c, run) && run != [] && !Waiting(c, run[0].at)
    ensures var checked := Checked(c, run);
            checked != [] && Seconds(300 * |checked|) <= checked[|checked| - 1] - checked[0] + Seconds(2685)
  {
    var c' := Tried(c, run[0]);
    var rest := Checked(c', run[1..]);
    TriedStaysSound(c, run[0]);
    InOrderTail(c, run);
    CheckedLast(c, run);
    CreditBound(c', run[1..]);
    if rest != [] {
      AllowanceAfterCheck(c', rest[|rest| - 1]);
    }
  }

  /**
   The sustained guessing bound: however the tries of a run without success are spaced, and however
   often the counter starts again, N guesses checked over T seconds satisfy 300 N <= T + 2685.
   */
  lemma {:induction false} GuessingIsSlow(c: Counters, run: seq<Try>)
    requires Sound(c) && InOrder(c, run) && AllRefused(c, run)
    ensures var checked := Checked(c, run);
            checked != [] ==> Seconds(300 * |checked|) <= checked[|checked| - 1] - checked[0] + Seconds(2685)
    decreases |run|
  {
    if run != [] {
      if Waiting(c, run[0].at) {
        TriedStaysSound(c, run[0]);
        InOrderTail(c, run);
        CheckedLast(c, run);
        GuessingIsSlow(Tried(c, run[0]), run[1..]);
      } else {
        BoundFromTheFirst(c, run);
      }
    }
  }

  function Wrong(seconds: seq<int>): seq<Try> {
    seq(|seconds|, i requires 0 <= i < |seconds| => Try(false, Seconds(seconds[i])))
  }

  /** The time just before the i-th: the i-1st, or the one the sequence starts from. */
  function Before(start: int, times: seq<int>, i: nat): int
    requires i < |times|
  {
    if i == 0 then start else times[i - 1]
  }

  /** Wrong tries, each exactly as late as the delay imposed by the one before, are all checked. */
  lemma {:induction false} SpacedRun(c: Counters, last: int, seconds: seq<int>)
    requires 1 <= c.failures && c.lastFailureAt == Some(Seconds(last)) && Sound(c)
    requires forall i :: 0 <= i < |seconds| ==> seconds[i] == Before(last, seconds, i) + DelayFrom(c.failures + i)
    ensures AllRefused(c, Wrong(seconds))
    ensures Checked(c, Wrong(seconds)) == seq(|seconds|, i requires 0 <= i < |seconds| => Seconds(seconds[i]))
    decreases |seconds|
  {
    if seconds != [] {
      var t := Wrong(seconds)[0];
      assert Before(last, seconds, 0) == last;
      forall i | 0 <= i < |seconds[1..]|
        ensures seconds[1..][i] == Before(seconds[0], seconds[1..], i) + DelayFrom(c.failures + 1 + i)
      {
        assert seconds[i + 1] == Before(last, seconds, i + 1) + DelayFrom(c.failures + (i + 1));
      }
      if c.failures > 3 {
        DelayDoubles(c.failures);
      }
      TriedStaysSound(c, t);
      SpacedRun(Failed(c, t.at), seconds[0], seconds[1..]);
      assert Wrong(seconds)[1..] == Wrong(seconds[1..]);
    }
  }

  predicate Ascending(seconds: seq<int>) {
    (forall i :: 0 <= i < |seconds| ==> 0 <= seconds[i]) && forall i, j :: 0 <= i < j < |seconds| ==>
      seconds[i] <= seconds[j]
  }

  /** The first wrong try at time 0, and then more in the given seconds. */
  lemma FirstThenSpaced(seconds: seq<int>)
    requires Ascending(seconds) && forall i :: 0 <= i < |seconds| ==>
        seconds[i] == Before(0, seconds, i) + DelayFrom(1 + i)
    ensures var run := [Try(false, 0)] + Wrong(seconds);
            && InOrder(FRESH, run) && AllRefused(FRESH, run) && |Checked(FRESH, run)| == |seconds| + 1
            && Checked(FRESH, run)[0] == 0 && forall i :: 0 <= i < |seconds| ==>
                Checked(FRESH, run)[i + 1] == Seconds(seconds[i])
  {
    var first := Counters(1, Some(0), None);
    var run := [Try(false, 0)] + Wrong(seconds);
    SpacedRun(first, 0, seconds);
    assert run[1..] == Wrong(seconds) && Tried(FRESH, run[0]) == first;
  }

  /** Nine more tries, each as early as it is checked. */
  lemma Schedule() returns (seconds: seq<int>)
    ensures |seconds| == 9 && seconds[8] == 315 && Ascending(seconds)
    ensures forall i :: 0 <= i < |seconds| ==> seconds[i] == Before(0, seconds, i) + DelayFrom(1 + i)
  {
    CreditValues();
    seconds := [0, 0, 0, 5, 15, 35, 75, 155, 315];
  }

  /** The bound cannot be lowered: ten guesses can be checked in 315 seconds. */
  lemma GuessingBoundIsMet()
    ensures exists run ::
              && InOrder(FRESH, run) && AllRefused(FRESH, run)
              && var checked := Checked(FRESH, run);
                 |checked| == 10 && checked[9] - checked[0] == Seconds(315) && 300 * 10 == 315 + 2685
  {
    var seconds := Schedule();
    FirstThenSpaced(seconds);
    assert Checked(FRESH, [Try(false, 0)] + Wrong(seconds))[8 + 1] == Seconds(seconds[8]);
  }

  // ---- "Nothing is ever locked permanently" ----

  /** With the right passphrase, 900 seconds after the last recorded failure is always enough. */
  lemma QuietHandleOpens(c: Counters, t: Try)
    requires Sound(c) && t.matches
    requires c.lastFailureAt.Some? ==> c.lastFailureAt.value + LONGEST <= t.at
    ensures Accepted(c, t) && Tried(c, t) == FRESH
  {
    if c.failures > 3 {
      DelayDoubles(c.failures);
    }
  }

  /** The time of the try before the i-th, or of the last recorded failure for the first. */
  function TimeBefore(last: int, run: seq<Try>, i: nat): int
    requires i < |run|
  {
    if i == 0 then last else run[i - 1].at
  }

  /** How many failures the counter shows when the i-th try is made, if all before it were refused. */
  function Streak(failures: nat, last: int, run: seq<Try>, i: nat): nat
    requires i < |run|
    decreases i
  {
    if i == 0 then failures
    else Streak(if last < run[0].at - HOUR then 1 else failures + 1, run[0].at, run[1..], i - 1)
  }

  /** The i-th try comes before the delay of that count is over. */
  predicate TooEarly(failures: nat, last: int, run: seq<Try>, i: nat)
    requires i < |run|
  {
    var n := Streak(failures, last, run, i);
    n > 3 && run[i].at < TimeBefore(last, run, i) + Seconds(Delay(n))
  }

  lemma TooEarlyLater(failures: nat, last: int, run: seq<Try>, i: nat)
    requires i + 1 < |run|
    ensures TooEarly(failures, last, run, i + 1)
            <==> TooEarly(if last < run[0].at - HOUR then 1 else failures + 1, run[0].at, run[1..], i)
  {
  }

  lemma WaitingIsTooEarly(c: Counters, run: seq<Try>)
    requires Sound(c) && c.failures > 0 && InOrder(c, run) && run != []
    ensures Waiting(c, run[0].at) <==> TooEarly(c.failures, c.lastFailureAt.value, run, 0)
  {
  }

  /**
   The exact limit of that promise, for any mixture of right and wrong tries. A refused try is itself
   recorded, so a run is refused from end to end exactly when every try with the right passphrase comes
   before the delay that the tries before it have built up is over.
   */
  lemma {:induction false} RefusedIffMatchesComeTooEarly(c: Counters, run: seq<Try>)
    requires Sound(c) && c.failures > 0 && InOrder(c, run)
    ensures AllRefused(c, run) <==>
              forall i: nat :: i < |run| && run[i].matches ==> TooEarly(c.failures, c.lastFailureAt.value, run, i)
    decreases |run|
  {
    if run != [] {
      var c', rest := Failed(c, run[0].at), run[1..];
      WaitingIsTooEarly(c, run);
      if !Accepted(c, run[0]) {
        TriedStaysSound(c, run[0]);
        InOrderTail(c, run);
        RefusedIffMatchesComeTooEarly(c', rest);
        forall i: nat | i + 1 < |run|
          ensures TooEarly(c.failures, c.lastFailureAt.value, run, i + 1)
              <==> TooEarly(c'.failures, c'.lastFailureAt.value, rest, i)
        {
          TooEarlyLater(c.failures, c.lastFailureAt.value, run, i);
        }
        forall i: nat | i < |rest| ensures rest[i] == run[i + 1] {
        }
        assert forall i: nat :: 0 < i < |run| ==> run[i] == rest[i - 1];
        FromTheSecond(c.failures, c.lastFailureAt.value, run, c'.failures, c'.lastFailureAt.value);
      }
    }
  }

  /** What holds of the first try and of every later one holds of all. */
  lemma FromTheSecond(failures: nat, last: int, run: seq<Try>, failures': nat, last': int)
    requires run != [] && (run[0].matches ==> TooEarly(failures, last, run, 0))
    requires forall i: nat :: i + 1 < |run| ==>
        (TooEarly(failures, last, run, i + 1) <==> TooEarly(failures', last', run[1..], i))
    ensures (forall i: nat :: i < |run| && run[i].matches ==> TooEarly(failures, last, run, i)) <==>
              forall i: nat :: i < |run[1..]| && run[1..][i].matches ==> TooEarly(failures', last', run[1..], i)
  {
    var rest := run[1..];
    if forall i: nat :: i < |run| && run[i].matches ==> TooEarly(failures, last, run, i) {
      forall i: nat | i < |rest| && rest[i].matches ensures TooEarly(failures', last', rest, i) {
        assert run[i + 1] == rest[i] && TooEarly(failures, last, run, i + 1);
      }
    }
    if forall i: nat :: i < |rest| && rest[i].matches ==> TooEarly(failures', last', rest, i) {
      forall i: nat | i < |run| && run[i].matches ensures TooEarly(failures, last, run, i) {
        if i > 0 {
          assert run[i] == rest[i - 1] && TooEarly(failures', last', rest, i - 1);
          assert TooEarly(failures, last, run, i - 1 + 1);
        }
      }
    }
  }

  /** The i-th try comes at least 900 seconds after the one before it (after `last`, for the first). */
  predicate LateAt(last: int, run: seq<Try>, i: nat) {
    i < |run| && TimeBefore(last, run, i) + LONGEST <= run[i].at
  }

  /** No try comes more than an hour after the one before it. */
  ghost predicate WithinTheHour(last: int, run: seq<Try>) {
    forall i: nat :: i < |run| ==> run[i].at <= TimeBefore(last, run, i) + HOUR
  }

  lemma {:induction false} StreakGrows(failures: nat, last: int, run: seq<Try>, i: nat)
    requires i < |run| && WithinTheHour(last, run)
    ensures Streak(failures, last, run, i) == failures + i
    decreases i
  {
    if i > 0 {
      assert run[0].at <= TimeBefore(last, run, 0) + HOUR;
      forall k: nat | k < |run[1..]| ensures run[1..][k].at <= TimeBefore(run[0].at, run[1..], k) + HOUR {
        assert run[k + 1].at <= TimeBefore(last, run, k + 1) + HOUR;
      }
      StreakGrows(failures + 1, run[0].at, run[1..], i - 1);
    }
  }

  /**
   Once the delay has reached 15 minutes, and while no try is more than an hour after the one before, a run
   is refused from end to end exactly when no try with the right passphrase comes 15 minutes or more after
   the try before it. A long pause that a wrong try ends helps nobody.
   */
  lemma RefusedIffNoMatchIsLate(c: Counters, run: seq<Try>)
    requires Sound(c) && c.failures >= 12 && InOrder(c, run) && WithinTheHour(c.lastFailureAt.value, run)
    ensures AllRefused(c, run) <==> forall i: nat :: LateAt(c.lastFailureAt.value, run, i) ==> !run[i].matches
  {
    var last := c.lastFailureAt.value;
    RefusedIffMatchesComeTooEarly(c, run);
    forall i: nat | i < |run| ensures TooEarly(c.failures, last, run, i) <==> !LateAt(last, run, i) {
      StreakGrows(c.failures, last, run, i);
      DelayDoubles(c.failures + i);
    }
    assert forall i: nat :: LateAt(last, run, i) ==> i < |run|;
  }

  /**
   What anyone can do to the owner: keep trying, with anything, never 15 minutes apart. From twelve recorded
   failures on no try is accepted for as long as that lasts, the owner's own tries with the right
   passphrase included.
   */
  lemma SteadyTriesLockTheHandle(c: Counters, run: seq<Try>)
    requires Sound(c) && c.failures >= 12 && InOrder(c, run)
    requires forall i: nat :: !LateAt(c.lastFailureAt.value, run, i)
    ensures AllRefused(c, run)
  {
    forall i: nat | i < |run| ensures run[i].at <= TimeBefore(c.lastFailureAt.value, run, i) + HOUR {
      assert !LateAt(c.lastFailureAt.value, run, i);
    }
    RefusedIffNoMatchIsLate(c, run);
  }

  /** And what the owner can count on, from any count: 15 minutes after the try before, the passphrase gets in. */
  lemma LateMatchGetsIn(c: Counters, run: seq<Try>, i: nat)
    requires Sound(c) && c.failures > 0 && InOrder(c, run)
    requires LateAt(c.lastFailureAt.value, run, i) && run[i].matches
    ensures !AllRefused(c, run)
  {
    RefusedIffMatchesComeTooEarly(c, run);
    var n := Streak(c.failures, c.lastFailureAt.value, run, i);
    if n > 3 {
      DelayDoubles(n);
    }
    assert !TooEarly(c.failures, c.lastFailureAt.value, run, i);
  }

  /** Twelve wrong tries at one moment bring any fresh handle there. */
  function Twelve(at: int): seq<Try> {
    seq(12, _ => Try(false, at))
  }

  lemma {:induction false} FailuresAdd(c: Counters, at: int, n: nat)
    requires Sound(c) && c.failures > 0 && c.lastFailureAt == Some(at)
    ensures var run := seq(n, _ => Try(false, at));
            Sound(After(c, run)) && After(c, run).failures == c.failures + n && After(c, run).lastFailureAt == Some(at)
    decreases n
  {
    if n > 0 {
      var run: seq<Try> := seq(n, _ => Try(false, at));
      assert run[1..] == seq(n - 1, _ => Try(false, at));
      TriedStaysSound(c, run[0]);
      FailuresAdd(Tried(c, run[0]), at, n - 1);
    }
  }

  lemma TwelveLock(at: int)
    ensures var c := After(FRESH, Twelve(at)); Sound(c) && c.failures == 12 && c.lastFailureAt == Some(at)
  {
    var first := Tried(FRESH, Try(false, at));
    FailuresAdd(first, at, 11);
    assert Twelve(at)[1..] == seq(11, _ => Try(false, at));
  }

  /** The owner tries the right passphrase every 14 minutes, as often as they like, and never gets in. */
  function OwnersTries(at: int, n: nat): seq<Try> {
    seq(n, i => Try(true, at + Seconds(840 * (i + 1))))
  }

  /** The failing input: after twelve wrong tries the patient owner of a fresh handle is never let in. */
  lemma PatientOwnerIsLockedOut(at: int, n: nat)
    ensures var c := After(FRESH, Twelve(at));
            && InOrder(c, OwnersTries(at, n)) && AllRefused(c, OwnersTries(at, n))
            && forall i :: 0 <= i < n ==> OwnersTries(at, n)[i].matches
  {
    TwelveLock(at);
    var run := OwnersTries(at, n);
    SteadyTriesLockTheHandle(After(FRESH, Twelve(at)), run);
  }
}
