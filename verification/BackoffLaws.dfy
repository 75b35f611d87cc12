/**
 Which tries a reporter handle accepts, told from the tries before alone: how many of the last ones were refused
 close together, and when the last one was.
 */
module BackoffLaws {
  import opened Wrappers
  import opened Backoff

  /** Seconds to wait after so many failures in a row. */
  function WaitAfter(failures: nat): int {
    match failures
    case 0 => 0
    case 1 => 0
    case 2 => 0
    case 3 => 0
    case 4 => 5
    case 5 => 10
    case 6 => 20
    case 7 => 40
    case 8 => 80
    case 9 => 160
    case 10 => 320
    case 11 => 640
    case _ => 900
  }

  lemma DelayIs(failures: nat)
    requires failures > 3
    ensures Delay(failures) == WaitAfter(failures)
  {
    CreditValues();
    if failures >= 12 {
      DelayDoubles(failures);
    }
  }

  ghost predicate Ordered(run: seq<Try>) {
    forall i, j :: 0 <= i < j < |run| ==> run[i].at <= run[j].at
  }

  /** The row before the try at the index, of a handle that began with none. */
  function RowAt(run: seq<Try>, i: nat): Counters
    requires i <= |run|
  {
    After(FRESH, run[..i])
  }

  predicate AcceptedAt(run: seq<Try>, i: nat)
    requires i < |run|
  {
    Accepted(RowAt(run, i), run[i])
  }

  /** The refused tries that end just before the index, each within an hour of the one before it. */
  function Streak(run: seq<Try>, i: nat): nat
    requires i <= |run|
  {
    if i == 0 || AcceptedAt(run, i - 1) then 0
    else if i == 1 || run[i - 1].at - run[i - 2].at > 3_600_000_000 then 1
    else Streak(run, i - 1) + 1
  }

  lemma {:induction false} AfterOneMore(c: Counters, run: seq<Try>, t: Try)
    ensures After(c, run + [t]) == Tried(After(c, run), t)
    decreases |run|
  {
    if run == [] {
      assert [t][1..] == [];
    } else {
      assert (run + [t])[1..] == run[1..] + [t];
      AfterOneMore(Tried(c, run[0]), run[1..], t);
    }
  }

  lemma RowOneMore(run: seq<Try>, i: nat)
    requires i < |run|
    ensures RowAt(run, i + 1) == Tried(RowAt(run, i), run[i])
  {
    assert run[..i + 1] == run[..i] + [run[i]];
    AfterOneMore(FRESH, run[..i], run[i]);
  }

  /** The row counts the streak, remembers its last try, and keeps the wait that follows it. */
  lemma {:induction false} RowIsTheStreak(run: seq<Try>, i: nat)
    requires Ordered(run) && i <= |run|
    ensures var c := RowAt(run, i);
            && Sound(c) && c.failures == Streak(run, i)
            && (c.failures > 0 ==> i > 0 && c.lastFailureAt == Some(run[i - 1].at))
    decreases i
  {
    if i > 0 {
      RowIsTheStreak(run, i - 1);
      RowOneMore(run, i - 1);
      TriedStaysSound(RowAt(run, i - 1), run[i - 1]);
    }
  }

  /**
   In every run of a handle, a try is accepted if and only if the passphrase is right and, after more than three
   refusals in a row, the last of them is as long ago as the table says.
   */
  lemma AcceptedIffWaitIsOver(run: seq<Try>, i: nat)
    requires Ordered(run) && i < |run|
    ensures AcceptedAt(run, i)
            <==> run[i].matches
                 && (Streak(run, i) > 3 ==> run[i - 1].at + 1_000_000 * WaitAfter(Streak(run, i)) <= run[i].at)
  {
    RowIsTheStreak(run, i);
    if Streak(run, i) > 3 {
      DelayIs(Streak(run, i));
    }
  }
}
