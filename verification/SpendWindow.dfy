/** What a connection may still spend in a sliding window, and the times its refusals name:
    `apps/control-plane/src/mcp/limits.ts`. Amounts are exact reals. Times are microseconds, as the
    database keeps them; the program reads them as dates of whole milliseconds. */
module SpendWindow {
  import opened Options

  const MS: int := 1000
  const WINDOW: int := 24 * 3_600_000 * MS
  const TOLERANCE: real := 0.000000001

  datatype Limit = Limit(runsPerDay: nat, spendUsdPerDay: real)

  /** `late` is kept for the statements about every reachable state: how much more the run holds than
      the least that it has held. */
  datatype WindowRun = WindowRun(startedAt: int, live: bool, unpriced: bool, budgetUsd: real, costUsd: real, late: real)

  function Max(a: real, b: real): real {
    if a < b then b else a
  }

  function Held(run: WindowRun): real {
    if run.live || run.unpriced then Max(run.budgetUsd, run.costUsd) else run.costUsd
  }

  /** When the query stops selecting the run. */
  function LeavesAt(run: WindowRun): int {
    run.startedAt + WINDOW
  }

  /** `leavesAt`: the same, cut to a millisecond. */
  function NamedAt(run: WindowRun): int {
    LeavesAt(run) / MS * MS
  }

  function Spent(runs: seq<WindowRun>): real {
    if runs == [] then 0.0 else Spent(runs[..|runs| - 1]) + Held(runs[|runs| - 1])
  }

  /** The rows that `windowRuns` selects at a time: `created_at > now() - 24 hours`. */
  function Window(runs: seq<WindowRun>, now: int): seq<WindowRun> {
    if runs == [] then []
    else Window(runs[..|runs| - 1], now) + (if LeavesAt(runs[|runs| - 1]) > now then [runs[|runs| - 1]] else [])
  }

  ghost predicate Ordered(runs: seq<WindowRun>) {
    forall i, j :: 0 <= i < j < |runs| ==> runs[i].startedAt <= runs[j].startedAt
  }

  /** A run never costs less than nothing. */
  ghost predicate Charged(runs: seq<WindowRun>) {
    forall i :: 0 <= i < |runs| ==> 0.0 <= runs[i].costUsd
  }

  // ----- Refusals -----

  datatype Refusal = TooManyRuns(runsFreeAt: int) | CapTooHigh | NoRoom(spendFreeAt: Option<int>)

  /** The first run with which, together with those before it, enough has left. */
  function FirstEnough(runs: seq<WindowRun>, needed: real, from: nat): (j: nat)
    requires from <= |runs|
    ensures from <= j <= |runs|
    ensures j < |runs| ==> needed <= Spent(runs[..j + 1])
    ensures forall k :: from < k <= j ==> Spent(runs[..k]) < needed
    decreases |runs| - from
  {
    if from == |runs| || needed <= Spent(runs[..from + 1]) then from else FirstEnough(runs, needed, from + 1)
  }

  function FreeAt(runs: seq<WindowRun>, needed: real): Option<int> {
    var j := FirstEnough(runs, needed, 0);
    if j < |runs| then Some(NamedAt(runs[j])) else None
  }

  /** The loop of `spendFreeAt`, which adds up what has been freed. */
  method SpendFreeAt(runs: seq<WindowRun>, needed: real) returns (at: Option<int>)
    ensures at == FreeAt(runs, needed)
  {
    var freed, k := 0.0, 0;
    while k < |runs|
      invariant 0 <= k <= |runs| && freed == Spent(runs[..k])
      invariant FirstEnough(runs, needed, 0) == FirstEnough(runs, needed, k)
    {
      assert runs[..k + 1][..k] == runs[..k];
      freed := freed + Held(runs[k]);
      if freed >= needed {
        return Some(NamedAt(runs[k]));
      }
      k := k + 1;
    }
    at := None;
  }

  function RefusalFor(runs: seq<WindowRun>, limit: Limit, capUsd: real): Option<Refusal>
    requires limit.runsPerDay >= 1
  {
    if |runs| + 1 > limit.runsPerDay then Some(TooManyRuns(NamedAt(runs[|runs| - limit.runsPerDay])))
    else if capUsd > limit.spendUsdPerDay then Some(CapTooHigh)
    else
      var left := limit.spendUsdPerDay - Spent(runs);
      if capUsd > left + TOLERANCE then Some(NoRoom(FreeAt(runs, capUsd - left))) else None
  }

  /** `refusalFor` with the loops it runs. */
  method Refuse(runs: seq<WindowRun>, limit: Limit, capUsd: real) returns (refusal: Option<Refusal>)
    requires limit.runsPerDay >= 1
    ensures refusal == RefusalFor(runs, limit, capUsd)
    ensures |runs| >= limit.runsPerDay ==> refusal == Some(TooManyRuns(NamedAt(runs[|runs| - limit.runsPerDay])))
    ensures |runs| < limit.runsPerDay && capUsd > limit.spendUsdPerDay ==> refusal == Some(CapTooHigh)
    ensures |runs| < limit.runsPerDay && capUsd <= limit.spendUsdPerDay ==>
      if Spent(runs) + capUsd > limit.spendUsdPerDay + TOLERANCE then refusal.Some? && refusal.value.NoRoom? else refusal.None?
  {
    var spentUsd, k := 0.0, 0;
    while k < |runs|
      invariant 0 <= k <= |runs| && spentUsd == Spent(runs[..k])
    {
      assert runs[..k + 1][..k] == runs[..k];
      spentUsd := spentUsd + Held(runs[k]);
      k := k + 1;
    }
    assert runs[..k] == runs;
    if |runs| + 1 > limit.runsPerDay {
      return Some(TooManyRuns(NamedAt(runs[|runs| - limit.runsPerDay])));
    }
    if capUsd > limit.spendUsdPerDay {
      return Some(CapTooHigh);
    }
    var left := limit.spendUsdPerDay - spentUsd;
    if capUsd > left + TOLERANCE {
      var freeAt := SpendFreeAt(runs, capUsd - left);
      return Some(NoRoom(freeAt));
    }
    refusal := None;
  }

  /** What a start that is not refused leaves of the limit. */
  lemma NotRefused(runs: seq<WindowRun>, limit: Limit, capUsd: real)
    requires limit.runsPerDay >= 1
    ensures RefusalFor(runs, limit, capUsd).None? <==>
      |runs| + 1 <= limit.runsPerDay && capUsd <= limit.spendUsdPerDay && Spent(runs) + capUsd <= limit.spendUsdPerDay + TOLERANCE
  {
    hide Spent, FreeAt;
  }

  lemma NoRoomMeans(runs: seq<WindowRun>, limit: Limit, capUsd: real)
    requires limit.runsPerDay >= 1 && RefusalFor(runs, limit, capUsd).Some? && RefusalFor(runs, limit, capUsd).value.NoRoom?
    ensures |runs| + 1 <= limit.runsPerDay && capUsd <= limit.spendUsdPerDay && capUsd > limit.spendUsdPerDay - Spent(runs) + TOLERANCE
  {
    hide Spent, FreeAt;
  }

  // ----- How the window moves -----

  lemma {:induction false} SpentIsNotNegative(runs: seq<WindowRun>)
    requires Charged(runs)
    ensures Spent(runs) >= 0.0
  {
    if runs != [] {
      SpentIsNotNegative(runs[..|runs| - 1]);
    }
  }

  lemma {:induction false} SpentSplits(runs: seq<WindowRun>, k: nat)
    requires k <= |runs|
    ensures Spent(runs) == Spent(runs[..k]) + Spent(runs[k..])
    decreases |runs|
  {
    if k == |runs| {
      assert runs[..k] == runs;
    } else {
      var front := runs[..|runs| - 1];
      SpentSplits(front, k);
      assert front[..k] == runs[..k];
      assert runs[k..][..|runs[k..]| - 1] == front[k..];
    }
  }

  lemma SpentGrows(runs: seq<WindowRun>, j: nat, k: nat)
    requires Charged(runs) && j <= k <= |runs|
    ensures Spent(runs[..j]) <= Spent(runs[..k])
  {
    hide Spent, Held;
    SpentSplits(runs[..k], j);
    assert runs[..k][..j] == runs[..j];
    assert Charged(runs[..k][j..]);
    SpentIsNotNegative(runs[..k][j..]);
  }

  lemma SpentAppend(front: seq<WindowRun>, last: WindowRun)
    ensures Spent(front + [last]) == Spent(front) + Held(last)
  {
    assert (front + [last])[..|front|] == front;
  }

  lemma WindowAppend(front: seq<WindowRun>, last: WindowRun, t: int)
    ensures Window(front + [last], t) == if LeavesAt(last) > t then Window(front, t) + [last] else Window(front, t)
  {
    assert (front + [last])[..|front|] == front;
  }

  lemma WindowOneMore(front: seq<WindowRun>, last: WindowRun, t: int)
    ensures |Window(front + [last], t)| == |Window(front, t)| + (if LeavesAt(last) > t then 1 else 0)
    ensures Spent(Window(front + [last], t)) == Spent(Window(front, t)) + (if LeavesAt(last) > t then Held(last) else 0.0)
  {
    hide Window, Spent, Held, LeavesAt;
    WindowAppend(front, last, t);
    SpentAppend(Window(front, t), last);
  }

  lemma EmptyWindow(t: int)
    ensures Window([], t) == [] && Spent([]) == 0.0
  {
  }

  lemma ChargedFront(front: seq<WindowRun>, last: WindowRun)
    requires Charged(front + [last])
    ensures Charged(front) && Held(last) >= 0.0
  {
    var runs := front + [last];
    assert runs[|front|] == last;
    assert forall i :: 0 <= i < |front| ==> runs[i] == front[i];
  }

  /** Later, fewer runs are in the window and less is held. */
  lemma {:induction false} WindowShrinks(runs: seq<WindowRun>, t: int, u: int)
    requires Charged(runs) && t <= u
    ensures |Window(runs, u)| <= |Window(runs, t)|
    ensures Spent(Window(runs, u)) <= Spent(Window(runs, t))
  {
    hide Window, Spent, Held, LeavesAt, Charged;
    if runs == [] {
      EmptyWindow(t);
      EmptyWindow(u);
    } else {
      var front, last := runs[..|runs| - 1], runs[|runs| - 1];
      assert runs == front + [last];
      ChargedFront(front, last);
      WindowShrinks(front, t, u);
      WindowOneMore(front, last, t);
      WindowOneMore(front, last, u);
    }
  }

  /** Runs leave in their order, so the window is a tail of the list. */
  lemma {:induction false} WindowIsTail(runs: seq<WindowRun>, t: int, k: nat)
    requires k <= |runs|
    requires forall i :: 0 <= i < k ==> LeavesAt(runs[i]) <= t
    requires forall i :: k <= i < |runs| ==> LeavesAt(runs[i]) > t
    ensures Window(runs, t) == runs[k..]
    decreases |runs|
  {
    hide Window, LeavesAt;
    if runs == [] {
      EmptyWindow(t);
    } else {
      var front, last := runs[..|runs| - 1], runs[|runs| - 1];
      assert runs == front + [last];
      WindowAppend(front, last, t);
      if k == |runs| {
        WindowIsTail(front, t, k - 1);
      } else {
        WindowIsTail(front, t, k);
        assert runs[k..] == front[k..] + [last];
      }
    }
  }

  /** How many runs have left by a time. */
  function Gone(runs: seq<WindowRun>, t: int): (k: nat)
    requires Ordered(runs)
    ensures k <= |runs|
    ensures forall i :: 0 <= i < k ==> LeavesAt(runs[i]) <= t
    ensures forall i :: k <= i < |runs| ==> LeavesAt(runs[i]) > t
  {
    if runs == [] || LeavesAt(runs[|runs| - 1]) <= t then |runs| else Gone(runs[..|runs| - 1], t)
  }

  lemma GoneBefore(runs: seq<WindowRun>, t: int, j: nat)
    requires Ordered(runs) && j < |runs|
    ensures LeavesAt(runs[j]) <= t <==> j < Gone(runs, t)
  {
    hide Gone, Ordered, LeavesAt;
  }

  lemma GoneWindow(runs: seq<WindowRun>, t: int)
    requires Ordered(runs)
    ensures |Window(runs, t)| == |runs| - Gone(runs, t)
    ensures Spent(Window(runs, t)) == Spent(runs) - Spent(runs[..Gone(runs, t)])
  {
    hide Gone, Ordered, LeavesAt, Window, Spent;
    WindowIsTail(runs, t, Gone(runs, t));
    SpentSplits(runs, Gone(runs, t));
  }

  // ----- The times that refusals name -----

  /** A named time is the true one, cut to a millisecond. */
  ghost predicate Names(named: int, free: int) {
    named <= free < named + MS && named % MS == 0
  }

  lemma NamedTimes(run: WindowRun)
    ensures Names(NamedAt(run), LeavesAt(run))
  {
  }

  /** While the runs stay the same, a start is refused for their number exactly until a time that
      the refusal names. */
  lemma RunsFreeAtIsExact(runs: seq<WindowRun>, limit: Limit, capUsd: real) returns (free: int)
    requires Ordered(runs) && limit.runsPerDay >= 1
    requires RefusalFor(runs, limit, capUsd).Some? && RefusalFor(runs, limit, capUsd).value.TooManyRuns?
    ensures Names(RefusalFor(runs, limit, capUsd).value.runsFreeAt, free)
    ensures forall t :: TooMany(Window(runs, t), limit, capUsd) <==> t < free
  {
    free := LeavesAt(runs[|runs| - limit.runsPerDay]);
    NamedTimes(runs[|runs| - limit.runsPerDay]);
    forall t ensures TooMany(Window(runs, t), limit, capUsd) <==> t < free {
      WindowIsTail(runs, t, Gone(runs, t));
    }
  }

  predicate TooMany(runs: seq<WindowRun>, limit: Limit, capUsd: real)
    requires limit.runsPerDay >= 1
  {
    RefusalFor(runs, limit, capUsd).Some? && RefusalFor(runs, limit, capUsd).value.TooManyRuns?
  }

  predicate Fits(runs: seq<WindowRun>, limit: Limit, capUsd: real) {
    capUsd <= limit.spendUsdPerDay - Spent(runs)
  }

  /** A start that is refused for lack of room fits, without leaning on the tolerance, exactly from a
      time on that the refusal names, and is not refused then. Such a time is always named. */
  lemma SpendFreeAtIsExact(runs: seq<WindowRun>, limit: Limit, capUsd: real) returns (free: int)
    requires Ordered(runs) && Charged(runs) && limit.runsPerDay >= 1
    requires RefusalFor(runs, limit, capUsd).Some? && RefusalFor(runs, limit, capUsd).value.NoRoom?
    ensures RefusalFor(runs, limit, capUsd).value.spendFreeAt.Some?
    ensures Names(RefusalFor(runs, limit, capUsd).value.spendFreeAt.value, free)
    ensures forall t :: Fits(Window(runs, t), limit, capUsd) <==> free <= t
    ensures forall t :: free <= t ==> RefusalFor(Window(runs, t), limit, capUsd).None?
  {
    var needed := capUsd - (limit.spendUsdPerDay - Spent(runs));
    var j := FirstEnough(runs, needed, 0);
    assert Spent(runs[..0]) == 0.0;
    EnoughLeaves(runs, needed, j);
    free := LeavesAt(runs[j]);
    NamedTimes(runs[j]);
    forall t
      ensures Fits(Window(runs, t), limit, capUsd) <==> free <= t
      ensures free <= t ==> RefusalFor(Window(runs, t), limit, capUsd).None?
    {
      FitsFrom(runs, limit, capUsd, j, t);
    }
  }

  lemma FitsFrom(runs: seq<WindowRun>, limit: Limit, capUsd: real, j: nat, t: int)
    requires Ordered(runs) && Charged(runs) && limit.runsPerDay >= 1
    requires RefusalFor(runs, limit, capUsd).Some? && RefusalFor(runs, limit, capUsd).value.NoRoom?
    requires j < |runs| && j == FirstEnough(runs, capUsd - (limit.spendUsdPerDay - Spent(runs)), 0)
    ensures Fits(Window(runs, t), limit, capUsd) <==> LeavesAt(runs[j]) <= t
    ensures LeavesAt(runs[j]) <= t ==> RefusalFor(Window(runs, t), limit, capUsd).None?
  {
    hide Spent, Window, FirstEnough, Gone, Charged, Ordered, LeavesAt, RefusalFor;
    NoRoomMeans(runs, limit, capUsd);
    NotRefused(Window(runs, t), limit, capUsd);
    GoneWindow(runs, t);
    GoneBefore(runs, t, j);
    EnoughGone(runs, capUsd - (limit.spendUsdPerDay - Spent(runs)), j, Gone(runs, t));
  }

  /** Enough has gone exactly when the run with which it is enough has. */
  lemma EnoughGone(runs: seq<WindowRun>, needed: real, j: nat, k: nat)
    requires Charged(runs) && j < |runs| && k <= |runs| && j == FirstEnough(runs, needed, 0) && needed > 0.0
    ensures needed <= Spent(runs[..k]) <==> j < k
  {
    assert Spent(runs[..0]) == 0.0;
    hide Spent, FirstEnough, Charged;
    if j < k {
      SpentGrows(runs, j + 1, k);
    }
  }

  /** What is held in all is enough when the cap is within the limit. */
  lemma EnoughLeaves(runs: seq<WindowRun>, needed: real, j: nat)
    requires j == FirstEnough(runs, needed, 0) && 0.0 < needed <= Spent(runs)
    ensures j < |runs|
  {
    assert runs[..|runs|] == runs;
  }

  /** What has been freed by a time, and whether a start that lacked room is still refused then. */
  lemma RefusedAt(runs: seq<WindowRun>, limit: Limit, capUsd: real, t: int)
    requires Ordered(runs) && Charged(runs) && limit.runsPerDay >= 1
    requires RefusalFor(runs, limit, capUsd).Some? && RefusalFor(runs, limit, capUsd).value.NoRoom?
    ensures RefusalFor(Window(runs, t), limit, capUsd).Some? <==>
      Spent(runs[..Gone(runs, t)]) + TOLERANCE < capUsd - (limit.spendUsdPerDay - Spent(runs))
  {
    hide Spent, Window, FirstEnough, Gone, Charged, RefusalFor, Ordered, LeavesAt;
    NoRoomMeans(runs, limit, capUsd);
    NotRefused(Window(runs, t), limit, capUsd);
    GoneWindow(runs, t);
  }

  /** The refusal lasts until the time it names exactly when what leaves before that time falls more
      than the tolerance short of what is needed. */
  lemma RefusedUntilExactly(runs: seq<WindowRun>, limit: Limit, capUsd: real, at: int)
    requires Ordered(runs) && Charged(runs) && limit.runsPerDay >= 1
    requires RefusalFor(runs, limit, capUsd) == Some(NoRoom(Some(at)))
    ensures (forall t :: t < at ==> RefusalFor(Window(runs, t), limit, capUsd).Some?) <==>
      Spent(runs[..Gone(runs, at - 1)]) + TOLERANCE < capUsd - (limit.spendUsdPerDay - Spent(runs))
  {
    hide Spent, Window, RefusalFor;
    RefusedAt(runs, limit, capUsd, at - 1);
    forall t | t < at
      ensures RefusalFor(Window(runs, at - 1), limit, capUsd).Some? ==> RefusalFor(Window(runs, t), limit, capUsd).Some?
    {
      RefusedAt(runs, limit, capUsd, t);
      GoneGrows(runs, t, at - 1);
      SpentGrows(runs, Gone(runs, t), Gone(runs, at - 1));
    }
    assert at - 1 < at;
  }

  lemma GoneGrows(runs: seq<WindowRun>, t: int, u: int)
    requires Ordered(runs) && t <= u
    ensures Gone(runs, t) <= Gone(runs, u)
  {
    hide Gone;
    var j := Gone(runs, u);
    assert j < |runs| ==> LeavesAt(runs[j]) > u;
  }

  /** The tolerance can let a start in before the named time: two runs hold the limit of 2 dollars,
      and a start of a little more than 1 dollar is let in as soon as the first leaves. */
  lemma ToleranceMayBeEarlier()
    ensures var runs := [WindowRun(0, true, false, 1.0, 0.0, 0.0), WindowRun(5 * MS, true, false, 1.0, 0.0, 0.0)];
            var limit, capUsd := Limit(5, 2.0), 1.0 + TOLERANCE / 2.0;
            && RefusalFor(runs, limit, capUsd) == Some(NoRoom(Some(WINDOW + 5 * MS)))
            && RefusalFor(Window(runs, WINDOW), limit, capUsd) == None
  {
    var a, b := WindowRun(0, true, false, 1.0, 0.0, 0.0), WindowRun(5 * MS, true, false, 1.0, 0.0, 0.0);
    var runs, capUsd := [a, b], 1.0 + TOLERANCE / 2.0;
    assert Held(a) == 1.0 && Held(b) == 1.0 && LeavesAt(a) == WINDOW && LeavesAt(b) == WINDOW + 5 * MS && NamedAt(b) == LeavesAt(b);
    hide Spent, FirstEnough, Window, Held, LeavesAt, NamedAt;
    SpentOfTwo(a, b);
    assert runs[..1] == [a] && runs[..2] == runs && runs[1..] == [b];
    assert FirstEnough(runs, capUsd - (2.0 - Spent(runs)), 0) == 1;
    WindowIsTail(runs, WINDOW, 1);
  }

  lemma SpentOfTwo(a: WindowRun, b: WindowRun)
    ensures Spent([a]) == Held(a) && Spent([b]) == Held(b) && Spent([a, b]) == Held(a) + Held(b)
  {
    hide Held;
    assert [] + [a] == [a] && [] + [b] == [b] && [a] + [b] == [a, b];
    SpentAppend([], a);
    SpentAppend([], b);
    SpentAppend([a], b);
  }
}
