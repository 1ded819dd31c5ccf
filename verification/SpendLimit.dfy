/** What a connection's runs can hold in every reachable state: `reserveSpend` of
    `apps/control-plane/src/mcp/limits.ts` checks the cap that was asked for, `startRun` of
    `apps/control-plane/src/runs/runs.ts` stores it with four decimals, `recordLlmUsage` of
    `apps/control-plane/src/runs/queue.ts` adds costs whether the run has ended or not, and judging a
    finding again makes a run that has ended live once more. */
module SpendLimit {
  import opened Options
  import opened SpendWindow

  /** How far storing a cap can raise it. */
  const ROUNDING: real := 0.00005

  /** `toFixed(4)`: the nearest number of four decimals, the larger of two. */
  function Stored(capUsd: real): real {
    (capUsd * 10000.0 + 0.5).Floor as real / 10000.0
  }

  lemma StoredIsNear(capUsd: real)
    ensures capUsd - ROUNDING < Stored(capUsd) <= capUsd + ROUNDING
  {
  }

  /** Costs have six decimals. */
  function Micros(n: int): real {
    n as real / 1000000.0
  }

  // ----- Steps -----

  datatype State = State(now: int, runs: seq<WindowRun>)

  datatype Action =
    | Elapse(time: nat)
    | Start(txNow: int, capUsd: real, unpriced: bool)
    | Change(i: nat, change: Change)

  /** Cost that is added, the end of a run, and a finding of a run that has ended being judged again. */
  datatype Change = Charge(micros: nat) | End | JudgeAgain

  /** Rows come ordered by their start, and then by their id. */
  function Inserted(runs: seq<WindowRun>, run: WindowRun): seq<WindowRun> {
    if runs == [] || runs[|runs| - 1].startedAt <= run.startedAt then runs + [run]
    else Inserted(runs[..|runs| - 1], run) + [runs[|runs| - 1]]
  }

  /** Each may happen at any time. A run reserves what it holds, but never more than it did before;
      the rest of what it holds has come late. */
  function AfterChange(run: WindowRun, change: Change): WindowRun {
    var next := match change
      case Charge(micros) => run.(costUsd := run.costUsd + Micros(micros))
      case End => run.(live := false)
      case JudgeAgain => run.(live := true);
    next.(late := Max(0.0, Held(next) - Reserved(run)))
  }

  /** What a run holds without what came late. */
  function Reserved(run: WindowRun): real {
    Held(run) - run.late
  }

  /** A start runs under the connection's lock, and `now()` is when its transaction was opened,
      which may be before another start that got the lock first. A stored cap is more than nothing. */
  predicate Enabled(s: State, limit: Limit, a: Action)
    requires limit.runsPerDay >= 1
  {
    match a
    case Elapse(_) => true
    case Start(txNow, capUsd, _) => txNow <= s.now && Stored(capUsd) > 0.0 && RefusalFor(Window(s.runs, txNow), limit, capUsd).None?
    case Change(i, _) => i < |s.runs|
  }

  /** The row that a start writes. */
  function StartedRun(a: Action): WindowRun
    requires a.Start?
  {
    WindowRun(a.txNow, true, a.unpriced, Stored(a.capUsd), 0.0, 0.0)
  }

  function Step(s: State, limit: Limit, a: Action): State
    requires limit.runsPerDay >= 1 && Enabled(s, limit, a)
  {
    match a
    case Elapse(time) => s.(now := s.now + time)
    case Start(_, _, _) => s.(runs := Inserted(s.runs, StartedRun(a)))
    case Change(i, change) => s.(runs := s.runs[i := AfterChange(s.runs[i], change)])
  }

  const START := State(0, [])

  function After(limit: Limit, actions: seq<Action>): State
    requires limit.runsPerDay >= 1
  {
    if actions == [] then START
    else
      var s, a := After(limit, actions[..|actions| - 1]), actions[|actions| - 1];
      if Enabled(s, limit, a) then Step(s, limit, a) else s
  }

  // ----- What is reserved, and what comes late -----

  function ReservedIn(runs: seq<WindowRun>): real {
    if runs == [] then 0.0 else ReservedIn(runs[..|runs| - 1]) + Reserved(runs[|runs| - 1])
  }

  function LateIn(runs: seq<WindowRun>): real {
    if runs == [] then 0.0 else LateIn(runs[..|runs| - 1]) + runs[|runs| - 1].late
  }

  predicate IsBooked(run: WindowRun) {
    0.0 <= run.late <= Held(run) && 0.0 <= run.costUsd
  }

  ghost predicate Booked(runs: seq<WindowRun>) {
    forall i :: 0 <= i < |runs| ==> IsBooked(runs[i])
  }

  lemma BookedRun(run: WindowRun)
    requires IsBooked(run)
    ensures Reserved(run) >= 0.0
  {
  }

  lemma {:induction false} SpentIsReservedAndLate(runs: seq<WindowRun>)
    ensures Spent(runs) == ReservedIn(runs) + LateIn(runs)
  {
    if runs != [] {
      SpentIsReservedAndLate(runs[..|runs| - 1]);
    }
  }

  lemma {:induction false} LateIsNotNegative(runs: seq<WindowRun>)
    requires Booked(runs)
    ensures LateIn(runs) >= 0.0
  {
    if runs != [] {
      LateIsNotNegative(runs[..|runs| - 1]);
    }
  }

  lemma ReservedOneMore(front: seq<WindowRun>, last: WindowRun, t: int)
    ensures |Window(front + [last], t)| == |Window(front, t)| + (if LeavesAt(last) > t then 1 else 0)
    ensures ReservedIn(Window(front + [last], t)) == ReservedIn(Window(front, t)) + (if LeavesAt(last) > t then Reserved(last) else 0.0)
  {
    hide Window, Reserved, LeavesAt;
    WindowAppend(front, last, t);
    assert (Window(front, t) + [last])[..|Window(front, t)|] == Window(front, t);
  }

  /** Later, fewer runs are in the window and less is reserved. */
  lemma {:induction false} ReservedShrinks(runs: seq<WindowRun>, t: int, u: int)
    requires Booked(runs) && t <= u
    ensures |Window(runs, u)| <= |Window(runs, t)|
    ensures ReservedIn(Window(runs, u)) <= ReservedIn(Window(runs, t))
  {
    if runs != [] {
      var front, last := runs[..|runs| - 1], runs[|runs| - 1];
      assert runs == front + [last];
      hide Window, ReservedIn, Reserved, LeavesAt, IsBooked;
      BookedRun(last);
      ReservedShrinks(front, t, u);
      ReservedOneMore(front, last, t);
      ReservedOneMore(front, last, u);
    }
  }

  lemma {:induction false} WindowIsBooked(runs: seq<WindowRun>, t: int)
    requires Booked(runs)
    ensures Booked(Window(runs, t))
  {
    if runs != [] {
      hide IsBooked;
      WindowIsBooked(runs[..|runs| - 1], t);
    }
  }

  lemma {:induction false} InsertedInWindow(runs: seq<WindowRun>, run: WindowRun, t: int)
    ensures |Window(Inserted(runs, run), t)| == |Window(runs, t)| + (if LeavesAt(run) > t then 1 else 0)
    ensures ReservedIn(Window(Inserted(runs, run), t)) == ReservedIn(Window(runs, t)) + (if LeavesAt(run) > t then Reserved(run) else 0.0)
  {
    hide Reserved, LeavesAt, Window, ReservedIn;
    if runs == [] || runs[|runs| - 1].startedAt <= run.startedAt {
      ReservedOneMore(runs, run, t);
    } else {
      var front, last := runs[..|runs| - 1], runs[|runs| - 1];
      assert runs == front + [last];
      InsertedInWindow(front, run, t);
      ReservedOneMore(front, last, t);
      ReservedOneMore(Inserted(front, run), last, t);
    }
  }

  lemma {:induction false} InsertedKeepsOrder(runs: seq<WindowRun>, run: WindowRun)
    requires Ordered(runs) && Booked(runs) && IsBooked(run)
    ensures Ordered(Inserted(runs, run)) && Booked(Inserted(runs, run))
    ensures forall r :: r in Inserted(runs, run) <==> r in runs || r == run
  {
    hide IsBooked;
    if !(runs == [] || runs[|runs| - 1].startedAt <= run.startedAt) {
      var front, last := runs[..|runs| - 1], runs[|runs| - 1];
      InsertedKeepsOrder(front, run);
      assert runs == front + [last];
      var more := Inserted(front, run);
      forall i | 0 <= i < |more| ensures more[i].startedAt <= last.startedAt {
        assert more[i] in more;
      }
    }
  }

  /** Changing a run without its reserving more adds nothing to any window. */
  lemma ChangedInWindow(runs: seq<WindowRun>, i: nat, run: WindowRun, t: int)
    requires i < |runs| && run.startedAt == runs[i].startedAt && Reserved(run) <= Reserved(runs[i])
    ensures |Window(runs[i := run], t)| == |Window(runs, t)|
    ensures ReservedIn(Window(runs[i := run], t)) <= ReservedIn(Window(runs, t))
  {
    hide Window, ReservedIn, Reserved;
    assert runs == runs[..i] + [runs[i]] + runs[i + 1..];
    assert runs[i := run] == runs[..i] + [run] + runs[i + 1..];
    ReplacedInWindow(runs[..i], runs[i], run, runs[i + 1..], t);
  }

  lemma {:induction false} ReplacedInWindow(front: seq<WindowRun>, before: WindowRun, after: WindowRun, back: seq<WindowRun>, t: int)
    requires before.startedAt == after.startedAt && Reserved(after) <= Reserved(before)
    ensures |Window(front + [after] + back, t)| == |Window(front + [before] + back, t)|
    ensures ReservedIn(Window(front + [after] + back, t)) <= ReservedIn(Window(front + [before] + back, t))
    decreases |back|
  {
    assert LeavesAt(after) == LeavesAt(before);
    hide Window, ReservedIn, Reserved, LeavesAt;
    if back == [] {
      assert front + [after] + back == front + [after] && front + [before] + back == front + [before];
      ReservedOneMore(front, before, t);
      ReservedOneMore(front, after, t);
    } else {
      var shorter, last := back[..|back| - 1], back[|back| - 1];
      assert back == shorter + [last];
      assert front + [after] + back == (front + [after] + shorter) + [last];
      assert front + [before] + back == (front + [before] + shorter) + [last];
      ReplacedInWindow(front, before, after, shorter, t);
      ReservedOneMore(front + [after] + shorter, last, t);
      ReservedOneMore(front + [before] + shorter, last, t);
    }
  }

  // ----- Every reachable state -----

  ghost predicate Inv(s: State, limit: Limit) {
    && Ordered(s.runs) && Booked(s.runs)
    && |Window(s.runs, s.now)| <= limit.runsPerDay
    && ReservedIn(Window(s.runs, s.now)) <= limit.spendUsdPerDay + TOLERANCE + ROUNDING
  }

  lemma StartedRunHolds(a: Action)
    requires a.Start? && Stored(a.capUsd) > 0.0
    ensures IsBooked(StartedRun(a)) && Reserved(StartedRun(a)) == Held(StartedRun(a)) == Stored(a.capUsd) <= a.capUsd + ROUNDING
  {
    StoredIsNear(a.capUsd);
  }

  lemma StartKeepsInv(s: State, limit: Limit, a: Action)
    requires limit.runsPerDay >= 1 && a.Start? && Inv(s, limit) && Enabled(s, limit, a)
    ensures Inv(Step(s, limit, a), limit)
  {
    hide Window, RefusalFor, Ordered, Booked, ReservedIn, Stored, Reserved, Held, LeavesAt, Inserted, IsBooked, StartedRun, Spent;
    var run := StartedRun(a);
    StartedRunHolds(a);
    NotRefused(Window(s.runs, a.txNow), limit, a.capUsd);
    StepIsInserted(s, limit, a);
    InsertedInWindow(s.runs, run, s.now);
    InsertedKeepsOrder(s.runs, run);
    ReservedShrinks(s.runs, a.txNow, s.now);
    WindowIsBooked(s.runs, a.txNow);
    SpentIsReservedAndLate(Window(s.runs, a.txNow));
    LateIsNotNegative(Window(s.runs, a.txNow));
  }

  lemma StepIsInserted(s: State, limit: Limit, a: Action)
    requires limit.runsPerDay >= 1 && a.Start? && Enabled(s, limit, a)
    ensures Step(s, limit, a) == State(s.now, Inserted(s.runs, StartedRun(a)))
  {
    hide Inserted, RefusalFor, Window, Stored;
  }

  lemma ChangeReservesNoMore(run: WindowRun, change: Change)
    requires IsBooked(run)
    ensures Reserved(AfterChange(run, change)) <= Reserved(run) && IsBooked(AfterChange(run, change))
    ensures AfterChange(run, change).startedAt == run.startedAt
  {
  }

  lemma StepKeepsInv(s: State, limit: Limit, a: Action)
    requires limit.runsPerDay >= 1 && Inv(s, limit) && Enabled(s, limit, a)
    ensures Inv(Step(s, limit, a), limit)
  {
    hide Window, ReservedIn, AfterChange, Reserved, IsBooked;
    match a
    case Elapse(time) => ReservedShrinks(s.runs, s.now, s.now + time);
    case Start(_, _, _) => StartKeepsInv(s, limit, a);
    case Change(i, change) =>
      ChangeReservesNoMore(s.runs[i], change);
      ChangedInWindow(s.runs, i, AfterChange(s.runs[i], change), s.now);
  }

  lemma {:induction false} AlwaysInv(limit: Limit, actions: seq<Action>)
    requires limit.runsPerDay >= 1 && limit.spendUsdPerDay >= 0.0
    ensures Inv(After(limit, actions), limit)
  {
    if actions != [] {
      var s, a := After(limit, actions[..|actions| - 1]), actions[|actions| - 1];
      AlwaysInv(limit, actions[..|actions| - 1]);
      if Enabled(s, limit, a) {
        StepKeepsInv(s, limit, a);
      }
    }
  }

  /** What the runs in the window hold, and what of it came late. */
  function SpentNow(s: State): real {
    Spent(Window(s.runs, s.now))
  }

  function LateNow(s: State): real {
    LateIn(Window(s.runs, s.now))
  }

  /** In every state that guarded starts, costs at any time, ends and time can reach, the window holds
      at most the allowed runs and at most the allowed spend, the tolerance and the rounding of one cap
      once, and what came late: neither the tolerance nor the rounding ever adds up. */
  lemma AlwaysWithinLimit(limit: Limit, actions: seq<Action>)
    requires limit.runsPerDay >= 1 && limit.spendUsdPerDay >= 0.0
    ensures var s := After(limit, actions);
      && |Window(s.runs, s.now)| <= limit.runsPerDay
      && SpentNow(s) <= limit.spendUsdPerDay + TOLERANCE + ROUNDING + LateNow(s)
  {
    hide After, Window, ReservedIn, LateIn;
    AlwaysInv(limit, actions);
    var s := After(limit, actions);
    SpentIsReservedAndLate(Window(s.runs, s.now));
  }

  // ----- When nothing comes late -----

  /** Cost comes only while the budget is held and stays within it, and a finding is judged again only
      when its run holds as much anyway. */
  predicate Covered(run: WindowRun, change: Change) {
    match change
    case Charge(micros) => micros == 0 || ((run.live || run.unpriced) && run.costUsd + Micros(micros) <= run.budgetUsd)
    case End => true
    case JudgeAgain => run.live || run.unpriced || run.budgetUsd <= run.costUsd
  }

  /** A change lets a run hold no more than before exactly when it is covered. */
  lemma CoveredExactly(run: WindowRun, change: Change)
    ensures Covered(run, change) <==> Held(AfterChange(run, change)) <= Held(run)
  {
  }

  /** Every change is covered when it comes. */
  ghost predicate AllCovered(limit: Limit, actions: seq<Action>)
    requires limit.runsPerDay >= 1
  {
    forall k :: 0 <= k < |actions| ==> CoveredThen(After(limit, actions[..k]), actions[k])
  }

  predicate CoveredThen(s: State, a: Action) {
    a.Change? && a.i < |s.runs| ==> Covered(s.runs[a.i], a.change)
  }

  ghost predicate NothingLate(runs: seq<WindowRun>) {
    forall i :: 0 <= i < |runs| ==> runs[i].late == 0.0
  }

  lemma {:induction false} InsertedNothingLate(runs: seq<WindowRun>, run: WindowRun)
    requires NothingLate(runs) && run.late == 0.0
    ensures NothingLate(Inserted(runs, run))
  {
    if !(runs == [] || runs[|runs| - 1].startedAt <= run.startedAt) {
      InsertedNothingLate(runs[..|runs| - 1], run);
    }
  }

  lemma {:induction false} CoveredKeepsNothingLate(limit: Limit, actions: seq<Action>)
    requires limit.runsPerDay >= 1 && limit.spendUsdPerDay >= 0.0 && AllCovered(limit, actions)
    ensures NothingLate(After(limit, actions).runs)
  {
    if actions != [] {
      var front, a := actions[..|actions| - 1], actions[|actions| - 1];
      assert forall k :: 0 <= k < |front| ==> front[..k] == actions[..k];
      CoveredKeepsNothingLate(limit, front);
      StepKeepsNothingLate(After(limit, front), limit, a);
    }
  }

  lemma StepKeepsNothingLate(s: State, limit: Limit, a: Action)
    requires limit.runsPerDay >= 1 && NothingLate(s.runs) && CoveredThen(s, a)
    ensures Enabled(s, limit, a) ==> NothingLate(Step(s, limit, a).runs)
  {
    hide RefusalFor, Stored, Window, Inserted;
    if a.Start? {
      InsertedNothingLate(s.runs, StartedRun(a));
    } else if a.Change? && a.i < |s.runs| {
      CoveredExactly(s.runs[a.i], a.change);
    }
  }

  lemma {:induction false} NothingLateInWindow(runs: seq<WindowRun>, t: int)
    requires NothingLate(runs)
    ensures LateIn(Window(runs, t)) == 0.0
  {
    if runs != [] {
      var front, last := runs[..|runs| - 1], runs[|runs| - 1];
      assert runs == front + [last];
      NothingLateInWindow(front, t);
      WindowAppend(front, last, t);
      assert (Window(front, t) + [last])[..|Window(front, t)|] == Window(front, t);
    }
  }

  /** When every change is covered, the limit is kept but for the tolerance and the rounding of one cap. */
  lemma KeptWhenAllCovered(limit: Limit, actions: seq<Action>)
    requires limit.runsPerDay >= 1 && limit.spendUsdPerDay >= 0.0 && AllCovered(limit, actions)
    ensures SpentNow(After(limit, actions)) <= limit.spendUsdPerDay + TOLERANCE + ROUNDING
  {
    hide After, AllCovered, Window, Spent;
    CoveredKeepsNothingLate(limit, actions);
    NothingLateInWindow(After(limit, actions).runs, After(limit, actions).now);
    AlwaysWithinLimit(limit, actions);
  }

  // ----- What a start can add -----

  /** A start that lifts a window within the limit over the limit and the tolerance. */
  predicate Lifts(s: State, limit: Limit, a: Action) {
    && limit.runsPerDay >= 1 && a.Start? && Enabled(s, limit, a)
    && SpentNow(s) <= limit.spendUsdPerDay
    && SpentNow(Step(s, limit, a)) > limit.spendUsdPerDay + TOLERANCE
  }

  lemma {:induction false} InsertedSpent(runs: seq<WindowRun>, run: WindowRun, t: int)
    ensures Spent(Window(Inserted(runs, run), t)) == Spent(Window(runs, t)) + (if LeavesAt(run) > t then Held(run) else 0.0)
  {
    hide Held, LeavesAt, Window, Spent;
    if runs == [] || runs[|runs| - 1].startedAt <= run.startedAt {
      WindowOneMore(runs, run, t);
    } else {
      var front, last := runs[..|runs| - 1], runs[|runs| - 1];
      assert runs == front + [last];
      InsertedSpent(front, run, t);
      WindowOneMore(front, last, t);
      WindowOneMore(Inserted(front, run), last, t);
    }
  }

  /** What the start saw was within the limit with the cap as it was asked for, and it adds the cap as
      it is stored. */
  lemma LiftsBetween(s: State, limit: Limit, a: Action)
    requires Lifts(s, limit, a) && Charged(s.runs)
    ensures var spent := Spent(Window(s.runs, a.txNow));
      spent + a.capUsd <= limit.spendUsdPerDay + TOLERANCE < spent + Stored(a.capUsd)
  {
    hide Window, RefusalFor, Charged, Stored, Held, LeavesAt, Inserted, StartedRun, Spent;
    StartedRunHolds(a);
    NotRefused(Window(s.runs, a.txNow), limit, a.capUsd);
    StepIsInserted(s, limit, a);
    InsertedSpent(s.runs, StartedRun(a), s.now);
    WindowShrinks(s.runs, a.txNow, s.now);
  }

  /** A window with one ended run, and a start beside it. */
  lemma EndedRunAndStart(run: WindowRun, limit: Limit, capUsd: real)
    requires run.startedAt == 0 && !run.live && !run.unpriced && run.costUsd >= 0.0 && limit.runsPerDay >= 2
    requires 0.0 < Stored(capUsd) && capUsd <= limit.spendUsdPerDay && run.costUsd + capUsd <= limit.spendUsdPerDay + TOLERANCE
    ensures var s, a := State(0, [run]), Start(0, capUsd, false);
      && Enabled(s, limit, a) && Step(s, limit, a) == State(0, [run, StartedRun(a)])
      && SpentNow(s) == run.costUsd && SpentNow(Step(s, limit, a)) == run.costUsd + Stored(capUsd)
  {
    var s, a := State(0, [run]), Start(0, capUsd, false);
    var next := StartedRun(a);
    StartedRunHolds(a);
    assert LeavesAt(run) > 0 && LeavesAt(next) > 0 && Held(run) == run.costUsd;
    assert Inserted([run], next) == [run, next];
    hide Window, Spent, RefusalFor, Held, LeavesAt, Inserted, Stored, StartedRun;
    WindowIsTail([run], 0, 0);
    WindowIsTail([run, next], 0, 0);
    SpentOfTwo(run, next);
    NotRefused([run], limit, capUsd);
  }

  /** In some window of some connection a start with this cap is lifted over the limit and the
      tolerance exactly when storing the cap rounds it up. */
  lemma RoundedUpExactly(capUsd: real)
    requires Stored(capUsd) > 0.0
    ensures (exists s: State, limit, txNow, unpriced :: Charged(s.runs) && Lifts(s, limit, Start(txNow, capUsd, unpriced))) <==> capUsd < Stored(capUsd)
  {
    hide Lifts, Stored, Charged;
    forall s: State, limit, txNow, unpriced | Charged(s.runs) && Lifts(s, limit, Start(txNow, capUsd, unpriced)) ensures capUsd < Stored(capUsd) {
      LiftsBetween(s, limit, Start(txNow, capUsd, unpriced));
    }
    if capUsd < Stored(capUsd) {
      RoundedUpLifts(capUsd);
      assert Charged(State(0, [WindowRun(0, false, false, 1.0, TOLERANCE, 0.0)]).runs);
    }
  }

  lemma RoundedUpLifts(capUsd: real)
    requires 0.0 < Stored(capUsd) && capUsd < Stored(capUsd)
    ensures var runs := [WindowRun(0, false, false, 1.0, TOLERANCE, 0.0)];
      Charged(runs) && Lifts(State(0, runs), Limit(2, capUsd), Start(0, capUsd, false))
  {
    SmallestCap(capUsd);
    hide *;
    EndedRunLifts(WindowRun(0, false, false, 1.0, TOLERANCE, 0.0), Limit(2, capUsd), capUsd);
  }

  lemma SmallestCap(capUsd: real)
    requires 0.0 < Stored(capUsd)
    ensures capUsd >= ROUNDING
  {
  }

  lemma EndedRunLifts(run: WindowRun, limit: Limit, capUsd: real)
    requires run.startedAt == 0 && !run.live && !run.unpriced && run.costUsd >= 0.0 && limit.runsPerDay >= 2
    requires 0.0 < Stored(capUsd) && capUsd <= limit.spendUsdPerDay && run.costUsd <= limit.spendUsdPerDay
    requires run.costUsd + capUsd <= limit.spendUsdPerDay + TOLERANCE < run.costUsd + Stored(capUsd)
    ensures Lifts(State(0, [run]), limit, Start(0, capUsd, false))
  {
    hide Stored, Step, Enabled, SpentNow, StartedRun;
    EndedRunAndStart(run, limit, capUsd);
  }

  // ----- What reachable windows allow -----

  lemma AfterNext(limit: Limit, actions: seq<Action>, a: Action)
    requires limit.runsPerDay >= 1
    ensures After(limit, actions + [a]) == if Enabled(After(limit, actions), limit, a) then Step(After(limit, actions), limit, a) else After(limit, actions)
  {
    hide Enabled, Step;
    assert (actions + [a])[..|actions|] == actions;
  }

  /** A run with a cap of so many dollars that has cost so much. */
  function OneRunActions(dollars: nat, micros: nat): seq<Action> {
    [Start(0, dollars as real, false)] + [Change(0, Charge(micros))] + [Change(0, End)]
  }

  function OneEndedRun(dollars: nat, micros: nat): WindowRun {
    WindowRun(0, false, false, dollars as real, Micros(micros), 0.0)
  }

  lemma WholeDollarsAreStored(dollars: nat)
    ensures Stored(dollars as real) == dollars as real
  {
    assert (dollars as real * 10000.0 + 0.5).Floor == dollars * 10000;
  }

  lemma FirstStart(limit: Limit, dollars: nat)
    requires limit.runsPerDay >= 1 && 1 <= dollars && dollars as real <= limit.spendUsdPerDay
    ensures var start := Start(0, dollars as real, false);
      Enabled(START, limit, start) && Step(START, limit, start) == State(0, [WindowRun(0, true, false, dollars as real, 0.0, 0.0)])
  {
    hide RefusalFor, Stored;
    WholeDollarsAreStored(dollars);
    EmptyWindow(0);
    NotRefused([], limit, dollars as real);
    assert Inserted([], WindowRun(0, true, false, dollars as real, 0.0, 0.0)) == [WindowRun(0, true, false, dollars as real, 0.0, 0.0)];
  }

  lemma RunEnds(dollars: nat, micros: nat)
    requires Micros(micros) <= dollars as real
    ensures AfterChange(AfterChange(WindowRun(0, true, false, dollars as real, 0.0, 0.0), Charge(micros)), End) == OneEndedRun(dollars, micros)
  {
  }

  lemma OneRunIsReached(limit: Limit, dollars: nat, micros: nat)
    requires limit.runsPerDay >= 1 && 1 <= dollars && dollars as real <= limit.spendUsdPerDay && Micros(micros) <= dollars as real
    ensures After(limit, OneRunActions(dollars, micros)) == State(0, [OneEndedRun(dollars, micros)])
  {
    var start := Start(0, dollars as real, false);
    FirstStart(limit, dollars);
    RunEnds(dollars, micros);
    assert After(limit, []) == START && [] + [start] == [start];
    hide After, Stored, Micros, AfterChange, RefusalFor, Window, Inserted, StartedRun, OneEndedRun;
    AfterNext(limit, [], start);
    AfterNext(limit, [start], Change(0, Charge(micros)));
    AfterNext(limit, [start] + [Change(0, Charge(micros))], Change(0, End));
  }

  /** A limit of 2 dollars, an ended run that cost 0.012345 and a start that asks for the rest. */
  lemma RoundingExceedsTolerance()
    ensures var limit, actions := Limit(2, 2.0), OneRunActions(1, 12345);
      && Lifts(After(limit, actions), limit, Start(0, 1.987655, false))
      && SpentNow(After(limit, actions + [Start(0, 1.987655, false)])) == 2.000045
  {
    var limit, actions, a := Limit(2, 2.0), OneRunActions(1, 12345), Start(0, 1.987655, false);
    assert Micros(12345) == 0.012345 && Stored(1.987655) == 1.9877;
    hide After, Stored, Micros, Lifts, OneRunActions, SpentNow, Enabled, Step, StartedRun;
    OneRunIsReached(limit, 1, 12345);
    AfterNext(limit, actions, a);
    EndedRunLifts(OneEndedRun(1, 12345), limit, 1.987655);
    EndedRunAndStart(OneEndedRun(1, 12345), limit, 1.987655);
  }

  ghost predicate OnGrid(usd: real) {
    exists n :: usd == Micros(n)
  }

  ghost predicate RunOnGrid(run: WindowRun) {
    OnGrid(run.budgetUsd) && OnGrid(run.costUsd)
  }

  ghost predicate AllOnGrid(runs: seq<WindowRun>) {
    forall run <- runs :: RunOnGrid(run)
  }

  lemma GridSum(a: real, b: real)
    requires OnGrid(a) && OnGrid(b)
    ensures OnGrid(a + b) && OnGrid(a - b)
  {
    var m, n :| a == Micros(m) && b == Micros(n);
    assert a + b == Micros(m + n) && a - b == Micros(m - n);
  }

  lemma GridGap(a: real, b: real)
    requires OnGrid(a) && OnGrid(b) && a < b
    ensures a + 0.000001 <= b
  {
    var m, n :| a == Micros(m) && b == Micros(n);
    assert m < n;
  }

  lemma StoredIsOnGrid(capUsd: real)
    ensures OnGrid(Stored(capUsd))
  {
    assert Stored(capUsd) == Micros((capUsd * 10000.0 + 0.5).Floor * 100);
  }

  lemma {:induction false} SpentIsOnGrid(runs: seq<WindowRun>)
    requires AllOnGrid(runs)
    ensures OnGrid(Spent(runs))
  {
    if runs != [] {
      hide OnGrid;
      var front, last := runs[..|runs| - 1], runs[|runs| - 1];
      SpentIsOnGrid(front);
      assert last in runs && RunOnGrid(last);
      GridSum(Spent(front), Held(last));
    } else {
      assert Spent(runs) == Micros(0);
    }
  }

  lemma {:induction false} WindowIsOnGrid(runs: seq<WindowRun>, t: int)
    requires AllOnGrid(runs)
    ensures AllOnGrid(Window(runs, t))
  {
    if runs != [] {
      hide RunOnGrid;
      WindowIsOnGrid(runs[..|runs| - 1], t);
    }
  }

  lemma {:induction false} InsertedIsOnGrid(runs: seq<WindowRun>, run: WindowRun)
    requires AllOnGrid(runs) && RunOnGrid(run)
    ensures AllOnGrid(Inserted(runs, run))
  {
    hide RunOnGrid;
    if !(runs == [] || runs[|runs| - 1].startedAt <= run.startedAt) {
      InsertedIsOnGrid(runs[..|runs| - 1], run);
    }
  }

  lemma StartedRunIsOnGrid(a: Action)
    requires a.Start?
    ensures RunOnGrid(StartedRun(a))
  {
    StoredIsOnGrid(a.capUsd);
    assert 0.0 == Micros(0);
  }

  lemma ChangedIsOnGrid(run: WindowRun, change: Change)
    requires RunOnGrid(run)
    ensures RunOnGrid(AfterChange(run, change))
  {
    hide OnGrid, Micros, Held, Reserved;
    if change.Charge? {
      InGrid(change.micros);
      GridSum(run.costUsd, Micros(change.micros));
    }
  }

  lemma InGrid(n: int)
    ensures OnGrid(Micros(n))
  {
  }

  lemma StepIsOnGrid(s: State, limit: Limit, a: Action)
    requires limit.runsPerDay >= 1 && AllOnGrid(s.runs) && Enabled(s, limit, a)
    ensures AllOnGrid(Step(s, limit, a).runs)
  {
    hide OnGrid, RefusalFor, Stored, Window, Inserted, Micros, StartedRun, AfterChange;
    match a
    case Elapse(_) =>
    case Start(_, capUsd, _) =>
      StartedRunIsOnGrid(a);
      InsertedIsOnGrid(s.runs, StartedRun(a));
    case Change(i, change) =>
      assert s.runs[i] in s.runs;
      ChangedIsOnGrid(s.runs[i], change);
  }

  lemma {:induction false} AlwaysOnGrid(limit: Limit, actions: seq<Action>)
    requires limit.runsPerDay >= 1
    ensures AllOnGrid(After(limit, actions).runs)
  {
    if actions != [] {
      var s, a := After(limit, actions[..|actions| - 1]), actions[|actions| - 1];
      AlwaysOnGrid(limit, actions[..|actions| - 1]);
      if Enabled(s, limit, a) {
        StepIsOnGrid(s, limit, a);
      }
    }
  }

  function Cents(n: nat): real {
    n as real / 100.0
  }

  lemma CentsAreOnGrid(n: nat)
    ensures OnGrid(Cents(n))
  {
    assert Cents(n) == Micros(n * 10000);
  }

  /** A limit that a connection can have. */
  function LimitOf(runsPerDay: nat, cents: nat): Limit {
    Limit(runsPerDay + 1, Cents(cents))
  }

  /** Some reachable window of some connection is lifted over the limit and the tolerance by a start
      with this cap exactly when storing rounds the cap up by a millionth of a dollar, which is how
      exactly costs are kept, less the tolerance. */
  lemma ReachableLiftExactly(capUsd: real)
    requires Stored(capUsd) > 0.0
    ensures (exists runs, cents, actions, txNow, unpriced :: Lifts(After(LimitOf(runs, cents), actions), LimitOf(runs, cents), Start(txNow, capUsd, unpriced)))
      <==> capUsd + 0.000001 <= Stored(capUsd) + TOLERANCE
  {
    hide Lifts, Stored, After, Cents;
    forall runs, cents, actions, txNow, unpriced |
      Lifts(After(LimitOf(runs, cents), actions), LimitOf(runs, cents), Start(txNow, capUsd, unpriced))
      ensures capUsd + 0.000001 <= Stored(capUsd) + TOLERANCE
    {
      ReachableLiftMeans(runs, cents, actions, Start(txNow, capUsd, unpriced));
    }
    if capUsd + 0.000001 <= Stored(capUsd) + TOLERANCE {
      var dollars := LiftIsReached(capUsd);
    }
  }

  lemma ReachableLiftMeans(runs: nat, cents: nat, actions: seq<Action>, a: Action)
    requires Lifts(After(LimitOf(runs, cents), actions), LimitOf(runs, cents), a)
    ensures a.capUsd + 0.000001 <= Stored(a.capUsd) + TOLERANCE
  {
    var limit := LimitOf(runs, cents);
    var s := After(limit, actions);
    var before := Window(s.runs, a.txNow);
    hide OnGrid, Stored, After, Window, Spent, AllOnGrid, Held;
    CentsAreOnGrid(cents);
    AlwaysInv(limit, actions);
    AlwaysOnGrid(limit, actions);
    LiftsBetween(s, limit, a);
    WindowIsOnGrid(s.runs, a.txNow);
    SpentIsOnGrid(before);
    StoredIsOnGrid(a.capUsd);
    GridSum(Spent(before), Stored(a.capUsd));
    GridGap(limit.spendUsdPerDay, Spent(before) + Stored(a.capUsd));
  }

  lemma LiftIsReached(capUsd: real) returns (dollars: nat)
    requires 0.0 < Stored(capUsd) && capUsd + 0.000001 <= Stored(capUsd) + TOLERANCE
    ensures exists micros :: Lifts(After(LimitOf(1, 100 * dollars), OneRunActions(dollars, micros)), LimitOf(1, 100 * dollars), Start(0, capUsd, false))
  {
    var stored := (capUsd * 10000.0 + 0.5).Floor;
    dollars := stored / 10000 + 1;
    var micros := dollars * 1000000 - stored * 100 + 1;
    assert Micros(micros) == dollars as real - Stored(capUsd) + 0.000001;
    assert Micros(micros) <= dollars as real;
    hide Lifts, Stored, After, Micros, OneRunActions;
    assert LimitOf(1, 100 * dollars) == Limit(2, dollars as real);
    OneRunIsReached(LimitOf(1, 100 * dollars), dollars, micros);
    EndedRunLifts(OneEndedRun(dollars, micros), LimitOf(1, 100 * dollars), capUsd);
  }

  // ----- What comes late -----

  /** A run with a cap of so many dollars costs so much and ends, another start is let in, and then
      something happens to the first run. */
  function TwoRunActions(dollars: nat, micros: nat, capUsd: real, change: Change): seq<Action> {
    OneRunActions(dollars, micros) + [Start(0, capUsd, false)] + [Change(0, change)]
  }

  lemma LastChange(limit: Limit, actions: seq<Action>, run: WindowRun, next: WindowRun, change: Change)
    requires limit.runsPerDay >= 1 && After(limit, actions) == State(0, [run, next])
    ensures After(limit, actions + [Change(0, change)]) == State(0, [AfterChange(run, change), next])
  {
    hide After, AfterChange;
    AfterNext(limit, actions, Change(0, change));
  }

  lemma TwoRunsAreReached(limit: Limit, dollars: nat, micros: nat, capUsd: real, change: Change)
    requires limit.runsPerDay >= 2 && 1 <= dollars && dollars as real <= limit.spendUsdPerDay && Micros(micros) <= dollars as real
    requires 0.0 < Stored(capUsd) && capUsd <= limit.spendUsdPerDay && Micros(micros) + capUsd <= limit.spendUsdPerDay + TOLERANCE
    ensures After(limit, TwoRunActions(dollars, micros, capUsd, change))
      == State(0, [AfterChange(OneEndedRun(dollars, micros), change), StartedRun(Start(0, capUsd, false))])
  {
    var run, a := OneEndedRun(dollars, micros), Start(0, capUsd, false);
    assert Micros(micros) >= 0.0;
    hide After, Stored, Micros, OneRunActions, StartedRun, AfterChange, Enabled, Step, Lifts, SpentNow;
    OneRunIsReached(limit, dollars, micros);
    EndedRunAndStart(run, limit, capUsd);
    AfterNext(limit, OneRunActions(dollars, micros), a);
    LastChange(limit, OneRunActions(dollars, micros) + [a], run, StartedRun(a), change);
  }

  lemma TwoRunsHold(a: WindowRun, b: WindowRun)
    requires a.startedAt == b.startedAt == 0
    ensures SpentNow(State(0, [a, b])) == Held(a) + Held(b) && LateNow(State(0, [a, b])) == a.late + b.late
  {
    assert LeavesAt(a) > 0 && LeavesAt(b) > 0;
    hide Held, LeavesAt, Window, Spent;
    WindowIsTail([a, b], 0, 0);
    SpentOfTwo(a, b);
    assert [a, b][..1] == [a];
    assert LateIn([a]) == a.late;
  }

  const LATE_CAP: real := 1.00005 + TOLERANCE / 2.0

  /** A run of 1 dollar has cost 0.99995 and another start has got the rest when more cost arrives. */
  lemma LateChargeIsReached(micros: nat)
    ensures var s := After(Limit(2, 2.0), TwoRunActions(1, 999950, LATE_CAP, Charge(micros)));
      LateNow(s) == Micros(micros) && SpentNow(s) == 2.00005 + Micros(micros)
  {
    assert Micros(999950) == 0.99995 && Stored(LATE_CAP) == 1.0001;
    var late, next := AfterChange(OneEndedRun(1, 999950), Charge(micros)), StartedRun(Start(0, LATE_CAP, false));
    assert Held(late) == 0.99995 + Micros(micros) && Held(next) == 1.0001 && late.late == Micros(micros) && next.late == 0.0;
    assert late.startedAt == next.startedAt == 0;
    hide After, Stored, Micros, TwoRunActions, StartedRun, Held, AfterChange, SpentNow, LateNow;
    TwoRunsAreReached(Limit(2, 2.0), 1, 999950, LATE_CAP, Charge(micros));
    TwoRunsHold(late, next);
  }

  /** A run with a cap of the whole limit ends without cost, another start gets the whole limit, and
      then a finding of the first is judged again: the window holds twice the limit. */
  lemma JudgingAgainHoldsTwice(dollars: nat)
    requires dollars >= 1
    ensures SpentNow(After(Limit(2, dollars as real), TwoRunActions(dollars, 0, dollars as real, JudgeAgain))) == 2.0 * dollars as real
  {
    WholeDollarsAreStored(dollars);
    assert Micros(0) == 0.0;
    var again, next := AfterChange(OneEndedRun(dollars, 0), JudgeAgain), StartedRun(Start(0, dollars as real, false));
    assert Held(again) == Held(next) == dollars as real && again.startedAt == next.startedAt == 0;
    hide After, Stored, Micros, TwoRunActions, StartedRun, Held, AfterChange, SpentNow, LateNow;
    TwoRunsAreReached(Limit(2, dollars as real), dollars, 0, dollars as real, JudgeAgain);
    TwoRunsHold(again, next);
  }

  /** So much came late, and more is held than the limit, the tolerance and the rounding together. */
  predicate LateBreaks(limit: Limit, actions: seq<Action>, micros: nat) {
    && limit.runsPerDay >= 1
    && LateNow(After(limit, actions)) == Micros(micros)
    && SpentNow(After(limit, actions)) > limit.spendUsdPerDay + TOLERANCE + ROUNDING
  }

  /** Any amount that comes late can break that bound, and nothing else can. */
  lemma LateChargeExactly(micros: nat)
    ensures (exists runs, cents, actions :: LateBreaks(LimitOf(runs, cents), actions, micros)) <==> micros > 0
  {
    hide LateBreaks;
    if micros > 0 {
      LateBreaksIsReached(micros);
    } else {
      forall runs, cents, actions ensures !LateBreaks(LimitOf(runs, cents), actions, 0) {
        NothingLateKeeps(LimitOf(runs, cents), actions);
      }
    }
  }

  lemma NothingLateKeeps(limit: Limit, actions: seq<Action>)
    requires limit.runsPerDay >= 1 && limit.spendUsdPerDay >= 0.0
    ensures !LateBreaks(limit, actions, 0)
  {
    assert Micros(0) == 0.0;
    hide After, LateNow, SpentNow, Micros;
    AlwaysWithinLimit(limit, actions);
  }

  lemma LateBreaksIsReached(micros: nat)
    requires micros > 0
    ensures LateBreaks(LimitOf(1, 200), TwoRunActions(1, 999950, LATE_CAP, Charge(micros)), micros)
  {
    assert Micros(micros) >= 0.000001 && LimitOf(1, 200) == Limit(2, 2.0);
    hide After, LateNow, SpentNow, Micros, TwoRunActions, LimitOf;
    LateChargeIsReached(micros);
  }
}
