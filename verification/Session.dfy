/** The state that the tools of a session change: `packages/core/src/session-tools.ts`, and the
    standby limit of `packages/core/src/role-session.ts`. A tool call that awaits is split there:
    its first part leaves what it holds in `submitting`, `finishing` or `reading`, and its second
    part may run at any later time. `Step` says what each part does, the class does it, and the
    statements are about every sequence of parts. */
module Session {
  import opened Options

  const MAX_TURNS: nat := 12
  const MAX_EMPTY_WAITS: nat := 4

  datatype Status = NotAttempted | Reached | Failed
  datatype Outcome = Outcome(goal: string, status: Status, note: string)
  datatype Kind = Defect | Friction

  /** What a submission holds: `rest` stands for the fields that no rule looks at. */
  datatype Candidate = Candidate(goal: string, kind: Kind, title: string, rest: string)
  datatype Finding = Finding(id: nat, what: Candidate)

  datatype Event = FindingFound(finding: Finding) | GoalStatus(outcome: Outcome) | StandbyBegan

  /** A standby object, which a suspended read may still hold after a new one was made. */
  datatype Standby = Standby(summary: string, emptyWaits: nat)

  // ----- Replaying the emitted events -----

  function FreshGoals(ids: set<string>): map<string, Outcome> {
    map id | id in ids :: Outcome(id, NotAttempted, "")
  }

  function ReplayGoals(ids: set<string>, events: seq<Event>): map<string, Outcome> {
    if events == [] then FreshGoals(ids)
    else
      var goals := ReplayGoals(ids, events[..|events| - 1]);
      match events[|events| - 1]
      case GoalStatus(o) => goals[o.goal := o]
      case _ => goals
  }

  function ReplayFindings(events: seq<Event>): seq<Finding> {
    if events == [] then []
    else
      var findings := ReplayFindings(events[..|events| - 1]);
      match events[|events| - 1]
      case FindingFound(f) => findings + [f]
      case _ => findings
  }

  lemma ReplayOneMore(ids: set<string>, events: seq<Event>, e: Event)
    ensures ReplayGoals(ids, events + [e]) ==
            if e.GoalStatus? then ReplayGoals(ids, events)[e.outcome.goal := e.outcome] else ReplayGoals(ids, events)
    ensures ReplayFindings(events + [e]) ==
            if e.FindingFound? then ReplayFindings(events) + [e.finding] else ReplayFindings(events)
  {
    assert (events + [e])[..|events|] == events;
  }

  // ----- What the tools check -----

  predicate AllChecked(goals: map<string, Outcome>) {
    forall id :: id in goals ==> goals[id].status != NotAttempted
  }

  predicate SameReport(a: Candidate, b: Candidate, fold: string -> string) {
    a.goal == b.goal && a.kind == b.kind && fold(a.title) == fold(b.title)
  }

  predicate IsDuplicate(findings: seq<Finding>, what: Candidate, fold: string -> string) {
    exists i :: 0 <= i < |findings| && SameReport(findings[i].what, what, fold)
  }

  ghost predicate NoDuplicates(findings: seq<Finding>, fold: string -> string) {
    forall i, j :: 0 <= i < j < |findings| ==> !SameReport(findings[i].what, findings[j].what, fold)
  }

  lemma OneMoreFinding(findings: seq<Finding>, finding: Finding, fold: string -> string)
    requires NoDuplicates(findings, fold) && !IsDuplicate(findings, finding.what, fold)
    ensures NoDuplicates(findings + [finding], fold)
  {
    hide SameReport;
  }

  function WithoutAt<T>(s: seq<T>, i: nat): (r: seq<T>)
    requires i < |s|
  {
    s[..i] + s[i + 1..]
  }

  /** `fold` is how titles are compared, `toLowerCase`. `standby` is the current standby object, as an
      index into all that were made. */
  datatype State = State(
    goals: map<string, Outcome>, findings: seq<Finding>, finished: Option<string>,
    standby: Option<nat>, standbys: seq<Standby>, nextId: nat, steps: nat, standbyFrom: Option<nat>,
    submitting: seq<Candidate>, finishing: seq<string>, reading: seq<Option<nat>>, events: seq<Event>)

  /** The two parts of each tool call, and the end of a step of the agent. */
  datatype Call =
    /** `submit_finding`: `looking` says that bot protection does not block and that the page has
        been seen, `wellFormed` is what the finding schema says. */
    | Submit(candidate: Candidate, looking: bool)
    | Submitted(i: nat, wellFormed: bool)
    /** `goal_status`; `status` is `None` for anything but a status, and only two are accepted. */
    | SetStatus(goal: string, status: Option<Status>, note: string)
    /** `finish`; `summary` is `None` for a blank one. */
    | Finish(summary: Option<string>, others: bool)
    | Finished(i: nat, othersWorking: bool)
    /** `read_team_channel` */
    | Read
    | HasRead(i: nat, newMessages: nat, othersDone: bool)
    /** `onStep`; `otherLimit` says that the time, the steps or the budget are used up or that the
        browser has crashed. */
    | StepDone(otherLimit: bool)

  /** What refers to a standby object refers to one that was made. */
  ghost predicate Indexed(s: State) {
    && (s.standby.Some? ==> s.standby.value < |s.standbys|)
    && (forall r :: r in s.reading && r.Some? ==> r.value < |s.standbys|)
    && (s.standbyFrom.Some? ==> s.standby.Some? && s.standbyFrom.value <= s.steps)
  }

  // ----- What each part does -----

  function Recorded(s: State, finding: Finding): State {
    s.(findings := s.findings + [finding], nextId := s.nextId + 1, events := s.events + [FindingFound(finding)])
  }

  /** The session may have finished while the submission was under way; it is recorded all the same. */
  function AfterSubmitted(s: State, i: nat, wellFormed: bool, fold: string -> string): State
    requires i < |s.submitting|
  {
    var c, t := s.submitting[i], s.(submitting := WithoutAt(s.submitting, i));
    if wellFormed && !IsDuplicate(s.findings, c, fold) then Recorded(t, Finding(s.nextId, c)) else t
  }

  function AfterSetStatus(s: State, goal: string, status: Option<Status>, note: string): State {
    if s.finished.None? && goal in s.goals && (status == Some(Reached) || status == Some(Failed)) then
      var outcome := Outcome(goal, status.value, note);
      s.(goals := s.goals[goal := outcome], events := s.events + [GoalStatus(outcome)])
    else s
  }

  /** The summary that `finish` keeps. */
  function Summary(s: State, summary: Option<string>): Option<string>
    requires Indexed(s)
  {
    if summary.Some? then summary else if s.standby.Some? then Some(s.standbys[s.standby.value].summary) else None
  }

  /** Without other people, or in standby, the session ends at once. */
  function AfterFinish(s: State, summary: Option<string>, others: bool): State
    requires Indexed(s)
  {
    var kept := Summary(s, summary);
    if s.finished.Some? || kept.None? || !AllChecked(s.goals) then s
    else if s.standby.None? && others then s.(finishing := s.finishing + [kept.value])
    else s.(finished := kept)
  }

  /** Standby while others work, the end otherwise. */
  function AfterFinished(s: State, i: nat, othersWorking: bool): State
    requires i < |s.finishing|
  {
    var t := s.(finishing := WithoutAt(s.finishing, i));
    if othersWorking then
      t.(standby := Some(|s.standbys|), standbys := s.standbys + [Standby(s.finishing[i], 0)], events := s.events + [StandbyBegan])
    else t.(finished := Some(s.finishing[i]))
  }

  /** With the standby object that the reading began with. */
  function AfterHasRead(s: State, i: nat, newMessages: nat, othersDone: bool): State
    requires Indexed(s) && i < |s.reading|
  {
    var standing, t := s.reading[i], s.(reading := WithoutAt(s.reading, i));
    if standing.None? then t
    else
      assert standing in s.reading;
      var k := standing.value;
      var waits := if newMessages == 0 then s.standbys[k].emptyWaits + 1 else 0;
      t.(standbys := s.standbys[k := s.standbys[k].(emptyWaits := waits)],
         finished := if othersDone || waits >= MAX_EMPTY_WAITS then Some(s.standbys[k].summary) else s.finished)
  }

  /** Standby ends when its turns are used up. */
  function AfterStepDone(s: State, otherLimit: bool): State
    requires Indexed(s)
  {
    var t := s.(steps := s.steps + 1);
    if s.standby.None? then t
    else
      var from := if s.standbyFrom.Some? then s.standbyFrom.value else t.steps;
      t.(standbyFrom := Some(from),
         finished := if t.steps - from >= MAX_TURNS || otherLimit then Some(s.standbys[s.standby.value].summary) else s.finished)
  }

  /** A second part without its first one cannot run and does nothing. */
  function Step(s: State, call: Call, fold: string -> string): State
    requires Indexed(s)
  {
    match call
    case Submit(c, looking) =>
      if s.finished.None? && looking && c.goal in s.goals then s.(submitting := s.submitting + [c]) else s
    case Submitted(i, wellFormed) => if i < |s.submitting| then AfterSubmitted(s, i, wellFormed, fold) else s
    case SetStatus(goal, status, note) => AfterSetStatus(s, goal, status, note)
    case Finish(summary, others) => AfterFinish(s, summary, others)
    case Finished(i, othersWorking) => if i < |s.finishing| then AfterFinished(s, i, othersWorking) else s
    case Read => if s.finished.None? then s.(reading := s.reading + [s.standby]) else s
    case HasRead(i, newMessages, othersDone) => if i < |s.reading| then AfterHasRead(s, i, newMessages, othersDone) else s
    case StepDone(otherLimit) => AfterStepDone(s, otherLimit)
  }

  lemma StepStaysIndexed(s: State, call: Call, fold: string -> string)
    requires Indexed(s)
    ensures Indexed(Step(s, call, fold))
  {
  }

  /** The state after some calls. */
  function Run(s: State, calls: seq<Call>, fold: string -> string): (t: State)
    requires Indexed(s)
    ensures Indexed(t)
  {
    if calls == [] then s
    else
      var before := Run(s, calls[..|calls| - 1], fold);
      StepStaysIndexed(before, calls[|calls| - 1], fold);
      Step(before, calls[|calls| - 1], fold)
  }

  function Start(ids: set<string>): State {
    State(FreshGoals(ids), [], None, None, [], 1, 0, None, [], [], [], [])
  }

  lemma RunOneMore(s: State, calls: seq<Call>, fold: string -> string, k: nat)
    requires Indexed(s) && k < |calls|
    ensures Run(s, calls[..k + 1], fold) == Step(Run(s, calls[..k], fold), calls[k], fold)
  {
    assert calls[..k + 1][..k] == calls[..k];
  }

  // ----- What always holds -----

  /** Goals and findings are those that the events rebuild. */
  ghost predicate Rebuilt(s: State, ids: set<string>) {
    ReplayGoals(ids, s.events) == s.goals && ReplayFindings(s.events) == s.findings
  }

  ghost predicate OwnIds(findings: seq<Finding>, nextId: nat) {
    && (forall i :: 0 <= i < |findings| ==> findings[i].id < nextId)
    && forall i, j :: 0 <= i < j < |findings| ==> findings[i].id != findings[j].id
  }

  ghost predicate Inv(s: State, ids: set<string>, fold: string -> string) {
    && Indexed(s) && Rebuilt(s, ids) && s.goals.Keys == ids
    && (s.finished.Some? || s.standbys != [] || s.finishing != [] ==> AllChecked(s.goals))
    && NoDuplicates(s.findings, fold) && OwnIds(s.findings, s.nextId)
  }

  lemma SubmittedKeepsInv(s: State, i: nat, wellFormed: bool, ids: set<string>, fold: string -> string)
    requires Inv(s, ids, fold) && i < |s.submitting|
    ensures Inv(AfterSubmitted(s, i, wellFormed, fold), ids, fold)
  {
    hide ReplayGoals, ReplayFindings, NoDuplicates, IsDuplicate, AllChecked;
    var finding := Finding(s.nextId, s.submitting[i]);
    ReplayOneMore(ids, s.events, FindingFound(finding));
    if !IsDuplicate(s.findings, finding.what, fold) {
      OneMoreFinding(s.findings, finding, fold);
    }
  }

  lemma StatusKeepsInv(s: State, goal: string, status: Option<Status>, note: string, ids: set<string>, fold: string -> string)
    requires Inv(s, ids, fold)
    ensures Inv(AfterSetStatus(s, goal, status, note), ids, fold)
  {
    hide ReplayGoals, ReplayFindings, NoDuplicates;
    if status.Some? {
      ReplayOneMore(ids, s.events, GoalStatus(Outcome(goal, status.value, note)));
    }
  }

  lemma StepKeepsInv(s: State, call: Call, ids: set<string>, fold: string -> string)
    requires Inv(s, ids, fold)
    ensures Inv(Step(s, call, fold), ids, fold)
  {
    hide ReplayGoals, ReplayFindings, NoDuplicates, IsDuplicate, AllChecked, OwnIds, AfterSubmitted, AfterSetStatus;
    StepStaysIndexed(s, call, fold);
    match call
    case Submitted(i, wellFormed) =>
      if i < |s.submitting| {
        SubmittedKeepsInv(s, i, wellFormed, ids, fold);
      }
    case SetStatus(goal, status, note) => StatusKeepsInv(s, goal, status, note, ids, fold);
    case Finished(i, othersWorking) => ReplayOneMore(ids, s.events, StandbyBegan);
    case _ =>
  }

  lemma {:induction false} AlwaysInv(ids: set<string>, calls: seq<Call>, fold: string -> string)
    ensures Indexed(Start(ids)) && Inv(Run(Start(ids), calls, fold), ids, fold)
  {
    if calls != [] {
      hide Step, Inv;
      AlwaysInv(ids, calls[..|calls| - 1], fold);
      StepKeepsInv(Run(Start(ids), calls[..|calls| - 1], fold), calls[|calls| - 1], ids, fold);
    }
  }

  // ----- Over every sequence of calls -----

  /** Two reports differ in their goal, their kind or their title but for how it is compared. */
  predicate Differ(a: Candidate, b: Candidate, fold: string -> string) {
    a.goal != b.goal || a.kind != b.kind || fold(a.title) != fold(b.title)
  }

  /** The call reports the goal reached or failed while the session is open. */
  predicate Reports(s: State, call: Call, goal: string) {
    call.SetStatus? && call.goal == goal && (call.status == Some(Reached) || call.status == Some(Failed)) && s.finished.None?
  }

  /** What the calls say about a goal: its last status that was reported while the session was open. */
  function LastReported(ids: set<string>, calls: seq<Call>, fold: string -> string, goal: string): Outcome {
    if calls == [] then Outcome(goal, NotAttempted, "")
    else
      var before, call := calls[..|calls| - 1], calls[|calls| - 1];
      if Reports(Run(Start(ids), before, fold), call, goal) then Outcome(goal, call.status.value, call.note) else LastReported(ids, before, fold, goal)
  }

  lemma StepReports(s: State, call: Call, fold: string -> string, goal: string)
    requires Indexed(s) && goal in s.goals
    ensures goal in Step(s, call, fold).goals
    ensures Step(s, call, fold).goals[goal] == if Reports(s, call, goal) then Outcome(goal, call.status.value, call.note) else s.goals[goal]
  {
    hide IsDuplicate, AllChecked;
  }

  lemma {:induction false} GoalsAreLastReported(ids: set<string>, calls: seq<Call>, fold: string -> string, goal: string)
    requires goal in ids
    ensures Indexed(Start(ids))
    ensures var s := Run(Start(ids), calls, fold); goal in s.goals && s.goals[goal] == LastReported(ids, calls, fold, goal)
  {
    if calls != [] {
      hide Step;
      GoalsAreLastReported(ids, calls[..|calls| - 1], fold, goal);
      StepReports(Run(Start(ids), calls[..|calls| - 1], fold), calls[|calls| - 1], fold, goal);
    }
  }

  /** However calls interleave at their awaits: a session that has ended or gone into standby has every
      goal reached or failed, the emitted events rebuild goals and findings, and findings are reported
      once, each under an id of its own. */
  lemma SessionIsSound(ids: set<string>, calls: seq<Call>, fold: string -> string)
    ensures Indexed(Start(ids))
    ensures var s := Run(Start(ids), calls, fold);
      && s.goals.Keys == ids
      && (s.finished.Some? || s.standby.Some? ==> forall id :: id in ids ==> s.goals[id].status == Reached || s.goals[id].status == Failed)
      && ReplayGoals(ids, s.events) == s.goals && ReplayFindings(s.events) == s.findings
      && (forall i, j :: 0 <= i < j < |s.findings| ==> s.findings[i].id != s.findings[j].id && Differ(s.findings[i].what, s.findings[j].what, fold))
  {
    hide ReplayGoals, ReplayFindings, Run;
    AlwaysInv(ids, calls, fold);
  }

  /** Once a session has finished it stays finished with its goals, no submission begins, and findings
      only grow by submissions that were under way. */
  lemma StepAfterTheEnd(s: State, call: Call, fold: string -> string)
    requires Indexed(s) && s.finished.Some?
    ensures var t := Step(s, call, fold);
      && t.finished.Some? && t.goals == s.goals
      && (t.findings == s.findings || exists i :: Completes(s, t, i, fold))
      && |t.findings| + |t.submitting| <= |s.findings| + |s.submitting|
      && forall c :: c in t.submitting ==> c in s.submitting
  {
    hide IsDuplicate;
    if call.Submitted? && call.i < |s.submitting| && Step(s, call, fold).findings != s.findings {
      assert Completes(s, Step(s, call, fold), call.i, fold);
    }
  }

  /** The submission was under way, repeats no finding, and is now the last one. */
  ghost predicate Completes(s: State, t: State, i: nat, fold: string -> string) {
    && i < |s.submitting| && !IsDuplicate(s.findings, s.submitting[i], fold)
    && t.findings == s.findings + [Finding(s.nextId, s.submitting[i])]
  }

  lemma {:induction false} EndIsFinal(s: State, more: seq<Call>, fold: string -> string)
    requires Indexed(s) && s.finished.Some?
    ensures var t := Run(s, more, fold);
      && t.finished.Some? && t.goals == s.goals
      && |t.findings| + |t.submitting| <= |s.findings| + |s.submitting|
      && forall c :: c in t.submitting ==> c in s.submitting
  {
    if more != [] {
      hide Step;
      EndIsFinal(s, more[..|more| - 1], fold);
      StepAfterTheEnd(Run(s, more[..|more| - 1], fold), more[|more| - 1], fold);
    }
  }

  /** A submission is under way that repeats none of the findings. */
  ghost predicate NewUnderWay(s: State, fold: string -> string) {
    exists i :: 0 <= i < |s.submitting| && !IsDuplicate(s.findings, s.submitting[i], fold)
  }

  lemma {:induction false} FindingsStay(s: State, more: seq<Call>, fold: string -> string)
    requires Indexed(s) && s.finished.Some? && !NewUnderWay(s, fold)
    ensures Run(s, more, fold).findings == s.findings
  {
    if more != [] {
      hide Step, IsDuplicate;
      var before := Run(s, more[..|more| - 1], fold);
      FindingsStay(s, more[..|more| - 1], fold);
      EndIsFinal(s, more[..|more| - 1], fold);
      StepAfterTheEnd(before, more[|more| - 1], fold);
      forall i | 0 <= i < |before.submitting| ensures IsDuplicate(before.findings, before.submitting[i], fold) {
        assert before.submitting[i] in s.submitting;
      }
    }
  }

  /** A finished session can still gain a finding exactly when a submission is under way that repeats
      none of its findings. */
  lemma LateFindingExactly(s: State, fold: string -> string)
    requires Indexed(s) && s.finished.Some?
    ensures (exists more :: Run(s, more, fold).findings != s.findings) <==> NewUnderWay(s, fold)
  {
    hide IsDuplicate;
    if NewUnderWay(s, fold) {
      var i :| 0 <= i < |s.submitting| && !IsDuplicate(s.findings, s.submitting[i], fold);
      var more := [Submitted(i, true)];
      RunOneMore(s, more, fold, 0);
      RunNothing(s, fold);
      assert more[..0] == [] && more[..1] == more;
      assert Run(s, more, fold).findings == s.findings + [Finding(s.nextId, s.submitting[i])];
    } else {
      forall more ensures Run(s, more, fold).findings == s.findings {
        FindingsStay(s, more, fold);
      }
    }
  }

  /** A session in which this happens: the submission began before the end and lands after it. */
  lemma LateFindingHappens(fold: string -> string)
    ensures var calls := [Submit(Candidate("g", Defect, "t", ""), true), SetStatus("g", Some(Reached), ""), Finish(Some("done"), false)];
      Indexed(Start({"g"})) && Run(Start({"g"}), calls, fold).finished.Some? && NewUnderWay(Run(Start({"g"}), calls, fold), fold)
  {
    var s0, c := Start({"g"}), Candidate("g", Defect, "t", "");
    var calls := [Submit(c, true), SetStatus("g", Some(Reached), ""), Finish(Some("done"), false)];
    assert calls[..0] == [] && calls[..3] == calls;
    RunOneMore(s0, calls, fold, 0);
    RunOneMore(s0, calls, fold, 1);
    RunOneMore(s0, calls, fold, 2);
    hide Run;
    assert Run(s0, calls[..0], fold) == s0 by {
      RunNothing(s0, fold);
    }
    var s := Run(s0, calls, fold);
    assert s.submitting == [c] && s.findings == [];
    assert !IsDuplicate(s.findings, s.submitting[0], fold);
  }

  lemma RunNothing(s: State, fold: string -> string)
    requires Indexed(s)
    ensures Run(s, [], fold) == s
  {
  }

  // ----- Standby ends -----

  /** Steps of the agent that ended in standby with the session still open. */
  ghost function OpenStandbySteps(s: State, calls: seq<Call>, fold: string -> string): nat
    requires Indexed(s)
  {
    if calls == [] then 0
    else
      var t := Run(s, calls, fold);
      OpenStandbySteps(s, calls[..|calls| - 1], fold) +
      if calls[|calls| - 1].StepDone? && t.standby.Some? && t.finished.None? then 1 else 0
  }

  ghost predicate Counted(s: State, n: nat) {
    && n <= MAX_TURNS
    && (s.finished.None? ==> n == if s.standbyFrom.Some? then s.steps - s.standbyFrom.value + 1 else 0)
  }

  lemma StepKeepsCount(s: State, call: Call, fold: string -> string, n: nat)
    requires Indexed(s) && Counted(s, n)
    ensures var t := Step(s, call, fold);
      Counted(t, n + if call.StepDone? && t.standby.Some? && t.finished.None? then 1 else 0)
  {
    hide IsDuplicate, AllChecked;
  }

  lemma {:induction false} CountIsKept(ids: set<string>, calls: seq<Call>, fold: string -> string)
    ensures Indexed(Start(ids)) && Counted(Run(Start(ids), calls, fold), OpenStandbySteps(Start(ids), calls, fold))
  {
    if calls != [] {
      hide Step;
      CountIsKept(ids, calls[..|calls| - 1], fold);
      StepKeepsCount(Run(Start(ids), calls[..|calls| - 1], fold), calls[|calls| - 1], fold, OpenStandbySteps(Start(ids), calls[..|calls| - 1], fold));
    }
  }

  /** Standby never leaves a session open for more than its turns. */
  lemma StandbyEnds(ids: set<string>, calls: seq<Call>, fold: string -> string)
    ensures Indexed(Start(ids)) && OpenStandbySteps(Start(ids), calls, fold) <= MAX_TURNS
  {
    CountIsKept(ids, calls, fold);
  }

  // ----- When a session ends, and when standby begins -----

  /** How many steps the calls have made in standby. */
  ghost function StandbySteps(ids: set<string>, calls: seq<Call>, fold: string -> string): nat {
    if calls == [] then 0
    else
      var before := calls[..|calls| - 1];
      StandbySteps(ids, before, fold) +
      if calls[|calls| - 1].StepDone? && Run(Start(ids), before, fold).standby.Some? then 1 else 0
  }

  /** How many readings in a row have brought nothing to a standby. */
  ghost function EmptyReadings(ids: set<string>, calls: seq<Call>, fold: string -> string, k: nat): nat {
    if calls == [] then 0
    else
      var before, call := calls[..|calls| - 1], calls[|calls| - 1];
      ReadingsThen(Run(Start(ids), before, fold), call, k, EmptyReadings(ids, before, fold, k))
  }

  function ReadingsThen(s: State, call: Call, k: nat, waits: nat): nat {
    if ReadsFor(s, call, k) then (if call.newMessages == 0 then waits + 1 else 0) else waits
  }

  /** The reading began when this was the current standby. */
  predicate ReadsFor(s: State, call: Call, k: nat) {
    call.HasRead? && call.i < |s.reading| && s.reading[call.i] == Some(k)
  }

  ghost predicate CountsAre(s: State, ids: set<string>, calls: seq<Call>, fold: string -> string) {
    && (s.standbyFrom.None? ==> StandbySteps(ids, calls, fold) == 0)
    && (s.standbyFrom.Some? ==> StandbySteps(ids, calls, fold) == s.steps - s.standbyFrom.value + 1)
    && (forall k :: 0 <= k < |s.standbys| ==> s.standbys[k].emptyWaits == EmptyReadings(ids, calls, fold, k))
    && forall k: nat :: k >= |s.standbys| ==> EmptyReadings(ids, calls, fold, k) == 0
  }

  lemma {:induction false} CountsAreKept(ids: set<string>, calls: seq<Call>, fold: string -> string)
    ensures Indexed(Start(ids)) && CountsAre(Run(Start(ids), calls, fold), ids, calls, fold)
  {
    if calls != [] {
      hide Step, ReadsFor, StandbySteps, EmptyReadings;
      var before, call := calls[..|calls| - 1], calls[|calls| - 1];
      CountsAreKept(ids, before, fold);
      var s := Run(Start(ids), before, fold);
      StepCounts(s, call, fold);
      OneMoreStep(ids, calls, fold);
      forall k: nat ensures EmptyReadings(ids, calls, fold, k) == ReadingsThen(s, call, k, EmptyReadings(ids, before, fold, k)) {
        OneMoreReading(ids, calls, fold, k);
      }
      forall k: nat | k >= |s.standbys| ensures !ReadsFor(s, call, k) {
        ReadsForMade(s, call, k);
      }
    } else {
      NoCallsCount(ids, calls, fold);
    }
  }

  lemma NoCallsCount(ids: set<string>, calls: seq<Call>, fold: string -> string)
    requires calls == [] && Indexed(Start(ids))
    ensures CountsAre(Run(Start(ids), calls, fold), ids, calls, fold)
  {
  }

  lemma OneMoreStep(ids: set<string>, calls: seq<Call>, fold: string -> string)
    requires calls != [] && Indexed(Start(ids))
    ensures var before := calls[..|calls| - 1];
      StandbySteps(ids, calls, fold) == StandbySteps(ids, before, fold) +
        if calls[|calls| - 1].StepDone? && Run(Start(ids), before, fold).standby.Some? then 1 else 0
  {
  }

  lemma OneMoreReading(ids: set<string>, calls: seq<Call>, fold: string -> string, k: nat)
    requires calls != [] && Indexed(Start(ids))
    ensures var before := calls[..|calls| - 1];
      EmptyReadings(ids, calls, fold, k) == ReadingsThen(Run(Start(ids), before, fold), calls[|calls| - 1], k, EmptyReadings(ids, before, fold, k))
  {
  }

  lemma ReadsForMade(s: State, call: Call, k: nat)
    requires Indexed(s) && k >= |s.standbys|
    ensures !ReadsFor(s, call, k)
  {
    assert forall i :: 0 <= i < |s.reading| ==> s.reading[i] in s.reading;
  }

  lemma StepCounts(s: State, call: Call, fold: string -> string)
    requires Indexed(s)
    ensures var t := Step(s, call, fold);
      && t.standbyFrom == (if call.StepDone? && s.standby.Some? && s.standbyFrom.None? then Some(t.steps) else s.standbyFrom)
      && t.steps == s.steps + (if call.StepDone? then 1 else 0)
      && |s.standbys| <= |t.standbys|
      && (forall k :: 0 <= k < |s.standbys| ==>
            t.standbys[k].emptyWaits == ReadingsThen(s, call, k, s.standbys[k].emptyWaits))
      && forall k :: |s.standbys| <= k < |t.standbys| ==> t.standbys[k].emptyWaits == 0
  {
    hide IsDuplicate, AllChecked;
  }

  /** What ends a session that is open: the last call, and what was called before. */
  ghost predicate Ends(ids: set<string>, calls: seq<Call>, call: Call, fold: string -> string) {
    var s := Run(Start(ids), calls, fold);
    match call
    case Finish(summary, others) =>
      && (summary.Some? || s.standby.Some?) && (s.standby.Some? || !others)
      && forall id :: id in ids ==> LastReported(ids, calls, fold, id).status != NotAttempted
    case Finished(i, othersWorking) => i < |s.finishing| && !othersWorking
    case HasRead(i, newMessages, othersDone) =>
      exists k :: ReadsFor(s, call, k) && (othersDone || (newMessages == 0 && EmptyReadings(ids, calls, fold, k) + 1 >= 4))
    case StepDone(otherLimit) => s.standby.Some? && (otherLimit || StandbySteps(ids, calls, fold) >= 12)
    case _ => false
  }

  /** Over every sequence of calls: an open session ends exactly with a finish that nobody has to be
      waited for, or in standby, with others done, the fourth reading in a row that brings nothing, the
      thirteenth step, or another limit. */
  lemma EndsExactly(ids: set<string>, calls: seq<Call>, call: Call, fold: string -> string)
    requires Indexed(Start(ids)) && Run(Start(ids), calls, fold).finished.None?
    ensures Run(Start(ids), calls + [call], fold).finished.Some? <==> Ends(ids, calls, call, fold)
  {
    var s := Run(Start(ids), calls, fold);
    CountsAreKept(ids, calls, fold);
    AlwaysInv(ids, calls, fold);
    RunNext(ids, calls, call, fold);
    forall id | id in ids ensures s.goals[id] == LastReported(ids, calls, fold, id) {
      GoalsAreLastReported(ids, calls, fold, id);
    }
    hide Run, IsDuplicate, LastReported, Rebuilt, NoDuplicates, OwnIds, StandbySteps, EmptyReadings;
    if call.HasRead? && call.i < |s.reading| && s.reading[call.i].Some? {
      assert s.reading[call.i] in s.reading;
      assert ReadsFor(s, call, s.reading[call.i].value);
    }
  }

  lemma RunNext(ids: set<string>, calls: seq<Call>, call: Call, fold: string -> string)
    requires Indexed(Start(ids))
    ensures Run(Start(ids), calls + [call], fold) == Step(Run(Start(ids), calls, fold), call, fold)
  {
    hide Step;
    assert (calls + [call])[..|calls|] == calls;
  }

  /** Over every sequence of calls: standby begins exactly when a finish that had to wait finds others
      at work, and such a finish is only one with a summary, all goals reported and others in the run. */
  lemma StandbyBeginsExactly(ids: set<string>, calls: seq<Call>, call: Call, fold: string -> string)
    requires Indexed(Start(ids))
    ensures var s, t := Run(Start(ids), calls, fold), Run(Start(ids), calls + [call], fold);
      && (t.standby != s.standby <==> call.Finished? && call.i < |s.finishing| && call.othersWorking)
      && (t.standby != s.standby ==> t.standbys == s.standbys + [Standby(s.finishing[call.i], 0)] && t.standby == Some(|s.standbys|))
      && (|t.finishing| > |s.finishing| <==>
            && call.Finish? && s.finished.None? && s.standby.None? && call.others && call.summary.Some?
            && forall id :: id in ids ==> LastReported(ids, calls, fold, id).status != NotAttempted)
      && (|t.finishing| > |s.finishing| ==> t.finishing == s.finishing + [call.summary.value])
  {
    var s := Run(Start(ids), calls, fold);
    KeysAreKept(ids, calls, fold);
    RunNext(ids, calls, call, fold);
    forall id | id in ids ensures s.goals[id] == LastReported(ids, calls, fold, id) {
      GoalsAreLastReported(ids, calls, fold, id);
    }
    hide Run, LastReported, Step, AllChecked;
    StepBeginsStandby(s, call, fold);
    StepWaits(s, call, fold);
    AllCheckedIs(s.goals);
  }

  lemma KeysAreKept(ids: set<string>, calls: seq<Call>, fold: string -> string)
    requires Indexed(Start(ids))
    ensures Run(Start(ids), calls, fold).goals.Keys == ids
  {
    hide Run;
    AlwaysInv(ids, calls, fold);
  }

  lemma AllCheckedIs(goals: map<string, Outcome>)
    ensures AllChecked(goals) <==> forall id :: id in goals ==> goals[id].status != NotAttempted
  {
  }

  lemma StepBeginsStandby(s: State, call: Call, fold: string -> string)
    requires Indexed(s)
    ensures var t := Step(s, call, fold);
      && (t.standby != s.standby <==> call.Finished? && call.i < |s.finishing| && call.othersWorking)
      && (t.standby != s.standby ==> t.standbys == s.standbys + [Standby(s.finishing[call.i], 0)] && t.standby == Some(|s.standbys|))
  {
    hide IsDuplicate, AllChecked;
  }

  lemma StepWaits(s: State, call: Call, fold: string -> string)
    requires Indexed(s)
    ensures var t := Step(s, call, fold);
      && (|t.finishing| > |s.finishing| <==>
            call.Finish? && s.finished.None? && s.standby.None? && call.others && call.summary.Some? && AllChecked(s.goals))
      && (|t.finishing| > |s.finishing| ==> t.finishing == s.finishing + [call.summary.value])
  {
    hide IsDuplicate, AllChecked;
  }

  // ----- The class -----

  class Session {
    const fold: string -> string
    var goals: map<string, Outcome>
    var findings: seq<Finding>
    var finished: Option<string>
    var standby: Option<nat>
    var standbys: seq<Standby>
    var nextId: nat
    var steps: nat
    var standbyFrom: Option<nat>
    var submitting: seq<Candidate>
    var finishing: seq<string>
    var reading: seq<Option<nat>>
    /** What has been emitted. */
    ghost var events: seq<Event>

    ghost function Now(): State
      reads this
    {
      State(goals, findings, finished, standby, standbys, nextId, steps, standbyFrom, submitting, finishing, reading, events)
    }

    ghost predicate Valid()
      reads this
    {
      Indexed(Now())
    }

    constructor (goalIds: set<string>, fold: string -> string)
      ensures Valid() && Now() == Start(goalIds) && this.fold == fold
    {
      this.fold := fold;
      goals, findings, finished, standby, standbys := FreshGoals(goalIds), [], None, None, [];
      nextId, steps, standbyFrom, submitting, finishing, reading := 1, 0, None, [], [], [];
      events := [];
    }

    /** `submit_finding` up to its await. */
    method SubmitBegins(c: Candidate, looking: bool) returns (accepted: bool)
      requires Valid()
      modifies this`submitting
      ensures Valid() && Now() == Step(old(Now()), Submit(c, looking), fold)
      ensures accepted <==> finished.None? && looking && c.goal in goals
      ensures submitting == if accepted then old(submitting) + [c] else old(submitting)
    {
      accepted := finished.None? && looking && c.goal in goals;
      if accepted {
        submitting := submitting + [c];
      }
    }

    /** `submit_finding` after its await. */
    method SubmitEnds(i: nat, wellFormed: bool) returns (id: Option<nat>)
      requires Valid() && i < |submitting|
      modifies this`submitting, this`findings, this`nextId, this`events
      ensures Valid() && Now() == AfterSubmitted(old(Now()), i, wellFormed, fold)
      ensures id.Some? <==> wellFormed && forall f :: f in old(findings) ==> Differ(f.what, old(submitting)[i], fold)
      ensures id.Some? ==> events == old(events) + [FindingFound(Finding(id.value, old(submitting)[i]))]
      ensures id.Some? ==> findings == old(findings) + [Finding(id.value, old(submitting)[i])]
      ensures id.None? ==> findings == old(findings) && events == old(events)
    {
      var c := submitting[i];
      assert IsDuplicate(findings, c, fold) <==> exists f :: f in findings && !Differ(f.what, c, fold);
      submitting := WithoutAt(submitting, i);
      if !wellFormed || IsDuplicate(findings, c, fold) {
        return None;
      }
      var finding := Finding(nextId, c);
      id := Some(nextId);
      nextId := nextId + 1;
      events := events + [FindingFound(finding)];
      findings := findings + [finding];
    }

    /** `goal_status` */
    method SetGoalStatus(goal: string, status: Option<Status>, note: string) returns (recorded: bool)
      requires Valid()
      modifies this`goals, this`events
      ensures Valid() && Now() == AfterSetStatus(old(Now()), goal, status, note)
      ensures recorded <==> finished.None? && goal in old(goals) && (status == Some(Reached) || status == Some(Failed))
      ensures recorded ==> goals == old(goals)[goal := Outcome(goal, status.value, note)]
      ensures recorded ==> events == old(events) + [GoalStatus(Outcome(goal, status.value, note))]
      ensures !recorded ==> goals == old(goals) && events == old(events)
    {
      recorded := finished.None? && goal in goals && (status == Some(Reached) || status == Some(Failed));
      if recorded {
        var outcome := Outcome(goal, status.value, note);
        events := events + [GoalStatus(outcome)];
        goals := goals[goal := outcome];
      }
    }

    /** `finish` up to its await. */
    method FinishBegins(summary: Option<string>, others: bool) returns (accepted: bool)
      requires Valid()
      modifies this`finished, this`finishing
      ensures Valid() && Now() == AfterFinish(old(Now()), summary, others)
      ensures accepted <==>
        && old(finished).None? && (summary.Some? || standby.Some?)
        && forall id :: id in goals ==> goals[id].status == Reached || goals[id].status == Failed
      ensures accepted && standby.None? && others ==> finished.None? && finishing == old(finishing) + [summary.value]
      ensures accepted && !(standby.None? && others) ==>
        finishing == old(finishing) && finished == Some(if summary.Some? then summary.value else standbys[standby.value].summary)
      ensures !accepted ==> finished == old(finished) && finishing == old(finishing)
    {
      var kept := if summary.Some? then summary else if standby.Some? then Some(standbys[standby.value].summary) else None;
      accepted := finished.None? && kept.Some? && AllChecked(goals);
      if accepted {
        if standby.None? && others {
          finishing := finishing + [kept.value];
        } else {
          finished := kept;
        }
      }
    }

    /** `finish` after its await. */
    method FinishEnds(i: nat, othersWorking: bool)
      requires Valid() && i < |finishing|
      modifies this`finished, this`finishing, this`standby, this`standbys, this`events
      ensures Valid() && Now() == AfterFinished(old(Now()), i, othersWorking)
      ensures othersWorking ==>
        && finished == old(finished) && standby == Some(|old(standbys)|)
        && standbys == old(standbys) + [Standby(old(finishing)[i], 0)] && events == old(events) + [StandbyBegan]
      ensures !othersWorking ==>
        finished == Some(old(finishing)[i]) && standby == old(standby) && standbys == old(standbys) && events == old(events)
    {
      var kept := finishing[i];
      finishing := WithoutAt(finishing, i);
      if othersWorking {
        events := events + [StandbyBegan];
        standby := Some(|standbys|);
        standbys := standbys + [Standby(kept, 0)];
      } else {
        finished := Some(kept);
      }
    }

    /** `read_team_channel` up to its await. */
    method ReadBegins() returns (accepted: bool)
      requires Valid()
      modifies this`reading
      ensures Valid() && Now() == Step(old(Now()), Read, fold) && (accepted <==> finished.None?)
      ensures reading == if accepted then old(reading) + [standby] else old(reading)
    {
      accepted := finished.None?;
      if accepted {
        reading := reading + [standby];
      }
    }

    /** `read_team_channel` after its await. */
    method ReadEnds(i: nat, newMessages: nat, othersDone: bool)
      requires Valid() && i < |reading|
      modifies this`reading, this`standbys, this`finished
      ensures Valid() && Now() == AfterHasRead(old(Now()), i, newMessages, othersDone)
      ensures old(reading)[i].None? ==> finished == old(finished) && standbys == old(standbys)
      ensures old(reading)[i].Some? ==>
        var k := old(reading)[i].value;
        var waits := if newMessages == 0 then old(standbys)[k].emptyWaits + 1 else 0;
        && standbys == old(standbys)[k := Standby(old(standbys)[k].summary, waits)]
        && finished == if othersDone || waits >= 4 then Some(old(standbys)[k].summary) else old(finished)
    {
      var standing := reading[i];
      assert standing in reading;
      reading := WithoutAt(reading, i);
      if standing.Some? {
        var k := standing.value;
        standbys := standbys[k := standbys[k].(emptyWaits := if newMessages == 0 then standbys[k].emptyWaits + 1 else 0)];
        if othersDone || standbys[k].emptyWaits >= MAX_EMPTY_WAITS {
          finished := Some(standbys[k].summary);
        }
      }
    }

    /** `onStep` after a step of the agent. */
    method OnStep(otherLimit: bool)
      requires Valid()
      modifies this`steps, this`standbyFrom, this`finished
      ensures Valid() && Now() == AfterStepDone(old(Now()), otherLimit)
      ensures standby.None? ==> finished == old(finished)
      ensures standby.Some? ==>
        var first := if old(standbyFrom).Some? then old(standbyFrom).value else steps;
        && standbyFrom == Some(first)
        && finished == if otherLimit || steps - first >= 12 then Some(standbys[standby.value].summary) else old(finished)
    {
      steps := steps + 1;
      if standby.Some? {
        if standbyFrom.None? {
          standbyFrom := Some(steps);
        }
        if steps - standbyFrom.value >= MAX_TURNS || otherLimit {
          finished := Some(standbys[standby.value].summary);
        }
      }
    }
  }

  method PlayOne(s: Session, call: Call)
    requires s.Valid()
    modifies s
    ensures s.Valid() && s.Now() == Step(old(s.Now()), call, s.fold)
  {
    match call
    case Submit(c, looking) => var _ := s.SubmitBegins(c, looking);
    case Submitted(i, wellFormed) =>
      if i < |s.submitting| {
        var _ := s.SubmitEnds(i, wellFormed);
      }
    case SetStatus(goal, status, note) => var _ := s.SetGoalStatus(goal, status, note);
    case Finish(summary, others) => var _ := s.FinishBegins(summary, others);
    case Finished(i, othersWorking) =>
      if i < |s.finishing| {
        s.FinishEnds(i, othersWorking);
      }
    case Read => var _ := s.ReadBegins();
    case HasRead(i, newMessages, othersDone) =>
      if i < |s.reading| {
        s.ReadEnds(i, newMessages, othersDone);
      }
    case StepDone(otherLimit) => s.OnStep(otherLimit);
  }

  /** A session on which the calls are made ends up where the statements above say. */
  method Play(ids: set<string>, fold: string -> string, calls: seq<Call>)
      returns (goals: map<string, Outcome>, findings: seq<Finding>, finished: Option<string>, ghost events: seq<Event>)
    ensures Indexed(Start(ids))
    ensures var t := Run(Start(ids), calls, fold);
      goals == t.goals && findings == t.findings && finished == t.finished && events == t.events
  {
    hide Step;
    var s := new Session(ids, fold);
    var k := 0;
    RunNothing(s.Now(), fold);
    assert calls[..0] == [];
    while k < |calls|
      invariant 0 <= k <= |calls| && s.Valid() && s.fold == fold && fresh(s)
      invariant Indexed(Start(ids)) && s.Now() == Run(Start(ids), calls[..k], fold)
    {
      RunOneMore(Start(ids), calls, fold, k);
      PlayOne(s, calls[k]);
      k := k + 1;
    }
    assert calls[..k] == calls;
    goals, findings, finished, events := s.goals, s.findings, s.finished, s.events;
  }
}
