/** Starting a run under an idempotency key: `apps/control-plane/src/run-api/service.ts` and
    `apps/control-plane/src/run-api/idempotency.ts`, as steps of concurrent requests over the
    committed rows. A transaction's writes become visible when it commits; `now()` is the time at
    which it was opened. */
module RunStart {
  import opened Options

  /** Workspace, project and key hash together. */
  type Key = string
  type RequestHash = string
  type Response = string

  /** In milliseconds: `IDEMPOTENCY_WINDOW_HOURS` is 24. */
  const WINDOW: int := 24 * 3_600_000

  datatype Recorded = Recorded(run: nat, response: Response)

  /** A row of `run_idempotency`; the run and the response are recorded together. */
  datatype Row = Row(hash: RequestHash, claimedAt: int, expiresAt: int, recorded: Option<Recorded>)

  datatype Run = Run(id: nat, key: Option<Key>, hash: RequestHash, claimedAt: int, response: Response)

  datatype Request = Request(key: Option<Key>, hash: RequestHash)

  datatype Outcome = Started(response: Response) | Replayed(response: Response) | DifferentRequest | Refusal

  /** Where a request stands in `startRunFor`. `txNow` is the `now()` of its transaction. */
  datatype Phase =
    | Arrived
    | Checked
    | Opened(txNow: int)
    | Claimed(txNow: int)
    | Ready(txNow: int, run: Run)
    | Refused
    | Answered(outcome: Outcome, at: int)
    | Crashed

  datatype Client = Client(request: Request, phase: Phase)

  datatype State = State(now: int, rows: map<Key, Row>, runs: seq<Run>, clients: map<nat, Client>, nextRun: nat)

  datatype Action =
    | Tick(elapsed: nat)
    | Arrive(c: nat, request: Request)
    | LookUp(c: nat, txNow: int)
    | Open(c: nat)
    | Claim(c: nat)
    | Start(c: nat, response: Response)
    | Commit(c: nat)
    | Refuse(c: nat)
    | Crash(c: nat)

  // ----- The pieces of the two files -----

  /** `storedStart`: only a live row with its answer. */
  function StoredStart(rows: map<Key, Row>, key: Key, now: int): Option<Row> {
    if key in rows && rows[key].expiresAt > now && rows[key].recorded.Some? then Some(rows[key]) else None
  }

  function ReplayOf(stored: Row, hash: RequestHash): Outcome
    requires stored.recorded.Some?
  {
    if stored.hash != hash then DifferentRequest else Replayed(stored.recorded.value.response)
  }

  /** The insert that claims a key goes through for a new key and for an expired one. */
  predicate CanClaim(rows: map<Key, Row>, key: Key, now: int) {
    key !in rows || rows[key].expiresAt <= now
  }

  predicate HoldsLock(client: Client, key: Key) {
    client.request.key == Some(key) && (client.phase.Claimed? || client.phase.Ready?)
  }

  /** Some transaction has written the key's row and is still open. */
  predicate Locked(s: State, key: Key) {
    exists c :: c in s.clients && HoldsLock(s.clients[c], key)
  }

  // ----- Steps -----

  predicate Enabled(s: State, a: Action) {
    match a
    case Tick(_) => true
    case Arrive(c, _) => c !in s.clients
    case LookUp(c, txNow) => c in s.clients && txNow <= s.now && (s.clients[c].phase.Arrived? || s.clients[c].phase.Refused?)
    case Open(c) => c in s.clients && s.clients[c].phase.Checked?
    case Claim(c) =>
      && c in s.clients && s.clients[c].phase.Opened?
      && (s.clients[c].request.key.Some? ==> !Locked(s, s.clients[c].request.key.value))
    case Start(c, _) => c in s.clients && s.clients[c].phase.Claimed?
    case Commit(c) => c in s.clients && s.clients[c].phase.Ready?
    case Refuse(c) => c in s.clients && (s.clients[c].phase.Checked? || s.clients[c].phase.Claimed?)
    case Crash(c) => c in s.clients && !s.clients[c].phase.Answered?
  }

  function Moved(s: State, c: nat, phase: Phase): State
    requires c in s.clients
  {
    s.(clients := s.clients[c := s.clients[c].(phase := phase)])
  }

  /** The look-up before the start, and the one after a refusal. */
  function LookedUp(s: State, c: nat, txNow: int): Phase
    requires c in s.clients
  {
    var client := s.clients[c];
    var stored := if client.request.key.Some? then StoredStart(s.rows, client.request.key.value, txNow) else None;
    if stored.Some? then Answered(ReplayOf(stored.value, client.request.hash), txNow)
    else if client.phase.Arrived? then Checked
    else Answered(Refusal, txNow)
  }

  /** `claimStart`, with the replay that ends the request when the key is not free. */
  function AfterClaim(s: State, c: nat): Phase
    requires c in s.clients && s.clients[c].phase.Opened?
  {
    var client := s.clients[c];
    var now := client.phase.txNow;
    if client.request.key.None? || CanClaim(s.rows, client.request.key.value, now) then Claimed(now)
    else
      var existing := StoredStart(s.rows, client.request.key.value, now);
      if existing.Some? then Answered(ReplayOf(existing.value, client.request.hash), now) else Crashed
  }

  function RowOf(run: Run): Row {
    Row(run.hash, run.claimedAt, run.claimedAt + WINDOW, Some(Recorded(run.id, run.response)))
  }

  function Committed(s: State, c: nat): State
    requires c in s.clients && s.clients[c].phase.Ready?
  {
    var client := s.clients[c];
    var run := client.phase.run;
    var rows := if client.request.key.Some? then s.rows[client.request.key.value := RowOf(run)] else s.rows;
    Moved(s.(rows := rows, runs := s.runs + [run]), c, Answered(Started(run.response), client.phase.txNow))
  }

  function Step(s: State, a: Action): State
    requires Enabled(s, a)
  {
    match a
    case Tick(elapsed) => s.(now := s.now + elapsed)
    case Arrive(c, request) => s.(clients := s.clients[c := Client(request, Arrived)])
    case LookUp(c, txNow) => Moved(s, c, LookedUp(s, c, txNow))
    case Open(c) => Moved(s, c, Opened(s.now))
    case Claim(c) => Moved(s, c, AfterClaim(s, c))
    case Start(c, response) =>
      var client := s.clients[c];
      var run := Run(s.nextRun, client.request.key, client.request.hash, client.phase.txNow, response);
      Moved(s.(nextRun := s.nextRun + 1), c, Ready(client.phase.txNow, run))
    case Commit(c) => Committed(s, c)
    case Refuse(c) => Moved(s, c, Refused)
    case Crash(c) => Moved(s, c, Crashed)
  }

  const START := State(0, map[], [], map[], 0)

  /** The state after some actions; one that is not possible does nothing. */
  function After(actions: seq<Action>): State {
    if actions == [] then START
    else
      var s, a := After(actions[..|actions| - 1]), actions[|actions| - 1];
      if Enabled(s, a) then Step(s, a) else s
  }

  // ----- What always holds -----

  /** The runs of one key, in the order in which they were committed, were claimed at least a
      window apart. */
  ghost predicate WindowsApart(runs: seq<Run>) {
    forall i, j :: 0 <= i < j < |runs| && runs[i].key.Some? && runs[i].key == runs[j].key
      ==> runs[i].claimedAt + WINDOW <= runs[j].claimedAt
  }

  ghost predicate DistinctRuns(runs: seq<Run>, nextRun: nat) {
    && (forall i :: 0 <= i < |runs| ==> runs[i].id < nextRun)
    && forall i, j :: 0 <= i < j < |runs| ==> runs[i].id != runs[j].id
  }

  /** Each committed row is the record of a committed run, the latest of its key. */
  ghost predicate RowsRecorded(rows: map<Key, Row>, runs: seq<Run>) {
    forall k :: k in rows ==> exists i :: 0 <= i < |runs| && runs[i].key == Some(k) && rows[k] == RowOf(runs[i])
  }

  ghost predicate RowsLatest(rows: map<Key, Row>, runs: seq<Run>) {
    forall i :: 0 <= i < |runs| && runs[i].key.Some? ==>
      runs[i].key.value in rows && runs[i].claimedAt <= rows[runs[i].key.value].claimedAt
  }

  /** At most one open transaction has claimed a key, and its key is free or expired. */
  ghost predicate ClaimsExclusive(s: State) {
    && (forall c, k :: c in s.clients && HoldsLock(s.clients[c], k) ==> CanClaim(s.rows, k, s.clients[c].phase.txNow))
    && forall c, d, k :: c in s.clients && d in s.clients && HoldsLock(s.clients[c], k) && HoldsLock(s.clients[d], k) ==> c == d
  }

  /** A run that is ready to be committed is the request's own. */
  ghost predicate ReadyRuns(s: State) {
    && (forall c :: c in s.clients && s.clients[c].phase.Ready? ==>
         var run := s.clients[c].phase.run;
         && run.key == s.clients[c].request.key && run.hash == s.clients[c].request.hash
         && run.claimedAt == s.clients[c].phase.txNow && run.id < s.nextRun
         && forall i :: 0 <= i < |s.runs| ==> s.runs[i].id != run.id)
    && forall c, d | c in s.clients && d in s.clients && s.clients[c].phase.Ready? && s.clients[d].phase.Ready?
         :: s.clients[c].phase.run.id == s.clients[d].phase.run.id ==> c == d
  }

  predicate Live(run: Run, request: Request, at: int) {
    request.key.Some? && run.key == request.key && at < run.claimedAt + WINDOW
  }

  /** The answer is what a committed run of the same key recorded: the response for the same
      request while the window lasts, the refusal for a different one. */
  ghost predicate Backed(runs: seq<Run>, request: Request, outcome: Outcome, at: int) {
    match outcome
    case Started(response) => exists i :: 0 <= i < |runs| && runs[i] == Run(runs[i].id, request.key, request.hash, at, response)
    case Replayed(response) => exists i :: 0 <= i < |runs| && Live(runs[i], request, at) && runs[i].hash == request.hash && runs[i].response == response
    case DifferentRequest => exists i :: 0 <= i < |runs| && Live(runs[i], request, at) && runs[i].hash != request.hash
    case Refusal => true
  }

  ghost predicate AnswersBacked(s: State) {
    forall c :: c in s.clients && s.clients[c].phase.Answered? ==>
      Backed(s.runs, s.clients[c].request, s.clients[c].phase.outcome, s.clients[c].phase.at)
  }

  ghost predicate Inv(s: State) {
    && WindowsApart(s.runs) && DistinctRuns(s.runs, s.nextRun) && RowsRecorded(s.rows, s.runs) && RowsLatest(s.rows, s.runs)
    && ClaimsExclusive(s) && ReadyRuns(s) && AnswersBacked(s)
  }

  // ----- Every step keeps it -----

  lemma BackedGrows(runs: seq<Run>, run: Run, request: Request, outcome: Outcome, at: int)
    requires Backed(runs, request, outcome, at)
    ensures Backed(runs + [run], request, outcome, at)
  {
    var more := runs + [run];
    assert forall i :: 0 <= i < |runs| ==> more[i] == runs[i];
  }

  /** A replay of a committed row is backed by the run it records. */
  lemma ReplayIsBacked(s: State, request: Request, now: int)
    requires RowsRecorded(s.rows, s.runs) && request.key.Some? && StoredStart(s.rows, request.key.value, now).Some?
    ensures Backed(s.runs, request, ReplayOf(s.rows[request.key.value], request.hash), now)
  {
    var k := request.key.value;
    var i :| 0 <= i < |s.runs| && s.runs[i].key == Some(k) && s.rows[k] == RowOf(s.runs[i]);
  }

  /** A move that neither takes a lock nor answers keeps everything. */
  lemma QuietMove(s: State, c: nat, phase: Phase)
    requires Inv(s) && c in s.clients
    requires !phase.Claimed? && !phase.Ready?
    requires phase.Answered? ==> Backed(s.runs, s.clients[c].request, phase.outcome, phase.at)
    ensures Inv(Moved(s, c, phase))
  {
    hide WindowsApart, DistinctRuns, Backed;
  }

  lemma KeepsLookUp(s: State, c: nat, txNow: int)
    requires Inv(s) && Enabled(s, LookUp(c, txNow))
    ensures Inv(Step(s, LookUp(c, txNow)))
  {
    hide Inv;
    var request := s.clients[c].request;
    if request.key.Some? && StoredStart(s.rows, request.key.value, txNow).Some? {
      InvRows(s);
      ReplayIsBacked(s, request, txNow);
    }
    QuietMove(s, c, LookedUp(s, c, txNow));
  }

  lemma InvRows(s: State)
    requires Inv(s)
    ensures RowsRecorded(s.rows, s.runs)
  {
  }

  lemma KeepsClaim(s: State, c: nat)
    requires Inv(s) && Enabled(s, Claim(c))
    ensures Inv(Step(s, Claim(c)))
  {
    var request := s.clients[c].request;
    var phase := AfterClaim(s, c);
    if phase.Claimed? {
      hide WindowsApart, DistinctRuns, Backed, RowsRecorded;
    } else {
      hide Inv;
      InvRows(s);
      if phase.Answered? {
        ReplayIsBacked(s, request, phase.at);
      }
      QuietMove(s, c, phase);
    }
  }

  lemma KeepsStart(s: State, c: nat, response: Response)
    requires Inv(s) && Enabled(s, Start(c, response))
    ensures Inv(Step(s, Start(c, response)))
  {
    hide WindowsApart, Backed, RowsRecorded, CanClaim;
    var t := Step(s, Start(c, response));
    assert forall k :: HoldsLock(t.clients[c], k) <==> HoldsLock(s.clients[c], k);
  }

  lemma KeepsCommit(s: State, c: nat)
    requires Inv(s) && Enabled(s, Commit(c))
    ensures Inv(Step(s, Commit(c)))
  {
    hide WindowsApart, DistinctRuns, RowsRecorded, RowsLatest, ClaimsExclusive, ReadyRuns, AnswersBacked;
    CommitKeepsRuns(s, c);
    CommitKeepsRows(s, c);
    CommitKeepsClaims(s, c);
    CommitKeepsReady(s, c);
    CommitKeepsAnswers(s, c);
  }

  lemma CommitKeepsRuns(s: State, c: nat)
    requires Inv(s) && Enabled(s, Commit(c))
    ensures WindowsApart(Committed(s, c).runs) && DistinctRuns(Committed(s, c).runs, s.nextRun)
  {
    hide AnswersBacked;
    var run := s.clients[c].phase.run;
    if run.key.Some? {
      assert HoldsLock(s.clients[c], run.key.value);
      forall i | 0 <= i < |s.runs| && s.runs[i].key == run.key
        ensures s.runs[i].claimedAt + WINDOW <= run.claimedAt
      {
        var k := run.key.value;
        var j :| 0 <= j < |s.runs| && s.runs[j].key == Some(k) && s.rows[k] == RowOf(s.runs[j]);
      }
    }
  }

  lemma CommitKeepsRows(s: State, c: nat)
    requires Inv(s) && Enabled(s, Commit(c))
    ensures RowsRecorded(Committed(s, c).rows, Committed(s, c).runs)
    ensures RowsLatest(Committed(s, c).rows, Committed(s, c).runs)
  {
    hide AnswersBacked, DistinctRuns, WindowsApart, RowsRecorded, RowsLatest, ClaimsExclusive;
    var run := s.clients[c].phase.run;
    if run.key.Some? {
      LatestToCommit(s, c);
      RecordRow(s.rows, s.runs, run);
    } else {
      RecordNoRow(s.rows, s.runs, run);
    }
  }

  lemma LatestToCommit(s: State, c: nat)
    requires Inv(s) && Enabled(s, Commit(c)) && s.clients[c].request.key.Some?
    ensures var run := s.clients[c].phase.run;
            run.key.value !in s.rows || s.rows[run.key.value].claimedAt <= run.claimedAt
  {
    hide AnswersBacked, DistinctRuns, WindowsApart, RowsLatest;
    var k := s.clients[c].request.key.value;
    assert HoldsLock(s.clients[c], k);
    if k in s.rows {
      var i :| 0 <= i < |s.runs| && s.runs[i].key == Some(k) && s.rows[k] == RowOf(s.runs[i]);
    }
  }

  lemma RecordRow(rows: map<Key, Row>, runs: seq<Run>, run: Run)
    requires RowsRecorded(rows, runs) && RowsLatest(rows, runs) && run.key.Some?
    requires run.key.value !in rows || rows[run.key.value].claimedAt <= run.claimedAt
    ensures RowsRecorded(rows[run.key.value := RowOf(run)], runs + [run])
    ensures RowsLatest(rows[run.key.value := RowOf(run)], runs + [run])
  {
    var more, after := runs + [run], rows[run.key.value := RowOf(run)];
    assert more[|runs|] == run;
    forall k | k in after
      ensures exists i :: 0 <= i < |more| && more[i].key == Some(k) && after[k] == RowOf(more[i])
    {
      if k != run.key.value {
        var i :| 0 <= i < |runs| && runs[i].key == Some(k) && rows[k] == RowOf(runs[i]);
        assert more[i] == runs[i];
      }
    }
  }

  lemma RecordNoRow(rows: map<Key, Row>, runs: seq<Run>, run: Run)
    requires RowsRecorded(rows, runs) && RowsLatest(rows, runs) && run.key.None?
    ensures RowsRecorded(rows, runs + [run]) && RowsLatest(rows, runs + [run])
  {
    var more := runs + [run];
    forall k | k in rows
      ensures exists i :: 0 <= i < |more| && more[i].key == Some(k) && rows[k] == RowOf(more[i])
    {
      var i :| 0 <= i < |runs| && runs[i].key == Some(k) && rows[k] == RowOf(runs[i]);
      assert more[i] == runs[i];
    }
  }

  lemma CommitKeepsClaims(s: State, c: nat)
    requires Inv(s) && Enabled(s, Commit(c))
    ensures ClaimsExclusive(Committed(s, c))
  {
    hide AnswersBacked, DistinctRuns, WindowsApart, RowsRecorded, RowsLatest;
    var t := Committed(s, c);
    var key := s.clients[c].request.key;
    assert key.Some? ==> HoldsLock(s.clients[c], key.value);
    forall d, k | d in t.clients && HoldsLock(t.clients[d], k)
      ensures d != c && key != Some(k) && HoldsLock(s.clients[d], k)
    {
      assert t.clients[c].phase.Answered?;
      assert t.clients[d] == s.clients[d];
    }
  }

  lemma CommitKeepsReady(s: State, c: nat)
    requires Inv(s) && Enabled(s, Commit(c))
    ensures ReadyRuns(Committed(s, c))
  {
    hide AnswersBacked, WindowsApart, RowsRecorded, RowsLatest, ClaimsExclusive;
  }

  lemma CommitKeepsAnswers(s: State, c: nat)
    requires Inv(s) && Enabled(s, Commit(c))
    ensures AnswersBacked(Committed(s, c))
  {
    hide WindowsApart, RowsRecorded, RowsLatest, ClaimsExclusive, DistinctRuns, Backed;
    var t := Committed(s, c);
    var run := s.clients[c].phase.run;
    forall d | d in t.clients && t.clients[d].phase.Answered?
      ensures Backed(t.runs, t.clients[d].request, t.clients[d].phase.outcome, t.clients[d].phase.at)
    {
      if d == c {
        StartedIsBacked(s.runs, run);
      } else {
        BackedGrows(s.runs, run, s.clients[d].request, s.clients[d].phase.outcome, s.clients[d].phase.at);
      }
    }
  }

  lemma StartedIsBacked(runs: seq<Run>, run: Run)
    ensures Backed(runs + [run], Request(run.key, run.hash), Started(run.response), run.claimedAt)
  {
    assert (runs + [run])[|runs|] == run;
  }

  lemma KeepsOthers(s: State, a: Action)
    requires Inv(s) && Enabled(s, a) && (a.Tick? || a.Arrive?)
    ensures Inv(Step(s, a))
  {
    hide WindowsApart, DistinctRuns, Backed;
  }

  lemma StepKeepsInv(s: State, a: Action)
    requires Inv(s) && Enabled(s, a)
    ensures Inv(Step(s, a))
  {
    hide Inv, LookedUp, AfterClaim, Committed;
    match a
    case Tick(elapsed) => KeepsOthers(s, a);
    case Arrive(c, request) => KeepsOthers(s, a);
    case LookUp(c, txNow) => KeepsLookUp(s, c, txNow);
    case Open(c) => QuietMove(s, c, Opened(s.now));
    case Claim(c) => KeepsClaim(s, c);
    case Start(c, response) => KeepsStart(s, c, response);
    case Commit(c) => KeepsCommit(s, c);
    case Refuse(c) => QuietMove(s, c, Refused);
    case Crash(c) => QuietMove(s, c, Crashed);
  }

  // ----- Over every run of the system -----

  lemma {:induction false} AlwaysInv(actions: seq<Action>)
    ensures Inv(After(actions))
  {
    if actions != [] {
      var s, a := After(actions[..|actions| - 1]), actions[|actions| - 1];
      AlwaysInv(actions[..|actions| - 1]);
      if Enabled(s, a) {
        StepKeepsInv(s, a);
      }
    }
  }

  /** However requests interleave, crash and are refused: every committed key row carries the
      recorded answer of a committed run, and two committed runs of one key were claimed at
      least a window apart. */
  lemma OneRunPerWindow(actions: seq<Action>, i: nat, j: nat)
    requires i < |After(actions).runs| && j < |After(actions).runs| && i != j
    requires After(actions).runs[i].key.Some? && After(actions).runs[i].key == After(actions).runs[j].key
    ensures var a, b := After(actions).runs[i].claimedAt, After(actions).runs[j].claimedAt;
            a + WINDOW <= b || b + WINDOW <= a
    ensures forall k :: k in After(actions).rows ==> After(actions).rows[k].recorded.Some?
  {
    AlwaysInv(actions);
  }

  /** A look-up or a claim of a key whose committed row has not expired at its transaction's time. */
  predicate AsksForLiveKey(s: State, a: Action, k: Key)
    requires Enabled(s, a)
  {
    && (a.LookUp? || a.Claim?)
    && s.clients[a.c].request.key == Some(k) && k in s.rows
    && s.rows[k].expiresAt > (if a.LookUp? then a.txNow else s.clients[a.c].phase.txNow)
  }

  /** What a request for a live key is told, whether it looks up or tries to claim: the recorded
      response, or that the key was used for a different request. */
  lemma LiveKeyAnswer(actions: seq<Action>, a: Action, k: Key)
    requires Enabled(After(actions), a) && AsksForLiveKey(After(actions), a, k)
    ensures var s := After(actions);
            && s.rows[k].recorded.Some?
            && Step(s, a).clients[a.c].phase.Answered?
            && Step(s, a).clients[a.c].phase.outcome ==
                 (if s.rows[k].hash == s.clients[a.c].request.hash then Replayed(s.rows[k].recorded.value.response) else DifferentRequest)
            && Step(s, a).runs == s.runs && Step(s, a).rows == s.rows
  {
    AlwaysInv(actions);
    InvRows(After(actions));
  }

  predicate BothTold(s: State, c: nat, d: nat) {
    && c in s.clients && d in s.clients && s.clients[c].request.key.Some?
    && s.clients[c].request.key == s.clients[d].request.key
    && Told(s.clients[c]) && Told(s.clients[d])
  }

  /** Two requests that were told of a run under one key, by starting it or by a replay, were
      told of the same run, unless the runs were claimed a window apart. */
  lemma SameRunForSameKey(actions: seq<Action>, c: nat, d: nat) returns (i: nat, j: nat)
    requires BothTold(After(actions), c, d)
    ensures var s := After(actions);
            && i < |s.runs| && j < |s.runs|
            && TellsOf(s.clients[c], s.runs[i]) && TellsOf(s.clients[d], s.runs[j])
            && (i == j || s.runs[i].claimedAt + WINDOW <= s.runs[j].claimedAt || s.runs[j].claimedAt + WINDOW <= s.runs[i].claimedAt)
  {
    AlwaysInv(actions);
    i := RunToldOf(After(actions), c);
    j := RunToldOf(After(actions), d);
  }

  predicate Told(client: Client) {
    client.phase.Answered? && (client.phase.outcome.Started? || client.phase.outcome.Replayed?)
  }

  /** The answer is the run's response, the run is of the request's key and hash, and its window
      had not ended. */
  ghost predicate TellsOf(client: Client, run: Run) {
    && Told(client) && client.phase.outcome.response == run.response
    && run.key == client.request.key && run.hash == client.request.hash
    && client.phase.at < run.claimedAt + WINDOW
  }

  lemma RunToldOf(s: State, c: nat) returns (i: nat)
    requires Inv(s) && c in s.clients && Told(s.clients[c])
    ensures i < |s.runs| && TellsOf(s.clients[c], s.runs[i])
  {
    var client := s.clients[c];
    assert Backed(s.runs, client.request, client.phase.outcome, client.phase.at);
    if client.phase.outcome.Started? {
      i :| 0 <= i < |s.runs| && s.runs[i] == Run(s.runs[i].id, client.request.key, client.request.hash, client.phase.at, client.phase.outcome.response);
    } else {
      i :| 0 <= i < |s.runs| && Live(s.runs[i], client.request, client.phase.at)
        && s.runs[i].hash == client.request.hash && s.runs[i].response == client.phase.outcome.response;
    }
  }

  // ----- Who gets a run, and who is refused -----

  /** No open transaction has claimed the request's key, and no committed run of that key has a
      window that lasts at a time. */
  ghost predicate KeyIsFree(s: State, request: Request, at: int) {
    request.key.Some? ==>
      && (forall d :: d in s.clients && s.clients[d].request.key == request.key ==> !s.clients[d].phase.Claimed? && !s.clients[d].phase.Ready?)
      && forall i :: 0 <= i < |s.runs| && s.runs[i].key == request.key ==> s.runs[i].claimedAt + WINDOW <= at
  }

  lemma FreeKeyHasNoRow(s: State, request: Request, at: int)
    requires Inv(s) && KeyIsFree(s, request, at) && request.key.Some?
    ensures CanClaim(s.rows, request.key.value, at) && !Locked(s, request.key.value)
  {
    hide WindowsApart, DistinctRuns, RowsLatest, ClaimsExclusive, ReadyRuns, AnswersBacked;
    var k := request.key.value;
    if k in s.rows {
      var i :| 0 <= i < |s.runs| && s.runs[i].key == Some(k) && s.rows[k] == RowOf(s.runs[i]);
    }
  }

  lemma AfterNext(actions: seq<Action>, a: Action)
    ensures After(actions + [a]) == if Enabled(After(actions), a) then Step(After(actions), a) else After(actions)
  {
    hide Enabled, Step;
    assert (actions + [a])[..|actions|] == actions;
  }

  /** The steps of a request that nothing gets in the way of. */
  function Undisturbed(c: nat, txNow: int, response: Response): seq<Action> {
    [LookUp(c, txNow)] + [Open(c)] + [Claim(c)] + [Start(c, response)] + [Commit(c)]
  }

  /** From every reachable state: a request without a key, or with one that is free, is started with
      exactly one more run when it goes through its steps, also when its key was used before. */
  lemma FreeKeyStarts(actions: seq<Action>, c: nat, txNow: int, response: Response)
    requires var s := After(actions);
      && c in s.clients && s.clients[c].phase.Arrived? && txNow <= s.now
      && KeyIsFree(s, s.clients[c].request, txNow)
    ensures var s, t := After(actions), After(actions + Undisturbed(c, txNow, response));
      var request := s.clients[c].request;
      && t.clients == s.clients[c := Client(request, Answered(Started(response), s.now))]
      && t.runs == s.runs + [Run(s.nextRun, request.key, request.hash, s.now, response)]
  {
    var s := After(actions);
    var request := s.clients[c].request;
    AlwaysInv(actions);
    if request.key.Some? {
      FreeKeyHasNoRow(s, request, txNow);
      FreeKeyHasNoRow(s, request, s.now);
    }
    StartedIn(actions, c, txNow, response);
  }

  ghost predicate Leads(s: State, a: Action, t: State) {
    Enabled(s, a) && Step(s, a) == t
  }

  lemma FreeRequestOpens(s: State, c: nat, txNow: int)
    requires c in s.clients && s.clients[c].phase.Arrived? && txNow <= s.now
    requires s.clients[c].request.key.Some? ==>
      var k := s.clients[c].request.key.value; CanClaim(s.rows, k, txNow) && CanClaim(s.rows, k, s.now) && !Locked(s, k)
    ensures Leads(s, LookUp(c, txNow), Moved(s, c, Checked))
    ensures Leads(Moved(s, c, Checked), Open(c), Moved(s, c, Opened(s.now)))
    ensures Leads(Moved(s, c, Opened(s.now)), Claim(c), Moved(s, c, Claimed(s.now)))
  {
    StillUnlocked(s, c, Opened(s.now));
  }

  lemma ClaimedStarts(s: State, c: nat, response: Response)
    requires c in s.clients
    ensures var request := s.clients[c].request;
      var run := Run(s.nextRun, request.key, request.hash, s.now, response);
      var ready := Moved(s.(nextRun := s.nextRun + 1), c, Ready(s.now, run));
      && Leads(Moved(s, c, Claimed(s.now)), Start(c, response), ready)
      && Enabled(ready, Commit(c))
      && Step(ready, Commit(c)).clients == s.clients[c := Client(request, Answered(Started(response), s.now))]
      && Step(ready, Commit(c)).runs == s.runs + [run]
  {
  }

  lemma StartedIn(actions: seq<Action>, c: nat, txNow: int, response: Response)
    requires var s := After(actions);
      && c in s.clients && s.clients[c].phase.Arrived? && txNow <= s.now
      && (s.clients[c].request.key.Some? ==>
            var k := s.clients[c].request.key.value; CanClaim(s.rows, k, txNow) && CanClaim(s.rows, k, s.now) && !Locked(s, k))
    ensures var s, t := After(actions), After(actions + Undisturbed(c, txNow, response));
      var request := s.clients[c].request;
      && t.clients == s.clients[c := Client(request, Answered(Started(response), s.now))]
      && t.runs == s.runs + [Run(s.nextRun, request.key, request.hash, s.now, response)]
  {
    hide Enabled, Step, CanClaim, Locked;
    var s := After(actions);
    FreeRequestOpens(s, c, txNow);
    ClaimedStarts(s, c, response);
    hide After;
    var a1, a2 := actions + [LookUp(c, txNow)], actions + [LookUp(c, txNow)] + [Open(c)];
    var a3, a4 := a2 + [Claim(c)], a2 + [Claim(c)] + [Start(c, response)];
    AfterNext(actions, LookUp(c, txNow));
    AfterNext(a1, Open(c));
    AfterNext(a2, Claim(c));
    AfterNext(a3, Start(c, response));
    AfterNext(a4, Commit(c));
    assert a4 + [Commit(c)] == actions + Undisturbed(c, txNow, response);
  }

  lemma StillUnlocked(s: State, c: nat, phase: Phase)
    requires c in s.clients && !phase.Claimed? && !phase.Ready?
    ensures forall k :: !Locked(s, k) ==> !Locked(Moved(s, c, phase), k)
  {
  }

  /** The client was refused at some step before. */
  ghost predicate RefusedBefore(actions: seq<Action>, c: nat) {
    exists k :: 0 <= k < |actions| && actions[k] == Refuse(c) && Enabled(After(actions[..k]), Refuse(c))
  }

  predicate IsRefused(s: State, c: nat) {
    c in s.clients && (s.clients[c].phase.Refused? || (s.clients[c].phase.Answered? && s.clients[c].phase.outcome == Refusal))
  }

  lemma OneStepRefuses(s: State, a: Action, c: nat)
    requires Enabled(s, a) && IsRefused(Step(s, a), c)
    ensures IsRefused(s, c) || a == Refuse(c)
  {
  }

  /** Only who was refused is told so: no step answers a request with a refusal on its own. */
  lemma {:induction false} OnlyRefusedAreTold(actions: seq<Action>, c: nat)
    requires IsRefused(After(actions), c)
    ensures RefusedBefore(actions, c)
  {
    var n := |actions| - 1;
    var s := After(actions[..n]);
    hide Step, Enabled;
    assert actions != [];
    if Enabled(s, actions[n]) {
      OneStepRefuses(s, actions[n], c);
    }
    if IsRefused(s, c) {
      OnlyRefusedAreTold(actions[..n], c);
      var k :| 0 <= k < n && actions[..n][k] == Refuse(c) && Enabled(After(actions[..n][..k]), Refuse(c));
      assert actions[..n][..k] == actions[..k];
      assert actions[k] == Refuse(c);
    }
  }

  /** Who was refused is told so, unless the key is live by then. */
  lemma RefusedAreTold(actions: seq<Action>, c: nat, txNow: int)
    requires var s := After(actions); c in s.clients && s.clients[c].phase.Refused? && txNow <= s.now
    ensures var s := After(actions);
      && Enabled(s, LookUp(c, txNow))
      && ((forall i :: 0 <= i < |s.runs| ==> !Live(s.runs[i], s.clients[c].request, txNow)) ==>
            Step(s, LookUp(c, txNow)).clients[c].phase == Answered(Refusal, txNow))
  {
    AlwaysInv(actions);
    var s := After(actions);
    hide WindowsApart, DistinctRuns, RowsLatest, ClaimsExclusive, ReadyRuns, AnswersBacked;
    var request := s.clients[c].request;
    if request.key.Some? && request.key.value in s.rows {
      var i :| 0 <= i < |s.runs| && s.runs[i].key == Some(request.key.value) && s.rows[request.key.value] == RowOf(s.runs[i]);
    }
  }
}
