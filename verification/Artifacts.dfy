/** Uploads and cleanups of artifacts that run at the same time:
    `apps/control-plane/src/artifacts/artifacts.ts` and `apps/control-plane/src/artifacts/cleanup.ts`.
    An upload inserts its row, puts its file and marks the row; a cleanup removes the file and then
    deletes the row. Either may stop anywhere. */
module Artifacts {
  import opened Options

  /** In milliseconds: `RETENTION_DAYS` is 30 and `DISCARD_GRACE_MINUTES` is 10. */
  const RETENTION: int := 30 * 24 * 3_600_000
  const GRACE: int := 10 * 60_000

  datatype Row = Row(createdAt: int, storedAt: Option<int>, discardedAt: Option<int>)

  /** Where `storeArtifact` stands. The time that an update writes is taken before the update. */
  datatype Phase = Inserted | Put | Marking(stamp: int) | PutFailed | Discarding(stamp: int) | Removing | Done | Failed

  /** An upload and, for the statements below, when its row was made, its file was put and its row
      was marked. */
  datatype Upload = Upload(phase: Phase, createdAt: int, putAt: Option<int>, markedAt: Option<int>)

  /** A cleanup: the rows it has selected and not handled yet, and those whose file it has
      removed and whose row it is about to delete. */
  datatype Cleaner = Cleaner(selected: set<nat>, removed: set<nat>)

  /** Artifacts are known by their id, which also names the file. */
  datatype State = State(now: int, rows: map<nat, Row>, files: set<nat>, uploads: map<nat, Upload>, cleaners: map<nat, Cleaner>)

  datatype Action =
    | Tick(ms: nat)
    | Insert(id: nat, txNow: int)
    | PutFile(id: nat)
    | PutThrows(id: nat, landed: bool)
    | Stamp(id: nat)
    | Mark(id: nat)
    | Discard(id: nat)
    | RemoveOwn(id: nat)
    | StopUpload(id: nat)
    | ForgetWork(id: nat)
    | Select(cleaner: nat, ids: set<nat>, txNow: int)
    | RemoveFile(cleaner: nat, id: nat)
    | SkipFile(cleaner: nat, id: nat)
    | DeleteRow(cleaner: nat, id: nat)
    | StopCleaner(cleaner: nat)

  /** The condition of the cleanup's query. */
  predicate Expired(row: Row, now: int) {
    || row.createdAt < now - RETENTION
    || (row.discardedAt.Some? && row.discardedAt.value < now - GRACE)
    || (row.storedAt.None? && row.createdAt < now - GRACE)
  }

  predicate InPhase(s: State, id: nat, phase: Phase) {
    id in s.uploads && s.uploads[id].phase == phase
  }

  predicate Enabled(s: State, a: Action) {
    match a
    case Tick(_) => true
    case Insert(id, txNow) => id !in s.uploads && txNow <= s.now
    case PutFile(id) => InPhase(s, id, Inserted)
    case PutThrows(id, _) => InPhase(s, id, Inserted)
    case Stamp(id) => InPhase(s, id, Put) || InPhase(s, id, PutFailed)
    case Mark(id) => id in s.uploads && s.uploads[id].phase.Marking?
    case Discard(id) => id in s.uploads && s.uploads[id].phase.Discarding?
    case RemoveOwn(id) => InPhase(s, id, Removing)
    case StopUpload(id) => id in s.uploads && !s.uploads[id].phase.Done?
    case ForgetWork(id) => id in s.rows && s.rows[id].discardedAt.None?
    case Select(_, ids, txNow) => txNow <= s.now && forall id :: id in ids ==> id in s.rows && Expired(s.rows[id], txNow)
    case RemoveFile(c, id) => c in s.cleaners && id in s.cleaners[c].selected
    case SkipFile(c, id) => c in s.cleaners && id in s.cleaners[c].selected
    case DeleteRow(c, id) => c in s.cleaners && id in s.cleaners[c].removed
    case StopCleaner(c) => c in s.cleaners
  }

  function At(s: State, id: nat, phase: Phase): State
    requires id in s.uploads
  {
    s.(uploads := s.uploads[id := s.uploads[id].(phase := phase)])
  }

  function Landed(s: State, id: nat, phase: Phase): State
    requires id in s.uploads
  {
    s.(files := s.files + {id}, uploads := s.uploads[id := s.uploads[id].(phase := phase, putAt := Some(s.now))])
  }

  function Stamped(s: State, id: nat): State
    requires id in s.uploads
  {
    At(s, id, if s.uploads[id].phase.Put? then Marking(s.now) else Discarding(s.now))
  }

  function Marked(s: State, id: nat): State
    requires id in s.uploads && s.uploads[id].phase.Marking?
  {
    if id !in s.rows then At(s, id, Removing)
    else
      var u := s.uploads[id];
      s.(rows := s.rows[id := s.rows[id].(storedAt := Some(u.phase.stamp))],
         uploads := s.uploads[id := u.(phase := Done, markedAt := Some(s.now))])
  }

  function Discarded(s: State, id: nat): State
    requires id in s.uploads && s.uploads[id].phase.Discarding?
  {
    if id !in s.rows then At(s, id, Removing)
    else At(s.(rows := s.rows[id := s.rows[id].(discardedAt := Some(s.uploads[id].phase.stamp))]), id, Failed)
  }

  function Cleaned(s: State, c: nat, cleaner: Cleaner): State {
    s.(cleaners := s.cleaners[c := cleaner])
  }

  function Step(s: State, a: Action): State
    requires Enabled(s, a)
  {
    match a
    case Tick(ms) => s.(now := s.now + ms)
    case Insert(id, txNow) => s.(rows := s.rows[id := Row(txNow, None, None)], uploads := s.uploads[id := Upload(Inserted, txNow, None, None)])
    case PutFile(id) => Landed(s, id, Put)
    case PutThrows(id, landed) => if landed then Landed(s, id, PutFailed) else At(s, id, PutFailed)
    case Stamp(id) => Stamped(s, id)
    case Mark(id) => Marked(s, id)
    case Discard(id) => Discarded(s, id)
    case RemoveOwn(id) => At(s.(files := s.files - {id}), id, Failed)
    case StopUpload(id) => At(s, id, Failed)
    case ForgetWork(id) => s.(rows := s.rows[id := s.rows[id].(discardedAt := Some(s.now))])
    case Select(c, ids, _) => Cleaned(s, c, Cleaner(ids, {}))
    case RemoveFile(c, id) => Cleaned(s.(files := s.files - {id}), c, Cleaner(s.cleaners[c].selected - {id}, s.cleaners[c].removed + {id}))
    case SkipFile(c, id) => Cleaned(s, c, Cleaner(s.cleaners[c].selected - {id}, s.cleaners[c].removed))
    case DeleteRow(c, id) => Cleaned(s.(rows := s.rows - {id}), c, Cleaner(s.cleaners[c].selected, s.cleaners[c].removed - {id}))
    case StopCleaner(c) => Cleaned(s, c, Cleaner({}, {}))
  }

  const START := State(0, map[], {}, map[], map[])

  /** The state after some actions; one that is not possible does nothing. */
  function From(s: State, actions: seq<Action>): State
    decreases |actions|
  {
    if actions == [] then s
    else From(if Enabled(s, actions[0]) then Step(s, actions[0]) else s, actions[1..])
  }

  // ----- What always holds -----

  /** The file was put within the grace period of its row. */
  predicate PutInTime(u: Upload) {
    u.putAt.Some? && u.putAt.value <= u.createdAt + GRACE
  }

  /** The row was marked within the grace period: not when the time it holds was taken, but when it
      was written. */
  predicate MarkedInTime(u: Upload) {
    u.markedAt.Some? && u.markedAt.value <= u.createdAt + GRACE
  }

  /** Rows are discarded after they are made, and an upload that removes its own file has no row. */
  ghost predicate Discards(s: State) {
    && (forall id :: id in s.rows && s.rows[id].discardedAt.Some? ==> s.rows[id].createdAt <= s.rows[id].discardedAt.value)
    && forall id :: id in s.uploads && s.uploads[id].phase.Removing? ==> id !in s.rows
  }

  /** Rows are those of uploads, and an upload whose row is gone, or is about to go, is past its
      grace period. */
  ghost predicate Aged(s: State) {
    && (forall id :: id in s.rows ==> id in s.uploads && s.rows[id].createdAt == s.uploads[id].createdAt)
    && (forall id :: id in s.uploads ==> s.uploads[id].createdAt <= s.now)
    && (forall id :: id in s.uploads && id !in s.rows ==> s.uploads[id].createdAt + GRACE < s.now)
    && (forall c, id :: c in s.cleaners && (id in s.cleaners[c].selected || id in s.cleaners[c].removed)
          ==> id in s.uploads && s.uploads[id].createdAt + GRACE < s.now)
    && Discards(s)
  }

  /** The times that were taken and those at which rows were marked. */
  ghost predicate Times(s: State) {
    && (forall id :: id in s.uploads && s.uploads[id].phase.Discarding? ==> s.uploads[id].createdAt <= s.uploads[id].phase.stamp)
    && (forall id :: id in s.uploads && s.uploads[id].markedAt.Some? ==> s.uploads[id].markedAt.value <= s.now)
    && forall id :: id in s.rows && id in s.uploads && s.rows[id].storedAt.None? ==> s.uploads[id].markedAt.None?
  }

  /** A file that was put in time has a row, and no cleanup believes that it has removed it. */
  ghost predicate FilesHaveRows(s: State) {
    && (forall id :: id in s.files ==> id in s.uploads && s.uploads[id].putAt.Some?)
    && (forall id :: id in s.files && PutInTime(s.uploads[id]) ==> id in s.rows)
    && (forall c, id :: c in s.cleaners && id in s.cleaners[c].removed && id in s.files ==> id in s.uploads && !PutInTime(s.uploads[id]))
    && forall id :: id in s.uploads && s.uploads[id].phase.Inserted? ==> s.uploads[id].putAt.None?
  }

  /** A selected row is out of retention, discarded, or was not marked in time. */
  ghost predicate SelectedForGood(s: State) {
    forall c, id :: c in s.cleaners && id in s.cleaners[c].selected && id in s.rows && id in s.uploads ==>
      !Kept(s.rows[id], s.now) || !MarkedInTime(s.uploads[id])
  }

  /** A row that was marked in time has its file while it is neither discarded nor out of
      retention, and an upload that can still mark its row in time has put its file. */
  ghost predicate RowsHaveFiles(s: State) {
    && (forall id :: id in s.rows && id in s.uploads && MarkedInTime(s.uploads[id]) && Kept(s.rows[id], s.now) ==> id in s.files)
    && forall id | id in s.uploads && (s.uploads[id].phase.Put? || s.uploads[id].phase.Marking?)
         :: s.now <= s.uploads[id].createdAt + GRACE ==> id in s.files
  }

  /** Neither discarded nor out of retention. */
  predicate Kept(row: Row, now: int) {
    row.discardedAt.None? && now - RETENTION <= row.createdAt
  }

  ghost predicate Inv(s: State) {
    Aged(s) && Times(s) && FilesHaveRows(s) && SelectedForGood(s) && RowsHaveFiles(s)
  }

  predicate ByCleaner(a: Action) {
    a.Select? || a.RemoveFile? || a.SkipFile? || a.DeleteRow? || a.StopCleaner?
  }

  predicate ByUpload(a: Action) {
    a.PutFile? || a.PutThrows? || a.Stamp? || a.Mark? || a.Discard?
  }

  /** The steps after which there are the same rows and uploads. */
  predicate KeepsShape(a: Action) {
    ByUpload(a) || a.RemoveOwn? || a.StopUpload? || a.ForgetWork?
  }

  predicate ByOther(a: Action) {
    !ByCleaner(a) && !ByUpload(a)
  }

  /** An upload leaves the clock, the cleanups, and which rows and uploads there are and since when. */
  ghost predicate SameShape(s: State, t: State) {
    && t.now == s.now && t.cleaners == s.cleaners && t.rows.Keys == s.rows.Keys && t.uploads.Keys == s.uploads.Keys
    && (forall id :: id in s.rows ==> t.rows[id].createdAt == s.rows[id].createdAt)
    && forall id :: id in s.uploads ==> t.uploads[id].createdAt == s.uploads[id].createdAt
  }

  lemma ShapeIsKept(s: State, a: Action)
    requires Enabled(s, a) && KeepsShape(a)
    ensures SameShape(s, Step(s, a))
  {
  }

  lemma DiscardsAreKept(s: State, a: Action)
    requires Aged(s) && Times(s) && Enabled(s, a) && KeepsShape(a)
    ensures Discards(Step(s, a))
  {
  }

  lemma ShapeKeepsAged(s: State, t: State)
    requires Aged(s) && SameShape(s, t) && Discards(t)
    ensures Aged(t)
  {
  }

  lemma ShapedKeepsAged(s: State, a: Action)
    requires Inv(s) && Enabled(s, a) && KeepsShape(a)
    ensures Aged(Step(s, a))
  {
    hide Enabled, Step, Aged, Times, FilesHaveRows, SelectedForGood, RowsHaveFiles;
    ShapeIsKept(s, a);
    DiscardsAreKept(s, a);
    ShapeKeepsAged(s, Step(s, a));
  }

  lemma PutKeepsFilesHaveRows(s: State, a: Action)
    requires Inv(s) && Enabled(s, a) && (a.PutFile? || a.PutThrows?)
    ensures FilesHaveRows(Step(s, a))
  {
    hide Times, SelectedForGood, RowsHaveFiles;
  }

  lemma WriteKeepsFilesHaveRows(s: State, a: Action)
    requires Inv(s) && Enabled(s, a) && (a.Stamp? || a.Mark? || a.Discard?)
    ensures FilesHaveRows(Step(s, a))
  {
    hide Times, SelectedForGood, RowsHaveFiles;
  }

  lemma PutKeepsRowsHaveFiles(s: State, a: Action)
    requires Inv(s) && Enabled(s, a) && (a.PutFile? || a.PutThrows?)
    ensures RowsHaveFiles(Step(s, a))
  {
    hide Times, FilesHaveRows, SelectedForGood;
  }

  lemma WriteKeepsRowsHaveFiles(s: State, a: Action)
    requires Inv(s) && Enabled(s, a) && (a.Stamp? || a.Mark? || a.Discard?)
    ensures RowsHaveFiles(Step(s, a))
  {
    hide Times, FilesHaveRows, SelectedForGood;
  }

  lemma SelectKeepsAged(s: State, a: Action)
    requires Inv(s) && Enabled(s, a) && (a.Select? || a.StopCleaner?)
    ensures Aged(Step(s, a))
  {
    hide Times, FilesHaveRows, SelectedForGood, RowsHaveFiles;
  }

  lemma RemovalKeepsAged(s: State, a: Action)
    requires Inv(s) && Enabled(s, a) && (a.RemoveFile? || a.SkipFile? || a.DeleteRow?)
    ensures Aged(Step(s, a))
  {
    hide Times, FilesHaveRows, SelectedForGood, RowsHaveFiles;
  }

  lemma CleanerKeepsFilesHaveRows(s: State, a: Action)
    requires Inv(s) && Enabled(s, a) && ByCleaner(a)
    ensures FilesHaveRows(Step(s, a))
  {
    hide Times, SelectedForGood, RowsHaveFiles;
  }

  lemma CleanerKeepsRowsHaveFiles(s: State, a: Action)
    requires Inv(s) && Enabled(s, a) && ByCleaner(a)
    ensures RowsHaveFiles(Step(s, a))
  {
    hide Times, FilesHaveRows;
  }

  lemma NewKeepsAged(s: State, a: Action)
    requires Inv(s) && Enabled(s, a) && (a.Tick? || a.Insert?)
    ensures Aged(Step(s, a))
  {
    hide Times, FilesHaveRows, SelectedForGood, RowsHaveFiles;
  }

  lemma OtherKeepsFilesHaveRows(s: State, a: Action)
    requires Inv(s) && Enabled(s, a) && ByOther(a)
    ensures FilesHaveRows(Step(s, a))
  {
    hide Times, SelectedForGood, RowsHaveFiles;
  }

  lemma OtherKeepsRowsHaveFiles(s: State, a: Action)
    requires Inv(s) && Enabled(s, a) && ByOther(a)
    ensures RowsHaveFiles(Step(s, a))
  {
    hide Times, FilesHaveRows, SelectedForGood;
  }

  lemma UploadKeepsSelectedForGood(s: State, a: Action)
    requires Inv(s) && Enabled(s, a) && ByUpload(a)
    ensures SelectedForGood(Step(s, a))
  {
    hide FilesHaveRows, RowsHaveFiles;
  }

  lemma CleanerKeepsSelectedForGood(s: State, a: Action)
    requires Inv(s) && Enabled(s, a) && ByCleaner(a)
    ensures SelectedForGood(Step(s, a))
  {
    hide FilesHaveRows, RowsHaveFiles;
  }

  lemma OtherKeepsSelectedForGood(s: State, a: Action)
    requires Inv(s) && Enabled(s, a) && ByOther(a)
    ensures SelectedForGood(Step(s, a))
  {
    hide FilesHaveRows, RowsHaveFiles;
  }

  lemma UploadKeepsTimes(s: State, a: Action)
    requires Inv(s) && Enabled(s, a) && ByUpload(a)
    ensures Times(Step(s, a))
  {
    hide FilesHaveRows, SelectedForGood, RowsHaveFiles;
  }

  lemma CleanerKeepsTimes(s: State, a: Action)
    requires Inv(s) && Enabled(s, a) && ByCleaner(a)
    ensures Times(Step(s, a))
  {
    hide FilesHaveRows, SelectedForGood, RowsHaveFiles;
  }

  lemma OtherKeepsTimes(s: State, a: Action)
    requires Inv(s) && Enabled(s, a) && ByOther(a)
    ensures Times(Step(s, a))
  {
    hide FilesHaveRows, SelectedForGood, RowsHaveFiles;
  }

  lemma StepKeepsInv(s: State, a: Action)
    requires Inv(s) && Enabled(s, a)
    ensures Inv(Step(s, a))
  {
    hide Aged, Times, FilesHaveRows, SelectedForGood, RowsHaveFiles, Step, Enabled;
    if ByCleaner(a) {
      if a.Select? || a.StopCleaner? {
        SelectKeepsAged(s, a);
      } else {
        RemovalKeepsAged(s, a);
      }
    } else if KeepsShape(a) {
      ShapedKeepsAged(s, a);
    } else {
      NewKeepsAged(s, a);
    }
    if ByCleaner(a) {
      CleanerKeepsTimes(s, a);
      CleanerKeepsSelectedForGood(s, a);
      CleanerKeepsFilesHaveRows(s, a);
      CleanerKeepsRowsHaveFiles(s, a);
    } else if ByUpload(a) {
      UploadKeepsTimes(s, a);
      UploadKeepsSelectedForGood(s, a);
      if a.PutFile? || a.PutThrows? {
        PutKeepsFilesHaveRows(s, a);
        PutKeepsRowsHaveFiles(s, a);
      } else {
        WriteKeepsFilesHaveRows(s, a);
        WriteKeepsRowsHaveFiles(s, a);
      }
    } else {
      OtherKeepsTimes(s, a);
      OtherKeepsSelectedForGood(s, a);
      OtherKeepsFilesHaveRows(s, a);
      OtherKeepsRowsHaveFiles(s, a);
    }
  }

  lemma {:induction false} AlwaysInv(s: State, actions: seq<Action>)
    requires Inv(s)
    ensures Inv(From(s, actions))
    decreases |actions|
  {
    hide Inv, Step, Enabled;
    if actions != [] {
      if Enabled(s, actions[0]) {
        StepKeepsInv(s, actions[0]);
      }
      AlwaysInv(if Enabled(s, actions[0]) then Step(s, actions[0]) else s, actions[1..]);
    }
  }

  lemma InvStarts()
    ensures Inv(START)
  {
  }

  // ----- Over every run of the system -----

  /** Whatever stops wherever and however uploads and cleanups interleave: a file whose upload
      put it within the grace period has a row. */
  lemma EveryFileHasARow(actions: seq<Action>, id: nat)
    requires id in From(START, actions).files
    ensures var s := From(START, actions); id in s.uploads && (PutInTime(s.uploads[id]) ==> id in s.rows)
  {
    hide Step, Enabled, Aged, Times, SelectedForGood, RowsHaveFiles;
    InvStarts();
    AlwaysInv(START, actions);
  }

  /** What `openArtifact` finds for an id: a stored row that is not discarded. */
  predicate Opens(s: State, id: nat) {
    id in s.rows && s.rows[id].storedAt.Some? && s.rows[id].discardedAt.None?
  }

  /** An artifact whose row was marked within the grace period opens with its file until its
      retention ends. */
  lemma EveryOpenArtifactHasItsFile(actions: seq<Action>, id: nat)
    requires Opens(From(START, actions), id) && Kept(From(START, actions).rows[id], From(START, actions).now)
    ensures var s := From(START, actions); id in s.uploads && (MarkedInTime(s.uploads[id]) ==> id in s.files)
  {
    hide Step, Enabled, FilesHaveRows, SelectedForGood;
    InvStarts();
    AlwaysInv(START, actions);
  }

  // ----- Who reports success -----

  lemma {:induction false} FromSplits(s: State, a: seq<Action>, b: seq<Action>)
    ensures From(s, a + b) == From(From(s, a), b)
    decreases |a|
  {
    hide Enabled, Step;
    if a == [] {
      assert a + b == b;
    } else {
      assert (a + b)[0] == a[0] && (a + b)[1..] == a[1..] + b;
      FromSplits(if Enabled(s, a[0]) then Step(s, a[0]) else s, a[1..], b);
    }
  }

  lemma FromOneMore(actions: seq<Action>)
    requires actions != []
    ensures var s, a := From(START, actions[..|actions| - 1]), actions[|actions| - 1];
      From(START, actions) == if Enabled(s, a) then Step(s, a) else s
  {
    hide Enabled, Step;
    var front, a := actions[..|actions| - 1], actions[|actions| - 1];
    assert actions == front + [a];
    FromSplits(START, front, [a]);
    assert [a][1..] == [];
  }

  /** At place `k` the upload put its file, and the put did not throw. */
  ghost predicate PutsFile(actions: seq<Action>, id: nat, k: nat) {
    k < |actions| && actions[k] == PutFile(id) && Enabled(From(START, actions[..k]), actions[k])
  }

  /** At place `k` the upload marked its row, and the row was there. */
  ghost predicate MarksRow(actions: seq<Action>, id: nat, k: nat) {
    && k < |actions| && actions[k] == Mark(id) && Enabled(From(START, actions[..k]), actions[k])
    && id in From(START, actions[..k]).rows
  }

  predicate HasPut(s: State, id: nat) {
    id in s.uploads && (s.uploads[id].phase.Put? || s.uploads[id].phase.Marking? || s.uploads[id].phase.Done?)
  }

  lemma StepPutsOrMarks(s: State, a: Action, id: nat)
    requires Enabled(s, a)
    ensures HasPut(Step(s, a), id) ==> HasPut(s, id) || a == PutFile(id)
    ensures InPhase(Step(s, a), id, Done) ==> InPhase(s, id, Done) || (a == Mark(id) && id in s.rows)
    ensures InPhase(s, id, Done) && InPhase(Step(s, a), id, Done) ==> Step(s, a).uploads[id].markedAt == s.uploads[id].markedAt
    ensures a == Mark(id) && id in s.rows ==> id in Step(s, a).uploads && Step(s, a).uploads[id].markedAt == Some(s.now)
  {
  }

  /** Over every run of the system: an upload reports success only when it has put its file and has
      then marked its row while the row was there. */
  lemma {:induction false} DoneMeansStored(actions: seq<Action>, id: nat)
    ensures HasPut(From(START, actions), id) ==> exists j: nat :: PutsFile(actions, id, j)
    ensures InPhase(From(START, actions), id, Done) ==> exists k: nat ::
      MarksRow(actions, id, k) && From(START, actions).uploads[id].markedAt == Some(From(START, actions[..k]).now)
  {
    if actions != [] {
      hide Enabled, Step, From;
      var n := |actions| - 1;
      var front, s := actions[..n], From(START, actions[..n]);
      DoneMeansStored(front, id);
      FromOneMore(actions);
      if Enabled(s, actions[n]) {
        StepPutsOrMarks(s, actions[n], id);
      }
      forall j: nat | PutsFile(front, id, j) ensures PutsFile(actions, id, j) {
        assert front[..j] == actions[..j];
      }
      forall k: nat | MarksRow(front, id, k) ensures MarksRow(actions, id, k) && From(START, front[..k]) == From(START, actions[..k]) {
        assert front[..k] == actions[..k];
      }
      assert actions[n] == PutFile(id) && Enabled(s, actions[n]) ==> PutsFile(actions, id, n);
      assert actions[n] == Mark(id) && Enabled(s, actions[n]) && id in s.rows ==> MarksRow(actions, id, n);
    } else {
      NothingStarted(id);
      assert From(START, actions) == START;
    }
  }

  lemma NothingStarted(id: nat)
    ensures !HasPut(START, id) && !InPhase(START, id, Done)
  {
  }

  /** The upload has lost its row. */
  ghost predicate IsLost(s: State, id: nat) {
    id in s.uploads && id !in s.rows && (s.uploads[id].phase.Removing? || s.uploads[id].phase.Failed?)
  }

  lemma StepKeepsLost(s: State, a: Action, id: nat)
    requires Enabled(s, a)
    ensures IsLost(s, id) ==> IsLost(Step(s, a), id)
    ensures (a == Mark(id) || a == Discard(id)) && id !in s.rows ==> IsLost(Step(s, a), id) && InPhase(Step(s, a), id, Removing)
    ensures a == RemoveOwn(id) ==> id !in Step(s, a).files && InPhase(Step(s, a), id, Failed)
    ensures InPhase(s, id, Failed) && id !in s.files ==> InPhase(Step(s, a), id, Failed) && id !in Step(s, a).files
  {
  }

  lemma {:induction false} LostStaysLost(s: State, rest: seq<Action>, id: nat)
    ensures IsLost(s, id) ==> IsLost(From(s, rest), id)
    ensures InPhase(s, id, Failed) && id !in s.files ==> InPhase(From(s, rest), id, Failed) && id !in From(s, rest).files
    decreases |rest|
  {
    hide Enabled, Step, IsLost;
    if rest != [] {
      if Enabled(s, rest[0]) {
        StepKeepsLost(s, rest[0], id);
      }
      LostStaysLost(if Enabled(s, rest[0]) then Step(s, rest[0]) else s, rest[1..], id);
    }
  }

  /** From every state: an upload whose row is gone when it marks or discards it has to remove its own
      file and never reports success, and the file it has removed stays gone, whatever happens then. */
  lemma LostUploadFails(s: State, a: Action, id: nat, between: seq<Action>, after: seq<Action>)
    requires Enabled(s, a) && (a == Mark(id) || a == Discard(id)) && id !in s.rows
    ensures Enabled(Step(s, a), RemoveOwn(id))
    ensures var t := From(Step(s, a), between);
      && id in t.uploads && id !in t.rows && !t.uploads[id].phase.Done?
      && (Enabled(t, RemoveOwn(id)) ==>
            var u := From(Step(t, RemoveOwn(id)), after);
            id !in u.files && id !in u.rows && InPhase(u, id, Failed))
  {
    hide Step, From;
    StepKeepsLost(s, a, id);
    LostStaysLost(Step(s, a), between, id);
    var t := From(Step(s, a), between);
    if Enabled(t, RemoveOwn(id)) {
      StepKeepsLost(t, RemoveOwn(id), id);
      LostStaysLost(Step(t, RemoveOwn(id)), after, id);
    }
  }

  /** From every reachable state: an upload that nothing gets in the way of ends with its row stored and
      its file there, */
  lemma UndisturbedUpload(actions: seq<Action>, id: nat)
    requires id !in From(START, actions).uploads
    ensures var s := From(START, actions);
      var t := From(s, [Insert(id, s.now)] + ([PutFile(id)] + ([Stamp(id)] + [Mark(id)])));
      InPhase(t, id, Done) && id in t.files && id in t.rows && t.rows[id] == Row(s.now, Some(s.now), None)
  {
    hide From;
    var s := From(START, actions);
    var a := Step(s, Insert(id, s.now));
    var b := Step(a, PutFile(id));
    var c := Step(b, Stamp(id));
    Next(s, Insert(id, s.now), a, [PutFile(id)] + ([Stamp(id)] + [Mark(id)]));
    Next(a, PutFile(id), b, [Stamp(id)] + [Mark(id)]);
    Next(b, Stamp(id), c, [Mark(id)]);
    Last(c, Mark(id), Step(c, Mark(id)));
  }

  /** and one whose put throws ends with its row discarded. */
  lemma ThrownUpload(actions: seq<Action>, id: nat, landed: bool)
    requires id !in From(START, actions).uploads
    ensures var s := From(START, actions);
      var t := From(s, [Insert(id, s.now)] + ([PutThrows(id, landed)] + ([Stamp(id)] + [Discard(id)])));
      InPhase(t, id, Failed) && id in t.rows && t.rows[id] == Row(s.now, None, Some(s.now))
  {
    hide From;
    var s := From(START, actions);
    var a := Step(s, Insert(id, s.now));
    var b := Step(a, PutThrows(id, landed));
    var c := Step(b, Stamp(id));
    Next(s, Insert(id, s.now), a, [PutThrows(id, landed)] + ([Stamp(id)] + [Discard(id)]));
    Next(a, PutThrows(id, landed), b, [Stamp(id)] + [Discard(id)]);
    Next(b, Stamp(id), c, [Discard(id)]);
    Last(c, Discard(id), Step(c, Discard(id)));
  }

  // ----- What being late can do -----

  lemma Next(s: State, a: Action, t: State, rest: seq<Action>)
    requires Enabled(s, a) && Step(s, a) == t
    ensures From(s, [a] + rest) == From(t, rest)
  {
    assert ([a] + rest)[1..] == rest;
  }

  lemma Last(s: State, a: Action, t: State)
    requires Enabled(s, a) && Step(s, a) == t
    ensures From(s, [a]) == t
  {
    assert [a][1..] == [];
  }

  /** Upload 7 made its row at time 0. */
  function One(now: int, files: set<nat>, upload: Upload): State {
    State(now, map[7 := Row(0, None, None)], files, map[7 := upload], map[])
  }

  /** The same with cleanup 1 at work. */
  function Stale(now: int, files: set<nat>, upload: Upload, cleaner: Cleaner): State {
    One(now, files, upload).(cleaners := map[1 := cleaner])
  }

  /** After the grace period, a cleanup may find the row unmarked and remove its file. */
  lemma ToRemoved(now: nat, files: set<nat>, upload: Upload, rest: seq<Action>)
    requires now > GRACE && files <= {7}
    ensures From(One(now, files, upload), [Select(1, {7}, now)] + ([RemoveFile(1, 7)] + rest)) ==
            From(Stale(now, {}, upload, Cleaner({}, {7})), rest)
  {
    hide From;
    var seven: set<nat> := {7};
    assert files - seven == {} && seven - seven == {} && {} + seven == seven;
    Next(One(now, files, upload), Select(1, {7}, now), Stale(now, files, upload, Cleaner({7}, {})), [RemoveFile(1, 7)] + rest);
    Next(Stale(now, files, upload, Cleaner({7}, {})), RemoveFile(1, 7), Stale(now, {}, upload, Cleaner({}, {7})), rest);
  }

  lemma ToInserted(rest: seq<Action>)
    ensures From(START, [Insert(7, 0)] + rest) == From(One(0, {}, Upload(Inserted, 0, None, None)), rest)
  {
    hide From;
    Next(START, Insert(7, 0), One(0, {}, Upload(Inserted, 0, None, None)), rest);
  }

  /** The upload was done and put its file `delay` after its row was made, and the row is gone. */
  ghost predicate FileWithoutRow(s: State, id: nat, delay: nat) {
    && InPhase(s, id, Done) && s.uploads[id].putAt == Some(s.uploads[id].createdAt + delay)
    && id in s.files && id !in s.rows
  }

  /** The cleanup finds no file to remove, the upload puts it and marks the row, and the cleanup then
      deletes the row. */
  function LatePut(delay: nat): seq<Action> {
    [Insert(7, 0)] + ([Tick(delay)] + ([Select(1, {7}, delay)] + ([RemoveFile(1, 7)] + ([PutFile(7)] + ([Stamp(7)] + ([Mark(7)] + [DeleteRow(1, 7)]))))))
  }

  lemma LatePutLosesRow(delay: nat)
    requires delay > GRACE
    ensures FileWithoutRow(From(START, LatePut(delay)), 7, delay)
  {
    hide From;
    var end := [PutFile(7)] + ([Stamp(7)] + ([Mark(7)] + [DeleteRow(1, 7)]));
    var newly := Upload(Inserted, 0, None, None);
    ToInserted([Tick(delay)] + ([Select(1, {7}, delay)] + ([RemoveFile(1, 7)] + end)));
    Next(One(0, {}, newly), Tick(delay), One(delay, {}, newly), [Select(1, {7}, delay)] + ([RemoveFile(1, 7)] + end));
    ToRemoved(delay, {}, newly, end);
    PutMarkedDeleted(delay);
  }

  lemma PutMarkedDeleted(delay: nat)
    ensures FileWithoutRow(From(Stale(delay, {}, Upload(Inserted, 0, None, None), Cleaner({}, {7})),
                                [PutFile(7)] + ([Stamp(7)] + ([Mark(7)] + [DeleteRow(1, 7)]))), 7, delay)
  {
    hide From;
    var s1 := Stale(delay, {}, Upload(Inserted, 0, None, None), Cleaner({}, {7}));
    var s2 := Landed(s1, 7, Put);
    var s3 := Stamped(s2, 7);
    var s4 := Marked(s3, 7);
    Next(s1, PutFile(7), s2, [Stamp(7)] + ([Mark(7)] + [DeleteRow(1, 7)]));
    Next(s2, Stamp(7), s3, [Mark(7)] + [DeleteRow(1, 7)]);
    Next(s3, Mark(7), s4, [DeleteRow(1, 7)]);
    Last(s4, DeleteRow(1, 7), Step(s4, DeleteRow(1, 7)));
  }

  /** An upload that reports success can leave a file without a row exactly when it put the file
      after the grace period. */
  lemma LateFileExactly(delay: nat)
    ensures (exists actions, id :: FileWithoutRow(From(START, actions), id, delay)) <==> delay > GRACE
  {
    hide From;
    if delay > GRACE {
      LatePutLosesRow(delay);
    }
    forall actions, id | FileWithoutRow(From(START, actions), id, delay) ensures delay > GRACE {
      EveryFileHasARow(actions, id);
    }
  }

  /** The row was marked `delay` after it was made, with a time taken `stamp` after that, and it opens
      within its retention although the file is gone. */
  ghost predicate OpensWithoutFile(s: State, id: nat, stamp: nat, delay: nat) {
    && Opens(s, id) && Kept(s.rows[id], s.now) && id in s.uploads && id !in s.files
    && s.rows[id].storedAt == Some(s.rows[id].createdAt + stamp)
    && s.uploads[id].createdAt == s.rows[id].createdAt && s.uploads[id].markedAt == Some(s.rows[id].createdAt + delay)
  }

  /** The upload puts the file and takes the time, the cleanup removes the file, and the upload then
      marks the row. */
  function LateMark(stamp: nat, delay: nat): seq<Action>
    requires stamp <= delay
  {
    [Insert(7, 0)] + ([PutFile(7)] + ([Tick(stamp)] + ([Stamp(7)] + ([Tick(delay - stamp)] + ([Select(1, {7}, delay)] + ([RemoveFile(1, 7)] + [Mark(7)]))))))
  }

  lemma LateMarkLosesFile(stamp: nat, delay: nat)
    requires stamp <= delay && GRACE < delay <= RETENTION
    ensures OpensWithoutFile(From(START, LateMark(stamp, delay)), 7, stamp, delay)
  {
    hide From;
    var put, marking := Upload(Put, 0, Some(0), None), Upload(Marking(stamp), 0, Some(0), None);
    var r4 := [Select(1, {7}, delay)] + ([RemoveFile(1, 7)] + [Mark(7)]);
    var r3 := [Tick(delay - stamp)] + r4;
    var seven: set<nat> := {7};
    assert {} + seven == seven;
    ToInserted([PutFile(7)] + ([Tick(stamp)] + ([Stamp(7)] + r3)));
    Next(One(0, {}, Upload(Inserted, 0, None, None)), PutFile(7), One(0, {7}, put), [Tick(stamp)] + ([Stamp(7)] + r3));
    Next(One(0, {7}, put), Tick(stamp), One(stamp, {7}, put), [Stamp(7)] + r3);
    Next(One(stamp, {7}, put), Stamp(7), One(stamp, {7}, marking), r3);
    Next(One(stamp, {7}, marking), Tick(delay - stamp), One(delay, {7}, marking), r4);
    ToRemoved(delay, {7}, marking, [Mark(7)]);
    var last := Stale(delay, {}, marking, Cleaner({}, {7}));
    Last(last, Mark(7), Marked(last, 7));
  }

  /** Within its retention, an artifact can open without its file exactly when its row was marked
      after the grace period, however early the time that was written had been taken. */
  lemma LateMarkExactly(stamp: nat, delay: nat)
    requires stamp <= delay
    ensures (exists actions, id :: OpensWithoutFile(From(START, actions), id, stamp, delay)) <==> GRACE < delay <= RETENTION
  {
    hide From;
    if GRACE < delay <= RETENTION {
      LateMarkLosesFile(stamp, delay);
    }
    forall actions, id | OpensWithoutFile(From(START, actions), id, stamp, delay) ensures GRACE < delay <= RETENTION {
      EveryOpenArtifactHasItsFile(actions, id);
      MarkedBefore(actions, id);
    }
  }

  lemma MarkedBefore(actions: seq<Action>, id: nat)
    requires id in From(START, actions).uploads && From(START, actions).uploads[id].markedAt.Some?
    ensures From(START, actions).uploads[id].markedAt.value <= From(START, actions).now
  {
    hide Step, Enabled, FilesHaveRows, SelectedForGood, RowsHaveFiles;
    InvStarts();
    AlwaysInv(START, actions);
  }
}
