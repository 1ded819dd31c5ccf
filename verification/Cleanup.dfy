/** One pass of `removeExpiredArtifacts` in `apps/control-plane/src/artifacts/cleanup.ts`, with its
    batches and its list of failures. */
module Cleanup {
  import opened Lists
  import opened Artifacts

  const MAX_FAILURES_PER_RUN: nat := 10

  /** Rows in the order of their `created_at`. */
  datatype Entry = Entry(id: nat, row: Row)

  ghost predicate DistinctIds(rows: seq<Entry>) {
    forall i, j :: 0 <= i < j < |rows| ==> rows[i].id != rows[j].id
  }

  function Without(rows: seq<Entry>, id: nat): seq<Entry> {
    if rows == [] then []
    else
      var front, last := Without(rows[..|rows| - 1], id), rows[|rows| - 1];
      if last.id == id then front else front + [last]
  }

  lemma {:induction false} WithoutIs(rows: seq<Entry>, id: nat)
    ensures forall e :: e in Without(rows, id) <==> e in rows && e.id != id
    ensures DistinctIds(rows) ==> DistinctIds(Without(rows, id))
  {
    if rows != [] {
      var front, last := rows[..|rows| - 1], rows[|rows| - 1];
      assert rows == front + [last];
      WithoutIs(front, id);
      assert DistinctIds(rows) ==> forall i :: 0 <= i < |Without(front, id)| ==> Without(front, id)[i] in front;
    }
  }

  lemma {:induction false} WithoutOne(rows: seq<Entry>, e: Entry)
    requires DistinctIds(rows) && e in rows
    ensures |Without(rows, e.id)| == |rows| - 1
  {
    var front, last := rows[..|rows| - 1], rows[|rows| - 1];
    assert rows == front + [last];
    if last.id == e.id {
      WithoutNone(front, e.id);
    } else {
      WithoutOne(front, e);
    }
  }

  lemma {:induction false} WithoutNone(rows: seq<Entry>, id: nat)
    requires forall i :: 0 <= i < |rows| ==> rows[i].id != id
    ensures Without(rows, id) == rows
  {
    if rows != [] {
      WithoutNone(rows[..|rows| - 1], id);
    }
  }

  /** The query: expired rows that have not failed yet, oldest first. */
  function Candidates(rows: seq<Entry>, now: int, failed: seq<nat>): (r: seq<Entry>)
    ensures forall e :: e in r <==> e in rows && Expired(e.row, now) && e.id !in failed
    ensures DistinctIds(rows) ==> DistinctIds(r)
  {
    if rows == [] then []
    else
      var front, last := Candidates(rows[..|rows| - 1], now, failed), rows[|rows| - 1];
      assert rows == rows[..|rows| - 1] + [last];
      assert DistinctIds(rows) ==> forall i :: 0 <= i < |front| ==> front[i] in rows[..|rows| - 1];
      if Expired(last.row, now) && last.id !in failed then front + [last] else front
  }

  /** Ids of expired rows whose file could not be removed. */
  ghost predicate Failures(rows: seq<Entry>, now: int, failing: set<nat>, failed: seq<nat>) {
    Distinct(failed) && forall i :: 0 <= i < |failed| ==> failed[i] in failing && FailedRow(rows, now, failed[i])
  }

  ghost predicate FailedRow(rows: seq<Entry>, now: int, id: nat) {
    exists e :: e in rows && e.id == id && Expired(e.row, now)
  }

  lemma {:induction false} FewerFailuresThanRows(rows: seq<Entry>, now: int, failing: set<nat>, failed: seq<nat>)
    requires DistinctIds(rows) && Failures(rows, now, failing, failed)
    ensures |failed| <= |rows|
    decreases |failed|
  {
    if failed != [] {
      var id := failed[|failed| - 1];
      var e :| e in rows && e.id == id && Expired(e.row, now);
      WithoutOne(rows, e);
      WithoutIs(rows, id);
      StillFailures(rows, now, failing, failed[..|failed| - 1], id);
      FewerFailuresThanRows(Without(rows, id), now, failing, failed[..|failed| - 1]);
    }
  }

  lemma StillFailures(rows: seq<Entry>, now: int, failing: set<nat>, failed: seq<nat>, id: nat)
    requires Failures(rows, now, failing, failed) && id !in failed
    ensures Failures(Without(rows, id), now, failing, failed)
  {
    hide Without;
    WithoutIs(rows, id);
    forall i | 0 <= i < |failed| ensures FailedRow(Without(rows, id), now, failed[i]) {
      assert FailedRow(rows, now, failed[i]);
      var e :| e in rows && e.id == failed[i] && Expired(e.row, now);
      assert e in Without(rows, id);
    }
  }

  /** The row of the id was there before and is not any more. */
  ghost predicate Removed(before: seq<Entry>, after: seq<Entry>, id: nat) {
    exists e :: e in before && e !in after && e.id == id
  }

  /** Since `before`, only expired rows have gone, none whose file could not be removed, and
      exactly their files have gone with them. */
  ghost predicate CleanedUp(before: seq<Entry>, after: seq<Entry>, filesBefore: set<nat>, files: set<nat>, now: int, failing: set<nat>) {
    && (forall e :: e in after ==> e in before)
    && (forall e :: e in before && e !in after ==> Expired(e.row, now) && e.id !in failing)
    && forall id :: id in files <==> id in filesBefore && !Removed(before, after, id)
  }

  lemma CleanedUpOneMore(before: seq<Entry>, after: seq<Entry>, filesBefore: set<nat>, files: set<nat>, now: int, failing: set<nat>, e: Entry)
    requires CleanedUp(before, after, filesBefore, files, now, failing) && DistinctIds(after)
    requires e in after && Expired(e.row, now) && e.id !in failing
    ensures CleanedUp(before, Without(after, e.id), filesBefore, files - {e.id}, now, failing)
  {
    hide Without, Expired;
    var next := Without(after, e.id);
    WithoutIs(after, e.id);
    forall x | x in after && x !in next ensures x == e {
    }
    assert e !in next && Removed(before, next, e.id);
    forall id ensures Removed(before, next, id) <==> Removed(before, after, id) || id == e.id {
      if Removed(before, next, id) {
        var x :| x in before && x !in next && x.id == id;
      }
      if Removed(before, after, id) {
        var x :| x in before && x !in after && x.id == id;
        assert x !in next;
      }
    }
  }

  ghost predicate TenFailed(rows: seq<Entry>, now: int, failing: set<nat>) {
    exists failed: seq<nat> :: |failed| >= MAX_FAILURES_PER_RUN && Failures(rows, now, failing, failed)
  }

  /** All expired rows that are left are among the failures. */
  ghost predicate OnlyFailuresLeft(rows: seq<Entry>, now: int, failing: set<nat>) {
    forall e :: e in rows && Expired(e.row, now) ==> e.id in failing
  }

  lemma AllHandled(before: seq<Entry>, after: seq<Entry>, now: int, failing: set<nat>, failed: seq<nat>, nowFailed: seq<nat>)
    requires Failures(after, now, failing, nowFailed)
    requires forall e :: e in after ==> e in before
    requires forall id :: id in failed ==> id in nowFailed
    requires forall e :: e in Candidates(before, now, failed) ==> e !in after || e.id in nowFailed
    ensures OnlyFailuresLeft(after, now, failing)
  {
    hide Candidates, Expired;
    forall e | e in after && Expired(e.row, now) ensures e.id in failing {
      assert e in before;
      assert e.id !in failed ==> e in Candidates(before, now, failed);
      assert e.id in nowFailed;
    }
  }

  class ArtifactTable {
    var rows: seq<Entry>
    var files: set<nat>

    constructor (rows: seq<Entry>, files: set<nat>)
      ensures this.rows == rows && this.files == files
    {
      this.rows, this.files := rows, files;
    }

    /** One batch. `failing` are the ids whose file cannot be removed during this pass, `before`
        those that have failed in earlier batches. */
    method RemoveBatch(batchRows: seq<Entry>, now: int, failing: set<nat>, before: seq<nat>, ghost start: seq<Entry>, ghost startFiles: set<nat>)
        returns (failed: seq<nat>, removed: nat, stopped: bool)
      requires DistinctIds(rows) && DistinctIds(batchRows) && |before| < MAX_FAILURES_PER_RUN
      requires Failures(rows, now, failing, before) && CleanedUp(start, rows, startFiles, files, now, failing)
      requires forall e :: e in batchRows ==> e in rows && Expired(e.row, now) && e.id !in before
      modifies this
      ensures DistinctIds(rows) && Failures(rows, now, failing, failed) && CleanedUp(start, rows, startFiles, files, now, failing)
      ensures |rows| + removed == |old(rows)| && forall e :: e in rows ==> e in old(rows)
      ensures stopped ==> |failed| >= MAX_FAILURES_PER_RUN
      ensures batchRows != [] ==> |failed| + removed > |before|
      ensures forall id :: id in before ==> id in failed
      ensures !stopped ==> forall e :: e in batchRows ==> e !in rows || e.id in failed
    {
      hide Without, Expired, Failures, CleanedUp;
      failed, removed, stopped := before, 0, false;
      var k := 0;
      while k < |batchRows|
        invariant 0 <= k <= |batchRows| && DistinctIds(rows) && |failed| < MAX_FAILURES_PER_RUN
        invariant Failures(rows, now, failing, failed) && CleanedUp(start, rows, startFiles, files, now, failing)
        invariant |rows| + removed == |old(rows)| && |failed| + removed == |before| + k
        invariant forall e :: e in rows ==> e in old(rows)
        invariant forall id :: id in before ==> id in failed
        invariant forall i :: k <= i < |batchRows| ==> batchRows[i] in rows && batchRows[i].id !in failed
        invariant forall i :: 0 <= i < k ==> batchRows[i] !in rows || batchRows[i].id in failed
      {
        var e := batchRows[k];
        assert e in batchRows;
        if e.id in failing {
          OneMoreFailure(rows, now, failing, failed, e);
          failed := failed + [e.id];
          if |failed| >= MAX_FAILURES_PER_RUN {
            stopped := true;
            return;
          }
        } else {
          WithoutOne(rows, e);
          WithoutIs(rows, e.id);
          StillFailures(rows, now, failing, failed, e.id);
          CleanedUpOneMore(start, rows, startFiles, files, now, failing, e);
          files := files - {e.id};
          rows := Without(rows, e.id);
          removed := removed + 1;
        }
        k := k + 1;
      }
    }

    /** Batch after batch, until one is not full or too many files have failed. Unless ten failed,
        all that is left of the expired rows are those whose file could not be removed. */
    method RemoveExpired(now: int, batch: nat, failing: set<nat>) returns (removed: nat)
      requires DistinctIds(rows) && batch > 0
      modifies this
      ensures DistinctIds(rows) && |rows| + removed == |old(rows)|
      ensures CleanedUp(old(rows), rows, old(files), files, now, failing)
      ensures OnlyFailuresLeft(rows, now, failing) || TenFailed(rows, now, failing)
      ensures forall e :: e in old(rows) && e !in rows ==>
        || e.row.createdAt < now - RETENTION
        || (e.row.discardedAt.Some? && e.row.discardedAt.value < now - GRACE)
        || (e.row.storedAt.None? && e.row.createdAt < now - GRACE)
      ensures TenFailed(rows, now, failing) || forall e :: e in rows && e.id !in failing ==>
        && e.row.createdAt >= now - RETENTION
        && (e.row.discardedAt.Some? ==> e.row.discardedAt.value >= now - GRACE)
        && (e.row.storedAt.None? ==> e.row.createdAt >= now - GRACE)
    {
      hide Failures, CleanedUp, OnlyFailuresLeft, Expired, Candidates;
      var failed: seq<nat> := [];
      removed := 0;
      NothingYet(rows, files, now, failing);
      while |failed| < MAX_FAILURES_PER_RUN
        invariant DistinctIds(rows) && Failures(rows, now, failing, failed)
        invariant CleanedUp(old(rows), rows, old(files), files, now, failing)
        invariant |rows| + removed == |old(rows)|
        decreases |old(rows)| - removed - |failed|
      {
        FewerFailuresThanRows(rows, now, failing, failed);
        var found := Candidates(rows, now, failed);
        var batchRows := if |found| > batch then found[..batch] else found;
        ghost var rowsBefore, failedBefore := rows, failed;
        var more, stopped;
        failed, more, stopped := RemoveBatch(batchRows, now, failing, failed, old(rows), old(files));
        removed := removed + more;
        FewerFailuresThanRows(rows, now, failing, failed);
        if |batchRows| < batch {
          if !stopped {
            AllHandled(rowsBefore, rows, now, failing, failedBefore, failed);
          }
          WhatIsDue(old(rows), rows, old(files), files, now, failing);
          return;
        }
      }
      WhatIsDue(old(rows), rows, old(files), files, now, failing);
    }
  }

  lemma WhatIsDue(before: seq<Entry>, after: seq<Entry>, filesBefore: set<nat>, files: set<nat>, now: int, failing: set<nat>)
    requires CleanedUp(before, after, filesBefore, files, now, failing)
    ensures forall e :: e in before && e !in after ==>
      || e.row.createdAt < now - RETENTION
      || (e.row.discardedAt.Some? && e.row.discardedAt.value < now - GRACE)
      || (e.row.storedAt.None? && e.row.createdAt < now - GRACE)
    ensures OnlyFailuresLeft(after, now, failing) ==> forall e :: e in after && e.id !in failing ==>
      && e.row.createdAt >= now - RETENTION
      && (e.row.discardedAt.Some? ==> e.row.discardedAt.value >= now - GRACE)
      && (e.row.storedAt.None? ==> e.row.createdAt >= now - GRACE)
  {
  }

  lemma OneMoreFailure(rows: seq<Entry>, now: int, failing: set<nat>, failed: seq<nat>, e: Entry)
    requires Failures(rows, now, failing, failed) && e in rows && Expired(e.row, now) && e.id in failing && e.id !in failed
    ensures Failures(rows, now, failing, failed + [e.id])
  {
    assert FailedRow(rows, now, e.id);
  }

  lemma NothingYet(rows: seq<Entry>, files: set<nat>, now: int, failing: set<nat>)
    ensures CleanedUp(rows, rows, files, files, now, failing) && Failures(rows, now, failing, [])
  {
  }
}
