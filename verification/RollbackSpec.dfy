/** Explicit rollback of a journalled changeset: what one attempt restores, and what is
    left for the next attempt. */
module RollbackSpec {
  import opened Wrappers
  import opened ChangeTypes
  import opened RemoteFiles
  import opened ChangeSpec

  /** How a rollback ends: done, refused before anything was restored, or stopped on the way. */
  datatype RollbackEnd = AllRestored | RollbackRefused | RollbackStopped

  function RestoreUpdate(row: FileChange): FileUpdate {
    NO_UPDATE.(applied := Some(false), rollback := Some(if row.originallyAbsent then "removed" else "restored"))
  }

  /** The rows after every applied one from index `i` on has been restored. */
  function Unapply(rows: seq<FileChange>, i: nat): (r: seq<FileChange>)
    ensures |r| == |rows|
  {
    seq(|rows|, k requires 0 <= k < |rows| => if k >= i && rows[k].applied then Patch(rows[k], RestoreUpdate(rows[k]))
        else rows[k])
  }

  function RestoreOp(row: FileChange): RemoteOp {
    if row.originallyAbsent then Removed(row.path) else Renamed(row.remoteBackup, row.path)
  }

  /** The operations that restore the first `i` rows, last row first. */
  function RestorePlan(rows: seq<FileChange>, i: nat): seq<RemoteOp>
    requires i <= |rows|
  {
    if i == 0 then []
    else (if rows[i - 1].applied then [RestoreOp(rows[i - 1])] else []) + RestorePlan(rows, i - 1)
  }

  /** What is still to be restored. */
  function Remaining(rows: seq<FileChange>): seq<RemoteOp> {
    RestorePlan(rows, |rows|)
  }

  function Restored(op: RemoteOp): string {
    match op
    case Renamed(_, target) => target
    case Removed(path) => path
    case Copied(_, target, _) => target
    case Wrote(path, _) => path
  }

  ghost predicate DistinctRowPaths(rows: seq<FileChange>) {
    forall i, j | 0 <= i < j < |rows| :: rows[i].path != rows[j].path
  }

  /** Restored rows drop out of what remains; the rest stays in its order. */
  lemma {:induction false} UnapplyRemaining(rows: seq<FileChange>, i: nat, k: nat)
    requires i <= |rows| && k <= |rows|
    ensures RestorePlan(Unapply(rows, i), k) == RestorePlan(rows, if k <= i then k else i)
    decreases k
  {
    if k > 0 {
      var before, after := rows[k - 1], Unapply(rows, i)[k - 1];
      UnapplyRemaining(rows, i, k - 1);
      assert after == if k - 1 >= i && before.applied then Patch(before, RestoreUpdate(before)) else before;
      assert k > i ==> !after.applied;
    }
  }

  lemma {:induction false} UnapplyStep(rows: seq<FileChange>, i: nat)
    requires i < |rows| && DistinctIds(rows)
    ensures rows[i].applied ==> Unapply(rows, i) == PatchRow(Unapply(rows, i + 1), rows[i].id, RestoreUpdate(rows[i]))
    ensures !rows[i].applied ==> Unapply(rows, i) == Unapply(rows, i + 1)
  {
    var later := Unapply(rows, i + 1);
    assert forall k | 0 <= k < |rows| :: later[k].id == rows[k].id;
    assert forall k | 0 <= k < |rows| && k != i :: Unapply(rows, i)[k] == later[k] && later[k].id != rows[i].id;
    assert later[i] == rows[i];
  }

  /** Every operation restores an applied row among the first `i`. */
  ghost predicate OnlyApplied(ops: seq<RemoteOp>, rows: seq<FileChange>, i: nat)
    requires i <= |rows|
  {
    forall a | 0 <= a < |ops| :: RestoresSome(ops[a], rows, i)
  }

  /** The operation restores one of the first `i` rows that are marked applied. */
  ghost predicate RestoresSome(op: RemoteOp, rows: seq<FileChange>, i: nat)
    requires i <= |rows|
  {
    exists k | 0 <= k < i :: rows[k].applied && op == RestoreOp(rows[k])
  }

  /** Every applied row among the first `i` is restored. */
  ghost predicate AllApplied(ops: seq<RemoteOp>, rows: seq<FileChange>, i: nat)
    requires i <= |rows|
  {
    forall k | 0 <= k < i && rows[k].applied :: RestoreOp(rows[k]) in ops
  }

  ghost predicate EachOnce(ops: seq<RemoteOp>) {
    forall a, b | 0 <= a < b < |ops| :: Restored(ops[a]) != Restored(ops[b])
  }

  lemma {:induction false} OnlyAppliedMore(ops: seq<RemoteOp>, more: seq<RemoteOp>, rows: seq<FileChange>, i: nat)
    requires 0 < i <= |rows| && OnlyApplied(ops, rows, i - 1)
    requires more == if rows[i - 1].applied then [RestoreOp(rows[i - 1])] + ops else ops
    ensures OnlyApplied(more, rows, i)
  {
    forall a | 0 <= a < |more| ensures RestoresSome(more[a], rows, i) {
      if !rows[i - 1].applied || a > 0 {
        var op := ops[if rows[i - 1].applied then a - 1 else a];
        assert more[a] == op && RestoresSome(op, rows, i - 1);
        var k :| 0 <= k < i - 1 && rows[k].applied && op == RestoreOp(rows[k]);
      }
    }
  }

  lemma {:induction false} AllAppliedMore(ops: seq<RemoteOp>, rows: seq<FileChange>, i: nat)
    requires i < |rows| && AllApplied(ops, rows, i)
    ensures AllApplied(if rows[i].applied then [RestoreOp(rows[i])] + ops else ops, rows, i + 1)
  {}

  /** A plan restores exactly the applied files among its rows. */
  lemma {:induction false} PlanRestoresApplied(rows: seq<FileChange>, i: nat)
    requires i <= |rows|
    ensures OnlyApplied(RestorePlan(rows, i), rows, i) && AllApplied(RestorePlan(rows, i), rows, i)
  {
    PlanRestoresOnlyApplied(rows, i, RestorePlan(rows, i));
    PlanRestoresAllApplied(rows, i, RestorePlan(rows, i));
  }

  lemma {:induction false} PlanRestoresOnlyApplied(rows: seq<FileChange>, i: nat, ops: seq<RemoteOp>)
    requires i <= |rows| && ops == RestorePlan(rows, i)
    ensures OnlyApplied(ops, rows, i)
    decreases i
  {
    if i > 0 {
      var rest := RestorePlan(rows, i - 1);
      PlanStep(rows, i);
      PlanRestoresOnlyApplied(rows, i - 1, rest);
      OnlyAppliedMore(rest, ops, rows, i);
    }
  }

  lemma {:induction false} PlanRestoresAllApplied(rows: seq<FileChange>, i: nat, ops: seq<RemoteOp>)
    requires i <= |rows| && ops == RestorePlan(rows, i)
    ensures AllApplied(ops, rows, i)
    decreases i
  {
    if i > 0 {
      var rest := RestorePlan(rows, i - 1);
      PlanStep(rows, i);
      PlanRestoresAllApplied(rows, i - 1, rest);
      AllAppliedMore(rest, rows, i - 1);
    }
  }

  lemma {:induction false} PlanStep(rows: seq<FileChange>, i: nat)
    requires 0 < i <= |rows|
    ensures RestorePlan(rows, i) == if rows[i - 1].applied then [RestoreOp(rows[i - 1])] + RestorePlan(rows, i - 1)
            else RestorePlan(rows, i - 1)
  {}

  lemma {:induction false} EarlierRowsOnly(ops: seq<RemoteOp>, rows: seq<FileChange>, m: nat)
    requires m < |rows| && DistinctRowPaths(rows) && OnlyApplied(ops, rows, m)
    ensures forall b | 0 <= b < |ops| :: Restored(ops[b]) != rows[m].path
  {
    forall b | 0 <= b < |ops| ensures Restored(ops[b]) != rows[m].path {
      var k :| 0 <= k < m && rows[k].applied && ops[b] == RestoreOp(rows[k]);
    }
  }

  lemma {:induction false} OnceMore(op: RemoteOp, rest: seq<RemoteOp>)
    requires EachOnce(rest) && forall b | 0 <= b < |rest| :: Restored(op) != Restored(rest[b])
    ensures EachOnce([op] + rest)
  {}

  /** A plan restores no file twice. */
  lemma {:induction false} PlanRestoresOnce(rows: seq<FileChange>, i: nat, ops: seq<RemoteOp>)
    requires i <= |rows| && DistinctRowPaths(rows) && ops == RestorePlan(rows, i)
    ensures EachOnce(ops)
    decreases i
  {
    if i > 0 {
      var rest := RestorePlan(rows, i - 1);
      PlanStep(rows, i);
      PlanRestoresOnce(rows, i - 1, rest);
      PlanRestoresOnlyApplied(rows, i - 1, rest);
      EarlierRowsOnly(rest, rows, i - 1);
      OnceMore(RestoreOp(rows[i - 1]), rest);
    }
  }

  lemma {:induction false} UnapplyUnapplied(rows: seq<FileChange>, i: nat)
    requires i < |rows| && !rows[i].applied
    ensures Unapply(rows, i) == Unapply(rows, i + 1) && RestorePlan(rows, i + 1) == RestorePlan(rows, i)
  {}

  lemma {:induction false} NothingUnapplied(rows: seq<FileChange>)
    ensures Unapply(rows, |rows|) == rows
  {}

  /** One attempt: what it did and what it left add up to what there was to do. */
  ghost predicate Attempt(rows: seq<FileChange>, ops: seq<RemoteOp>, rows': seq<FileChange>, ops': seq<RemoteOp>) {
    ops <= ops' && ops' + Remaining(rows') == ops + Remaining(rows)
  }

  /** From `log` the operations `ops` are done and `rest` is left of `whole`. */
  ghost predicate Done(log: seq<RemoteOp>, ops: seq<RemoteOp>, rest: seq<RemoteOp>, whole: seq<RemoteOp>) {
    log <= ops && ops + rest == log + whole
  }

  lemma {:induction false} DoneOneMore(log: seq<RemoteOp>, ops: seq<RemoteOp>, op: RemoteOp, rest: seq<RemoteOp>,
                                       whole: seq<RemoteOp>)
    requires Done(log, ops, [op] + rest, whole)
    ensures Done(log, ops + [op], rest, whole)
  {
    assert ops + ([op] + rest) == ops + [op] + rest;
  }

  datatype Progress = Progress(rows: seq<FileChange>, ops: seq<RemoteOp>)

  /** However often a rollback is stopped and retried, the attempts together perform a
      prefix of the one plan, and the whole plan once nothing is journalled applied. */
  lemma {:induction false} RetriesRestoreOnce(run: seq<Progress>, k: nat)
    requires k < |run| && forall i | 0 <= i < k :: Attempt(run[i].rows, run[i].ops, run[i + 1].rows, run[i + 1].ops)
    ensures Attempt(run[0].rows, run[0].ops, run[k].rows, run[k].ops)
    ensures AppliedPaths(run[k].rows) == {} ==> run[k].ops == run[0].ops + Remaining(run[0].rows)
  {
    if k > 0 {
      RetriesRestoreOnce(run, k - 1);
      assert Attempt(run[k - 1].rows, run[k - 1].ops, run[k].rows, run[k].ops);
    }
    if AppliedPaths(run[k].rows) == {} { NothingRemains(run[k].rows, |run[k].rows|); }
  }

  lemma {:induction false} NothingRemains(rows: seq<FileChange>, i: nat)
    requires i <= |rows| && AppliedPaths(rows) == {}
    ensures RestorePlan(rows, i) == []
    decreases i
  {
    if i > 0 {
      NothingRemains(rows, i - 1);
      if rows[i - 1].applied { AppliedIsListed(rows, i - 1); }
    }
  }

  lemma {:induction false} AppliedIsListed(rows: seq<FileChange>, k: nat)
    requires k < |rows| && rows[k].applied
    ensures rows[k].path in AppliedPaths(rows)
  {}

  // ---------------------------------------------------------------- the remote side

  /** The rows belong to targets in `ps`, each listed once. */
  ghost predicate RowsOver(rows: seq<FileChange>, ps: set<string>) {
    DistinctIds(rows) && DistinctRowPaths(rows) && forall i | 0 <= i < |rows| :: rows[i].path in ps
  }

  lemma {:induction false} UnapplyRowsOver(rows: seq<FileChange>, i: nat, ps: set<string>)
    requires RowsOver(rows, ps)
    ensures RowsOver(Unapply(rows, i), ps)
  {
    assert forall k | 0 <= k < |rows| ::
             Unapply(rows, i)[k].id == rows[k].id && Unapply(rows, i)[k].path == rows[k].path;
  }

  /** Restoring one row returns its file to the original and disturbs no other row. */
  lemma {:induction false} RestoreRowStep(rows: seq<FileChange>, i: nat, ps: set<string>, n: Names, start: Files,
                                          plan: Files, before: Files, now: Files)
    requires Separate(ps, n) && RowsOver(rows, ps) && i < |rows| && rows[i].applied
    requires JournalAccurate(rows, before, start, plan, n)
    requires now == if rows[i].originallyAbsent then before - {rows[i].path}
                    else if rows[i].remoteBackup in before
                         then (before - {rows[i].remoteBackup})[rows[i].path := before[rows[i].remoteBackup]]
                    else before
    ensures JournalAccurate(PatchRow(rows, rows[i].id, RestoreUpdate(rows[i])), now, start, plan, n)
  {
    var after := PatchRow(rows, rows[i].id, RestoreUpdate(rows[i]));
    assert RowAccurate(rows[i], before, start, plan, n);
    forall k | 0 <= k < |after| ensures RowAccurate(after[k], now, start, plan, n) {
      assert RowAccurate(rows[k], before, start, plan, n);
      if k != i {
        assert rows[k].id != rows[i].id && rows[k].path != rows[i].path;
        assert rows[i].path in n.backup && rows[k].path in n.backup;
      }
    }
  }

  /** What an applied row needs for its restore is there. */
  lemma {:induction false} RowCanGoBack(rows: seq<FileChange>, i: nat, n: Names, start: Files, plan: Files, now: Files)
    requires i < |rows| && rows[i].applied && JournalAccurate(Unapply(rows, i + 1), now, start, plan, n)
    ensures (if rows[i].originallyAbsent then rows[i].path else rows[i].remoteBackup) in now
  {
    assert Unapply(rows, i + 1)[i] == rows[i];
    assert RowAccurate(Unapply(rows, i + 1)[i], now, start, plan, n);
  }

  lemma {:induction false} RestoredOneMore(rows: seq<FileChange>, i: nat, ps: set<string>, n: Names, start: Files,
                                           plan: Files, before: Files, now: Files)
    requires Separate(ps, n) && RowsOver(rows, ps) && i < |rows| && rows[i].applied
    requires JournalAccurate(Unapply(rows, i + 1), before, start, plan, n)
    requires now == if rows[i].originallyAbsent then before - {rows[i].path}
                    else if rows[i].remoteBackup in before
                         then (before - {rows[i].remoteBackup})[rows[i].path := before[rows[i].remoteBackup]]
                    else before
    ensures JournalAccurate(Unapply(rows, i), now, start, plan, n)
    ensures Unapply(rows, i) == PatchRow(Unapply(rows, i + 1), rows[i].id, RestoreUpdate(rows[i]))
    ensures HasRow(Unapply(rows, i + 1), rows[i].id)
    ensures RestorePlan(rows, i + 1) == [RestoreOp(rows[i])] + RestorePlan(rows, i)
  {
    assert Unapply(rows, i + 1)[i] == rows[i];
    UnapplyStep(rows, i);
    UnapplyRowsOver(rows, i + 1, ps);
    RestoreRowStep(Unapply(rows, i + 1), i, ps, n, start, plan, before, now);
  }

  /** When no row is applied any more, every target is as it was before the changeset. */
  lemma {:induction false} AllBack(rows: seq<FileChange>, now: Files, start: Files, plan: Files, n: Names)
    requires JournalAccurate(Unapply(rows, 0), now, start, plan, n)
    ensures forall i | 0 <= i < |rows| :: SameAt(now, start, rows[i].path)
    ensures AppliedPaths(Unapply(rows, 0)) == {}
  {
    forall i | 0 <= i < |rows| ensures SameAt(now, start, rows[i].path) {
      assert RowAccurate(Unapply(rows, 0)[i], now, start, plan, n);
    }
  }
}
