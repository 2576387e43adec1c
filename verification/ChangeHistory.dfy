/** Several calls on one manager: which approvals they spend, and what an apply and the
    rollbacks that follow it do together. */
module ChangeHistory {
  import opened Wrappers
  import opened Stamps
  import opened ChangeTypes
  import opened RemoteFiles
  import opened ChangeJournal
  import opened ChangeSpec
  import opened RollbackSpec
  import opened Approvals
  import opened ChangeManager

  // ---------------------------------------------------------------- whole runs

  datatype Call =
    | ApplyCall(req: Request, approvalId: Option<string>, ts: string, now: Instant)
    | RollbackCall(id: string, approvalId: Option<string>, now: Instant)

  /** A call, with the operation log and the spending log before and after it. */
  datatype Trace = Trace(call: Call, log: seq<RemoteOp>, ops: seq<RemoteOp>, before: seq<Spending>,
                         after: seq<Spending>)

  ghost predicate Callable(c: Call) {
    c.ApplyCall? ==> c.req.files != [] && NamesClear(PathSet(c.req.files), c.ts, c.req.changesetId)
  }

  /** The call renamed a protected target into place, or changed a file for the rollback of a
      changeset with a protected path. */
  ghost predicate Guarded(m: Manager, t: Trace, book: Book) {
    match t.call
    case ApplyCall(req, _, _, _) =>
      TargetTouched(t.ops, |t.log|, PathSet(req.files)) && ProtectedPaths(req.files, ApplyRoots(m.env)) != []
    case RollbackCall(id, _, _) =>
      t.ops != t.log && id in book && m.RollbackGuarded(book[id])
  }

  /** The call spent its approval, for the digest of its own intent. */
  ghost predicate Paid(m: Manager, t: Trace, book: Book) {
    t.call.approvalId.Some? &&
    match t.call
    case ApplyCall(req, approvalId, _, now) => SpentLast(t.before, t.after, m.GateSpending(req, approvalId.value, now))
    case RollbackCall(id, approvalId, now) =>
      id in book && SpentLast(t.before, t.after, m.RollbackSpending(id, book[id], approvalId.value, now))
  }

  /** The same rows are guarded alike. */
  lemma {:induction false} GuardedAlike(m: Manager, before: Book, after: Book, id: string)
    requires id in before && SameContext(before, after, id)
    ensures m.RollbackGuarded(before[id]) <==> m.RollbackGuarded(after[id])
  {
    assert forall i | 0 <= i < |before[id].files| :: before[id].files[i].path == after[id].files[i].path;
    if m.RollbackGuarded(before[id]) {
      var i :| 0 <= i < |before[id].files| &&
               IsProtected(before[id].files[i].path, RollbackRoots(m.env, before[id].service));
      assert IsProtected(after[id].files[i].path, RollbackRoots(m.env, after[id].service));
    }
    if m.RollbackGuarded(after[id]) {
      var i :| 0 <= i < |after[id].files| &&
               IsProtected(after[id].files[i].path, RollbackRoots(m.env, after[id].service));
      assert IsProtected(before[id].files[i].path, RollbackRoots(m.env, before[id].service));
    }
  }

  lemma {:induction false} SameContextGuards(m: Manager, t: Trace, before: Book, after: Book)
    requires t.call.RollbackCall? && t.call.id in before && SameContext(before, after, t.call.id)
    ensures Guarded(m, t, before) <==> Guarded(m, t, after)
    ensures Paid(m, t, before) <==> Paid(m, t, after)
  {
    GuardedAlike(m, before, after, t.call.id);
  }

  /** Every changeset keeps its context. */
  ghost predicate Contexts(before: Book, after: Book) {
    forall id | id in before :: SameContext(before, after, id)
  }

  lemma {:induction false} OneContext(before: Book, after: Book, id: string)
    requires OthersKept(before, after, id) && SameContext(before, after, id)
    ensures Contexts(before, after)
  {}

  /** Whatever changes later in the journal, a finished call stays paid for. */
  ghost predicate Settled(m: Manager, t: Trace, book: Book) {
    && (Guarded(m, t, book) ==> Paid(m, t, book))
    && (t.call.RollbackCall? && t.ops != t.log ==> t.call.id in book)
  }

  lemma {:induction false} StaysSettled(m: Manager, t: Trace, before: Book, after: Book)
    requires Settled(m, t, before) && Contexts(before, after)
    ensures Settled(m, t, after)
  {
    if t.call.RollbackCall? && t.call.id in before {
      assert SameContext(before, after, t.call.id);
      SameContextGuards(m, t, before, after);
    }
  }

  /** One call of either kind. */
  method Perform(m: Manager, c: Call) returns (ghost t: Trace)
    requires m.approvals.Valid() && Callable(c)
    modifies m.remote, m.journal, m.vault, m.approvals
    ensures m.approvals.Valid() && Contexts(old(m.journal.book), m.journal.book)
    ensures t == Trace(c, old(m.remote.ops), m.remote.ops, old(m.approvals.spent), m.approvals.spent)
    ensures t.before <= t.after && Settled(m, t, m.journal.book)
  {
    ghost var log, spent, book := m.remote.ops, m.approvals.spent, m.journal.book;
    match c {
      case ApplyCall(req, approvalId, ts, now) =>
        ghost var n: Names;
        var outcome: Outcome;
        outcome, n := m.ApplyLocked(req, approvalId, ts, now);
        OneContext(book, m.journal.book, req.changesetId);
      case RollbackCall(id, approvalId, now) =>
        var r := m.Rollback(id, approvalId, now, false, {}, Names(map[], map[]), map[], map[]);
        OneContext(book, m.journal.book, id);
        t := Trace(c, log, m.remote.ops, spent, m.approvals.spent);
        if id in book { SameContextGuards(m, t, book, m.journal.book); }
    }
    t := Trace(c, log, m.remote.ops, spent, m.approvals.spent);
  }

  /** Every guarded call has paid, and no two of them with the same approval. */
  ghost predicate AllPaid(m: Manager, traces: seq<Trace>, book: Book) {
    && (forall k | 0 <= k < |traces| :: Guarded(m, traces[k], book) ==> Paid(m, traces[k], book))
    && (forall j, k | 0 <= j < k < |traces| :: Guarded(m, traces[j], book) && Guarded(m, traces[k], book) ==>
          traces[j].call.approvalId != traces[k].call.approvalId)
  }

  /** The calls made so far, and what they have left. */
  ghost predicate RunSoFar(m: Manager, first: seq<RemoteOp>, traces: seq<Trace>)
    reads m.remote, m.journal, m.approvals
  {
    && m.approvals.Valid() && Chained(first, traces, m.remote.ops) && Ordered(traces, m.approvals.spent)
    && forall i | 0 <= i < |traces| :: Settled(m, traces[i], m.journal.book)
  }

  lemma {:induction false} RunPays(m: Manager, first: seq<RemoteOp>, traces: seq<Trace>)
    requires RunSoFar(m, first, traces)
    ensures AllPaid(m, traces, m.journal.book)
  {
    forall j, k | 0 <= j < k < |traces| && Guarded(m, traces[j], m.journal.book) &&
        Guarded(m, traces[k], m.journal.book)
      ensures traces[j].call.approvalId != traces[k].call.approvalId {
      assert Settled(m, traces[j], m.journal.book) && Settled(m, traces[k], m.journal.book);
      PaidDifferently(m, traces[j], traces[k], m.journal.book, m.approvals.rows, m.approvals.spent);
    }
  }

  /** The next call, after whatever others did to approvals and files. */
  method NextCall(m: Manager, c: Call, ghost first: seq<RemoteOp>, ghost traces: seq<Trace>) returns (ghost t: Trace)
    requires RunSoFar(m, first, traces) && Callable(c)
    modifies m.remote, m.journal, m.vault, m.approvals
    ensures RunSoFar(m, first, traces + [t]) && t.call == c
  {
    m.approvals.OtherCallers();
    m.remote.OtherWriters();
    ghost var book, ops, spent := m.journal.book, m.remote.ops, m.approvals.spent;
    t := Perform(m, c);
    forall i | 0 <= i < |traces| ensures Settled(m, traces[i], m.journal.book) {
      StaysSettled(m, traces[i], book, m.journal.book);
    }
    OrderedStep(traces, spent, t);
    ChainedStep(first, traces, ops, t);
  }

  /** Any sequence of applies and rollbacks on one manager, while other callers use the approvals
      and anyone changes remote files in between. Every call that changed something protected has
      spent an approval for its own intent, and no two of them the same one. */
  method RunCalls(m: Manager, calls: seq<Call>) returns (ghost traces: seq<Trace>)
    requires m.approvals.Valid() && forall k | 0 <= k < |calls| :: Callable(calls[k])
    modifies m.remote, m.journal, m.vault, m.approvals
    ensures m.approvals.Valid() && |traces| == |calls| && forall k | 0 <= k < |traces| :: traces[k].call == calls[k]
    ensures Chained(old(m.remote.ops), traces, m.remote.ops)
    ensures AllPaid(m, traces, m.journal.book)
  {
    ghost var first := m.remote.ops;
    traces := [];
    for k := 0 to |calls|
      invariant |traces| == k && forall i | 0 <= i < k :: traces[i].call == calls[i]
      invariant RunSoFar(m, first, traces)
    {
      ghost var t := NextCall(m, calls[k], first, traces);
      traces := traces + [t];
    }
    RunPays(m, first, traces);
  }

  /** The operation log runs through the calls without a break. */
  ghost predicate Chained(first: seq<RemoteOp>, traces: seq<Trace>, last: seq<RemoteOp>) {
    if traces == [] then first == last
    else Chained(first, traces[..|traces| - 1], traces[|traces| - 1].log) && traces[|traces| - 1].ops == last
  }

  lemma {:induction false} ChainedStep(first: seq<RemoteOp>, traces: seq<Trace>, last: seq<RemoteOp>, t: Trace)
    requires Chained(first, traces, last) && t.log == last
    ensures Chained(first, traces + [t], t.ops)
  {
    assert (traces + [t])[..|traces|] == traces;
  }

  /** Each call's spending log continues those of the calls before it. */
  ghost predicate Ordered(traces: seq<Trace>, spent: seq<Spending>) {
    && (forall i | 0 <= i < |traces| :: traces[i].after <= spent)
    && (forall i, j | 0 <= i < j < |traces| :: traces[i].after <= traces[j].before)
  }

  lemma {:induction false} OrderedStep(traces: seq<Trace>, spent: seq<Spending>, t: Trace)
    requires Ordered(traces, spent) && t.before == spent && t.before <= t.after
    ensures Ordered(traces + [t], t.after)
  {}

  lemma {:induction false} PaidDifferently(m: Manager, s: Trace, t: Trace, book: Book, rows: Table,
                                           spent: seq<Spending>)
    requires Paid(m, s, book) && Paid(m, t, book) && s.after <= t.before && t.after <= spent && LogAccurate(rows, spent)
    ensures s.call.approvalId != t.call.approvalId
  {
    var x, y := s.after[|s.after| - 1], t.after[|t.after| - 1];
    assert spent[|s.after| - 1] == x && spent[|t.after| - 1] == y;
  }

  // ---------------------------------------------------------------- apply, then roll back

  /** Where an apply left off: its journal rows, the remote files and the operations done so far. */
  datatype Boundary = Boundary(rows: seq<FileChange>, files: Files, ops: seq<RemoteOp>)

  lemma {:induction false} AttemptTransitively(a: seq<FileChange>, x: seq<RemoteOp>, b: seq<FileChange>,
                                               y: seq<RemoteOp>, c: seq<FileChange>, z: seq<RemoteOp>)
    requires Attempt(a, x, b, y) && Attempt(b, y, c, z)
    ensures Attempt(a, x, c, z)
  {}

  /** The rollback of this entry has come this far since the boundary. */
  ghost predicate ComeThisFar(m: Manager, entry: ChangeSet, now: Files, ops: seq<RemoteOp>, ps: set<string>, n: Names,
                              start: Files, plan: Files, b: Boundary) {
    m.Restorable(entry, now, ps, n, start, plan) && SameRows(b.rows, entry.files) &&
    Attempt(b.rows, b.ops, entry.files, ops)
  }

  /** Every target is as it was before the apply, and getting there has restored every renamed file
      and none of them twice. */
  ghost predicate AllBackOnce(req: Request, b: Boundary, start: Files, end: Files, ops: seq<RemoteOp>) {
    && (forall p | p in PathSet(req.files) :: SameAt(end, start, p))
    && ops == b.ops + Remaining(b.rows) && EachOnce(Remaining(b.rows))
    && OnlyApplied(Remaining(b.rows), b.rows, |b.rows|) && AllApplied(Remaining(b.rows), b.rows, |b.rows|)
  }

  lemma {:induction false} RowsCoverTargets(req: Request, rows: seq<FileChange>, start: Files, now: Files)
    requires RowsFor(rows, req.files, start) && forall i | 0 <= i < |rows| :: SameAt(now, start, rows[i].path)
    ensures forall p | p in PathSet(req.files) :: SameAt(now, start, p)
  {
    forall p | p in PathSet(req.files) ensures SameAt(now, start, p) {
      var i := PathSetFrom(req.files, p);
      assert rows[i].path == p;
    }
  }

  lemma {:induction false} SameRowsOver(before: seq<FileChange>, after: seq<FileChange>, ps: set<string>)
    requires RowsOver(before, ps) && SameRows(before, after)
    ensures RowsOver(after, ps)
  {
    assert forall i | 0 <= i < |after| :: before[i].id == after[i].id && before[i].path == after[i].path;
  }

  /** An attempt that keeps its promise carries the rollback on, or ends it. */
  lemma {:induction false} AttemptCarriesOn(m: Manager, req: Request, r: RollbackEnd, kept: bool, entry: ChangeSet,
                                            log: seq<RemoteOp>,
                                            after: ChangeSet, end: Files, ops: seq<RemoteOp>, n: Names, start: Files,
                                            plan: Files, b: Boundary, now: Files)
    requires RowsFor(b.rows, req.files, start) && ComeThisFar(m, entry, now, log, PathSet(req.files), n, start, plan, b)
    requires m.RollbackPromise(r, kept, entry, after, n, start, plan, log, end, ops) &&
             SameRows(entry.files, after.files)
    ensures kept ==> ComeThisFar(m, after, end, ops, PathSet(req.files), n, start, plan, b)
    ensures r.AllRestored? ==> AllBackOnce(req, b, start, end, ops)
  {
    SameRowsOver(entry.files, after.files, PathSet(req.files));
    if kept { AttemptTransitively(b.rows, b.ops, entry.files, log, after.files, ops); }
    if r.AllRestored? {
      assert forall i | 0 <= i < |b.rows| :: b.rows[i].path == entry.files[i].path;
      RowsCoverTargets(req, b.rows, start, end);
      SameRowsOver(entry.files, b.rows, PathSet(req.files));
      PlanRestoresOnce(b.rows, |b.rows|, Remaining(b.rows));
      PlanRestoresApplied(b.rows, |b.rows|);
    }
  }

  /** The journal's entry and the remote files have come this far. */
  ghost predicate Underway(m: Manager, req: Request, n: Names, start: Files, b: Boundary)
    reads m.remote, m.journal
  {
    req.changesetId in m.journal.book &&
    ComeThisFar(m, m.journal.book[req.changesetId], m.remote.files, m.remote.ops, PathSet(req.files), n, start,
                m.Wanted(req, start), b)
  }

  /** One rollback attempt carries the rollback on from wherever it stands, if that is known (`tracked`). */
  method AttemptOnce(m: Manager, req: Request, retry: Retry, ghost tracked: bool, ghost n: Names, ghost start: Files,
                     ghost b: Boundary)
    returns (done: bool)
    requires m.approvals.Valid()
    requires tracked ==>
             Separate(PathSet(req.files), n) && RowsFor(b.rows, req.files, start) && Underway(m, req, n, start, b)
    modifies m.remote, m.journal, m.approvals
    ensures m.approvals.Valid() && m.journal.missed >= old(m.journal.missed)
    ensures tracked && m.journal.missed == old(m.journal.missed) ==> Underway(m, req, n, start, b)
    ensures tracked && done ==> AllBackOnce(req, b, start, m.remote.files, m.remote.ops)
    ensures SameContext(old(m.journal.book), m.journal.book, req.changesetId)
    ensures tracked && m.Flawless() &&
            m.CanRollBack(req.changesetId, retry.approvalId, retry.now, old(m.journal.book), old(m.approvals.rows)) ==>
              done
  {
    ghost var book, ops, files, plan := m.journal.book, m.remote.ops, m.remote.files, m.Wanted(req, start);
    m.StoresDiffer();
    var r := m.Rollback(req.changesetId, retry.approvalId, retry.now, tracked, PathSet(req.files), n, start, plan);
    done := r.AllRestored?;
    if tracked && !r.RollbackRefused? {
      AttemptCarriesOn(m, req, r, m.journal.missed == old(m.journal.missed), book[req.changesetId], ops,
                       m.journal.book[req.changesetId], m.remote.files, m.remote.ops, n, start, plan, b, files);
    }
  }

  datatype Retry = Retry(approvalId: Option<string>, now: Instant)

  /** Nothing fails, the changeset is in force, and the first attempt needs no approval. */
  ghost predicate FirstSucceeds(m: Manager, req: Request, retries: seq<Retry>, book: Book) {
    && m.Flawless() && retries != [] && retries[0].approvalId.None?
    && req.changesetId in book && book[req.changesetId].status in {Applied, Validated}
    && !m.RollbackGuarded(book[req.changesetId])
  }

  lemma {:induction false} SameContextOn(a: Book, b: Book, c: Book, id: string)
    requires SameContext(a, b, id) && SameContext(b, c, id)
    ensures SameContext(a, c, id)
  {
    if id in a {
      forall i | 0 <= i < |a[id].files| ensures a[id].files[i].id == c[id].files[i].id &&
          a[id].files[i].path == c[id].files[i].path
      {
        assert a[id].files[i].id == b[id].files[i].id && a[id].files[i].path == b[id].files[i].path;
      }
    }
  }

  /** Attempt after attempt, until one succeeds. Other callers use the approvals in between. */
  method RetryRollback(m: Manager, req: Request, retries: seq<Retry>, ghost n: Names, ghost start: Files,
                       ghost b: Boundary)
    returns (done: bool)
    requires m.approvals.Valid() && Separate(PathSet(req.files), n) && RowsFor(b.rows, req.files, start) &&
             Underway(m, req, n, start, b)
    modifies m.remote, m.journal, m.approvals
    ensures m.approvals.Valid() && m.journal.missed >= old(m.journal.missed)
    ensures m.journal.missed == old(m.journal.missed) ==> Underway(m, req, n, start, b)
    ensures m.journal.missed == old(m.journal.missed) && done ==>
            AllBackOnce(req, b, start, m.remote.files, m.remote.ops)
    ensures SameContext(old(m.journal.book), m.journal.book, req.changesetId)
    ensures FirstSucceeds(m, req, retries, old(m.journal.book)) ==> done
  {
    done := false;
    var k := 0;
    ghost var missed, book := m.journal.missed, m.journal.book;
    while k < |retries| && !done
      invariant m.approvals.Valid() && m.journal.missed >= missed
      invariant m.journal.missed == missed ==> Underway(m, req, n, start, b)
      invariant m.journal.missed == missed && done ==> AllBackOnce(req, b, start, m.remote.files, m.remote.ops)
      invariant SameContext(book, m.journal.book, req.changesetId)
      invariant k == 0 ==> m.journal.book == book && m.journal.missed == missed
      invariant k > 0 && FirstSucceeds(m, req, retries, book) ==> done
    {
      m.approvals.OtherCallers();
      ghost var earlier := m.journal.book;
      done := AttemptOnce(m, req, retries[k], m.journal.missed == missed, n, start, b);
      SameContextOn(book, earlier, m.journal.book, req.changesetId);
      k := k + 1;
    }
  }

  /** The boundary an apply has left behind. */
  ghost predicate LeftAt(m: Manager, req: Request, n: Names, start: Files, log: seq<RemoteOp>, b: Boundary) {
    && RowsFor(b.rows, req.files, start) && JournalAccurate(b.rows, b.files, start, m.Wanted(req, start), n)
    && log <= b.ops
  }

  /** At the boundary itself nothing has been rolled back. */
  lemma {:induction false} NothingRolledBack(m: Manager, req: Request, n: Names, outcome: Outcome, kept: bool,
                                             start: Files, log: seq<RemoteOp>, end: Files,
                                             ops: seq<RemoteOp>, before: Book, after: Book)
    requires (outcome.AppliedAll? || outcome.Stopped?) && log <= ops
    requires m.JournalPromise(req, n, outcome, kept, start, end, before, after)
    ensures req.changesetId in after && LeftAt(m, req, n, start, log, Boundary(after[req.changesetId].files, end, ops))
    ensures ComeThisFar(m, after[req.changesetId], end, ops, PathSet(req.files), n, start, m.Wanted(req, start),
                        Boundary(after[req.changesetId].files, end, ops))
  {
    m.ApplyLeavesRollbackReady(req, n, outcome, kept, start, end, before, after);
  }

  /** An apply, and the boundary it has reached or died at. */
  method ApplyToBoundary(m: Manager, req: Request, approvalId: Option<string>, ts: string, now: Instant)
    returns (outcome: Outcome, ghost n: Names, ghost b: Boundary)
    requires m.approvals.Valid() && req.files != [] && NamesClear(PathSet(req.files), ts, req.changesetId)
    modifies m.remote, m.journal, m.vault, m.approvals
    ensures n == NamesFor(PathSet(req.files), ts, req.changesetId) && Separate(PathSet(req.files), n)
    ensures m.approvals.Valid() && m.journal.missed >= old(m.journal.missed)
    ensures outcome.AppliedAll? || outcome.Stopped? ==>
              LeftAt(m, req, n, old(m.remote.files), old(m.remote.ops), b) &&
              Underway(m, req, n, old(m.remote.files), b)
    ensures outcome.AppliedAll? ==>
              req.changesetId in m.journal.book && m.journal.book[req.changesetId].status == Applied
    ensures m.Flawless() && m.Doable(req, approvalId, now, n, old(m.remote.files), old(m.journal.book),
                                     old(m.approvals.rows)) ==>
              outcome.AppliedAll?
  {
    ghost var start, log, book, missed := m.remote.files, m.remote.ops, m.journal.book, m.journal.missed;
    outcome, n := m.ApplyLocked(req, approvalId, ts, now);
    b := Boundary([], m.remote.files, m.remote.ops);
    if outcome.AppliedAll? || outcome.Stopped? {
      NothingRolledBack(m, req, n, outcome, m.journal.missed == missed, start, log, m.remote.files, m.remote.ops, book,
                        m.journal.book);
      b := Boundary(m.journal.book[req.changesetId].files, m.remote.files, m.remote.ops);
    }
  }

  /** An apply, and rollback attempts for as long as it takes: whatever boundary the apply reached or died
      at, and however often the rollback is stopped, nothing is restored twice, what was done and what remains
      add up to the plan of that boundary, and an attempt that succeeds leaves every original in place. */
  method ApplyThenRollBack(m: Manager, req: Request, approvalId: Option<string>, ts: string, now: Instant,
                           retries: seq<Retry>)
    returns (outcome: Outcome, done: bool, ghost n: Names, ghost b: Boundary)
    requires m.approvals.Valid() && req.files != [] && NamesClear(PathSet(req.files), ts, req.changesetId)
    modifies m.remote, m.journal, m.vault, m.approvals
    ensures n == NamesFor(PathSet(req.files), ts, req.changesetId) && m.approvals.Valid()
    ensures outcome.AppliedAll? || outcome.Stopped? ==> LeftAt(m, req, n, old(m.remote.files), old(m.remote.ops), b)
    ensures (outcome.AppliedAll? || outcome.Stopped?) && m.journal.missed == old(m.journal.missed) ==>
              Underway(m, req, n, old(m.remote.files), b)
    ensures done && m.journal.missed == old(m.journal.missed) ==>
              (outcome.AppliedAll? || outcome.Stopped?) &&
              AllBackOnce(req, b, old(m.remote.files), m.remote.files, m.remote.ops)
    ensures m.Flawless() && m.Doable(req, approvalId, now, n, old(m.remote.files), old(m.journal.book),
                                     old(m.approvals.rows)) ==>
              outcome.AppliedAll?
    ensures m.Flawless() && outcome.AppliedAll? && retries != [] && retries[0].approvalId.None? &&
            !(req.changesetId in m.journal.book && m.RollbackGuarded(m.journal.book[req.changesetId])) ==>
              done
  {
    ghost var start := m.remote.files;
    done := false;
    outcome, n, b := ApplyToBoundary(m, req, approvalId, ts, now);
    if outcome.AppliedAll? || outcome.Stopped? {
      ghost var book := m.journal.book;
      done := RetryRollback(m, req, retries, n, start, b);
      GuardedAlike(m, book, m.journal.book, req.changesetId);
    }
  }
}
