/** Single-use approvals: conditional updates on one table, raced by any number of callers. */
module Approvals {
  import opened Wrappers
  import opened Ordering
  import opened Stamps

  datatype ApprovalStatus = Pending | Approved | Rejected | Consumed

  datatype Downstream = NotApplicable | DownstreamPending | Processing | Processed | DownstreamFailed

  /** Who decided and through which request. */
  datatype Decision = Decision(
    actor: Option<string>, reason: Option<string>, routeKey: Option<string>,
    idempotencyKey: Option<string>, requestSha: Option<string>)

  datatype Approval = Approval(
    intentSha: string,
    status: ApprovalStatus,
    createdAt: Instant,
    expiresAt: Instant,
    decidedAt: Option<Instant>,
    consumedAt: Option<Instant>,
    decision: Option<Decision>,
    downstream: Downstream,
    downstreamError: Option<string>,
    downstreamAt: Option<Instant>)

  type Table = map<string, Approval>

  // ---------------------------------------------------------------- atomic updates

  /** One atomic statement on the table; every writer issues one of these. */
  datatype Update =
    | Insert(id: string, intentSha: string, createdAt: Instant, expiresAt: Instant, downstream: Downstream)
    | Decide(id: string, target: ApprovalStatus, now: Instant, decision: Decision)
    | Spend(id: string, now: Instant)
    | MarkDownstream(id: string, downstream: Downstream, error: Option<string>, now: Instant)

  /** `expires_at > ?` inside SQL compares the two stamps as text. */
  predicate InTime(now: Instant, expiresAt: Instant): (r: bool)
    ensures r == Before(now, expiresAt)
  {
    TextOrderIsTimeOrder(now, expiresAt);
    StrLess(IsoFormat(now), IsoFormat(expiresAt))
  }

  /** The WHERE clause of each statement. */
  predicate Hits(rows: Table, u: Update) {
    match u
    case Insert(id, _, _, _, _) => id !in rows
    case Decide(id, target, now, _) =>
      target in {Approved, Rejected} && id in rows && rows[id].status == Pending && InTime(now, rows[id].expiresAt)
    case Spend(id, now) =>
      id in rows && rows[id].status == Approved && rows[id].consumedAt == None && InTime(now, rows[id].expiresAt)
    case MarkDownstream(id, _, _, _) => id in rows
  }

  /** The table after the statement; a statement that hits no row changes nothing. */
  function Perform(rows: Table, u: Update): Table {
    if !Hits(rows, u) then rows
    else
      match u
      case Insert(id, sha, created, expires, down) =>
        rows[id := Approval(sha, Pending, created, expires, None, None, None, down, None, None)]
      case Decide(id, target, now, decision) =>
        rows[id := rows[id].(status := target, decidedAt := Some(now), decision := Some(decision),
                             downstreamError := None)]
      case Spend(id, now) =>
        rows[id := rows[id].(status := Consumed, consumedAt := Some(now))]
      case MarkDownstream(id, down, error, now) =>
        rows[id := rows[id].(downstream := down, downstreamError := error, downstreamAt := Some(now))]
  }

  /** Any interleaving of callers is some sequence of atomic updates. */
  function Run(rows: Table, us: seq<Update>): Table {
    if us == [] then rows else Perform(Run(rows, us[..|us| - 1]), us[|us| - 1])
  }

  ghost predicate HitAt(rows: Table, us: seq<Update>, k: nat) {
    k < |us| && Hits(Run(rows, us[..k]), us[k])
  }

  // ---------------------------------------------------------------- lifecycle over every run

  /** How far a status has come; no update takes it back. */
  function Stage(s: ApprovalStatus): nat {
    match s
    case Pending => 0
    case Approved => 1
    case Rejected => 2
    case Consumed => 2
  }

  /** What other callers can do to the table between two of our statements. */
  ghost predicate Evolves(before: Table, after: Table) {
    forall id | id in before :: id in after && RowEvolves(before[id], after[id])
  }

  ghost predicate RowEvolves(a: Approval, b: Approval) {
    && b.intentSha == a.intentSha && b.createdAt == a.createdAt && b.expiresAt == a.expiresAt
    && Stage(a.status) <= Stage(b.status)
    && (a.status == Rejected ==> b.status == Rejected)
    && (a.status == Consumed ==> b.status == Consumed && b.consumedAt == a.consumedAt)
    && (a.status != Pending ==> b.decidedAt == a.decidedAt && b.decision == a.decision)
  }

  lemma {:induction false} PerformEvolves(rows: Table, u: Update)
    ensures Evolves(rows, Perform(rows, u))
  {
    var after := Perform(rows, u);
    forall id | id in rows ensures RowEvolves(rows[id], after[id]) && id in after {}
  }

  lemma {:induction false} EvolvesTransitively(a: Table, b: Table, c: Table)
    requires Evolves(a, b) && Evolves(b, c)
    ensures Evolves(a, c)
  {}

  lemma {:induction false} RunEvolves(rows: Table, us: seq<Update>)
    ensures Evolves(rows, Run(rows, us))
  {
    if us != [] {
      var before := Run(rows, us[..|us| - 1]);
      RunEvolves(rows, us[..|us| - 1]);
      PerformEvolves(before, us[|us| - 1]);
      EvolvesTransitively(rows, before, Run(rows, us));
    }
  }

  lemma {:induction false} RunSplits(rows: Table, us: seq<Update>, k: nat)
    requires k <= |us|
    ensures Run(rows, us) == Run(Run(rows, us[..k]), us[k..])
    decreases |us|
  {
    if k == |us| {
      assert us[..k] == us && us[k..] == [];
    } else {
      var init := us[..|us| - 1];
      RunSplits(rows, init, k);
      assert init[..k] == us[..k];
      assert us[k..][..|us| - k - 1] == init[k..];
    }
  }

  /** From the state right after step `j` to the state right before step `k`. */
  lemma {:induction false} EvolvesBetween(rows: Table, us: seq<Update>, j: nat, k: nat)
    requires j < k <= |us|
    ensures Evolves(Perform(Run(rows, us[..j]), us[j]), Run(rows, us[..k]))
  {
    assert us[..k][..j + 1] == us[..j + 1];
    assert us[..j + 1][..j] == us[..j];
    RunSplits(rows, us[..k], j + 1);
    RunEvolves(Run(rows, us[..j + 1]), us[..k][j + 1..]);
  }

  /** However the callers interleave, at most one decision on an approval succeeds. */
  lemma {:induction false} OneDecision(rows: Table, us: seq<Update>, j: nat, k: nat)
    requires HitAt(rows, us, j) && HitAt(rows, us, k)
    requires us[j].Decide? && us[k].Decide? && us[j].id == us[k].id
    ensures j == k
  {
    if j < k { EvolvesBetween(rows, us, j, k); }
    if k < j { EvolvesBetween(rows, us, k, j); }
  }

  /** However the callers interleave, at most one consumption of an approval succeeds. */
  lemma {:induction false} OneConsumption(rows: Table, us: seq<Update>, j: nat, k: nat)
    requires HitAt(rows, us, j) && HitAt(rows, us, k)
    requires us[j].Spend? && us[k].Spend? && us[j].id == us[k].id
    ensures j == k
  {
    if j < k { EvolvesBetween(rows, us, j, k); }
    if k < j { EvolvesBetween(rows, us, k, j); }
  }

  ghost predicate ApprovesAt(rows: Table, us: seq<Update>, j: nat, id: string) {
    HitAt(rows, us, j) && us[j].Decide? && us[j].id == id && us[j].target == Approved
  }

  lemma {:induction false} EarlierApproval(rows: Table, us: seq<Update>, n: nat, j: nat, id: string)
    requires n <= |us| && ApprovesAt(rows, us[..n], j, id)
    ensures j < n && ApprovesAt(rows, us, j, id) && Before(us[j].now, Run(rows, us[..j])[id].expiresAt)
  {
    assert us[..n][..j] == us[..j];
  }

  lemma {:induction false} OnlyApprovingApproves(rows: Table, u: Update, id: string)
    requires id in rows ==> rows[id].status != Approved
    requires id in Perform(rows, u) && Perform(rows, u)[id].status == Approved
    ensures Hits(rows, u) && u.Decide? && u.id == id && u.target == Approved
  {}

  /** An approval that is approved now and was not at the start was approved by some step. */
  lemma {:induction false} ApprovedBySomeone(rows: Table, us: seq<Update>, id: string)
    requires id in rows ==> rows[id].status != Approved
    requires id in Run(rows, us) && Run(rows, us)[id].status == Approved
    ensures exists j: nat :: ApprovesAt(rows, us, j, id)
  {
    assert us != [];
    var n := |us| - 1;
    var before := Run(rows, us[..n]);
    if id in before && before[id].status == Approved {
      ApprovedBySomeone(rows, us[..n], id);
      var j: nat :| ApprovesAt(rows, us[..n], j, id);
      EarlierApproval(rows, us, n, j, id);
    } else {
      OnlyApprovingApproves(before, us[n], id);
      assert ApprovesAt(rows, us, n, id);
    }
  }

  /** A consumption succeeds only after an approval, and both strictly before expiry. */
  lemma {:induction false} ConsumedAfterApproved(rows: Table, us: seq<Update>, k: nat)
    requires HitAt(rows, us, k) && us[k].Spend?
    requires us[k].id in rows ==> rows[us[k].id].status != Approved
    ensures exists j: nat :: j < k && ApprovesAt(rows, us, j, us[k].id)
                          && Before(us[j].now, Run(rows, us[..j])[us[k].id].expiresAt)
    ensures Before(us[k].now, Run(rows, us[..k])[us[k].id].expiresAt)
  {
    var id := us[k].id;
    ApprovedBySomeone(rows, us[..k], id);
    var j: nat :| ApprovesAt(rows, us[..k], j, id);
    EarlierApproval(rows, us, k, j, id);
  }

  /** A rejected approval is never consumed. */
  lemma {:induction false} RejectedNeverConsumed(rows: Table, us: seq<Update>, j: nat, k: nat)
    requires HitAt(rows, us, j) && us[j].Decide? && us[j].target == Rejected
    requires j < k && HitAt(rows, us, k) && us[k].Spend?
    ensures us[j].id != us[k].id
  {
    EvolvesBetween(rows, us, j, k);
  }

  /** The table without its downstream columns. */
  function Decided(rows: Table): Table {
    map id | id in rows :: DecidedRow(rows[id])
  }

  function DecidedRow(r: Approval): Approval {
    r.(downstream := NotApplicable, downstreamError := None, downstreamAt := None)
  }

  function WithoutDownstream(us: seq<Update>): seq<Update> {
    if us == [] then []
    else WithoutDownstream(us[..|us| - 1]) + if us[|us| - 1].MarkDownstream? then [] else [us[|us| - 1]]
  }

  lemma {:induction false} DecidedPerform(a: Table, b: Table, u: Update)
    requires Decided(a) == Decided(b)
    ensures Hits(a, u) == Hits(b, u)
    ensures Decided(Perform(a, u)) == Decided(if u.MarkDownstream? then b else Perform(b, u))
  {
    assert Decided(a).Keys == a.Keys && Decided(b).Keys == b.Keys;
    if u.id in a { assert Decided(a)[u.id] == Decided(b)[u.id]; }
    if Hits(a, u) { DecidedWrite(a, b, u.id, Perform(a, u)[u.id], Perform(b, u)[u.id]); }
    if u.MarkDownstream? && u.id in a { DecidedWrite(a, b, u.id, Perform(a, u)[u.id], b[u.id]); }
  }

  lemma {:induction false} DecidedWrite(a: Table, b: Table, id: string, x: Approval, y: Approval)
    requires Decided(a) == Decided(b)
    ensures DecidedRow(x) == DecidedRow(y) ==> Decided(a[id := x]) == Decided(b[id := y])
    ensures DecidedRow(x) == DecidedRow(y) && id in b && b[id] == y ==> Decided(a[id := x]) == Decided(b)
  {
    assert Decided(a).Keys == a.Keys && Decided(b).Keys == b.Keys;
    forall k | k in a ensures DecidedRow(a[k]) == DecidedRow(b[k]) { assert Decided(a)[k] == Decided(b)[k]; }
  }

  /** Over any run, downstream bookkeeping leaves no trace outside its own columns: leaving it out
      of the run gives the same rows, decisions and consumptions. */
  lemma {:induction false} DownstreamLeavesDecision(rows: Table, us: seq<Update>)
    ensures Decided(Run(rows, us)) == Decided(Run(rows, WithoutDownstream(us)))
  {
    if us != [] {
      var init, last := us[..|us| - 1], us[|us| - 1];
      DownstreamLeavesDecision(rows, init);
      DecidedPerform(Run(rows, init), Run(rows, WithoutDownstream(init)), last);
      var kept := WithoutDownstream(init);
      assert WithoutDownstream(us) == if last.MarkDownstream? then kept else kept + [last];
      assert (kept + [last])[..|kept|] == kept;
    }
  }

  // ---------------------------------------------------------------- the store

  datatype ApprovalError = ApprovalNotFound | AlreadyDecided | Expired | Unavailable | Mismatch | EventLost

  /** One successful consumption: which approval, for which intent digest, when. */
  datatype Spending = Spending(id: string, intentSha: string, now: Instant)

  ghost predicate Logged(rows: Table, s: Spending) {
    s.id in rows && rows[s.id].status == Consumed && rows[s.id].intentSha == s.intentSha &&
    Before(s.now, rows[s.id].expiresAt)
  }

  /** The log grew, and this consumption is its last entry. */
  ghost predicate SpentLast(before: seq<Spending>, after: seq<Spending>, s: Spending) {
    before <= after && |before| < |after| && after[|after| - 1] == s
  }

  /** The log names consumed approvals only, each once, with the digest of its row. */
  ghost predicate LogAccurate(rows: Table, spent: seq<Spending>) {
    && (forall i | 0 <= i < |spent| :: Logged(rows, spent[i]))
    && (forall i, j | 0 <= i < j < |spent| :: spent[i].id != spent[j].id)
  }

  function LogAfter(rows: Table, spent: seq<Spending>, u: Update): seq<Spending> {
    if Hits(rows, u) && u.Spend? then spent + [Spending(u.id, rows[u.id].intentSha, u.now)] else spent
  }

  /** Every statement of every caller keeps the log accurate. */
  lemma {:induction false} LogStaysAccurate(rows: Table, spent: seq<Spending>, u: Update)
    requires LogAccurate(rows, spent)
    ensures LogAccurate(Perform(rows, u), LogAfter(rows, spent, u))
  {
    PerformEvolves(rows, u);
    forall i | 0 <= i < |spent| ensures Logged(Perform(rows, u), spent[i]) {
      assert Logged(rows, spent[i]);
    }
  }

  /** Approved for this intent, unspent and in time. */
  predicate Spendable(rows: Table, id: string, intentSha: string, now: Instant) {
    && id in rows && rows[id].intentSha == intentSha
    && rows[id].status == Approved && rows[id].consumedAt == None && Before(now, rows[id].expiresAt)
  }

  // ---------------------------------------------------------------- what the columns say

  /** The stamps say what the status says: a consumption stamp on consumed rows only, a decision on decided ones. */
  ghost predicate TidyRow(r: Approval) {
    && (r.consumedAt.Some? <==> r.status == Consumed)
    && (r.decidedAt.Some? <==> r.status != Pending) && (r.decision.Some? <==> r.status != Pending)
  }

  ghost predicate Tidy(rows: Table) {
    forall id | id in rows :: TidyRow(rows[id])
  }

  lemma {:induction false} PerformTidies(rows: Table, u: Update)
    requires Tidy(rows)
    ensures Tidy(Perform(rows, u))
  {
    forall id | id in Perform(rows, u) ensures TidyRow(Perform(rows, u)[id]) {
      assert id in rows ==> TidyRow(rows[id]);
    }
  }

  /** Over every run that starts with an empty table, a row has a consumption stamp exactly when it is consumed, and a
      decision and its stamp exactly when it is decided. */
  lemma {:induction false} StampsFollowStatus(us: seq<Update>)
    ensures Tidy(Run(map[], us))
  {
    TidyRun(map[], us);
  }

  lemma {:induction false} TidyRun(rows: Table, us: seq<Update>)
    requires Tidy(rows)
    ensures Tidy(Run(rows, us))
  {
    if us != [] {
      TidyRun(rows, us[..|us| - 1]);
      PerformTidies(Run(rows, us[..|us| - 1]), us[|us| - 1]);
    }
  }

  /** Some consumption of this approval takes effect in the run. */
  ghost predicate SpentIn(rows: Table, us: seq<Update>, id: string) {
    exists k: nat :: HitAt(rows, us, k) && us[k].Spend? && us[k].id == id
  }

  lemma {:induction false} SpentSooner(rows: Table, us: seq<Update>, n: nat, id: string)
    requires n <= |us| && SpentIn(rows, us[..n], id)
    ensures SpentIn(rows, us, id)
  {
    var k: nat :| HitAt(rows, us[..n], k) && us[..n][k].Spend? && us[..n][k].id == id;
    assert us[..n][..k] == us[..k];
    assert HitAt(rows, us, k);
  }

  /** An approved row stays approved until someone consumes it. */
  lemma {:induction false} ApprovedStays(rows: Table, us: seq<Update>, id: string)
    requires id in rows && rows[id].status == Approved
    ensures id in Run(rows, us) && (Run(rows, us)[id].status == Approved || SpentIn(rows, us, id))
  {
    if us != [] {
      var n := |us| - 1;
      ApprovedStays(rows, us[..n], id);
      if SpentIn(rows, us[..n], id) { SpentSooner(rows, us, n, id); }
      assert us[n].Spend? && us[n].id == id && Hits(Run(rows, us[..n]), us[n]) ==> HitAt(rows, us, n);
    }
  }

  /** In any run from a tidy table: once an approving decision has taken effect and as long as no consumption has, the
      approval can be spent for its own digest at every instant before it expires. */
  lemma {:induction false} ApprovedIsSpendable(rows: Table, us: seq<Update>, j: nat, id: string, now: Instant)
    requires Tidy(rows) && ApprovesAt(rows, us, j, id)
    requires !SpentIn(Run(rows, us[..j + 1]), us[j + 1..], id)
    ensures id in Run(rows, us)
    ensures Before(now, Run(rows, us)[id].expiresAt) ==>
              Spendable(Run(rows, us), id, Run(rows, us)[id].intentSha, now)
  {
    assert us[..j + 1][..j] == us[..j];
    ApprovedStays(Run(rows, us[..j + 1]), us[j + 1..], id);
    RunSplits(rows, us, j + 1);
    TidyRun(rows, us);
    assert TidyRow(Run(rows, us)[id]);
  }

  class ApprovalStore {
    /** Whether nobody else uses the store between two statements of a call and no event is lost. */
    const quiet: bool
    var rows: Table
    /** Every consumption that took effect, in order. */
    ghost var spent: seq<Spending>

    ghost predicate Valid()
      reads this
    {
      LogAccurate(rows, spent) && Tidy(rows)
    }

    constructor (quiet: bool)
      ensures Valid() && rows == map[] && spent == [] && this.quiet == quiet
    {
      rows, spent, this.quiet := map[], [], quiet;
    }

    /** Issue one statement. */
    method Issue(u: Update) returns (hit: bool)
      requires Valid()
      modifies this
      ensures Valid()
      ensures hit == Hits(old(rows), u) && rows == Perform(old(rows), u)
      ensures spent == LogAfter(old(rows), old(spent), u)
      ensures Evolves(old(rows), rows)
    {
      LogStaysAccurate(rows, spent, u);
      PerformEvolves(rows, u);
      PerformTidies(rows, u);
      hit := Hits(rows, u);
      spent := LogAfter(rows, spent, u);
      rows := Perform(rows, u);
    }

    /** Any number of other callers, each issuing any statement. */
    method OtherCallers()
      requires Valid()
      modifies this
      ensures Valid() && Evolves(old(rows), rows)
      ensures old(spent) <= spent
    {
      var n: nat := *;
      while n > 0
        invariant Valid() && Evolves(old(rows), rows) && old(spent) <= spent
      {
        var u: Update := *;
        var hit := Issue(u);
        n := n - 1;
      }
    }

    /** What others do between two statements of one call. */
    method Interleave()
      requires Valid()
      modifies this
      ensures Valid() && Evolves(old(rows), rows) && old(spent) <= spent
      ensures quiet ==> rows == old(rows) && spent == old(spent)
    {
      if !quiet { OtherCallers(); }
    }

    /** `_decide`: read, check, then the conditional UPDATE, with other callers in between.
        The clauses say why it failed: "expired" is only ever reported for a caller that
        really came too late, although the UPDATE compares text and not time. */
    method Decide(id: string, target: ApprovalStatus, now: Instant, decision: Decision)
        returns (r: Result<Approval, ApprovalError>)
      requires Valid() && target in {Approved, Rejected}
      modifies this
      ensures Valid() && Evolves(old(rows), rows)
      ensures id !in old(rows) ==> r == Err(ApprovalNotFound) && rows == old(rows)
      ensures r.Ok? ==> old(rows)[id].status == Pending && Before(now, old(rows)[id].expiresAt)
      ensures r.Ok? ==>
                && id in rows && rows[id] == r.value && r.value.status == target
                && r.value.decidedAt == Some(now) && r.value.decision == Some(decision)
      ensures r == Err(Expired) ==> old(rows)[id].status == Pending && !Before(now, old(rows)[id].expiresAt)
      ensures r == Err(AlreadyDecided) ==> id in rows && rows[id].status != Pending
      ensures r.Err? ==> r.error in {ApprovalNotFound, AlreadyDecided, Expired}
      ensures quiet && id in old(rows) && old(rows)[id].status == Pending && Before(now, old(rows)[id].expiresAt) ==>
                r.Ok?
      ensures r.Ok? ==>
                r.value == old(rows)[id].(status := target, decidedAt := Some(now), decision := Some(decision),
                                          downstream := r.value.downstream, downstreamError := r.value.downstreamError,
                                          downstreamAt := r.value.downstreamAt)
      ensures r.Ok? && target == Approved ==>
                forall later | Before(later, r.value.expiresAt) :: Spendable(rows, id, r.value.intentSha, later)
      ensures quiet && r.Ok? ==>
                rows == old(rows)[id := old(rows)[id].(status := target, decidedAt := Some(now),
                                                       decision := Some(decision), downstreamError := None)]
      ensures quiet && r.Err? ==> rows == old(rows)
      ensures quiet ==> spent == old(spent)
    {
      if id !in rows { return Err(ApprovalNotFound); }
      var expires := rows[id].expiresAt;
      if rows[id].status != Pending { return Err(AlreadyDecided); }
      if !Before(now, expires) { return Err(Expired); }
      ghost var pre := rows;
      Interleave();
      ghost var mid := rows;
      var hit := Issue(Update.Decide(id, target, now, decision));
      if !hit {
        if rows[id].status != Pending { return Err(AlreadyDecided); }
        return Err(Expired);
      }
      EvolvesTransitively(pre, mid, rows);
      r := Ok(rows[id]);
    }

    /** The conditional UPDATE that spends an approval. */
    method SpendRow(id: string, now: Instant) returns (hit: bool)
      requires Valid() && id in rows
      modifies this
      ensures Valid() && Evolves(old(rows), rows)
      ensures hit ==>
                && SpentLast(old(spent), spent, Spending(id, old(rows)[id].intentSha, now))
                && (forall i | 0 <= i < |old(spent)| :: old(spent)[i].id != id)
                && old(rows)[id].status == Approved && Before(now, old(rows)[id].expiresAt)
                && rows == old(rows)[id := old(rows)[id].(status := Consumed, consumedAt := Some(now))]
                && spent == old(spent) + [Spending(id, old(rows)[id].intentSha, now)]
      ensures hit <== old(rows)[id].status == Approved && old(rows)[id].consumedAt == None &&
                      Before(now, old(rows)[id].expiresAt)
      ensures !hit ==>
                && rows == old(rows) && spent == old(spent)
                && (rows[id].status != Approved || rows[id].consumedAt != None || !Before(now, rows[id].expiresAt))
    {
      ghost var logged := spent;
      hit := Issue(Spend(id, now));
      if hit { assert forall i | 0 <= i < |logged| :: logged[i] == spent[i]; }
    }

    /** The service's `consume`: look the digest up, compare, then the conditional UPDATE. */
    method Consume(id: string, intentSha: string, now: Instant) returns (r: Result<Approval, ApprovalError>)
      requires Valid()
      modifies this
      ensures Valid() && Evolves(old(rows), rows) && old(spent) <= spent
      ensures id !in old(rows) ==> r == Err(ApprovalNotFound) && rows == old(rows) && spent == old(spent)
      ensures id in old(rows) && old(rows)[id].intentSha != intentSha ==>
              r == Err(Mismatch) && rows == old(rows) && spent == old(spent)
      ensures r.Ok? || r == Err(EventLost) ==>
                && SpentLast(old(spent), spent, Spending(id, intentSha, now))
                && (forall i | 0 <= i < |old(spent)| :: old(spent)[i].id != id)
                && old(rows)[id].status in {Pending, Approved} && Before(now, old(rows)[id].expiresAt)
      ensures r.Ok? ==>
              id in rows && rows[id] == r.value && r.value.status == Consumed && r.value.consumedAt == Some(now)
      ensures r == Err(Unavailable) ==>
                && id in rows
                && (rows[id].status != Approved || rows[id].consumedAt != None || !Before(now, rows[id].expiresAt))
      ensures r.Err? ==> r.error in {ApprovalNotFound, Mismatch, Unavailable, EventLost}
      ensures quiet && Spendable(old(rows), id, intentSha, now) ==> r.Ok?
      ensures r.Ok? ==> r.value.intentSha == old(rows)[id].intentSha && r.value.expiresAt == old(rows)[id].expiresAt
      ensures quiet && id in old(rows) && old(rows)[id].intentSha == intentSha &&
              !Spendable(old(rows), id, intentSha, now) ==>
                r == Err(Unavailable) && rows == old(rows) && spent == old(spent)
      ensures quiet && r.Ok? ==>
                && rows == old(rows)[id := old(rows)[id].(status := Consumed, consumedAt := Some(now))]
                && spent == old(spent) + [Spending(id, intentSha, now)]
    {
      if id !in rows { return Err(ApprovalNotFound); }
      if intentSha != rows[id].intentSha { return Err(Mismatch); }
      ghost var pre, logged := rows, spent;
      Interleave();
      ghost var mid, before := rows, spent;
      var hit := SpendRow(id, now);
      EvolvesTransitively(pre, mid, rows);
      if !hit { return Err(Unavailable); }
      assert forall i | 0 <= i < |logged| :: logged[i] == before[i];
      if !quiet { if * { return Err(EventLost); } }
      r := Ok(rows[id]);
    }
  }

  /** Approved, then consumed: on a store nobody else uses, an approval granted in time can be spent for its intent at
      any instant before it expires, and only once. */
  method ApproveThenSpend(store: ApprovalStore, id: string, now: Instant, decision: Decision, later: Instant,
                          again: Instant)
    returns (granted: Result<Approval, ApprovalError>, first: Result<Approval, ApprovalError>,
             second: Result<Approval, ApprovalError>)
    requires store.Valid() && store.quiet && id in store.rows && store.rows[id].status == Pending
    requires Before(now, store.rows[id].expiresAt) && Before(later, store.rows[id].expiresAt)
    modifies store
    ensures store.Valid() && granted.Ok? && first.Ok? && second == Err(Unavailable)
    ensures store.spent == old(store.spent) + [Spending(id, old(store.rows)[id].intentSha, later)]
  {
    var sha := store.rows[id].intentSha;
    granted := store.Decide(id, Approved, now, decision);
    first := store.Consume(id, sha, later);
    second := store.Consume(id, sha, again);
  }
}
