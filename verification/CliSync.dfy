/** Keeping the terminal client's projection in step with the session's event log across
    cut connections, repeated events and gaps in the history. */
module CliSync {
  import opened Wrappers
  import opened Ordering
  import opened CliReducer
  import opened CliProjection
  import CliMeaning

  // ---------------------------------------------------------------- the log

  /** The events with a sequence above `lo` and not above `hi`. */
  function Between(log: seq<Event>, lo: nat, hi: nat): seq<Event> {
    if log == [] then []
    else
      var last := log[|log| - 1];
      Between(log[..|log| - 1], lo, hi) + if lo < last.sequence <= hi then [last] else []
  }

  function KnownOnly(es: seq<Event>): seq<Event> {
    if es == [] then [] else KnownOnly(es[..|es| - 1]) + if es[|es| - 1].Known() then [es[|es| - 1]] else []
  }

  /** How many events have a sequence not above `c`. */
  function Upto(log: seq<Event>, c: nat): (n: nat)
    ensures n <= |log|
  {
    if log == [] then 0 else if log[|log| - 1].sequence <= c then |log| else Upto(log[..|log| - 1], c)
  }

  ghost predicate IsLog(log: seq<Event>) {
    Increasing(log) && forall i | 0 <= i < |log| :: log[i].sequence > 0
  }

  lemma {:induction false} UptoSplits(log: seq<Event>, c: nat)
    requires Increasing(log)
    ensures forall i | 0 <= i < |log| :: log[i].sequence <= c <==> i < Upto(log, c)
  {
    if log != [] { UptoSplits(log[..|log| - 1], c); }
  }

  lemma {:induction false} UptoIs(log: seq<Event>, c: nat, n: nat)
    requires Increasing(log) && n <= |log| && (n > 0 ==> log[n - 1].sequence <= c) &&
             (n < |log| ==> log[n].sequence > c)
    ensures Upto(log, c) == n
  {
    UptoSplits(log, c);
  }

  lemma {:induction false} UptoStep(log: seq<Event>, c: nat)
    requires Increasing(log) && log != []
    ensures Upto(log, c) == if log[|log| - 1].sequence <= c then |log| else Upto(log[..|log| - 1], c)
    ensures log[|log| - 1].sequence <= c ==> Upto(log[..|log| - 1], c) == |log| - 1
  {
    var init := log[..|log| - 1];
    if log[|log| - 1].sequence <= c { UptoIs(init, c, |init|); }
  }

  lemma {:induction false} UptoMonotone(log: seq<Event>, lo: nat, hi: nat)
    requires Increasing(log) && lo <= hi
    ensures Upto(log, lo) <= Upto(log, hi)
  {
    UptoSplits(log, lo);
    UptoSplits(log, hi);
    if Upto(log, lo) > 0 { assert log[Upto(log, lo) - 1].sequence <= lo; }
  }

  lemma {:induction false} SliceOfPrefix<T>(s: seq<T>, a: nat, b: nat)
    requires a <= b < |s|
    ensures s[..|s| - 1][a..b] == s[a..b]
  {}

  lemma {:induction false} SliceToEnd<T>(s: seq<T>, a: nat)
    requires a < |s|
    ensures s[a..] == s[..|s| - 1][a..|s| - 1] + [s[|s| - 1]]
  {}

  /** In a sorted log the events of an interval are a slice. */
  lemma {:induction false} BetweenIsSlice(log: seq<Event>, lo: nat, hi: nat)
    requires Increasing(log)
    ensures lo <= hi ==> Upto(log, lo) <= Upto(log, hi)
    ensures Between(log, lo, hi) == if lo <= hi then log[Upto(log, lo)..Upto(log, hi)] else []
  {
    if lo <= hi { UptoMonotone(log, lo, hi); }
    if log != [] {
      var init, last := log[..|log| - 1], log[|log| - 1];
      BetweenIsSlice(init, lo, hi);
      UptoStep(log, lo);
      UptoStep(log, hi);
      if lo <= hi {
        if last.sequence > hi {
          SliceOfPrefix(log, Upto(log, lo), Upto(log, hi));
        } else if last.sequence > lo {
          SliceToEnd(log, Upto(log, lo));
        }
      }
    }
  }

  /** Events appended later lie above every earlier one. */
  lemma {:induction false} BetweenGrows(log: seq<Event>, more: seq<Event>, lo: nat, hi: nat)
    requires forall i | 0 <= i < |more| :: more[i].sequence > hi
    ensures Between(log + more, lo, hi) == Between(log, lo, hi)
    decreases |more|
  {
    if more == [] {
      assert log + more == log;
    } else {
      BetweenGrows(log, more[..|more| - 1], lo, hi);
      assert (log + more)[..|log + more| - 1] == log + more[..|more| - 1];
    }
  }

  lemma {:induction false} KnownOnlyAppend(a: seq<Event>, b: seq<Event>)
    ensures KnownOnly(a + b) == KnownOnly(a) + KnownOnly(b)
    decreases |b|
  {
    if b == [] {
      assert a + b == a;
    } else {
      KnownOnlyAppend(a, b[..|b| - 1]);
      assert (a + b)[..|a + b| - 1] == a + b[..|b| - 1];
    }
  }

  lemma {:induction false} KnownOnlyNone(es: seq<Event>)
    requires forall i | 0 <= i < |es| :: !es[i].Known()
    ensures KnownOnly(es) == []
  {
    if es != [] { KnownOnlyNone(es[..|es| - 1]); }
  }

  /** Moving the cursor over one more known event adds exactly that event, if everything
      skipped on the way is unknown. */
  lemma {:induction false} NextEvent(log: seq<Event>, lo: nat, c: nat, pos: nat)
    requires IsLog(log) && pos < |log| && log[pos].Known() && lo < log[pos].sequence && c < log[pos].sequence
    requires forall i | 0 <= i < pos && log[i].Known() && lo < log[i].sequence :: log[i].sequence <= c
    ensures KnownOnly(Between(log, lo, log[pos].sequence)) == KnownOnly(Between(log, lo, c)) + [log[pos]]
  {
    var hi := log[pos].sequence;
    UptoSplits(log, lo);
    UptoSplits(log, c);
    UptoSplits(log, hi);
    BetweenIsSlice(log, lo, c);
    BetweenIsSlice(log, lo, hi);
    UptoIs(log, hi, pos + 1);
    if lo <= c {
      SliceGains(log, Upto(log, lo), Upto(log, c), pos);
    } else {
      SliceGains(log, Upto(log, lo), Upto(log, lo), pos);
    }
  }

  lemma {:induction false} SliceGains(log: seq<Event>, start: nat, from: nat, pos: nat)
    requires start <= from <= pos < |log| && log[pos].Known() && forall i | from <= i < pos :: !log[i].Known()
    ensures KnownOnly(log[start..pos + 1]) == KnownOnly(log[start..from]) + [log[pos]]
  {
    var skipped := log[from..pos];
    KnownOnlyNone(skipped);
    Slices(log, start, from, pos);
    KnownOnlyAppend(log[start..from] + skipped, [log[pos]]);
    KnownOnlyAppend(log[start..from], skipped);
    assert KnownOnly([log[pos]]) == [log[pos]];
  }

  lemma {:induction false} Slices<T>(s: seq<T>, a: nat, b: nat, p: nat)
    requires a <= b <= p < |s|
    ensures s[a..p + 1] == s[a..b] + s[b..p] + [s[p]]
  {}

  // ---------------------------------------------------------------- the server

  datatype Page = Page(items: seq<Event>, nextAfter: nat, hasMore: bool)

  /** What the client asks for, and the most the server grants. */
  const PAGE_SIZE := 500

  /** The last sequence handed out. */
  function LastSequence(log: seq<Event>): nat {
    if log == [] then 0 else log[|log| - 1].sequence
  }

  /** Where reading after `after` really starts when everything below `earliest` is gone. */
  function Floor(earliest: nat, after: nat): nat {
    if earliest > after + 1 then earliest - 1 else after
  }

  /** Only new events, all above the old ones. */
  ghost predicate Grown(before: seq<Event>, log: seq<Event>) {
    before <= log && LastSequence(before) <= LastSequence(log) &&
    forall i | |before| <= i < |log| :: log[i].sequence > LastSequence(before)
  }

  lemma {:induction false} GrownTransitively(a: seq<Event>, b: seq<Event>, c: seq<Event>)
    requires Grown(a, b) && Grown(b, c)
    ensures Grown(a, c)
  {
    forall i | |a| <= i < |c| ensures c[i].sequence > LastSequence(a) {
      assert i < |b| ==> c[i] == b[i];
    }
  }

  /** The slice of `n` events after index `i` is everything up to the sequence it ends with. */
  lemma {:induction false} PageReaches(log: seq<Event>, low: nat, after: nat, i: nat, n: nat, next: nat)
    requires IsLog(log) && after <= low && i == Upto(log, low) && n <= |log| - i
    requires next == if n > 0 then log[i + n - 1].sequence else after
    ensures Between(log, low, next) == log[i..i + n]
    ensures n > 0 ==> low < next <= LastSequence(log) && Upto(log, next) == i + n && Upto(log, after) <= i
    ensures n == |log| - i ==> forall k | 0 <= k < |log| :: log[k].sequence <= next || log[k].sequence <= low
  {
    UptoSplits(log, low);
    UptoSplits(log, after);
    if n > 0 {
      assert low < log[i].sequence <= next;
      LogEnd(log, i + n - 1);
      UptoIs(log, next, i + n);
      UptoMonotone(log, after, low);
    }
    BetweenIsSlice(log, low, next);
  }

  class Server {
    /** Every event of the session so far, and the smallest sequence still stored. */
    var log: seq<Event>
    var earliest: nat

    ghost predicate Valid()
      reads this
    {
      IsLog(log)
    }

    constructor ()
      ensures Valid() && log == [] && earliest == 0
    {
      log, earliest := [], 0;
    }

    /** Other parts of the system append any number of events, numbered above all that were ever stored. */
    method Grow()
      requires Valid()
      modifies this`log
      ensures Valid() && Grown(old(log), log)
      ensures forall i | |old(log)| <= i < |log| :: log[i].sequence >= earliest
    {
      var n: nat := *;
      while n > 0
        invariant Valid() && Grown(old(log), log)
        invariant forall i | |old(log)| <= i < |log| :: log[i].sequence >= earliest
      {
        var skip: nat, body: Body := *, *;
        var next := LastSequence(log) + 1;
        log := log + [Event((if next < earliest then earliest else next) + skip, body)];
        n := n - 1;
      }
    }

    /** Retention drops a prefix of the store. */
    method Prune()
      requires Valid()
      modifies this`earliest
      ensures earliest >= old(earliest)
    {
      var to: nat := *;
      if to > earliest { earliest := to; }
    }

    /** The index of the first event with a sequence above `c`. */
    method IndexAfter(c: nat) returns (i: nat)
      requires Valid()
      ensures i == Upto(log, c)
    {
      i := 0;
      UptoSplits(log, c);
      while i < |log| && log[i].sequence <= c
        invariant i <= Upto(log, c)
      {
        i := i + 1;
      }
    }

    /** `list_page`. */
    method ListEvents(after: nat) returns (page: Page)
      requires Valid()
      ensures page.items == Between(log, Floor(earliest, after), page.nextAfter)
      ensures if page.items == [] then page.nextAfter == after && !page.hasMore
              else page.items[|page.items| - 1].sequence == page.nextAfter &&
                   Floor(earliest, after) < page.nextAfter <= LastSequence(log)
      ensures page.items != [] ==> Upto(log, after) < Upto(log, page.nextAfter)
      ensures !page.hasMore ==> forall i | 0 <= i < |log| ::
                log[i].sequence <= page.nextAfter || log[i].sequence <= Floor(earliest, after)
    {
      var low := Floor(earliest, after);
      var i := IndexAfter(low);
      var n := if |log| - i > PAGE_SIZE then PAGE_SIZE else |log| - i;
      var items := log[i..i + n];
      page := Page(items, if n > 0 then items[n - 1].sequence else after, |log| - i > PAGE_SIZE);
      PageReaches(log, low, after, i, n, page.nextAfter);
    }
  }

  /** Consecutive pages together. */
  lemma {:induction false} BetweenJoins(log: seq<Event>, a: nat, b: nat, c: nat)
    requires Increasing(log) && a <= b <= c
    ensures Between(log, a, b) + Between(log, b, c) == Between(log, a, c)
  {
    BetweenIsSlice(log, a, b);
    BetweenIsSlice(log, b, c);
    BetweenIsSlice(log, a, c);
    assert log[Upto(log, a)..Upto(log, c)] == log[Upto(log, a)..Upto(log, b)] + log[Upto(log, b)..Upto(log, c)];
  }

  lemma {:induction false} BetweenGrown(before: seq<Event>, log: seq<Event>, lo: nat, hi: nat)
    requires Grown(before, log) && hi <= LastSequence(before)
    ensures Between(log, lo, hi) == Between(before, lo, hi)
  {
    assert log == before + log[|before|..];
    BetweenGrows(before, log[|before|..], lo, hi);
  }

  lemma {:induction false} EmptyInterval(log: seq<Event>, lo: nat, hi: nat)
    requires hi <= lo
    ensures Between(log, lo, hi) == []
  {
    if log != [] { EmptyInterval(log[..|log| - 1], lo, hi); }
  }

  lemma {:induction false} LogEnd(log: seq<Event>, i: nat)
    requires Increasing(log) && i < |log|
    ensures log[i].sequence <= LastSequence(log)
  {}

  lemma {:induction false} BetweenLast(log: seq<Event>, lo: nat, hi: nat)
    ensures forall i | 0 <= i < |Between(log, lo, hi)| :: lo < Between(log, lo, hi)[i].sequence <= hi
  {
    if log != [] { BetweenLast(log[..|log| - 1], lo, hi); }
  }

  lemma {:induction false} LastIsInLog(log: seq<Event>, lo: nat, hi: nat)
    ensures var es := Between(log, lo, hi);
            es != [] ==> exists i | 0 <= i < |log| :: lo < log[i].sequence == es[|es| - 1].sequence
  {
    if log != [] {
      var n := |log| - 1;
      LastIsInLog(log[..n], lo, hi);
      var earlier := Between(log[..n], lo, hi);
      if lo < log[n].sequence <= hi {
        assert lo < log[n].sequence == log[n].sequence;
      } else if earlier != [] {
        var i :| 0 <= i < n && lo < log[..n][i].sequence == earlier[|earlier| - 1].sequence;
        assert log[i] == log[..n][i];
      }
    }
  }

  lemma {:induction false} ReplayOne(s: State, es: seq<Event>, e: Event)
    ensures Replay(s, es + [e]) == Reduce(Replay(s, es), e)
  {
    assert (es + [e])[..|es|] == es;
  }

  // ---------------------------------------------------------------- the gap snapshot

  function TextBlocks(messages: seq<(string, string)>): seq<Item> {
    seq(|messages|, i requires 0 <= i < |messages| => TextBlock(messages[i].0, messages[i].0, messages[i].1, false))
  }

  function ToolBlocks(rows: seq<Snapshot>): seq<Item> {
    seq(|rows|, i requires 0 <= i < |rows| =>
      ToolBlock(rows[i].toolId, rows[i].toolName, rows[i].status,
                if rows[i].error.Some? then Text(rows[i].error.value) else Absent,
                if rows[i].summary.Some? then Text(rows[i].summary.value) else Absent))
  }

  /** `handleGapSnapshot`: the projection is replaced, not merged; token usage is kept. */
  function GapSnapshot(s: State, messages: seq<(string, string)>, approvals: set<string>, events: seq<Event>,
                       sequence: nat): State {
    s.(messages := TextBlocks(messages) + ToolBlocks(ProjectTools(events)), todos := ProjectTodos(events),
       pendingApprovals := approvals, operationOver := false, lastSequence := sequence)
  }

  // ---------------------------------------------------------------- where a projection comes from

  /** What replaced or moved the base of a projection: a gap snapshot taken at cursor `at` from
      the history above `floor`, or the first connection of a client without a cursor, for
      which nothing up to `floor` was stored any more. */
  datatype Era =
    | Recovered(at: nat, floor: nat, messages: seq<(string, string)>, approvals: set<string>, sequence: nat)
    | Opened(floor: nat)

  /** The sequence the latest base covers. */
  function FromAfter(openedAt: nat, eras: seq<Era>): nat {
    if eras == [] then openedAt
    else match eras[|eras| - 1]
      case Recovered(_, _, _, _, sequence) => sequence
      case Opened(floor) => floor
  }

  /** The latest base: the opening state, or the snapshot that replaced the projection as it
      stood when the gap was met. */
  function BaseAfter(log: seq<Event>, opening: State, openedAt: nat, eras: seq<Era>): State {
    if eras == [] then opening
    else
      var earlier := eras[..|eras| - 1];
      var base := BaseAfter(log, opening, openedAt, earlier);
      match eras[|eras| - 1]
      case Opened(_) => base
      case Recovered(at, floor, messages, approvals, sequence) =>
        GapSnapshot(Replay(base, KnownOnly(Between(log, FromAfter(openedAt, earlier), at))),
                    messages, approvals, Between(log, floor, sequence), sequence)
  }

  /** The projection at `cursor`: the latest base and every known event above it, once and in order. */
  function StateAt(log: seq<Event>, opening: State, openedAt: nat, eras: seq<Era>, cursor: nat): State {
    Replay(BaseAfter(log, opening, openedAt, eras), KnownOnly(Between(log, FromAfter(openedAt, eras), cursor)))
  }

  /** An era only skips what was not stored any more, and a snapshot only reaches stored events. */
  ghost predicate EraFits(log: seq<Event>, earliest: nat, era: Era) {
    match era
    case Opened(floor) => floor == 0 || floor < earliest
    case Recovered(at, floor, _, _, sequence) =>
      && at <= sequence <= LastSequence(log)
      && (floor == at || at < floor < earliest)
      && (sequence == at || exists i | 0 <= i < |log| :: floor < log[i].sequence == sequence)
  }

  ghost predicate ErasFit(log: seq<Event>, earliest: nat, eras: seq<Era>) {
    forall i | 0 <= i < |eras| :: EraFits(log, earliest, eras[i])
  }

  /** `base` and `from` are what the eras make of the opening state. */
  ghost predicate Provenance(log: seq<Event>, earliest: nat, opening: State, openedAt: nat, eras: seq<Era>, base: State,
                             from: nat) {
    && ErasFit(log, earliest, eras)
    && base == BaseAfter(log, opening, openedAt, eras)
    && from == FromAfter(openedAt, eras)
  }

  /** What was reduced since `from` is every known event up to the cursor, once and in order. */
  ghost predicate Standing(log: seq<Event>, earliest: nat, from: nat, cursor: nat, reduced: seq<Event>) {
    && cursor <= LastSequence(log)
    && (from <= cursor || (cursor == 0 && from < earliest))
    && reduced == KnownOnly(Between(log, from, cursor))
  }

  lemma {:induction false} StandingAgain(log: seq<Event>, earliest: nat, at: nat)
    requires at <= LastSequence(log)
    ensures Standing(log, earliest, at, at, [])
  {
    EmptyInterval(log, at, at);
  }

  lemma {:induction false} BaseGrown(before: seq<Event>, log: seq<Event>, earliest: nat, opening: State, openedAt: nat,
                                     eras: seq<Era>)
    requires Grown(before, log) && ErasFit(before, earliest, eras)
    ensures BaseAfter(log, opening, openedAt, eras) == BaseAfter(before, opening, openedAt, eras)
  {
    if eras != [] {
      var n := |eras| - 1;
      var earlier := eras[..n];
      BaseGrown(before, log, earliest, opening, openedAt, earlier);
      if eras[n].Recovered? {
        assert EraFits(before, earliest, eras[n]);
        BetweenGrown(before, log, FromAfter(openedAt, earlier), eras[n].at);
        BetweenGrown(before, log, eras[n].floor, eras[n].sequence);
      }
    }
  }

  lemma {:induction false} ErasFitGrown(before: seq<Event>, log: seq<Event>, earliest: nat, later: nat, eras: seq<Era>)
    requires Grown(before, log) && earliest <= later && ErasFit(before, earliest, eras)
    ensures ErasFit(log, later, eras)
  {
    forall i | 0 <= i < |eras| ensures EraFits(log, later, eras[i]) {
      assert EraFits(before, earliest, eras[i]);
      if eras[i].Recovered? && eras[i].sequence != eras[i].at {
        var k :| 0 <= k < |before| && eras[i].floor < before[k].sequence == eras[i].sequence;
        assert log[k] == before[k];
      }
    }
  }

  /** Growth of the log and retention leave the provenance of a projection alone. */
  lemma {:induction false} ProvenanceGrown(before: seq<Event>, log: seq<Event>, earliest: nat, later: nat,
                                           opening: State, openedAt: nat, eras: seq<Era>, base: State, from: nat)
    requires Grown(before, log) && earliest <= later
    requires Provenance(before, earliest, opening, openedAt, eras, base, from)
    ensures Provenance(log, later, opening, openedAt, eras, base, from)
  {
    BaseGrown(before, log, earliest, opening, openedAt, eras);
    ErasFitGrown(before, log, earliest, later, eras);
  }

  lemma {:induction false} ProvenanceExtended(log: seq<Event>, earliest: nat, opening: State, openedAt: nat,
                                              eras: seq<Era>, base: State, from: nat,
                                              era: Era, cursor: nat)
    requires Provenance(log, earliest, opening, openedAt, eras, base, from) && EraFits(log, earliest, era)
    requires era.Recovered? ==> era.at == cursor
    ensures Provenance(log, earliest, opening, openedAt, eras + [era],
                       if era.Opened? then base
                       else GapSnapshot(Replay(base, KnownOnly(Between(log, from, cursor))), era.messages,
                                        era.approvals,
                                        Between(log, era.floor, era.sequence), era.sequence),
                       if era.Opened? then era.floor else era.sequence)
  {
    assert (eras + [era])[..|eras|] == eras;
  }

  /** The projection is the replay of what was reduced since the latest base, whose history is known. */
  ghost predicate InSync(log: seq<Event>, earliest: nat, opening: State, openedAt: nat, eras: seq<Era>, base: State,
                         from: nat,
                         reduced: seq<Event>, cursor: nat, state: State)
  {
    && Standing(log, earliest, from, cursor, reduced) && cursor == state.lastSequence && state == Replay(base, reduced)
    && Provenance(log, earliest, opening, openedAt, eras, base, from)
  }

  /** A snapshot that covers everything up to `era.sequence` is the next base. */
  lemma {:induction false} SnapshotInSync(log: seq<Event>, earliest: nat, opening: State, openedAt: nat, eras: seq<Era>,
                                          base: State, from: nat,
                                          reduced: seq<Event>, cursor: nat, state: State, era: Era, snapshot: State)
    requires InSync(log, earliest, opening, openedAt, eras, base, from, reduced, cursor, state)
    requires era.Recovered? && era.at == cursor && EraFits(log, earliest, era)
    requires snapshot == GapSnapshot(state, era.messages, era.approvals, Between(log, era.floor, era.sequence),
                                     era.sequence)
    ensures snapshot.lastSequence == era.sequence
    ensures InSync(log, earliest, opening, openedAt, eras + [era], snapshot, era.sequence, [], era.sequence, snapshot)
  {
    ProvenanceExtended(log, earliest, opening, openedAt, eras, base, from, era, cursor);
    StandingAgain(log, earliest, era.sequence);
  }

  /** `after` is the projection a recovery at cursor `at` leaves at `cursor`. It shows every tool exactly
      when every tool has an event above the floor, and the next connection is not refused
      exactly when it would not have been anyway or some event is still stored. */
  ghost predicate IsRecovery(log: seq<Event>, earliest: nat, before: State, at: nat, messages: seq<(string, string)>,
                             approvals: set<string>,
                             after: State, cursor: nat)
  {
    && after == GapSnapshot(before, messages, approvals, Between(log, Floor(earliest, at), cursor), cursor)
    && CliMeaning.BuiltFrom(before, messages, approvals, Between(log, Floor(earliest, at), cursor), after)
    && (ShowsEveryTool(log, after.messages) <==> EveryToolAbove(log, Floor(earliest, at)))
    && (!Refused(earliest, cursor) <==> !Refused(earliest, at) || StillStored(log, earliest))
  }

  ghost predicate ShowsEveryTool(log: seq<Event>, items: seq<Item>) {
    forall id :: Named(log, id) ==> ShowsTool(items, id)
  }

  ghost predicate EveryToolAbove(log: seq<Event>, floor: nat) {
    forall id :: Named(log, id) ==> NamedAbove(log, floor, id)
  }

  ghost predicate StillStored(log: seq<Event>, earliest: nat) {
    exists i | 0 <= i < |log| :: log[i].sequence >= earliest
  }

  lemma {:induction false} RecoveryIs(log: seq<Event>, earliest: nat, before: State, at: nat,
                                      messages: seq<(string, string)>, approvals: set<string>, last: nat, after: State)
    requires IsLog(log) && at <= last
    requires after == GapSnapshot(before, messages, approvals, Between(log, Floor(earliest, at), last), last)
    requires last == at || exists i | 0 <= i < |log| :: Floor(earliest, at) < log[i].sequence == last
    requires forall i | 0 <= i < |log| :: log[i].sequence <= last || log[i].sequence <= Floor(earliest, at)
    ensures IsRecovery(log, earliest, before, at, messages, approvals, after, last)
  {
    RecoveredIsAccepted(log, earliest, at, last);
    RecoveryShowsEveryTool(log, Floor(earliest, at), before, messages, approvals, last);
    SnapshotIsBuilt(before, messages, approvals, log, Floor(earliest, at), last);
  }

  lemma {:induction false} SliceIncreases(log: seq<Event>, lo: nat, hi: nat)
    requires Increasing(log)
    ensures Increasing(Between(log, lo, hi))
  {
    BetweenIsSlice(log, lo, hi);
  }

  lemma {:induction false} BlocksCopy(rows: seq<Snapshot>)
    ensures CliMeaning.Copies(rows, ToolBlocks(rows))
  {}

  /** A gap snapshot shows what its messages, its approvals and the events of its history say. */
  lemma {:induction false} SnapshotIsBuilt(s: State, messages: seq<(string, string)>, approvals: set<string>,
                                           log: seq<Event>, floor: nat, last: nat)
    requires IsLog(log)
    ensures CliMeaning.BuiltFrom(s, messages, approvals, Between(log, floor, last),
                                 GapSnapshot(s, messages, approvals, Between(log, floor, last), last))
  {
    SliceIncreases(log, floor, last);
    BuiltOf(s, messages, approvals, Between(log, floor, last), last);
  }

  lemma {:induction false} BuiltOf(s: State, messages: seq<(string, string)>, approvals: set<string>,
                                   events: seq<Event>, last: nat)
    requires Increasing(events)
    ensures CliMeaning.BuiltFrom(s, messages, approvals, events, GapSnapshot(s, messages, approvals, events, last))
  {
    var rows := ProjectTools(events);
    var texts, tools := TextBlocks(messages), ToolBlocks(rows);
    assert (texts + tools)[|messages|..] == tools;
    BlocksCopy(rows);
    CliMeaning.CopiesShow(events, tools);
    CliMeaning.ProjectedTodosShow(events);
  }

  // ---------------------------------------------------------------- the synchronizer

  /** What arrives on a connection: the next event, an event already sent, or nothing while the log grows. */
  datatype Frame = NextFrame | RepeatFrame(index: nat) | Pause

  function NextCount(frames: seq<Frame>): nat {
    if frames == [] then 0 else NextCount(frames[..|frames| - 1]) + if frames[|frames| - 1].NextFrame? then 1 else 0
  }

  /** One connection and what the client would find on a gap. `slow`: it ends in a slow-consumer frame. */
  datatype Script = Script(frames: seq<Frame>, slow: bool, messages: seq<(string, string)>, approvals: set<string>)

  /** The server answers a connection with a gap frame instead of a replay. */
  predicate Refused(earliest: nat, cursor: nat) {
    cursor > 0 && earliest > cursor + 1
  }

  /** After a recovery the next connection is not refused exactly when it would not have been
      anyway or some event is still stored. */
  lemma {:induction false} RecoveredIsAccepted(log: seq<Event>, earliest: nat, before: nat, cursor: nat)
    requires before <= cursor &&
             (cursor == before || exists i | 0 <= i < |log| :: Floor(earliest, before) < log[i].sequence == cursor)
    requires forall i | 0 <= i < |log| :: log[i].sequence <= cursor || log[i].sequence <= Floor(earliest, before)
    ensures !Refused(earliest, cursor) <==> !Refused(earliest, before) || StillStored(log, earliest)
  {
    if i :| 0 <= i < |log| && log[i].sequence >= earliest {
      assert log[i].sequence <= cursor || log[i].sequence <= Floor(earliest, before);
    }
  }

  /** Everything known before `pos` is covered or at most the cursor, everything from `pos` on lies above it. */
  ghost predicate Position(log: seq<Event>, from: nat, cursor: nat, start: nat, pos: nat) {
    && start <= pos <= |log|
    && (forall i | 0 <= i < pos && log[i].Known() :: log[i].sequence <= from || log[i].sequence <= cursor)
    && (forall i | start <= i < |log| :: log[i].sequence > from)
    && (forall i | pos <= i < |log| :: log[i].sequence > cursor)
  }

  lemma {:induction false} PositionStep(log: seq<Event>, from: nat, cursor: nat, start: nat, pos: nat)
    requires IsLog(log) && Position(log, from, cursor, start, pos) && pos < |log|
    ensures Position(log, from, if log[pos].Known() then log[pos].sequence else cursor, start, pos + 1)
    ensures log[pos].Known() ==>
              KnownOnly(Between(log, from, log[pos].sequence)) == KnownOnly(Between(log, from, cursor)) + [log[pos]] &&
              log[pos].sequence <= LastSequence(log)
  {
    if log[pos].Known() {
      NextEvent(log, from, cursor, pos);
      LogEnd(log, pos);
    }
  }

  lemma {:induction false} PositionGrows(before: seq<Event>, log: seq<Event>, from: nat, cursor: nat, start: nat,
                                         pos: nat)
    requires Position(before, from, cursor, start, pos) && Grown(before, log) && cursor <= LastSequence(before)
    requires forall i | |before| <= i < |log| :: log[i].sequence > from
    ensures Position(log, from, cursor, start, pos)
    ensures Between(log, from, cursor) == Between(before, from, cursor)
  {
    BetweenGrown(before, log, from, cursor);
    assert forall i | 0 <= i < |before| :: log[i] == before[i];
  }

  // ---------------------------------------------------------------- what one connection does

  /** The log, the cursor and the history of bases at one moment. */
  datatype Stand = Stand(log: seq<Event>, cursor: nat, eras: seq<Era>)

  /** One connection: what it met, how far its stream came, and what it left. The stream carried the events from
      index `start` up to `pos` of the log `streamed`, above sequence `above`, and moved the cursor to `read`. */
  datatype Link = Link(script: Script, earliest: nat, before: Stand, start: nat, pos: nat, above: nat, read: nat,
                       streamed: seq<Event>, after: Stand)

  /** The eras of an accepted connection before any gap. */
  function StreamEras(l: Link): seq<Era> {
    if l.before.cursor == 0 then l.before.eras + [Opened(Floor(l.earliest, 0))] else l.before.eras
  }

  /** The stream began where the cursor or the stored history begins, and came exactly as far as its frames go
      or at least to the end of the log it began with. */
  ghost predicate Streamed(openedAt: nat, l: Link) {
    && l.before.log <= l.streamed <= l.after.log && l.before.cursor <= l.read
    && l.above == FromAfter(openedAt, StreamEras(l))
    && l.start == Upto(l.before.log, Floor(l.earliest, l.before.cursor))
    && l.pos - l.start <= NextCount(l.script.frames)
    && (l.pos >= |l.before.log| || l.pos - l.start == NextCount(l.script.frames))
    && Position(l.streamed, l.above, l.read, l.start, l.pos)
  }

  /** A gap met at cursor `at`: one snapshot with what this script found, or a failed request and no change. */
  ghost predicate Snapshotted(l: Link, at: nat, eras: seq<Era>) {
    || (l.after.eras == eras && l.after.cursor == at)
    || l.after.eras == eras + [Recovered(at, Floor(l.earliest, at), l.script.messages, l.script.approvals,
                                         l.after.cursor)]
  }

  /** What a connection does: a refused one meets a gap, an accepted one streams, and meets a gap at the end of its
      stream exactly when the client is too slow. */
  ghost predicate Linked(openedAt: nat, l: Link) {
    && l.before.log <= l.after.log && l.before.cursor <= l.after.cursor
    && if Refused(l.earliest, l.before.cursor) then Snapshotted(l, l.before.cursor, l.before.eras)
       else
         && Streamed(openedAt, l)
         && if l.script.slow then Snapshotted(l, l.read, StreamEras(l))
            else l.after.eras == StreamEras(l) && l.after.cursor == l.read
  }

  lemma {:induction false} SlowEnd(openedAt: nat, streamed: Link, after: Stand, link: Link)
    requires Streamed(openedAt, streamed) && !Refused(streamed.earliest, streamed.before.cursor) && streamed.script.slow
    requires streamed.after.log <= after.log && streamed.read <= after.cursor
    requires link == streamed.(after := after) && Snapshotted(link, link.read, StreamEras(link))
    ensures Linked(openedAt, link)
  {}

  /** One link per script, and every connection begins where the one before it ended, apart from history
      dropped in between. */
  ghost predicate Chain(openedAt: nat, scripts: seq<Script>, links: seq<Link>, earliest: nat, first: Stand, last: Stand)
  {
    && |links| == |scripts|
    && if links == [] then first == last
       else
         var n := |links| - 1;
         && links[n].script == scripts[n] && Linked(openedAt, links[n])
         && links[n].earliest <= earliest && links[n].after == last
         && Chain(openedAt, scripts[..n], links[..n], links[n].earliest, first, links[n].before)
  }

  lemma {:induction false} ChainStep(openedAt: nat, scripts: seq<Script>, k: nat, links: seq<Link>, first: Stand,
                                     link: Link, earliest: nat)
    requires k < |scripts| && Chain(openedAt, scripts[..k], links, link.earliest, first, link.before)
    requires Linked(openedAt, link) && link.script == scripts[k] && link.earliest <= earliest
    ensures Chain(openedAt, scripts[..k + 1], links + [link], earliest, first, link.after)
  {
    assert (links + [link])[..|links|] == links && scripts[..k + 1][..k] == scripts[..k];
  }

  lemma {:induction false} ChainGrows(openedAt: nat, scripts: seq<Script>, links: seq<Link>, earliest: nat,
                                      first: Stand, last: Stand)
    requires Chain(openedAt, scripts, links, earliest, first, last)
    ensures first.log <= last.log && first.cursor <= last.cursor && first.eras <= last.eras
  {
    if links != [] {
      var n := |links| - 1;
      ChainGrows(openedAt, scripts[..n], links[..n], links[n].earliest, first, links[n].before);
    }
  }

  /** A snapshot was taken by a connection that met a gap, with what its script found. */
  ghost predicate HasGap(links: seq<Link>, era: Era) {
    era.Recovered? ==> exists k | 0 <= k < |links| :: TookSnapshot(links[k], era)
  }

  ghost predicate TookSnapshot(l: Link, era: Era)
    requires era.Recovered?
  {
    && (Refused(l.earliest, l.before.cursor) || l.script.slow)
    && era.messages == l.script.messages && era.approvals == l.script.approvals
    && era.floor == Floor(l.earliest, era.at)
  }

  /** No snapshot without a gap: every snapshot a chain of connections adds belongs to one that was refused or
      too slow. */
  lemma {:induction false} EverySnapshotHasItsGap(openedAt: nat, scripts: seq<Script>, links: seq<Link>, earliest: nat,
                                                  first: Stand, last: Stand)
    requires Chain(openedAt, scripts, links, earliest, first, last)
    ensures first.eras <= last.eras && forall i | |first.eras| <= i < |last.eras| :: HasGap(links, last.eras[i])
  {
    if links != [] {
      var n := |links| - 1;
      var l := links[n];
      EverySnapshotHasItsGap(openedAt, scripts[..n], links[..n], l.earliest, first, l.before);
      forall i | |first.eras| <= i < |last.eras| ensures HasGap(links, last.eras[i]) {
        if i < |l.before.eras| {
          assert last.eras[i] == l.before.eras[i];
          GapStays(links, n, last.eras[i]);
        } else if last.eras[i].Recovered? {
          assert TookSnapshot(links[n], last.eras[i]);
        }
      }
    }
  }

  lemma {:induction false} GapStays(links: seq<Link>, n: nat, era: Era)
    requires n <= |links| && HasGap(links[..n], era)
    ensures HasGap(links, era)
  {
    if era.Recovered? {
      var k :| 0 <= k < n && TookSnapshot(links[..n][k], era);
      assert links[..n][k] == links[k];
    }
  }

  class SessionSynchronizer {
    const server: Server
    var cursor: nat
    var paused: bool
    /** The host's reduced state. */
    var state: State
    /** What the projection was built from: the state at the latest snapshot, the sequence it
        covers, and the events reduced since. */
    ghost var base: State
    ghost var from: nat
    ghost var reduced: seq<Event>
    /** The state and cursor the session was opened with, and every change of the base since. */
    ghost const opening: State
    ghost const openedAt: nat
    ghost var eras: seq<Era>

    /** The projection is its base plus every known event above it, each reduced once and in
        order, up to the cursor; and the base is what the eras make of the opening state. */
    ghost predicate Synced()
      reads this, server
    {
      server.Valid() && InSync(server.log, server.earliest, opening, openedAt, eras, base, from, reduced, cursor, state)
    }

    ghost predicate Valid()
      reads this, server
    {
      Synced() && !paused
    }

    /** A session opened with a projection that stands at the stored cursor. */
    constructor (server: Server, cursor: nat, state: State)
      requires server.Valid() && cursor == state.lastSequence && cursor <= LastSequence(server.log)
      ensures this.server == server && this.cursor == cursor && this.state == state && Valid()
      ensures opening == state && openedAt == cursor && eras == []
    {
      this.server, this.cursor, this.state, paused := server, cursor, state, false;
      base, from, reduced := state, cursor, [];
      opening, openedAt, eras := state, cursor, [];
      new;
      EmptyInterval(server.log, cursor, cursor);
    }

    /** `onEvent`: repeated and old events are dropped before the reducer sees them. */
    method OnEvent(e: Event)
      requires cursor == state.lastSequence
      modifies this`cursor, this`state, this`reduced
      ensures cursor == state.lastSequence
      ensures paused || e.sequence <= old(cursor) ==>
              cursor == old(cursor) && state == old(state) && reduced == old(reduced)
      ensures !paused && e.sequence > old(cursor) ==>
                cursor == e.sequence && state == Reduce(old(state), e) && reduced == old(reduced) + [e]
    {
      if paused { return; }
      if e.sequence <= cursor { return; }
      state := Reduce(state, e);
      reduced := reduced + [e];
      cursor := e.sequence;
    }

    /** `computeAuthoritativeSequence`. */
    method AuthoritativeSequence(events: seq<Event>) returns (last: nat)
      ensures last >= cursor && (forall i :: 0 <= i < |events| ==> events[i].sequence <= last)
      ensures last == cursor || exists i :: 0 <= i < |events| && events[i].sequence == last
    {
      last := cursor;
      for i := 0 to |events|
        invariant last >= cursor && (forall j :: 0 <= j < i ==> events[j].sequence <= last)
        invariant last == cursor || exists j :: 0 <= j < i && events[j].sequence == last
      {
        if events[i].sequence > last { last := events[i].sequence; }
      }
    }

    /** `events` are those stored above the cursor and not above `after`. */
    ghost predicate Fetched(events: seq<Event>, after: nat)
      reads this, server
    {
      var low := Floor(server.earliest, cursor);
      && server.Valid() && after >= cursor && events == Between(server.log, low, after)
      && (after == cursor || (low < after <= LastSequence(server.log) && events != [] &&
                              events[|events| - 1].sequence == after))
    }

    method FetchPage(events: seq<Event>, after: nat) returns (longer: seq<Event>, next: nat, more: bool)
      requires Fetched(events, after)
      ensures Fetched(longer, next)
      ensures more ==> Upto(server.log, after) < Upto(server.log, next)
      ensures !more ==> forall i | 0 <= i < |server.log| ::
                server.log[i].sequence <= next || server.log[i].sequence <= Floor(server.earliest, cursor)
    {
      ghost var low := Floor(server.earliest, cursor);
      var page := server.ListEvents(after);
      longer, next, more := events + page.items, page.nextAfter, page.hasMore && page.items != [];
      if after == cursor {
        EmptyInterval(server.log, low, cursor);
      } else {
        BetweenJoins(server.log, low, after, next);
      }
    }

    /** The log may go on growing between two pages. */
    method LetGrow(ghost events: seq<Event>, after: nat)
      requires Fetched(events, after) && after <= LastSequence(server.log)
      modifies server`log
      ensures Fetched(events, after) && Grown(old(server.log), server.log)
    {
      ghost var before, low := server.log, Floor(server.earliest, cursor);
      server.Grow();
      BetweenGrown(before, server.log, low, after);
    }

    /** `fetchAllEvents`: every page after the cursor. The events are all those stored above
        the cursor when the last page is read. */
    method FetchAllEvents() returns (events: seq<Event>, ghost last: nat)
      requires server.Valid() && cursor <= LastSequence(server.log)
      modifies server`log
      ensures Fetched(events, last) && Grown(old(server.log), server.log)
      ensures forall i | 0 <= i < |server.log| ::
                server.log[i].sequence <= last || server.log[i].sequence <= Floor(server.earliest, cursor)
    {
      events := [];
      var after: nat, growth: nat, more := cursor, *, true;
      last := after;
      EmptyInterval(server.log, Floor(server.earliest, cursor), cursor);
      while more
        invariant Fetched(events, after) && after == last && after <= LastSequence(server.log)
        invariant Grown(old(server.log), server.log)
        invariant !more ==> forall i | 0 <= i < |server.log| ::
                    server.log[i].sequence <= last || server.log[i].sequence <= Floor(server.earliest, cursor)
        decreases more, growth, |server.log| - Upto(server.log, after)
      {
        events, after, more := FetchPage(events, after);
        last := after;
        if more && growth > 0 {
          growth := growth - 1;
          ghost var before := server.log;
          LetGrow(events, after);
          GrownTransitively(old(server.log), before, server.log);
        }
      }
    }

    /** `fetchAuthoritativeSnapshot`: the events and the last sequence they reach. */
    method FetchSnapshot() returns (events: seq<Event>, last: nat)
      requires server.Valid() && cursor <= LastSequence(server.log)
      modifies server`log
      ensures Fetched(events, last) && Grown(old(server.log), server.log)
      ensures forall i | 0 <= i < |server.log| ::
                server.log[i].sequence <= last || server.log[i].sequence <= Floor(server.earliest, cursor)
      ensures last <= LastSequence(server.log)
    {
      ghost var reached: nat;
      events, reached := FetchAllEvents();
      last := AuthoritativeSequence(events);
      if events != [] { BetweenLast(server.log, Floor(server.earliest, cursor), reached); }
      assert last == reached;
    }

    /** `recoverFromGap`: replace the projection by a snapshot and move the cursor to the
        last event the snapshot covers. A failed request changes nothing. */
    method RecoverFromGap(messages: seq<(string, string)>, approvals: set<string>) returns (ok: bool)
      requires Synced()
      modifies this, server`log
      ensures Synced() && Grown(old(server.log), server.log)
      ensures paused == old(paused) && cursor >= old(cursor)
      ensures !ok ==> cursor == old(cursor) && state == old(state) && eras == old(eras)
      ensures ok ==>
              eras == old(eras) + [Recovered(old(cursor), Floor(server.earliest, old(cursor)), messages, approvals,
                                             cursor)]
      ensures ok ==>
              IsRecovery(server.log, server.earliest, old(state), old(cursor), messages, approvals, state, cursor)
    {
      if * { return false; }
      Recover(messages, approvals);
      ok := true;
    }

    /** The same when every request is answered. */
    method Recover(messages: seq<(string, string)>, approvals: set<string>)
      requires Synced()
      modifies this, server`log
      ensures Synced() && Grown(old(server.log), server.log)
      ensures paused == old(paused) && cursor >= old(cursor)
      ensures eras == old(eras) + [Recovered(old(cursor), Floor(server.earliest, old(cursor)), messages, approvals,
                                             cursor)]
      ensures IsRecovery(server.log, server.earliest, old(state), old(cursor), messages, approvals, state, cursor)
    {
      ghost var before, at := state, cursor;
      var events, sequence := TakeSnapshot();
      HandleGapSnapshot(messages, approvals, events, sequence);
      RecoveryIs(server.log, server.earliest, before, at, messages, approvals, sequence, state);
    }

    /** `handleGapSnapshot`. */
    method HandleGapSnapshot(messages: seq<(string, string)>, approvals: set<string>, events: seq<Event>, last: nat)
      requires Synced() && events == Between(server.log, Floor(server.earliest, cursor), last) &&
               cursor <= last <= LastSequence(server.log)
      requires last == cursor || exists i | 0 <= i < |server.log| ::
                 Floor(server.earliest, cursor) < server.log[i].sequence == last
      modifies this`state, this`cursor, this`base, this`from, this`reduced, this`eras
      ensures Synced() && cursor == last
      ensures eras == old(eras) +
              [Recovered(old(cursor), Floor(server.earliest, old(cursor)), messages, approvals, last)]
      ensures state == GapSnapshot(old(state), messages, approvals, events, last)
    {
      ghost var era := Recovered(cursor, Floor(server.earliest, cursor), messages, approvals, last);
      var snapshot := GapSnapshot(state, messages, approvals, events, last);
      SnapshotInSync(server.log, server.earliest, opening, openedAt, eras, base, from, reduced, cursor, state, era,
                     snapshot);
      Restart(snapshot, era);
    }

    /** The snapshot's events, while the projection stands still. */
    method TakeSnapshot() returns (events: seq<Event>, last: nat)
      requires Synced()
      modifies server`log
      ensures Synced() && Grown(old(server.log), server.log)
      ensures cursor <= last <= LastSequence(server.log) &&
              events == Between(server.log, Floor(server.earliest, cursor), last)
      ensures last == cursor || exists i | 0 <= i < |server.log| ::
                Floor(server.earliest, cursor) < server.log[i].sequence == last
      ensures forall i | 0 <= i < |server.log| ::
                server.log[i].sequence <= last || server.log[i].sequence <= Floor(server.earliest, cursor)
    {
      ghost var before := server.log;
      events, last := FetchSnapshot();
      ProvenanceGrown(before, server.log, server.earliest, server.earliest, opening, openedAt, eras, base, from);
      BetweenGrown(before, server.log, from, cursor);
      LastIsInLog(server.log, Floor(server.earliest, cursor), last);
    }

    /** The snapshot takes the place of the projection. */
    method Restart(snapshot: State, ghost era: Era)
      requires server.Valid() && era.Recovered? && snapshot.lastSequence == era.sequence
      requires InSync(server.log, server.earliest, opening, openedAt, eras + [era], snapshot, era.sequence, [],
                      era.sequence, snapshot)
      modifies this`state, this`cursor, this`base, this`from, this`reduced, this`eras
      ensures Synced() && state == snapshot && cursor == era.sequence && eras == old(eras) + [era]
    {
      state := snapshot;
      cursor := snapshot.lastSequence;
      base, from, reduced, eras := snapshot, cursor, [], eras + [era];
    }

    /** `onGap`: nothing is reduced while the snapshot is fetched. */
    method OnGap(messages: seq<(string, string)>, approvals: set<string>)
      requires Valid()
      modifies this, server`log
      ensures Valid() && cursor >= old(cursor) && old(server.log) <= server.log
      ensures old(eras) <= eras && |eras| <= |old(eras)| + 1
      ensures eras == old(eras) ||
              eras == old(eras) + [Recovered(old(cursor), Floor(server.earliest, old(cursor)), messages, approvals,
                                             cursor)]
      ensures eras == old(eras) ==> cursor == old(cursor) && state == old(state)
    {
      paused := true;
      var _ := RecoverFromGap(messages, approvals);
      paused := false;
    }

    /** A connection has delivered the events from index `start` up to `pos`. */
    ghost predicate Connected(start: nat, pos: nat)
      reads this, server
    {
      Valid() && Position(server.log, from, cursor, start, pos)
    }

    /** The server's replay starts right above the cursor, or where the history still starts
        for a client that never had a cursor. */
    method Connect() returns (start: nat)
      requires Valid() && !Refused(server.earliest, cursor)
      modifies this`from, this`reduced, this`eras
      ensures Connected(start, start) && start == Upto(server.log, Floor(server.earliest, cursor))
      ensures from == FromAfter(openedAt, eras)
      ensures eras == if cursor == 0 then old(eras) + [Opened(Floor(server.earliest, 0))] else old(eras)
    {
      start := server.IndexAfter(Floor(server.earliest, cursor));
      UptoSplits(server.log, Floor(server.earliest, cursor));
      if cursor == 0 {
        var floor := Floor(server.earliest, 0);
        ProvenanceExtended(server.log, server.earliest, opening, openedAt, eras, base, from, Opened(floor), 0);
        EmptyInterval(server.log, from, 0);
        from, eras := floor, eras + [Opened(floor)];
        EmptyInterval(server.log, from, 0);
      }
    }

    /** The next event of the stream. */
    method Deliver(start: nat, pos: nat)
      requires Connected(start, pos) && pos < |server.log|
      modifies this`cursor, this`state, this`reduced
      ensures Connected(start, pos + 1) && cursor >= old(cursor)
    {
      var e := server.log[pos];
      PositionStep(server.log, from, cursor, start, pos);
      if e.Known() {
        ReplayOne(base, reduced, e);
        OnEvent(e);
      }
    }

    /** An event that was delivered before arrives again. */
    method Repeat(start: nat, pos: nat, i: nat)
      requires Connected(start, pos) && start <= i < pos
      modifies this`cursor, this`state, this`reduced
      ensures Connected(start, pos) && cursor == old(cursor) && state == old(state) && reduced == old(reduced)
    {
      if server.log[i].Known() { OnEvent(server.log[i]); }
    }

    method GrowConnected(start: nat, pos: nat)
      requires Connected(start, pos)
      modifies server`log
      ensures Connected(start, pos) && Grown(old(server.log), server.log)
    {
      ghost var before := server.log;
      server.Grow();
      PositionGrows(before, server.log, from, cursor, start, pos);
      ProvenanceGrown(before, server.log, server.earliest, server.earliest, opening, openedAt, eras, base, from);
    }

    /** One frame of a connection. */
    method Arrive(frame: Frame, start: nat, pos: nat) returns (next: nat)
      requires Connected(start, pos)
      modifies this`cursor, this`state, this`reduced, server`log
      ensures Connected(start, next) && cursor >= old(cursor) && old(server.log) <= server.log
      ensures next == if frame.NextFrame? && pos < |old(server.log)| then pos + 1 else pos
    {
      next := pos;
      match frame {
        case NextFrame =>
          if pos < |server.log| {
            Deliver(start, pos);
            next := pos + 1;
          }
        case RepeatFrame(index) =>
          if start <= index < pos { Repeat(start, pos, index); }
        case Pause =>
          GrowConnected(start, pos);
      }
    }

    /** The replay and live part of a connection: every event of the log from `start` on, in
        order, as far as the frames go. */
    method Stream(frames: seq<Frame>) returns (ghost start: nat, ghost pos: nat)
      requires Valid() && !Refused(server.earliest, cursor)
      modifies this`cursor, this`state, this`from, this`reduced, this`eras, server`log
      ensures Connected(start, pos) && cursor >= old(cursor) && old(server.log) <= server.log
      ensures start == Upto(old(server.log), Floor(server.earliest, old(cursor)))
      ensures pos >= |old(server.log)| || pos - start == NextCount(frames)
      ensures pos - start <= NextCount(frames)
      ensures from == FromAfter(openedAt, eras)
      ensures eras == if old(cursor) == 0 then old(eras) + [Opened(Floor(server.earliest, 0))] else old(eras)
    {
      var first := Connect();
      pos := ArriveAll(frames, first);
      start := first;
    }

    method ArriveAll(frames: seq<Frame>, start: nat) returns (pos: nat)
      requires Connected(start, start)
      modifies this`cursor, this`state, this`reduced, server`log
      ensures server.Valid() && Connected(start, pos) && cursor >= old(cursor) && old(server.log) <= server.log
      ensures pos >= |old(server.log)| || pos - start == NextCount(frames)
      ensures pos - start <= NextCount(frames)
    {
      pos := start;
      for k := 0 to |frames|
        invariant Connected(start, pos) && cursor >= old(cursor) && old(server.log) <= server.log
        invariant pos >= |old(server.log)| || pos - start == NextCount(frames[..k])
        invariant pos - start <= NextCount(frames[..k])
      {
        assert frames[..k + 1][..k] == frames[..k];
        pos := Arrive(frames[k], start, pos);
      }
      assert frames[..|frames|] == frames;
    }

    ghost function Here(): Stand
      reads this, server
    {
      Stand(server.log, cursor, eras)
    }

    /** One connection. After a gap frame the server closes. Without a gap the base stays, and
        everything the connection carried is reduced; a gap adds at most one snapshot. */
    method Connection(script: Script) returns (ghost link: Link)
      requires Valid()
      modifies this, server`log
      ensures Valid() && Linked(openedAt, link) && link.script == script && link.earliest == server.earliest
      ensures link.before == old(Here()) && link.after == Here()
      ensures !Refused(server.earliest, old(cursor)) && !script.slow ==>
                base == old(base) && Connected(link.start, link.pos)
    {
      if Refused(server.earliest, cursor) {
        link := TurnedAway(script);
      } else {
        link := Accepted(script);
      }
    }

    /** The server answers with a gap frame. */
    method TurnedAway(script: Script) returns (ghost link: Link)
      requires Valid() && Refused(server.earliest, cursor)
      modifies this, server`log
      ensures Valid() && Linked(openedAt, link) && link.script == script && link.earliest == server.earliest
      ensures link.before == old(Here()) && link.after == Here()
    {
      OnGap(script.messages, script.approvals);
      link := Link(script, server.earliest, old(Here()), 0, 0, 0, 0, [], Here());
    }

    /** A connection the server accepts; a client that is too slow is sent a gap frame at its end. */
    method Accepted(script: Script) returns (ghost link: Link)
      requires Valid() && !Refused(server.earliest, cursor)
      modifies this, server`log
      ensures Valid() && Linked(openedAt, link) && link.script == script && link.earliest == server.earliest
      ensures link.before == old(Here()) && link.after == Here()
      ensures !script.slow ==> base == old(base) && Connected(link.start, link.pos)
    {
      link := StreamLink(script);
      if script.slow { link := EndSlow(script, link); }
    }

    /** The gap frame a slow client gets. */
    method EndSlow(script: Script, ghost streamed: Link) returns (ghost link: Link)
      requires Valid() && Streamed(openedAt, streamed) && streamed.after == Here()
      requires streamed.script == script && script.slow
      requires eras == StreamEras(streamed) && cursor == streamed.read
      requires !Refused(streamed.earliest, streamed.before.cursor) && streamed.earliest == server.earliest
      modifies this, server`log
      ensures Valid() && Linked(openedAt, link) && link == streamed.(after := Here())
    {
      OnGap(script.messages, script.approvals);
      link := streamed.(after := Here());
      SlowEnd(openedAt, streamed, Here(), link);
    }

    /** The stream of an accepted connection. */
    method StreamLink(script: Script) returns (ghost link: Link)
      requires Valid() && !Refused(server.earliest, cursor)
      modifies this, server`log
      ensures Valid() && base == old(base) && Connected(link.start, link.pos)
      ensures Streamed(openedAt, link) && eras == StreamEras(link) && cursor == link.read
      ensures link.script == script && link.earliest == server.earliest
      ensures link.before == old(Here()) && link.after == Here()
      ensures !script.slow ==> Linked(openedAt, link)
    {
      ghost var start, pos := Stream(script.frames);
      link := Link(script, server.earliest, old(Here()), start, pos, from, cursor, server.log, Here());
    }

    /** Any number of connections, with retention dropping history in between. Through all of it the projection
        is the fold of its eras over the log, the cursor never goes back, and the chain of links says what every
        single connection did. */
    method Synchronize(scripts: seq<Script>) returns (ghost links: seq<Link>)
      requires Valid()
      modifies this, server
      ensures Valid() && cursor >= old(cursor) && old(eras) <= eras && old(server.log) <= server.log
      ensures state == StateAt(server.log, opening, openedAt, eras, cursor)
      ensures Chain(openedAt, scripts, links, server.earliest, old(Here()), Here())
    {
      links := ConnectAll(scripts);
      ChainGrows(openedAt, scripts, links, server.earliest, old(Here()), Here());
    }

    method ConnectAll(scripts: seq<Script>) returns (ghost links: seq<Link>)
      requires Valid()
      modifies this, server
      ensures Valid() && Chain(openedAt, scripts, links, server.earliest, old(Here()), Here())
    {
      links := [];
      ghost var first := Here();
      var k := 0;
      while k < |scripts|
        invariant k <= |scripts| && Valid() && Chain(openedAt, scripts[..k], links, server.earliest, first, Here())
      {
        links := NextConnection(scripts, k, links, first);
        k := k + 1;
      }
      assert scripts[..|scripts|] == scripts;
    }

    /** One connection, and then retention. */
    method NextConnection(scripts: seq<Script>, k: nat, ghost links: seq<Link>, ghost first: Stand)
      returns (ghost more: seq<Link>)
      requires k < |scripts| && Valid() && Chain(openedAt, scripts[..k], links, server.earliest, first, Here())
      modifies this, server
      ensures Valid() && Chain(openedAt, scripts[..k + 1], more, server.earliest, first, Here())
    {
      ghost var link := Connection(scripts[k]);
      Retain();
      ChainStep(openedAt, scripts, k, links, first, link, server.earliest);
      more := links + [link];
    }

    /** Retention drops history; the session does not notice. */
    method Retain()
      requires Valid()
      modifies server`earliest
      ensures Valid() && Here() == old(Here()) && server.earliest >= old(server.earliest)
    {
      ghost var earliest := server.earliest;
      server.Prune();
      ProvenanceGrown(server.log, server.log, earliest, server.earliest, opening, openedAt, eras, base, from);
    }
  }

  // ---------------------------------------------------------------- what a recovery shows

  lemma {:induction false} RowsAreNamed(log: seq<Event>)
    ensures forall id :: Named(log, id) <==> exists i | 0 <= i < |ProjectAll(log)| :: ProjectAll(log)[i].toolId == id
  {
    ProjectViews(log);
    IdealRows(log);
    var rows, ideal := ProjectAll(log), Ideal(log);
    assert |rows| == |ideal|;
    forall i | 0 <= i < |rows| ensures rows[i].toolId == ideal[i].toolId {
      assert SnapshotViews(rows)[i] == HistoryViews(ideal)[i];
    }
    forall id | Named(log, id) ensures exists i | 0 <= i < |rows| :: rows[i].toolId == id {
      assert rows[FindIdeal(ideal, id)].toolId == id;
    }
  }

  /** A transcript has a row for this tool. */
  ghost predicate ShowsTool(items: seq<Item>, id: string) {
    exists i | 0 <= i < |items| :: IsTool(items[i], id)
  }

  /** The tool has an event above `floor`. */
  ghost predicate NamedAbove(log: seq<Event>, floor: nat, id: string) {
    exists i | 0 <= i < |log| :: log[i].sequence > floor && Concerns(log[i], id)
  }

  lemma {:induction false} SnapshotShows(s: State, messages: seq<(string, string)>, approvals: set<string>,
                                         events: seq<Event>, sequence: nat, id: string)
    requires Increasing(events)
    ensures ShowsTool(GapSnapshot(s, messages, approvals, events, sequence).messages, id) <==> Named(events, id)
  {
    var texts, rows := TextBlocks(messages), ProjectTools(events);
    var items := texts + ToolBlocks(rows);
    AnyOrderIsTheLog(events, events);
    RowsAreNamed(events);
    RowsShow(texts, rows, id);
    assert GapSnapshot(s, messages, approvals, events, sequence).messages == items;
  }

  lemma {:induction false} RowsShow(texts: seq<Item>, rows: seq<Snapshot>, id: string)
    requires forall i | 0 <= i < |texts| :: texts[i].TextBlock?
    ensures ShowsTool(texts + ToolBlocks(rows), id) <==> exists i | 0 <= i < |rows| :: rows[i].toolId == id
  {
    var items := texts + ToolBlocks(rows);
    if i :| 0 <= i < |rows| && rows[i].toolId == id { assert IsTool(items[|texts| + i], id); }
    if i :| 0 <= i < |items| && IsTool(items[i], id) { assert rows[i - |texts|].toolId == id; }
  }

  lemma {:induction false} NamedBetween(log: seq<Event>, floor: nat, last: nat, id: string)
    requires Increasing(log) && forall i | 0 <= i < |log| :: log[i].sequence <= last || log[i].sequence <= floor
    ensures Named(Between(log, floor, last), id) <==> NamedAbove(log, floor, id)
  {
    BetweenIsSlice(log, floor, last);
    UptoSplits(log, floor);
    var above := Between(log, floor, last);
    if floor <= last {
      UptoIs(log, last, |log|);
      var k := Upto(log, floor);
      if Named(above, id) {
        var i :| 0 <= i < |above| && Concerns(above[i], id);
        assert above[i] == log[k + i];
      }
      if i :| 0 <= i < |log| && log[i].sequence > floor && Concerns(log[i], id) {
        assert above[i - k] == log[i];
      }
    }
  }

  /** A recovery reads history from the cursor, or from where the stored history starts, not from
      the beginning: it shows every tool of the session exactly when every tool has an event above that floor. */
  lemma {:induction false} RecoveryShowsEveryTool(log: seq<Event>, floor: nat, s: State,
                                                  messages: seq<(string, string)>, approvals: set<string>, last: nat)
    requires Increasing(log) && forall i | 0 <= i < |log| :: log[i].sequence <= last || log[i].sequence <= floor
    ensures var shown := GapSnapshot(s, messages, approvals, Between(log, floor, last), last).messages;
            ShowsEveryTool(log, shown) <==> EveryToolAbove(log, floor)
  {
    var above := Between(log, floor, last);
    BetweenIsSlice(log, floor, last);
    forall id ensures ShowsTool(GapSnapshot(s, messages, approvals, above, last).messages, id) <==>
        NamedAbove(log, floor, id) {
      SnapshotShows(s, messages, approvals, above, last, id);
      NamedBetween(log, floor, last, id);
    }
  }

  lemma {:induction false} LastOfTwo(log: seq<Event>, lo: nat, hi: nat)
    requires |log| == 2 && log[0].sequence <= lo < log[1].sequence <= hi
    ensures Between(log, lo, hi) == [log[1]]
  {
    BetweenIsSlice(log, lo, hi);
    UptoIs(log, lo, 1);
    UptoIs(log, hi, 2);
  }

  /** A tool with an event above the old cursor can vanish, because that event is no longer
      stored: cursor 3, history stored from 10 on, one tool at 5 and another at 12. */
  lemma {:induction false} PrunedToolVanishes(s: State, messages: seq<(string, string)>, approvals: set<string>)
      returns (log: seq<Event>, id: string)
    ensures IsLog(log) && Refused(10, 3) && NamedAbove(log, 3, id)
    ensures !ShowsTool(GapSnapshot(s, messages, approvals, Between(log, Floor(10, 3), 12), 12).messages, id)
  {
    id := "t";
    var gone := Event(5, Tool(Started, NO_FIELDS.(toolId := Text("t"))));
    var other := Event(12, Tool(Started, NO_FIELDS.(toolId := Text("u"))));
    log := [gone, other];
    assert log[0].sequence > 3 && Concerns(log[0], id);
    LastOfTwo(log, 9, 12);
    OtherToolOnly(s, messages, approvals, other, 12, id);
  }

  lemma {:induction false} OtherToolOnly(s: State, messages: seq<(string, string)>, approvals: set<string>, e: Event,
                                         last: nat, id: string)
    requires !Concerns(e, id)
    ensures !ShowsTool(GapSnapshot(s, messages, approvals, [e], last).messages, id)
  {
    SnapshotShows(s, messages, approvals, [e], last, id);
  }
}
