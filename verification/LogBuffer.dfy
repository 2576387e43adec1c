/** The bounded log buffer of the web client. */
module LogBuffer {
  import opened Wrappers

  datatype Record = Record(logId: string, cursor: Option<string>, text: string)

  datatype Buffer = Buffer(records: seq<Record>, cursor: Option<string>, dropped: nat, paused: bool, unread: nat)

  const EMPTY := Buffer([], None, 0, false, 0)

  /** `cursor` is None when the action leaves it out. */
  datatype Action =
    | Append(record: Record, cursor: Option<Option<string>>)
    | AppendMany(records: seq<Record>, cursor: Option<Option<string>>)
    | Prepend(records: seq<Record>, cursor: Option<Option<string>>)
    | SetPaused(paused: bool)
    | Resume
    | MarkRead
    | Clear

  predicate Knows(records: seq<Record>, id: string) {
    exists i :: 0 <= i < |records| && records[i].logId == id
  }

  /** The incoming records whose ids the buffer does not hold. */
  function Unknown(incoming: seq<Record>, known: seq<Record>): seq<Record> {
    if incoming == [] then []
    else
      var last := incoming[|incoming| - 1];
      Unknown(incoming[..|incoming| - 1], known) + if Knows(known, last.logId) then [] else [last]
  }

  /** `slice(dropped)`: the last `limit` records. */
  function LastOf(records: seq<Record>, limit: nat): seq<Record> {
    if |records| <= limit then records else records[|records| - limit..]
  }

  function Excess(records: seq<Record>, limit: nat): nat {
    if |records| <= limit then 0 else |records| - limit
  }

  function Incoming(a: Action): seq<Record> {
    match a
    case Append(r, _) => [r]
    case AppendMany(rs, _) => rs
    case Prepend(rs, _) => rs
    case _ => []
  }

  /** What an action adds: the records it brings that the buffer does not hold yet. */
  function Accepted(s: Buffer, a: Action): seq<Record> {
    Unknown(Incoming(a), s.records)
  }

  function Reduce(s: Buffer, a: Action, limit: nat): Buffer {
    match a
    case SetPaused(paused) => s.(paused := paused, unread := if paused then s.unread else 0)
    case Resume => s.(paused := false, unread := 0)
    case MarkRead => s.(unread := 0)
    case Clear => EMPTY.(paused := s.paused)
    case _ =>
      var accepted := Accepted(s, a);
      if accepted == [] then s.(cursor := if a.cursor.None? then s.cursor else a.cursor.value)
      else
        var all := if a.Prepend? then accepted + s.records else s.records + accepted;
        var last := accepted[|accepted| - 1].cursor;
        Buffer(
          LastOf(all, limit),
          if a.cursor.Some? then a.cursor.value else if last.Some? then last else s.cursor,
          s.dropped + Excess(all, limit),
          s.paused,
          if s.paused && !a.Prepend? then s.unread + |accepted| else s.unread)
  }

  function Run(s: Buffer, actions: seq<Action>, limit: nat): Buffer {
    if actions == [] then s else Reduce(Run(s, actions[..|actions| - 1], limit), actions[|actions| - 1], limit)
  }

  // ---------------------------------------------------------------- over all runs

  /** How many records were accepted since the last clear. */
  function AcceptedCount(actions: seq<Action>, limit: nat): nat {
    if actions == [] then 0
    else
      var init, last := actions[..|actions| - 1], actions[|actions| - 1];
      if last.Clear? then 0 else AcceptedCount(init, limit) + |Accepted(Run(EMPTY, init, limit), last)|
  }

  lemma {:induction false} ReduceConserves(s: Buffer, a: Action, limit: nat)
    requires |s.records| <= limit
    ensures |Reduce(s, a, limit).records| <= limit
    ensures Reduce(s, a, limit).dropped + |Reduce(s, a, limit).records| == if a.Clear? then 0
            else s.dropped + |s.records| + |Accepted(s, a)|
  {}

  /** The buffer never outgrows the limit, and no accepted record goes uncounted: it is held
      or was dropped. */
  lemma {:induction false} BoundedAndConserved(actions: seq<Action>, limit: nat)
    ensures |Run(EMPTY, actions, limit).records| <= limit
    ensures Run(EMPTY, actions, limit).dropped + |Run(EMPTY, actions, limit).records| == AcceptedCount(actions, limit)
  {
    if actions != [] {
      var init := actions[..|actions| - 1];
      BoundedAndConserved(init, limit);
      ReduceConserves(Run(EMPTY, init, limit), actions[|actions| - 1], limit);
    }
  }

  ghost predicate DistinctIds(records: seq<Record>) {
    forall i, j | 0 <= i < j < |records| :: records[i].logId != records[j].logId
  }

  lemma {:induction false} UnknownExact(incoming: seq<Record>, known: seq<Record>)
    ensures forall r :: r in Unknown(incoming, known) <==> r in incoming && !Knows(known, r.logId)
    ensures DistinctIds(incoming) ==> DistinctIds(Unknown(incoming, known))
  {
    if incoming != [] {
      var init, last := incoming[..|incoming| - 1], incoming[|incoming| - 1];
      UnknownExact(init, known);
      assert incoming == init + [last];
      if DistinctIds(incoming) {
        forall i | 0 <= i < |Unknown(init, known)| ensures Unknown(init, known)[i].logId != last.logId {
          assert Unknown(init, known)[i] in Unknown(init, known);
          assert Unknown(init, known)[i] in init;
        }
      }
    }
  }

  lemma {:induction false} JoinDistinct(a: seq<Record>, b: seq<Record>)
    requires DistinctIds(a) && DistinctIds(b) && forall i, j | 0 <= i < |a| && 0 <= j < |b| :: a[i].logId != b[j].logId
    ensures DistinctIds(a + b)
  {}

  lemma {:induction false} LastOfDistinct(records: seq<Record>, limit: nat)
    requires DistinctIds(records)
    ensures DistinctIds(LastOf(records, limit))
  {}

  /** Ids stay unique as long as no single batch repeats one. */
  lemma {:induction false} IdsStayUnique(actions: seq<Action>, limit: nat)
    requires forall i | 0 <= i < |actions| :: DistinctIds(Incoming(actions[i]))
    ensures DistinctIds(Run(EMPTY, actions, limit).records)
  {
    if actions != [] {
      var init, last := actions[..|actions| - 1], actions[|actions| - 1];
      IdsStayUnique(init, limit);
      var s := Run(EMPTY, init, limit);
      var accepted := Accepted(s, last);
      UnknownExact(Incoming(last), s.records);
      forall i, j | 0 <= i < |s.records| && 0 <= j < |accepted| ensures s.records[i].logId != accepted[j].logId {
        assert accepted[j] in accepted;
      }
      JoinDistinct(s.records, accepted);
      JoinDistinct(accepted, s.records);
      LastOfDistinct(s.records + accepted, limit);
      LastOfDistinct(accepted + s.records, limit);
    }
  }

  /** Everything accepted over a run, in order. */
  function History(s: Buffer, actions: seq<Action>, limit: nat): seq<Record> {
    if actions == [] then s.records
    else History(s, actions[..|actions| - 1], limit) +
         Accepted(Run(s, actions[..|actions| - 1], limit), actions[|actions| - 1])
  }

  lemma {:induction false} LastOfAppend(a: seq<Record>, b: seq<Record>, limit: nat)
    ensures LastOf(LastOf(a, limit) + b, limit) == LastOf(a + b, limit)
  {
    if |a| > limit {
      assert LastOf(a, limit) + b == (a + b)[|a| - limit..];
    }
  }

  /** Without prepends and clears the buffer is exactly the last `limit` accepted records. */
  lemma {:induction false} AppendsKeepTheLatest(s: Buffer, actions: seq<Action>, limit: nat)
    requires |s.records| <= limit && forall i | 0 <= i < |actions| :: !actions[i].Prepend? && !actions[i].Clear?
    ensures Run(s, actions, limit).records == LastOf(History(s, actions, limit), limit)
  {
    if actions != [] {
      var init, last := actions[..|actions| - 1], actions[|actions| - 1];
      AppendsKeepTheLatest(s, init, limit);
      var before := Run(s, init, limit);
      LastOfAppend(History(s, init, limit), Accepted(before, last), limit);
      if Accepted(before, last) == [] { assert before.records + [] == before.records; }
      assert History(s, init, limit) + [] == History(s, init, limit);
    }
  }

  /** A stream that is not paused has nothing unread, whatever was done before. */
  lemma {:induction false} NothingUnreadUnlessPaused(actions: seq<Action>, limit: nat)
    ensures !Run(EMPTY, actions, limit).paused ==> Run(EMPTY, actions, limit).unread == 0
  {
    if actions != [] { NothingUnreadUnlessPaused(actions[..|actions| - 1], limit); }
  }

  /** While a stream is paused the unread count grows by every record that arrives at its end, whether the buffer
      still holds it or not. */
  lemma {:induction false} UnreadCountsArrivals(s: Buffer, actions: seq<Action>, limit: nat)
    requires s.paused && forall i | 0 <= i < |actions| :: actions[i].Append? || actions[i].AppendMany?
    ensures Run(s, actions, limit).paused
    ensures Run(s, actions, limit).unread == s.unread + |History(s, actions, limit)| - |s.records|
  {
    if actions != [] { UnreadCountsArrivals(s, actions[..|actions| - 1], limit); }
  }

  // ---------------------------------------------------------------- batches

  function OneByOne(records: seq<Record>): (r: seq<Action>)
    ensures |r| == |records|
  {
    seq(|records|, i requires 0 <= i < |records| => Append(records[i], None))
  }

  /** The last cursor among the records, or `otherwise`. */
  function LastCursor(records: seq<Record>, otherwise: Option<string>): Option<string> {
    if records == [] then otherwise
    else if records[|records| - 1].cursor.Some? then records[|records| - 1].cursor
    else LastCursor(records[..|records| - 1], otherwise)
  }

  ghost predicate Disjoint(a: seq<Record>, b: seq<Record>) {
    forall i, j | 0 <= i < |a| && 0 <= j < |b| :: a[i].logId != b[j].logId
  }

  lemma {:induction false} AllUnknown(incoming: seq<Record>, known: seq<Record>)
    requires Disjoint(incoming, known)
    ensures Unknown(incoming, known) == incoming
  {
    if incoming != [] {
      assert incoming == incoming[..|incoming| - 1] + [incoming[|incoming| - 1]];
      AllUnknown(incoming[..|incoming| - 1], known);
    }
  }

  lemma {:induction false} ExcessAdds(a: seq<Record>, r: Record, limit: nat)
    ensures Excess(a + [r], limit) == Excess(a, limit) + Excess(LastOf(a, limit) + [r], limit)
  {}

  function Appended(s: Buffer, batch: seq<Record>, limit: nat): Buffer {
    Buffer(LastOf(s.records + batch, limit), LastCursor(batch, s.cursor), s.dropped + Excess(s.records + batch, limit),
           s.paused,
           if s.paused then s.unread + |batch| else s.unread)
  }

  lemma {:induction false} LastCursorStep(init: seq<Record>, r: Record, otherwise: Option<string>)
    ensures LastCursor(init + [r], otherwise) == if r.cursor.Some? then r.cursor else LastCursor(init, otherwise)
    ensures LastCursor([r], otherwise) == if r.cursor.Some? then r.cursor else otherwise
  {
    assert (init + [r])[..|init|] == init && [r][..0] == [];
  }

  lemma {:induction false} AppendOne(s: Buffer, r: Record, limit: nat)
    requires !Knows(s.records, r.logId)
    ensures Reduce(s, Append(r, None), limit) == Appended(s, [r], limit)
  {
    LastCursorStep([], r, s.cursor);
    assert Disjoint([r], s.records);
    AllUnknown([r], s.records);
    assert Accepted(s, Append(r, None)) == [r];
  }

  lemma {:induction false} AppendedStep(s: Buffer, init: seq<Record>, r: Record, limit: nat)
    ensures Appended(Appended(s, init, limit), [r], limit) == Appended(s, init + [r], limit)
  {
    LastOfAppend(s.records + init, [r], limit);
    ExcessAdds(s.records + init, r, limit);
    assert s.records + (init + [r]) == s.records + init + [r];
    LastCursorStep(init, r, s.cursor);
    LastCursorStep(init, r, LastCursor(init, s.cursor));
  }

  lemma {:induction false} StillUnknown(s: Buffer, init: seq<Record>, r: Record, limit: nat)
    requires Disjoint([r], s.records) && Disjoint([r], init)
    ensures !Knows(Appended(s, init, limit).records, r.logId)
  {
    var all, kept := s.records + init, Appended(s, init, limit).records;
    assert [r][0] == r;
    forall j | 0 <= j < |kept| ensures kept[j].logId != r.logId {
      assert kept[j] == all[|all| - |kept| + j];
    }
  }

  lemma {:induction false} SplitBatch(batch: seq<Record>, known: seq<Record>)
    requires batch != [] && DistinctIds(batch) && Disjoint(batch, known)
    ensures var init, r := batch[..|batch| - 1], batch[|batch| - 1];
            DistinctIds(init) && Disjoint(init, known) && Disjoint([r], known) && Disjoint([r], init) &&
            OneByOne(batch)[..|batch| - 1] == OneByOne(init) && OneByOne(batch)[|batch| - 1] == Append(r, None)
  {}

  /** Appending one by one, spelled out. */
  lemma {:induction false} OneByOneIs(s: Buffer, batch: seq<Record>, limit: nat)
    requires |s.records| <= limit && DistinctIds(batch) && Disjoint(batch, s.records)
    ensures Run(s, OneByOne(batch), limit) == Appended(s, batch, limit)
  {
    if batch == [] {
      assert s.records + batch == s.records;
    } else {
      var n := |batch| - 1;
      var init, r := batch[..n], batch[n];
      SplitBatch(batch, s.records);
      OneByOneIs(s, init, limit);
      StillUnknown(s, init, r, limit);
      AppendOne(Appended(s, init, limit), r, limit);
      AppendedStep(s, init, r, limit);
      assert init + [r] == batch;
    }
  }

  lemma {:induction false} AppendBatch(s: Buffer, batch: seq<Record>, limit: nat)
    requires |s.records| <= limit && Disjoint(batch, s.records)
    ensures Reduce(s, AppendMany(batch, None), limit) ==
            Appended(s, batch, limit).(cursor := if batch != [] &&
                                       batch[|batch| - 1].cursor.Some? then batch[|batch| - 1].cursor else s.cursor)
  {
    AllUnknown(batch, s.records);
    assert Accepted(s, AppendMany(batch, None)) == batch;
    if batch == [] { assert s.records + batch == s.records; }
  }

  /** A batch of new records does what appending them one by one does, except that its cursor
      is taken from its last record only: the two agree exactly when that gives the same. */
  lemma {:induction false} BatchIsOneByOne(s: Buffer, batch: seq<Record>, limit: nat)
    requires |s.records| <= limit && DistinctIds(batch) && Disjoint(batch, s.records)
    ensures var many, each := Reduce(s, AppendMany(batch, None), limit), Run(s, OneByOne(batch), limit);
            many.(cursor := None) == each.(cursor := None) &&
            (many == each <==>
             batch == [] || batch[|batch| - 1].cursor.Some? || LastCursor(batch, s.cursor) == s.cursor)
  {
    OneByOneIs(s, batch, limit);
    AppendBatch(s, batch, limit);
  }

  /** Prepending older records keeps only as many of them as there is room for; into a full
      buffer none of them gets, though all are counted as dropped. */
  lemma {:induction false} PrependFillsRoom(s: Buffer, batch: seq<Record>, limit: nat)
    requires |s.records| <= limit
    ensures var after, accepted := Reduce(s, Prepend(batch, None), limit), Unknown(batch, s.records);
            after.records == LastOf(accepted, limit - |s.records|) + s.records &&
            after.dropped == s.dropped + Excess(accepted, limit - |s.records|) &&
            (|s.records| == limit ==> after.records == s.records)
  {
    var accepted, room := Unknown(batch, s.records), limit - |s.records|;
    if |accepted| > room {
      assert (accepted + s.records)[|accepted| - room..] == accepted[|accepted| - room..] + s.records;
    }
    if accepted == [] { assert accepted + s.records == s.records; }
  }
}
