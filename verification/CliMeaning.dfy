/** What the tool rows of the terminal client say, in terms of the fields of the events alone: the status under its
    wire name, the name, the summary and the error of every tool, and the order of the rows. */
module CliMeaning {
  import opened Wrappers
  import opened CliReducer
  import opened CliProjection

  // ---------------------------------------------------------------- reading an event

  function WireName(s: ToolStatus): string {
    match s
    case IsProposed => "proposed"
    case Running => "running"
    case WaitingApproval => "waiting_approval"
    case Succeeded => "succeeded"
    case Failed => "failed"
    case Uncertain => "uncertain"
  }

  /** The event is about the tool `id`: by its tool id, or by its call id when it has no tool id. */
  predicate Speaks(e: Event, id: string) {
    && e.body.Tool? && id != ""
    && (e.body.fields.toolId == Text(id) || (e.body.fields.toolId == Absent && e.body.fields.callId == Text(id)))
  }

  /** The status under which an event shows its tool. */
  predicate ShownAs(e: Event, status: string)
    requires e.body.Tool?
  {
    match e.body.step
    case Proposed => status == "proposed"
    case Started => status == "running"
    case Completed => status == "succeeded"
    case StatusChanged =>
      if e.body.fields.status.Text? &&
          e.body.fields.status.text in {"failed", "succeeded", "waiting_approval", "uncertain"}
      then status == e.body.fields.status.text
      else status == "running"
  }

  ghost predicate SpokenOf(log: seq<Event>, id: string) {
    exists k | 0 <= k < |log| :: Speaks(log[k], id)
  }

  ghost predicate HasRow(rows: seq<Snapshot>, id: string) {
    exists i | 0 <= i < |rows| :: rows[i].toolId == id
  }

  ghost predicate HasView(views: seq<View>, id: string) {
    exists i | 0 <= i < |views| :: views[i].toolId == id
  }

  datatype Column = SummaryColumn | NameColumn | ErrorColumn

  /** The value an event offers for a column of its tool. */
  function Offered(f: ToolFields, c: Column): Field {
    match c
    case SummaryColumn => if f.summary == Absent then f.result else f.summary
    case NameColumn => f.name
    case ErrorColumn => if f.error == Absent then f.errorRedacted else f.error
  }

  predicate Gives(e: Event, id: string, c: Column, text: string) {
    Speaks(e, id) && Offered(e.body.fields, c) == Text(text)
  }

  /** The last event of the log about the tool. */
  ghost predicate LastSpeaks(log: seq<Event>, id: string, k: nat) {
    k < |log| && Speaks(log[k], id) && forall j | k < j < |log| :: !Speaks(log[j], id)
  }

  ghost predicate FirstSpeaks(log: seq<Event>, id: string, k: nat) {
    k < |log| && Speaks(log[k], id) && forall j | 0 <= j < k :: !Speaks(log[j], id)
  }

  ghost predicate Silent(e: Event, id: string, c: Column) {
    forall text :: !Gives(e, id, c, text)
  }

  /** The last text any event of the tool gives in this column. */
  ghost predicate LastGives(log: seq<Event>, id: string, c: Column, text: string) {
    exists k | 0 <= k < |log| :: Gives(log[k], id, c, text) && forall j | k < j < |log| :: Silent(log[j], id, c)
  }

  ghost predicate NeverGives(log: seq<Event>, id: string, c: Column) {
    forall k | 0 <= k < |log| :: Silent(log[k], id, c)
  }

  // ---------------------------------------------------------------- the projections read events so

  lemma {:induction false} SpeaksMeans(e: Event, id: string)
    ensures Speaks(e, id) <==> Concerns(e, id)
  {}

  lemma {:induction false} StatusMeans(e: Event)
    requires e.body.Tool?
    ensures ShownAs(e, WireName(StatusOf(e.body.step, e.body.fields)))
  {}

  function ColumnOf(c: Column): ToolFields -> Field {
    match c
    case SummaryColumn => Effective
    case NameColumn => NameField
    case ErrorColumn => AnyError
  }

  lemma {:induction false} OfferedMeans(f: ToolFields, c: Column)
    ensures ColumnOf(c)(f) == Offered(f, c)
  {}

  /** The last event about the tool decides the status. */
  ghost predicate StatusFits(log: seq<Event>, id: string, status: ToolStatus) {
    exists k | 0 <= k < |log| :: LastSpeaks(log, id, k) && ShownAs(log[k], WireName(status))
  }

  lemma {:induction false} StatusStays(log: seq<Event>, id: string, status: ToolStatus)
    requires log != [] && StatusFits(log[..|log| - 1], id, status) && !Speaks(log[|log| - 1], id)
    ensures StatusFits(log, id, status)
  {
    var init := log[..|log| - 1];
    var k :| 0 <= k < |init| && LastSpeaks(init, id, k) && ShownAs(init[k], WireName(status));
    assert log[k] == init[k];
    forall j | k < j < |log| ensures !Speaks(log[j], id) { assert j < |init| ==> log[j] == init[j]; }
    assert LastSpeaks(log, id, k);
  }

  lemma {:induction false} StatusSet(log: seq<Event>, id: string)
    requires log != [] && Speaks(log[|log| - 1], id)
    ensures StatusFits(log, id, StatusOf(log[|log| - 1].body.step, log[|log| - 1].body.fields))
  {
    StatusMeans(log[|log| - 1]);
    assert LastSpeaks(log, id, |log| - 1);
  }

  /** The status of every row is the one its tool's last event shows it under. */
  lemma {:induction false} IdealStatus(log: seq<Event>, k: nat)
    requires k < |Ideal(log)|
    ensures StatusFits(log, Ideal(log)[k].toolId, Ideal(log)[k].status)
  {
    var n := |log| - 1;
    var before, e, row := Ideal(log[..n]), log[n], Ideal(log)[k];
    OnlyOneRow(log);
    SpeaksMeans(e, row.toolId);
    if Concerns(e, row.toolId) {
      StatusSet(log, row.toolId);
      assert Ideal(log)[FindIdeal(before, row.toolId)].toolId == row.toolId;
    } else {
      IdealStatus(log[..n], k);
      StatusStays(log, row.toolId, row.status);
    }
  }

  lemma {:induction false} LastTextMeans(log: seq<Event>, id: string, c: Column)
    ensures var last := LastText(log, id, ColumnOf(c));
            match last
            case Text(text) => LastGives(log, id, c, text)
            case Absent => NeverGives(log, id, c)
            case Other(_) => false
  {
    if log != [] {
      var n := |log| - 1;
      var e, init := log[n], log[..n];
      SpeaksMeans(e, id);
      LastTextMeans(init, id, c);
      if e.body.Tool? { OfferedMeans(e.body.fields, c); }
      if Concerns(e, id) && ColumnOf(c)(e.body.fields).Text? {
        assert Gives(e, id, c, ColumnOf(c)(e.body.fields).text);
      } else {
        assert Silent(e, id, c);
        var last := LastText(init, id, ColumnOf(c));
        if last.Text? { GivesStays(log, id, c, last.text); }
      }
    }
  }

  lemma {:induction false} GivesStays(log: seq<Event>, id: string, c: Column, text: string)
    requires log != [] && LastGives(log[..|log| - 1], id, c, text) && Silent(log[|log| - 1], id, c)
    ensures LastGives(log, id, c, text)
  {
    var init := log[..|log| - 1];
    var k :| 0 <= k < |init| && Gives(init[k], id, c, text) && forall j | k < j < |init| :: Silent(init[j], id, c);
    assert log[k] == init[k];
    forall j | k < j < |log| ensures Silent(log[j], id, c) { assert j < |init| ==> log[j] == init[j]; }
  }

  // ---------------------------------------------------------------- the history form

  /** A row of the history form: status by the last event of its tool; name, summary and error the last text any of
      its events gives. */
  ghost predicate HistoryShows(log: seq<Event>, r: Snapshot) {
    && StatusFits(log, r.toolId, r.status)
    && (if r.summary.Some? then LastGives(log, r.toolId, SummaryColumn, r.summary.value)
        else NeverGives(log, r.toolId, SummaryColumn))
    && (LastGives(log, r.toolId, NameColumn, r.toolName) ||
        (NeverGives(log, r.toolId, NameColumn) && r.toolName == "unknown"))
    && (if r.error.Some? then LastGives(log, r.toolId, ErrorColumn, r.error.value)
        else NeverGives(log, r.toolId, ErrorColumn))
  }

  /** The tool `a` has an event before the first one of `b`. */
  ghost predicate StartsBefore(log: seq<Event>, a: string, b: string) {
    exists k | 0 <= k < |log| :: Speaks(log[k], a) && forall j | 0 <= j <= k :: !Speaks(log[j], b)
  }

  lemma {:induction false} StartsStill(log: seq<Event>, a: string, b: string)
    requires log != [] && StartsBefore(log[..|log| - 1], a, b)
    ensures StartsBefore(log, a, b)
  {
    var init := log[..|log| - 1];
    var k :| 0 <= k < |init| && Speaks(init[k], a) && forall j | 0 <= j <= k :: !Speaks(init[j], b);
    assert log[k] == init[k] && forall j | 0 <= j <= k :: log[j] == init[j];
  }

  lemma {:induction false} NamedMeans(log: seq<Event>, id: string)
    ensures Named(log, id) <==> SpokenOf(log, id)
  {
    forall k | 0 <= k < |log| ensures Speaks(log[k], id) <==> Concerns(log[k], id) { SpeaksMeans(log[k], id); }
  }

  /** The rows stand in the order of the first events of their tools. */
  lemma {:induction false} IdealOrder(log: seq<Event>, i: nat, j: nat)
    requires i < j < |Ideal(log)|
    ensures StartsBefore(log, Ideal(log)[i].toolId, Ideal(log)[j].toolId)
  {
    var n := |log| - 1;
    var init, before, e := log[..n], Ideal(log[..n]), log[n];
    if j < |before| {
      IdealOrder(init, i, j);
      StartsStill(log, Ideal(log)[i].toolId, Ideal(log)[j].toolId);
    } else {
      NewToolLast(log, init, before, i);
    }
  }

  lemma {:induction false} NewToolLast(log: seq<Event>, init: seq<Event>, before: seq<Row>, i: nat)
    requires log != [] && init == log[..|log| - 1] && before == Ideal(init) && |Ideal(log)| > |before| && i < |before|
    ensures StartsBefore(log, Ideal(log)[i].toolId, Ideal(log)[|before|].toolId)
  {
    var id := Ideal(log)[|before|].toolId;
    IdealRows(init);
    assert RowFits(before[i], init);
    NamedMeans(init, before[i].toolId);
    NamedMeans(init, id);
    var k :| 0 <= k < |init| && Speaks(init[k], before[i].toolId);
    assert !Named(init, id);
    forall j | 0 <= j <= k ensures !Speaks(log[j], id) { assert log[j] == init[j]; }
    assert log[k] == init[k];
  }

  /** Projecting a log from its history, in whatever order it arrives: one row for every tool the events speak of, in
      the order of their first events, and every row shows what the events say. */
  lemma {:induction false} HistoryRows(log: seq<Event>, events: seq<Event>)
    requires Increasing(log) && multiset(events) == multiset(log)
    ensures forall i | 0 <= i < |ProjectTools(events)| :: HistoryShows(log, ProjectTools(events)[i])
    ensures forall id :: SpokenOf(log, id) <==> HasRow(ProjectTools(events), id)
    ensures forall i, j | 0 <= i < j < |ProjectTools(events)| ::
              StartsBefore(log, ProjectTools(events)[i].toolId, ProjectTools(events)[j].toolId)
  {
    AnyOrderIsTheLog(events, log);
    ProjectViews(log);
    IdealRows(log);
    var rows, ideal := ProjectTools(events), Ideal(log);
    assert |rows| == |ideal|;
    forall i | 0 <= i < |rows| ensures rows[i].toolId == ideal[i].toolId && HistoryShows(log, rows[i]) {
      assert SnapshotViews(rows)[i] == HistoryViews(ideal)[i];
      HistoryRow(log, rows[i], i);
    }
    forall id ensures SpokenOf(log, id) <==> HasRow(rows, id) {
      NamedMeans(log, id);
      if Named(log, id) { assert rows[FindIdeal(ideal, id)].toolId == id; }
      if i :| 0 <= i < |rows| && rows[i].toolId == id { assert RowFits(ideal[i], log); }
    }
    forall i, j | 0 <= i < j < |rows| ensures StartsBefore(log, rows[i].toolId, rows[j].toolId) {
      IdealOrder(log, i, j);
    }
  }

  lemma {:induction false} HistoryRow(log: seq<Event>, r: Snapshot, i: nat)
    requires i < |Ideal(log)| && RowFits(Ideal(log)[i], log)
    requires SnapshotView(r) == View(Ideal(log)[i].toolId, Ideal(log)[i].status, Ideal(log)[i].history)
    ensures HistoryShows(log, r)
  {
    IdealStatus(log, i);
    LastTextMeans(log, r.toolId, SummaryColumn);
    LastTextMeans(log, r.toolId, NameColumn);
    LastTextMeans(log, r.toolId, ErrorColumn);
  }

  // ---------------------------------------------------------------- the transcript

  /** The last value of any kind, other than none, that an event of the tool offers as its summary. */
  ghost predicate LastSummary(log: seq<Event>, id: string, summary: Field) {
    if summary == Absent then forall k | 0 <= k < |log| :: Hushed(log[k], id)
    else
      exists k | 0 <= k < |log| ::
        && Speaks(log[k], id) && Offered(log[k].body.fields, SummaryColumn) == summary
        && forall j | k < j < |log| :: Hushed(log[j], id)
  }

  predicate Hushed(e: Event, id: string) {
    Speaks(e, id) ==> Offered(e.body.fields, SummaryColumn) == Absent
  }

  /** A row of the transcript: status and error by the last event of its tool, the name the first one gives, and the
      last summary of any kind. */
  ghost predicate LiveShows(log: seq<Event>, id: string, status: ToolStatus, c: Columns) {
    && StatusFits(log, id, status)
    && (exists k | 0 <= k < |log| :: LastSpeaks(log, id, k) && c.error == log[k].body.fields.error)
    && (exists k | 0 <= k < |log| :: FirstSpeaks(log, id, k) && GivesName(log[k], c.name))
    && LastSummary(log, id, c.summary)
  }

  predicate GivesName(e: Event, name: string)
    requires e.body.Tool?
  {
    if e.body.fields.name.Text? && e.body.fields.name.text != "" then name == e.body.fields.name.text
    else name == "unknown"
  }

  lemma {:induction false} LastFieldsMeans(log: seq<Event>, id: string)
    ensures LastFields(log, id).Some? ==>
              exists k | 0 <= k < |log| :: LastSpeaks(log, id, k) && LastFields(log, id).value == log[k].body.fields
  {
    if log != [] {
      var n := |log| - 1;
      SpeaksMeans(log[n], id);
      if Concerns(log[n], id) {
        assert LastSpeaks(log, id, n);
      } else if LastFields(log, id).Some? {
        LastFieldsMeans(log[..n], id);
        var k :| 0 <= k < n && LastSpeaks(log[..n], id, k) && LastFields(log, id).value == log[..n][k].body.fields;
        forall j | k < j < |log| ensures !Speaks(log[j], id) { assert j < n ==> log[j] == log[..n][j]; }
        assert log[k] == log[..n][k] && LastSpeaks(log, id, k);
      }
    }
  }

  lemma {:induction false} FirstStays(log: seq<Event>, id: string, k: nat)
    requires log != [] && FirstSpeaks(log[..|log| - 1], id, k)
    ensures FirstSpeaks(log, id, k)
  {
    var init := log[..|log| - 1];
    assert log[k] == init[k];
    forall j | 0 <= j < k ensures !Speaks(log[j], id) { assert log[j] == init[j]; }
  }

  lemma {:induction false} FirstNow(log: seq<Event>, id: string)
    requires log != [] && !SpokenOf(log[..|log| - 1], id) && Speaks(log[|log| - 1], id)
    ensures FirstSpeaks(log, id, |log| - 1)
  {
    var init := log[..|log| - 1];
    forall j | 0 <= j < |init| ensures !Speaks(log[j], id) { assert log[j] == init[j]; }
  }

  lemma {:induction false} FirstFieldsMeans(log: seq<Event>, id: string)
    requires SpokenOf(log, id)
    ensures exists k | 0 <= k < |log| :: FirstSpeaks(log, id, k) && FirstFields(log, id) == Some(log[k].body.fields)
  {
    var n := |log| - 1;
    var init := log[..n];
    SpeaksMeans(log[n], id);
    NamedMeans(init, id);
    FirstIsNamed(init, id);
    assert forall j | 0 <= j < n :: init[j] == log[j];
    if SpokenOf(init, id) {
      FirstFieldsMeans(init, id);
      var k :| 0 <= k < |init| && FirstSpeaks(init, id, k) && FirstFields(init, id) == Some(init[k].body.fields);
      FirstStays(log, id, k);
      assert log[k] == init[k];
    } else {
      var k :| 0 <= k < |log| && Speaks(log[k], id);
      assert k == n;
      FirstNow(log, id);
    }
  }

  lemma {:induction false} LastGivenMeans(log: seq<Event>, id: string)
    ensures LastSummary(log, id, LastGiven(log, id))
  {
    if log != [] {
      var n := |log| - 1;
      var e, init := log[n], log[..n];
      SpeaksMeans(e, id);
      LastGivenMeans(init, id);
      assert forall j | 0 <= j < n :: log[j] == init[j];
      if e.body.Tool? { OfferedMeans(e.body.fields, SummaryColumn); }
      if Hushed(e, id) {
        SummaryStays(log, id, LastGiven(init, id));
      } else {
        assert Speaks(log[n], id) && Offered(log[n].body.fields, SummaryColumn) == LastGiven(log, id);
      }
    }
  }

  lemma {:induction false} SummaryStays(log: seq<Event>, id: string, summary: Field)
    requires log != [] && Hushed(log[|log| - 1], id) && LastSummary(log[..|log| - 1], id, summary)
    ensures LastSummary(log, id, summary)
  {
    var init := log[..|log| - 1];
    assert forall j | 0 <= j < |init| :: log[j] == init[j];
    if summary == Absent {
      forall k | 0 <= k < |log| ensures Hushed(log[k], id) { assert k < |init| ==> Hushed(init[k], id); }
    } else {
      var k :| 0 <= k < |init| && Speaks(init[k], id) && Offered(init[k].body.fields, SummaryColumn) == summary &&
               forall j | k < j < |init| :: Hushed(init[j], id);
      forall j | k < j < |log| ensures Hushed(log[j], id) { assert j < |init| ==> Hushed(init[j], id); }
      assert Speaks(log[k], id);
    }
  }

  lemma {:induction false} LiveRow(log: seq<Event>, id: string)
    requires Named(log, id)
    ensures LastSummary(log, id, LiveColumns(log, id).summary)
    ensures exists k | 0 <= k < |log| ::
              LastSpeaks(log, id, k) && LiveColumns(log, id).error == log[k].body.fields.error
    ensures exists k | 0 <= k < |log| :: FirstSpeaks(log, id, k) && GivesName(log[k], LiveColumns(log, id).name)
  {
    LastGivenMeans(log, id);
    LastFieldsMeans(log, id);
    NamedMeans(log, id);
    FirstFieldsMeans(log, id);
    LastIsNamed(log, id);
  }

  lemma {:induction false} LastIsNamed(log: seq<Event>, id: string)
    requires Named(log, id)
    ensures LastFields(log, id).Some?
  {
    NamedStep(log, id);
    if !Concerns(log[|log| - 1], id) { LastIsNamed(log[..|log| - 1], id); }
  }

  /** Replaying a log from an empty transcript: one row for every tool the events speak of, in the order of their
      first events, and every row shows what the events say. */
  lemma {:induction false} TranscriptRows(log: seq<Event>)
    requires Increasing(log) && (log != [] ==> log[0].sequence > 0)
    ensures var views := ToolViews(Replay(EMPTY, log).messages);
            && (forall i | 0 <= i < |views| :: LiveShows(log, views[i].toolId, views[i].status, views[i].columns))
            && (forall id :: SpokenOf(log, id) <==> HasView(views, id))
            && (forall i, j | 0 <= i < j < |views| :: StartsBefore(log, views[i].toolId, views[j].toolId))
  {
    ReplayViews(log);
    IdealRows(log);
    var views, ideal := ToolViews(Replay(EMPTY, log).messages), Ideal(log);
    forall i | 0 <= i < |views|
      ensures LiveShows(log, views[i].toolId, views[i].status, views[i].columns)
    {
      assert views[i] == LiveViews(ideal)[i] && RowFits(ideal[i], log);
      IdealStatus(log, i);
      LiveRow(log, ideal[i].toolId);
    }
    forall id ensures SpokenOf(log, id) <==> HasView(views, id) {
      NamedMeans(log, id);
      if Named(log, id) { assert views[FindIdeal(ideal, id)].toolId == id; }
      if i :| 0 <= i < |views| && views[i].toolId == id { assert RowFits(ideal[i], log); }
    }
    forall i, j | 0 <= i < j < |views| ensures StartsBefore(log, views[i].toolId, views[j].toolId) {
      IdealOrder(log, i, j);
    }
  }

  /** The status an event shows its tool under while the operation is over: a proposal or a start comes too late. */
  predicate ShownWhenOver(e: Event, status: string)
    requires e.body.Tool?
  {
    if e.body.step in {Proposed, Started} then status == "uncertain" else ShownAs(e, status)
  }

  lemma {:induction false} OverStays(s: State, es: seq<Event>)
    ensures Replay(s, es).operationOver == s.operationOver
  {
    if es != [] { OverStays(s, es[..|es| - 1]); }
  }

  /** The event about the tool itself. */
  lemma {:induction false} UpdatedStatus(items: seq<Item>, e: Event, id: string, over: bool)
    requires Concerns(e, id)
    ensures var after := UpdateTool(items, e.body.step, e.body.fields, over);
            var n := ToolIndex(after, id);
            n < |after| && (if over then ShownWhenOver(e, WireName(after[n].status))
                            else ShownAs(e, WireName(after[n].status)))
  {
    var after, n := UpdateTool(items, e.body.step, e.body.fields, over), ToolIndex(items, id);
    assert IsTool(after[n], id) && forall i | 0 <= i < n :: !IsTool(after[i], id);
    assert ToolIndex(after, id) == n;
    StatusMeans(e);
  }

  /** The rows of a view list, for reading off the first one of a tool. */
  function AsRows(views: seq<View>): (r: seq<Row>)
    ensures |r| == |views|
  {
    seq(|views|, i requires 0 <= i < |views| => Row(views[i].toolId, views[i].status, views[i].columns,
                                                    views[i].columns))
  }

  /** Items that show the same tools show a tool under the same status. */
  lemma {:induction false} SameViewsSameStatus(a: seq<Item>, b: seq<Item>, id: string)
    requires ToolViews(a) == ToolViews(b) && ToolIndex(a, id) < |a|
    ensures ToolIndex(b, id) < |b| && b[ToolIndex(b, id)].status == a[ToolIndex(a, id)].status
  {
    var rows := AsRows(ToolViews(a));
    assert ToolViews(a) == LiveViews(rows);
    FirstToolView(a, id, rows);
    FirstToolView(b, id, rows);
  }

  /** An event that is not about the tool leaves its status. */
  lemma {:induction false} OtherEventsKeepStatus(s: State, e: Event, id: string)
    requires s.lastSequence < e.sequence && !Concerns(e, id) && ToolIndex(s.messages, id) < |s.messages|
    ensures var after := Reduce(s, e).messages;
            ToolIndex(after, id) < |after| &&
            after[ToolIndex(after, id)].status == s.messages[ToolIndex(s.messages, id)].status
  {
    var after := Reduce(s, e).messages;
    if e.body.Tool? {
      var n := ToolIndex(s.messages, id);
      assert IsTool(after[n], id) && after[n] == s.messages[n] && forall i | 0 <= i < n :: !IsTool(after[i], id);
      assert ToolIndex(after, id) == n;
    } else {
      if e.body.TextDelta? {
        MergeKeepsViews(s.messages, e.body.messageId, e.body.blockId, e.body.text);
      } else {
        PickOtherEvents(s, e.body, ToolView);
      }
      SameViewsSameStatus(s.messages, after, id);
    }
  }

  /** From any state: after the last event about a tool its row has the status that event shows, where an operation
      that is over makes a late proposal or start uncertain. */
  lemma {:induction false} ReplayStatus(s: State, es: seq<Event>, id: string, k: nat)
    requires Increasing(es) && (es != [] ==> s.lastSequence < es[0].sequence) && LastSpeaks(es, id, k)
    ensures var items := Replay(s, es).messages;
            var n := ToolIndex(items, id);
            n < |items| && (if s.operationOver then ShownWhenOver(es[k], WireName(items[n].status))
                            else ShownAs(es[k], WireName(items[n].status)))
  {
    var n := |es| - 1;
    var before, e := Replay(s, es[..n]), es[n];
    ReplayStandsAtLast(s, es[..n]);
    OverStays(s, es[..n]);
    SpeaksMeans(e, id);
    if k == n {
      StatusMeans(e);
      UpdatedStatus(before.messages, e, id, before.operationOver);
    } else {
      assert es[..n][k] == es[k];
      ReplayStatus(s, es[..n], id, k);
      OtherEventsKeepStatus(before, e, id);
    }
  }

  // ---------------------------------------------------------------- todos

  function TodoWireName(s: TodoStatus): string {
    match s
    case TodoPending => "pending"
    case InProgress => "in_progress"
    case TodoCompleted => "completed"
  }

  /** The element is shown as `t`: its id, its text, and its status when that is one of the known names. */
  predicate ReadsAs(raw: RawTodo, t: Todo) {
    && raw.RawTodo? && raw.todoId == Text(t.todoId) && raw.content == Text(t.content)
    && (if raw.status == Text("completed") || raw.status == Text("in_progress")
        then raw.status == Text(TodoWireName(t.status)) else TodoWireName(t.status) == "pending")
  }

  predicate Unreadable(raw: RawTodo) {
    raw.NotAnObject? || !raw.todoId.Text? || !raw.content.Text?
  }

  /** `at` says where in the list each todo was read; everything else in the list cannot be read. */
  ghost predicate Picks(items: seq<RawTodo>, todos: seq<Todo>, at: seq<nat>) {
    && |at| == |todos|
    && (forall k | 0 <= k < |at| :: at[k] < |items| && ReadsAs(items[at[k]], todos[k]))
    && (forall j, k | 0 <= j < k < |at| :: at[j] < at[k])
    && (forall i: nat | i < |items| :: i in at || Unreadable(items[i]))
  }

  ghost predicate ListShows(items: seq<RawTodo>, todos: seq<Todo>) {
    exists at: seq<nat> :: Picks(items, todos, at)
  }

  lemma {:induction false} ListMeans(items: seq<RawTodo>) returns (at: seq<nat>)
    ensures Picks(items, FlatTodos(items), at)
  {
    at := [];
    if items != [] {
      var n := |items| - 1;
      var before := ListMeans(items[..n]);
      at := if IsTodo(items[n]) then before + [n] else before;
      PicksOneMore(items, before);
    }
  }

  lemma {:induction false} PicksOneMore(items: seq<RawTodo>, at: seq<nat>)
    requires items != [] && Picks(items[..|items| - 1], FlatTodos(items[..|items| - 1]), at)
    ensures Picks(items, FlatTodos(items), if IsTodo(items[|items| - 1]) then at + [|items| - 1] else at)
  {
    var n := |items| - 1;
    var init, last, todos := items[..n], items[n], FlatTodos(items[..n]);
    assert items == init + [last];
    if IsTodo(last) {
      PicksRead(init, todos, at, last, Todo(last.todoId.text, last.content.text, TodoStatusOf(last.status)));
    } else {
      PicksSkipped(init, todos, at, last);
      assert todos + [] == todos;
    }
  }

  lemma {:induction false} PicksRead(items: seq<RawTodo>, todos: seq<Todo>, at: seq<nat>, raw: RawTodo, t: Todo)
    requires Picks(items, todos, at) && ReadsAs(raw, t)
    ensures Picks(items + [raw], todos + [t], at + [|items|])
  {
    var after := at + [|items|];
    forall i: nat | i < |items| + 1 ensures i in after || Unreadable((items + [raw])[i]) {
      if i < |items| { assert i in at || Unreadable(items[i]); } else { assert after[|at|] == i; }
    }
  }

  lemma {:induction false} PicksSkipped(items: seq<RawTodo>, todos: seq<Todo>, at: seq<nat>, raw: RawTodo)
    requires Picks(items, todos, at) && Unreadable(raw)
    ensures Picks(items + [raw], todos, at)
  {
    forall i: nat | i < |items| + 1 ensures i in at || Unreadable((items + [raw])[i]) {
      assert i < |items| ==> i in at || Unreadable(items[i]);
    }
  }

  ghost predicate LastTodoAt(log: seq<Event>, k: nat) {
    k < |log| && log[k].body.TodoChanged? && forall j | k < j < |log| :: !log[j].body.TodoChanged?
  }

  /** The todos are those of the last list the log holds, and none without a list. */
  ghost predicate TodosShow(log: seq<Event>, todos: seq<Todo>) {
    if forall k | 0 <= k < |log| :: !log[k].body.TodoChanged? then todos == []
    else
      exists k | 0 <= k < |log| :: LastTodoAt(log, k) && ChangeShows(log[k].body, todos)
  }

  ghost predicate ChangeShows(body: Body, todos: seq<Todo>)
    requires body.TodoChanged?
  {
    if body.items.None? then todos == [] else ListShows(body.items.value, todos)
  }

  lemma {:induction false} LastListMeans(log: seq<Event>)
    ensures TodosShow(log, LastList(log))
  {
    if log != [] {
      var n := |log| - 1;
      assert log == log[..n] + [log[n]];
      if log[n].body.TodoChanged? {
        TodosSet(log[..n], log[n]);
      } else {
        LastListMeans(log[..n]);
        TodosStay(log[..n], log[n], LastList(log));
      }
    }
  }

  lemma {:induction false} TodosSet(log: seq<Event>, e: Event)
    requires e.body.TodoChanged?
    ensures TodosShow(log + [e], LastList(log + [e]))
  {
    var after := log + [e];
    if e.body.items.Some? { ListShown(e.body.items.value); }
    assert LastTodo(after) == Some(e) && LastTodoAt(after, |log|) && ChangeShows(e.body, LastList(after));
  }

  lemma {:induction false} ListShown(items: seq<RawTodo>)
    ensures ListShows(items, ReadTodos(items))
  {
    FlatIsFilterMap(items);
    var _ := ListMeans(items);
  }

  lemma {:induction false} TodosStay(log: seq<Event>, e: Event, todos: seq<Todo>)
    requires TodosShow(log, todos) && !e.body.TodoChanged?
    ensures TodosShow(log + [e], todos)
  {
    var after := log + [e];
    if k :| 0 <= k < |log| && log[k].body.TodoChanged? {
      var m :| 0 <= m < |log| && LastTodoAt(log, m) && ChangeShows(log[m].body, todos);
      assert after[k] == log[k] && after[m] == log[m];
      forall j | m < j < |after| ensures !after[j].body.TodoChanged? { assert j < |log| ==> after[j] == log[j]; }
      assert LastTodoAt(after, m);
    }
  }

  ghost predicate CompletedAfterLast(log: seq<Event>) {
    exists k | 0 <= k < |log| :: log[k].body.RunCompleted? && forall j | k < j < |log| :: !log[j].body.TodoChanged?
  }

  lemma {:induction false} CompletedMeans(log: seq<Event>)
    ensures CompletedSince(log) <==> CompletedAfterLast(log)
  {
    if log != [] {
      var n := |log| - 1;
      var init := log[..n];
      CompletedMeans(init);
      assert forall j | 0 <= j < n :: init[j] == log[j];
      if CompletedAfterLast(init) && !log[n].body.TodoChanged? {
        var k :| 0 <= k < n && init[k].body.RunCompleted? && forall j | k < j < n :: !init[j].body.TodoChanged?;
        assert log[k].body.RunCompleted?;
      }
      if CompletedAfterLast(log) && !log[n].body.RunCompleted? {
        var k :| 0 <= k < |log| && log[k].body.RunCompleted? && forall j | k < j < |log| :: !log[j].body.TodoChanged?;
        assert init[k].body.RunCompleted?;
      }
    }
  }

  /** The same todos, every one of them completed when a run has completed since the list. */
  ghost predicate TodosOnceRun(listed: seq<Todo>, shown: seq<Todo>, completed: bool) {
    && |shown| == |listed|
    && forall i | 0 <= i < |listed| ::
         && shown[i].todoId == listed[i].todoId && shown[i].content == listed[i].content
         && TodoWireName(shown[i].status) == if completed then "completed" else TodoWireName(listed[i].status)
  }

  /** The todos of both projections, in terms of the events: the readable elements of the last list, and in the
      transcript all of them completed exactly when a run has completed since. */
  lemma {:induction false} TodosMean(log: seq<Event>, events: seq<Event>)
    requires Increasing(log) && (log != [] ==> log[0].sequence > 0) && multiset(events) == multiset(log)
    ensures TodosShow(log, ProjectTodos(events))
    ensures TodosOnceRun(ProjectTodos(events), Replay(EMPTY, log).todos, CompletedAfterLast(log))
  {
    ProjectsLastTodo(log, events);
    LastListMeans(log);
    TodosAgree(log, events);
    CompletedMeans(log);
    OnceRun(ProjectTodos(events));
  }

  lemma {:induction false} OnceRun(todos: seq<Todo>)
    ensures TodosOnceRun(todos, AllCompleted(todos), true) && TodosOnceRun(todos, todos, false)
  {}

  // ---------------------------------------------------------------- approvals and usage

  ghost predicate Requested(log: seq<Event>, id: string) {
    exists k | 0 <= k < |log| :: log[k].body == ApprovalRequested(id)
  }

  function CountRounds(log: seq<Event>): nat {
    if log == [] then 0 else CountRounds(log[..|log| - 1]) + if log[|log| - 1].body.RoundCompleted? then 1 else 0
  }

  function TokensOf(log: seq<Event>, tokens: Body -> nat): nat {
    if log == [] then 0 else TokensOf(log[..|log| - 1], tokens) + tokens(log[|log| - 1].body)
  }

  /** From any state, a replay adds an approval for every request for one, and the tokens of every round; what there was
      stays. */
  lemma {:induction false} ReplayCounts(s: State, es: seq<Event>)
    requires Increasing(es) && (es != [] ==> s.lastSequence < es[0].sequence)
    ensures forall id :: id in Replay(s, es).pendingApprovals <==>
              id in s.pendingApprovals || Requested(es, id)
    ensures Replay(s, es).usage.rounds == s.usage.rounds + CountRounds(es)
    ensures Replay(s, es).usage.inputTokens ==
              s.usage.inputTokens + TokensOf(es, (b: Body) => if b.RoundCompleted? then b.inputTokens else 0)
    ensures Replay(s, es).usage.outputTokens ==
              s.usage.outputTokens + TokensOf(es, (b: Body) => if b.RoundCompleted? then b.outputTokens else 0)
  {
    if es != [] {
      var n := |es| - 1;
      var init, before := es[..n], Replay(s, es[..n]);
      ReplayCounts(s, init);
      ReplayStandsAtLast(s, init);
      forall id ensures id in Replay(s, es).pendingApprovals <==>
          id in s.pendingApprovals || Requested(es, id)
      {
        OneMoreRequest(es, id);
      }
    }
  }

  lemma {:induction false} OneMoreRequest(log: seq<Event>, id: string)
    requires log != []
    ensures Requested(log, id) <==> Requested(log[..|log| - 1], id) || log[|log| - 1].body == ApprovalRequested(id)
  {
    var init := log[..|log| - 1];
    if k :| 0 <= k < |init| && init[k].body == ApprovalRequested(id) { assert log[k] == init[k]; }
    if k :| 0 <= k < |log| && log[k].body == ApprovalRequested(id) { assert k < |init| ==> init[k] == log[k]; }
  }

  // ---------------------------------------------------------------- a projection built anew

  function RowOf(item: Item): Snapshot
    requires item.ToolBlock?
  {
    Snapshot(item.toolId, item.toolName, item.status, item.summary.AsText(), item.error.AsText())
  }

  ghost predicate FromHistory(log: seq<Event>, item: Item) {
    item.ToolBlock? && !item.summary.Other? && !item.error.Other? && HistoryShows(log, RowOf(item))
  }

  /** One row for every tool the events speak of, in the order of their first events, as the history form shows it. */
  ghost predicate ToolsFrom(log: seq<Event>, items: seq<Item>) {
    && (forall i | 0 <= i < |items| :: FromHistory(log, items[i]))
    && (forall id :: SpokenOf(log, id) <==> exists i | 0 <= i < |items| :: IsTool(items[i], id))
    && (forall i, j | 0 <= i < j < |items| :: items[i].ToolBlock? && items[j].ToolBlock? &&
          StartsBefore(log, items[i].toolId, items[j].toolId))
  }

  /** The messages in order, each as one block, then the tools of the history; its todos, the given approvals, and the
      token usage there was. */
  ghost predicate BuiltFrom(before: State, messages: seq<(string, string)>, approvals: set<string>, log: seq<Event>,
                            after: State) {
    && |messages| <= |after.messages|
    && (forall i | 0 <= i < |messages| ::
          after.messages[i] == TextBlock(messages[i].0, messages[i].0, messages[i].1, false))
    && ToolsFrom(log, after.messages[|messages|..])
    && TodosShow(log, after.todos)
    && after.pendingApprovals == approvals && after.usage == before.usage && !after.operationOver
  }

  /** Tool blocks that copy the projected rows column by column. */
  ghost predicate Copies(rows: seq<Snapshot>, items: seq<Item>) {
    |items| == |rows| && forall i | 0 <= i < |rows| ::
        items[i].ToolBlock? && !items[i].summary.Other? && !items[i].error.Other? && RowOf(items[i]) == rows[i]
  }

  lemma {:induction false} CopiesShow(log: seq<Event>, items: seq<Item>)
    requires Increasing(log) && Copies(ProjectTools(log), items)
    ensures ToolsFrom(log, items)
  {
    var rows := ProjectTools(log);
    HistoryRows(log, log);
    forall id ensures SpokenOf(log, id) <==> exists i | 0 <= i < |items| :: IsTool(items[i], id) {
      if HasRow(rows, id) {
        var i :| 0 <= i < |rows| && rows[i].toolId == id;
        assert IsTool(items[i], id);
      }
      if i :| 0 <= i < |items| && IsTool(items[i], id) { assert rows[i].toolId == id; }
    }
    forall i, j | 0 <= i < j < |items| ensures StartsBefore(log, items[i].toolId, items[j].toolId) {
      assert RowOf(items[i]) == rows[i] && RowOf(items[j]) == rows[j];
    }
  }

  lemma {:induction false} ProjectedTodosShow(log: seq<Event>)
    requires Increasing(log)
    ensures TodosShow(log, ProjectTodos(log))
  {
    ProjectsLastTodo(log, log);
    LastListMeans(log);
  }
}
