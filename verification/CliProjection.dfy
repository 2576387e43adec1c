/** The second implementation of the tool and todo projections, from event history, and how
    far it agrees with replaying the same events through the reducer. */
module CliProjection {
  import opened Wrappers
  import opened Ordering
  import opened CliReducer

  // ---------------------------------------------------------------- history projection

  datatype Snapshot = Snapshot(toolId: string, toolName: string, status: ToolStatus, summary: Option<string>,
                               error: Option<string>)

  predicate BySequence(a: Event, b: Event) {
    a.sequence <= b.sequence
  }

  /** The history in sequence order. */
  function InOrder(events: seq<Event>): seq<Event> {
    Sort(events, BySequence)
  }

  function Effective(f: ToolFields): Field {
    f.summary.Or(f.result)
  }

  /** The row after one event, given the row before it. */
  function NextRow(id: string, step: ToolStep, f: ToolFields, existing: Option<Snapshot>): Snapshot {
    Snapshot(
      id,
      if f.name.Text? then f.name.text else if existing.Some? then existing.value.toolName else "unknown",
      StatusOf(step, f),
      if Effective(f).Text? then Effective(f).AsText() else if existing.Some? then existing.value.summary else None,
      if f.error.Or(f.errorRedacted).Text? then f.error.Or(f.errorRedacted).AsText()
      else if existing.Some? then existing.value.error else None)
  }

  /** Position of a tool among the rows, or the length. */
  function FindRow(rows: seq<Snapshot>, id: string): (n: nat)
    ensures n <= |rows|
    ensures n < |rows| ==> rows[n].toolId == id
    ensures forall i :: 0 <= i < n ==> rows[i].toolId != id
  {
    if rows == [] then 0 else if rows[0].toolId == id then 0 else FindRow(rows[1..], id) + 1
  }

  function ProjectOne(rows: seq<Snapshot>, e: Event): seq<Snapshot> {
    if !e.body.Tool? || ToolIdOf(e.body.fields).None? then rows
    else
      var id := ToolIdOf(e.body.fields).value;
      var n := FindRow(rows, id);
      if n < |rows| then rows[n := NextRow(id, e.body.step, e.body.fields, Some(rows[n]))]
      else rows + [NextRow(id, e.body.step, e.body.fields, None)]
  }

  function ProjectAll(es: seq<Event>): seq<Snapshot> {
    if es == [] then [] else ProjectOne(ProjectAll(es[..|es| - 1]), es[|es| - 1])
  }

  function ProjectTools(events: seq<Event>): seq<Snapshot> {
    ProjectAll(InOrder(events))
  }

  /** A `Map`: keys in insertion order, and their values. */
  ghost predicate MapHolds(order: seq<string>, tools: map<string, Snapshot>, rows: seq<Snapshot>) {
    && |order| == |rows| && (forall id :: id in tools <==> id in order)
    && (forall i | 0 <= i < |order| :: rows[i].toolId == order[i] && order[i] in tools && tools[order[i]] == rows[i])
    && (forall i, j | 0 <= i < j < |order| :: order[i] != order[j])
  }

  lemma {:induction false} MapFinds(order: seq<string>, tools: map<string, Snapshot>, rows: seq<Snapshot>, id: string)
    requires MapHolds(order, tools, rows)
    ensures if id in tools then FindRow(rows, id) < |rows| && order[FindRow(rows, id)] == id &&
            tools[id] == rows[FindRow(rows, id)]
            else FindRow(rows, id) == |rows|
  {
    if id in tools {
      var i :| 0 <= i < |order| && order[i] == id;
      assert rows[i].toolId == id;
    }
  }

  lemma {:induction false} MapSetOld(order: seq<string>, tools: map<string, Snapshot>, rows: seq<Snapshot>, n: nat,
                                     row: Snapshot)
    requires MapHolds(order, tools, rows) && n < |order| && row.toolId == order[n]
    ensures MapHolds(order, tools[order[n] := row], rows[n := row])
  {}

  lemma {:induction false} MapSetNew(order: seq<string>, tools: map<string, Snapshot>, rows: seq<Snapshot>,
                                     row: Snapshot)
    requires MapHolds(order, tools, rows) && row.toolId !in tools
    ensures MapHolds(order + [row.toolId], tools[row.toolId := row], rows + [row])
  {
    var order', tools' := order + [row.toolId], tools[row.toolId := row];
    forall id ensures id in tools' <==> id in order' {}
  }

  lemma {:induction false} MapSetStep(order: seq<string>, tools: map<string, Snapshot>, rows: seq<Snapshot>, e: Event)
    requires MapHolds(order, tools, rows) && e.body.Tool? && ToolIdOf(e.body.fields).Some?
    ensures var id := ToolIdOf(e.body.fields).value;
            var row := NextRow(id, e.body.step, e.body.fields, if id in tools then Some(tools[id]) else None);
            MapHolds(if id in tools then order else order + [id], tools[id := row], ProjectOne(rows, e))
  {
    var id := ToolIdOf(e.body.fields).value;
    MapFinds(order, tools, rows, id);
    if id in tools {
      var n := FindRow(rows, id);
      MapSetOld(order, tools, rows, n, NextRow(id, e.body.step, e.body.fields, Some(rows[n])));
    } else {
      MapSetNew(order, tools, rows, NextRow(id, e.body.step, e.body.fields, None));
    }
  }

  /** One event: an insertion-ordered map keeps the position of a key it already has. */
  method SetTool(order: seq<string>, tools: map<string, Snapshot>, ghost rows: seq<Snapshot>, e: Event)
    returns (order': seq<string>, tools': map<string, Snapshot>)
    requires MapHolds(order, tools, rows)
    ensures MapHolds(order', tools', ProjectOne(rows, e))
  {
    order', tools' := order, tools;
    if e.body.Tool? && ToolIdOf(e.body.fields).Some? {
      MapSetStep(order, tools, rows, e);
      var id := ToolIdOf(e.body.fields).value;
      var existing := if id in tools then Some(tools[id]) else None;
      if id !in tools { order' := order + [id]; }
      tools' := tools[id := NextRow(id, e.body.step, e.body.fields, existing)];
    }
  }

  /** `projectToolEvents`: a map from tool to row, filled in place in sequence order. */
  method ProjectToolEvents(events: seq<Event>) returns (rows: seq<Snapshot>)
    ensures rows == ProjectTools(events)
  {
    var sorted := InOrder(events);
    var order: seq<string>, tools: map<string, Snapshot> := [], map[];
    for i := 0 to |sorted|
      invariant MapHolds(order, tools, ProjectAll(sorted[..i]))
    {
      assert sorted[..i + 1][..i] == sorted[..i];
      order, tools := SetTool(order, tools, ProjectAll(sorted[..i]), sorted[i]);
    }
    assert sorted[..|sorted|] == sorted;
    rows := seq(|order|, i requires 0 <= i < |order| && order[i] in tools => tools[order[i]]);
  }

  /** A tool has at most one row. */
  lemma {:induction false} OneRowPerTool(es: seq<Event>)
    ensures forall i, j | 0 <= i < j < |ProjectAll(es)| :: ProjectAll(es)[i].toolId != ProjectAll(es)[j].toolId
  {
    if es != [] { OneRowPerTool(es[..|es| - 1]); }
  }

  // ---------------------------------------------------------------- order does not matter

  lemma {:induction false} BySequenceIsTotal()
    ensures TotalPreorder(BySequence)
  {}

  /** Strictly increasing lists with the same events are equal. */
  lemma {:induction false} SameFirst(a: seq<Event>, b: seq<Event>)
    requires SortedBy(a, BySequence) && Increasing(b) && multiset(a) == multiset(b) && a != [] && b != []
    ensures a[0] == b[0]
  {
    assert a[0] in multiset(b) && b[0] in multiset(a);
    var i :| 0 <= i < |b| && b[i] == a[0];
    var j :| 0 <= j < |a| && a[j] == b[0];
    assert BySequence(a[0], a[j]);
  }

  lemma {:induction false} TailBag(s: seq<Event>)
    requires s != []
    ensures multiset(s[1..]) == multiset(s) - multiset{s[0]}
  {
    assert s == [s[0]] + s[1..];
  }

  lemma {:induction false} SortedTail(s: seq<Event>)
    requires SortedBy(s, BySequence) && s != []
    ensures SortedBy(s[1..], BySequence)
  {
    var tail := s[1..];
    forall i, j | 0 <= i < j < |tail| ensures BySequence(tail[i], tail[j]) {
      assert tail[i] == s[i + 1] && tail[j] == s[j + 1];
    }
  }

  lemma {:induction false} IncreasingUnique(a: seq<Event>, b: seq<Event>)
    requires SortedBy(a, BySequence) && Increasing(b) && multiset(a) == multiset(b)
    ensures a == b
  {
    assert |a| == |multiset(a)| == |multiset(b)| == |b|;
    if b != [] {
      SameFirst(a, b);
      TailBag(a);
      TailBag(b);
      assert SortedBy(a[1..], BySequence) by { SortedTail(a); }
      IncreasingUnique(a[1..], b[1..]);
      assert a == [a[0]] + a[1..] && b == [b[0]] + b[1..];
    }
  }

  /** Whatever order the history arrives in, sorting recovers the log. */
  lemma {:induction false} AnyOrderIsTheLog(events: seq<Event>, log: seq<Event>)
    requires Increasing(log) && multiset(events) == multiset(log)
    ensures InOrder(events) == log
  {
    BySequenceIsTotal();
    SortSorted(events, BySequence);
    IncreasingUnique(InOrder(events), log);
  }

  // ---------------------------------------------------------------- what both show

  /** The columns that carry payload values. Summary and error are fields because the
      reducer keeps values that are not strings. */
  datatype Columns = Columns(summary: Field, name: string, error: Field)

  datatype View = View(toolId: string, status: ToolStatus, columns: Columns)

  function ToolView(item: Item): Option<View> {
    if item.ToolBlock? then Some(View(item.toolId, item.status, Columns(item.summary, item.toolName, item.error)))
        else None
  }

  function ToolViews(items: seq<Item>): seq<View> {
    Pick(items, ToolView)
  }

  function AsField(text: Option<string>): Field {
    if text.Some? then Text(text.value) else Absent
  }

  function SnapshotView(row: Snapshot): View {
    View(row.toolId, row.status, Columns(AsField(row.summary), row.toolName, AsField(row.error)))
  }

  function SnapshotViews(rows: seq<Snapshot>): (r: seq<View>)
    ensures |r| == |rows|
  {
    seq(|rows|, i requires 0 <= i < |rows| => SnapshotView(rows[i]))
  }

  /** `error ?? error_redacted`, which only the history form looks at. */
  function AnyError(f: ToolFields): Field {
    f.error.Or(f.errorRedacted)
  }

  function NameField(f: ToolFields): Field {
    f.name
  }

  function NameOrUnknown(name: Field): string {
    if name.Text? && name.text != "" then name.text else "unknown"
  }

  /** The reducer's columns after one event: the last summary of any kind, the first name, the last error. */
  function LiveAfter(f: ToolFields, before: Option<Columns>): Columns {
    if before.None? then Columns(Effective(f), NameOrUnknown(f.name), f.error)
    else Columns(Effective(f).Or(before.value.summary), before.value.name, f.error)
  }

  /** The history form's columns after one event: the last text of each. */
  function HistoryAfter(f: ToolFields, before: Option<Columns>): Columns {
    var b := if before.Some? then before.value else Columns(Absent, "unknown", Absent);
    Columns(if Effective(f).Text? then Effective(f) else b.summary,
            if f.name.Text? then f.name.text else b.name,
            if AnyError(f).Text? then AnyError(f) else b.error)
  }

  /** A tool with the columns of both forms. */
  datatype Row = Row(toolId: string, status: ToolStatus, live: Columns, history: Columns)

  function FindIdeal(rows: seq<Row>, id: string): (n: nat)
    ensures n <= |rows|
    ensures n < |rows| ==> rows[n].toolId == id
    ensures forall i :: 0 <= i < n ==> rows[i].toolId != id
  {
    if rows == [] then 0 else if rows[0].toolId == id then 0 else FindIdeal(rows[1..], id) + 1
  }

  function IdealRow(id: string, step: ToolStep, f: ToolFields, before: Option<Row>): Row {
    Row(id, StatusOf(step, f),
        LiveAfter(f, if before.Some? then Some(before.value.live) else None),
        HistoryAfter(f, if before.Some? then Some(before.value.history) else None))
  }

  function IdealOne(rows: seq<Row>, e: Event): seq<Row> {
    if !e.body.Tool? || ToolIdOf(e.body.fields).None? then rows
    else
      var id := ToolIdOf(e.body.fields).value;
      var n := FindIdeal(rows, id);
      if n < |rows| then rows[n := IdealRow(id, e.body.step, e.body.fields, Some(rows[n]))]
      else rows + [IdealRow(id, e.body.step, e.body.fields, None)]
  }

  function Ideal(es: seq<Event>): seq<Row> {
    if es == [] then [] else IdealOne(Ideal(es[..|es| - 1]), es[|es| - 1])
  }

  function LiveViews(rows: seq<Row>): (r: seq<View>)
    ensures |r| == |rows|
  {
    seq(|rows|, i requires 0 <= i < |rows| => View(rows[i].toolId, rows[i].status, rows[i].live))
  }

  function HistoryViews(rows: seq<Row>): (r: seq<View>)
    ensures |r| == |rows|
  {
    seq(|rows|, i requires 0 <= i < |rows| => View(rows[i].toolId, rows[i].status, rows[i].history))
  }

  lemma {:induction false} MergeKeepsViews(items: seq<Item>, m: string, b: string, delta: string)
    ensures ToolViews(MergeTextDelta(items, m, b, delta)) == ToolViews(items)
  {
    var n := BlockIndex(items, m, b);
    if n < |items| {
      PickReplace(items, n, items[n].(content := items[n].content + delta), ToolView);
    } else {
      PickAppend(items, [TextBlock(m, b, delta, false)], ToolView);
      PickOne(TextBlock(m, b, delta, false), ToolView);
    }
  }

  /** The first row of a tool is as far in the views as in the transcript. */
  lemma {:induction false} FirstToolView(items: seq<Item>, id: string, rows: seq<Row>)
    requires ToolViews(items) == LiveViews(rows)
    ensures var n := ToolIndex(items, id);
            if n < |items|
            then FindIdeal(rows, id) == |ToolViews(items[..n])| < |rows| &&
                 items[n].status == rows[FindIdeal(rows, id)].status &&
                 Columns(items[n].summary, items[n].toolName, items[n].error) == rows[FindIdeal(rows, id)].live
            else FindIdeal(rows, id) == |rows|
  {
    var n := ToolIndex(items, id);
    NoToolView(items[..n], id);
    if n < |items| {
      assert items[n := items[n]] == items;
      PickSplit(items, n, items[n], ToolView);
      PickOne(items[n], ToolView);
      var k := |ToolViews(items[..n])|;
      assert LiveViews(rows)[k] == ToolView(items[n]).value;
      forall i | 0 <= i < k ensures rows[i].toolId != id {
        assert LiveViews(rows)[i] == ToolViews(items[..n])[i];
      }
    } else {
      assert items[..n] == items;
      forall i | 0 <= i < |rows| ensures rows[i].toolId != id {
        assert LiveViews(rows)[i] == ToolViews(items)[i];
      }
    }
  }

  lemma {:induction false} NoToolView(items: seq<Item>, id: string)
    requires forall i | 0 <= i < |items| :: !IsTool(items[i], id)
    ensures forall k | 0 <= k < |ToolViews(items)| :: ToolViews(items)[k].toolId != id
  {
    if items != [] {
      var last, rest := items[|items| - 1], ToolViews(items[..|items| - 1]);
      assert !IsTool(last, id);
      NoToolView(items[..|items| - 1], id);
      assert ToolViews(items) == rest + if ToolView(last).Some? then [ToolView(last).value] else [];
      forall k | 0 <= k < |ToolViews(items)| ensures ToolViews(items)[k].toolId != id {
        assert k < |rest| ==> rest[k].toolId != id;
      }
    }
  }

  /** A row shows what an item shows. */
  ghost predicate Same(row: Row, x: Item) {
    ToolView(x) == Some(View(row.toolId, row.status, row.live))
  }

  lemma {:induction false} ChangeToolView(items: seq<Item>, n: nat, x: Item, rows: seq<Row>, row: Row)
    requires n < |items| && items[n].ToolBlock? && Same(row, x) && ToolViews(items) == LiveViews(rows)
    requires |ToolViews(items[..n])| < |rows|
    ensures ToolViews(items[n := x]) == LiveViews(rows[|ToolViews(items[..n])| := row])
  {
    PickSplit(items, n, x, ToolView);
    PickOne(x, ToolView);
    assert items[n := items[n]] == items;
    PickSplit(items, n, items[n], ToolView);
    PickOne(items[n], ToolView);
    UpdateMiddle(ToolViews(items[..n]), ToolView(items[n]).value, ToolView(x).value, Pick(items[n + 1..], ToolView));
    LiveViewsUpdate(rows, |ToolViews(items[..n])|, row);
  }

  lemma {:induction false} UpdateMiddle(a: seq<View>, v: View, w: View, b: seq<View>)
    ensures (a + [v] + b)[|a| := w] == a + [w] + b
  {}

  lemma {:induction false} LiveViewsUpdate(rows: seq<Row>, n: nat, row: Row)
    requires n < |rows|
    ensures LiveViews(rows[n := row]) == LiveViews(rows)[n := View(row.toolId, row.status, row.live)]
  {}

  lemma {:induction false} AddToolView(items: seq<Item>, x: Item, rows: seq<Row>, row: Row)
    requires Same(row, x) && ToolViews(items) == LiveViews(rows)
    ensures ToolViews(items + [x]) == LiveViews(rows + [row])
  {
    PickAppend(items, [x], ToolView);
    PickOne(x, ToolView);
    assert LiveViews(rows + [row]) == LiveViews(rows) + [ToolView(x).value];
  }

  /** One tool event moves the reducer's rows as it moves the ideal ones. */
  lemma {:induction false} UpdateToolViews(items: seq<Item>, e: Event, rows: seq<Row>)
    requires e.body.Tool? && ToolViews(items) == LiveViews(rows)
    ensures ToolViews(UpdateTool(items, e.body.step, e.body.fields, false)) == LiveViews(IdealOne(rows, e))
  {
    var f := e.body.fields;
    if ToolIdOf(f).Some? {
      var id := ToolIdOf(f).value;
      FirstToolView(items, id, rows);
      var n, k := ToolIndex(items, id), FindIdeal(rows, id);
      var x := UpdateTool(items, e.body.step, f, false)[n];
      if n < |items| {
        ChangeToolView(items, n, x, rows, IdealRow(id, e.body.step, f, Some(rows[k])));
      } else {
        AddToolView(items, x, rows, IdealRow(id, e.body.step, f, None));
      }
    }
  }

  lemma {:induction false} ReduceViews(s: State, e: Event, rows: seq<Row>)
    requires s.lastSequence < e.sequence && !s.operationOver && ToolViews(s.messages) == LiveViews(rows)
    ensures ToolViews(Reduce(s, e).messages) == LiveViews(IdealOne(rows, e)) && !Reduce(s, e).operationOver
  {
    if e.body.TextDelta? {
      MergeKeepsViews(s.messages, e.body.messageId, e.body.blockId, e.body.text);
    } else if e.body.Tool? {
      UpdateToolViews(s.messages, e, rows);
    } else {
      PickOtherEvents(s, e.body, ToolView);
    }
  }

  /** Replaying a log from an empty transcript shows the ideal rows with their live columns. */
  lemma {:induction false} ReplayViews(log: seq<Event>)
    requires Increasing(log) && (log != [] ==> log[0].sequence > 0)
    ensures ToolViews(Replay(EMPTY, log).messages) == LiveViews(Ideal(log)) && !Replay(EMPTY, log).operationOver
  {
    if log != [] {
      var n := |log| - 1;
      ReplayViews(log[..n]);
      ReplayStandsAtLast(EMPTY, log[..n]);
      ReduceViews(Replay(EMPTY, log[..n]), log[n], Ideal(log[..n]));
    }
  }

  lemma {:induction false} SameFind(snaps: seq<Snapshot>, rows: seq<Row>, id: string)
    requires SnapshotViews(snaps) == HistoryViews(rows)
    ensures FindRow(snaps, id) == FindIdeal(rows, id)
  {
    assert forall i | 0 <= i < |rows| :: snaps[i].toolId == rows[i].toolId by {
      forall i | 0 <= i < |rows| ensures snaps[i].toolId == rows[i].toolId {
        assert SnapshotViews(snaps)[i] == HistoryViews(rows)[i];
      }
    }
  }

  /** Projecting the same log from history shows the ideal rows with their history columns. */
  lemma {:induction false} ProjectViews(log: seq<Event>)
    ensures SnapshotViews(ProjectAll(log)) == HistoryViews(Ideal(log))
  {
    if log != [] {
      var n := |log| - 1;
      var snaps, rows, e := ProjectAll(log[..n]), Ideal(log[..n]), log[n];
      ProjectViews(log[..n]);
      if e.body.Tool? && ToolIdOf(e.body.fields).Some? {
        SameFind(snaps, rows, ToolIdOf(e.body.fields).value);
        ProjectOneViews(snaps, rows, e);
      }
    }
  }

  lemma {:induction false} ProjectOneViews(snaps: seq<Snapshot>, rows: seq<Row>, e: Event)
    requires SnapshotViews(snaps) == HistoryViews(rows) && e.body.Tool? && ToolIdOf(e.body.fields).Some?
    requires FindRow(snaps, ToolIdOf(e.body.fields).value) == FindIdeal(rows, ToolIdOf(e.body.fields).value)
    ensures SnapshotViews(ProjectOne(snaps, e)) == HistoryViews(IdealOne(rows, e))
  {
    var f, n := e.body.fields, FindRow(snaps, ToolIdOf(e.body.fields).value);
    if n < |snaps| {
      assert SnapshotViews(snaps)[n] == HistoryViews(rows)[n];
    }
    forall i | 0 <= i < |ProjectOne(snaps, e)|
        ensures SnapshotViews(ProjectOne(snaps, e))[i] == HistoryViews(IdealOne(rows, e))[i] {
      if i != n { assert SnapshotViews(snaps)[i] == HistoryViews(rows)[i]; }
    }
  }

  predicate Concerns(e: Event, id: string) {
    e.body.Tool? && ToolIdOf(e.body.fields) == Some(id)
  }

  /** The payloads of the first and of the last event of a tool. */
  function FirstFields(log: seq<Event>, id: string): Option<ToolFields> {
    if log == [] then None
    else
      var earlier := FirstFields(log[..|log| - 1], id);
      if earlier.None? && Concerns(log[|log| - 1], id) then Some(log[|log| - 1].body.fields) else earlier
  }

  function LastFields(log: seq<Event>, id: string): Option<ToolFields> {
    if log == [] then None
    else if Concerns(log[|log| - 1], id) then Some(log[|log| - 1].body.fields)
    else LastFields(log[..|log| - 1], id)
  }

  /** The last summary or result the log gives a tool, of whatever kind. */
  function LastGiven(log: seq<Event>, id: string): Field {
    if log == [] then Absent
    else
      var earlier := LastGiven(log[..|log| - 1], id);
      if Concerns(log[|log| - 1], id) then Effective(log[|log| - 1].body.fields).Or(earlier) else earlier
  }

  /** The last text a tool's events hold in the column `column`. */
  function LastText(log: seq<Event>, id: string, column: ToolFields -> Field): Field {
    if log == [] then Absent
    else if Concerns(log[|log| - 1], id) &&
         column(log[|log| - 1].body.fields).Text? then column(log[|log| - 1].body.fields)
    else LastText(log[..|log| - 1], id, column)
  }

  /** The name the first event of a tool gives. */
  function FirstName(log: seq<Event>, id: string): string {
    var first := FirstFields(log, id);
    if first.Some? then NameOrUnknown(first.value.name) else "unknown"
  }

  /** The last text name any event of a tool gives. */
  function LastName(log: seq<Event>, id: string): string {
    var last := LastText(log, id, NameField);
    if last.Text? then last.text else "unknown"
  }

  function LastError(log: seq<Event>, id: string): Field {
    var last := LastFields(log, id);
    if last.Some? then last.value.error else Absent
  }

  function LiveColumns(log: seq<Event>, id: string): Columns {
    Columns(LastGiven(log, id), FirstName(log, id), LastError(log, id))
  }

  function HistoryColumns(log: seq<Event>, id: string): Columns {
    Columns(LastText(log, id, Effective), LastName(log, id), LastText(log, id, AnyError))
  }

  ghost predicate Named(log: seq<Event>, id: string) {
    exists i | 0 <= i < |log| :: Concerns(log[i], id)
  }

  ghost predicate RowFits(r: Row, log: seq<Event>) {
    Named(log, r.toolId) && r.live == LiveColumns(log, r.toolId) && r.history == HistoryColumns(log, r.toolId)
  }

  /** A row of a tool that the last event does not concern. */
  lemma {:induction false} RowStays(log: seq<Event>, r: Row)
    requires log != [] && RowFits(r, log[..|log| - 1]) && !Concerns(log[|log| - 1], r.toolId)
    ensures RowFits(r, log)
  {
    NamedStep(log, r.toolId);
  }

  /** The row of a tool that the last event concerns, when it had one before. */
  lemma {:induction false} RowChanges(log: seq<Event>, r: Row)
    requires log != [] && Concerns(log[|log| - 1], r.toolId) && RowFits(r, log[..|log| - 1])
    ensures RowFits(IdealRow(r.toolId, log[|log| - 1].body.step, log[|log| - 1].body.fields, Some(r)), log)
  {
    NamedStep(log, r.toolId);
    FirstIsNamed(log[..|log| - 1], r.toolId);
  }

  /** The row of a tool whose first event is the last one. */
  lemma {:induction false} RowBegins(log: seq<Event>, id: string)
    requires log != [] && Concerns(log[|log| - 1], id) && !Named(log[..|log| - 1], id)
    ensures RowFits(IdealRow(id, log[|log| - 1].body.step, log[|log| - 1].body.fields, None), log)
  {
    NamedStep(log, id);
    NeverNamed(log[..|log| - 1], id);
  }

  /** The ideal rows are those of the tools the log names, with the columns the log gives them. */
  lemma {:induction false} IdealRows(log: seq<Event>)
    ensures forall k | 0 <= k < |Ideal(log)| :: RowFits(Ideal(log)[k], log)
    ensures forall id | Named(log, id) :: FindIdeal(Ideal(log), id) < |Ideal(log)|
  {
    if log != [] {
      var n := |log| - 1;
      var before, after, e := Ideal(log[..n]), Ideal(log), log[n];
      IdealRows(log[..n]);
      forall id | Named(log, id) ensures FindIdeal(after, id) < |after| {
        NamedStep(log, id);
        StillFound(before, e, id);
      }
      forall k | 0 <= k < |after| ensures RowFits(after[k], log) {
        IdealRowFits(log, log[..n], before, k);
      }
    }
  }

  lemma {:induction false} IdealRowFits(log: seq<Event>, init: seq<Event>, before: seq<Row>, k: nat)
    requires log != [] && k < |Ideal(log)| && init == log[..|log| - 1] && before == Ideal(init)
    requires forall m | 0 <= m < |before| :: RowFits(before[m], init)
    requires forall id | Named(init, id) :: FindIdeal(before, id) < |before|
    ensures RowFits(Ideal(log)[k], log)
  {
    var e, id := log[|log| - 1], Ideal(log)[k].toolId;
    if Concerns(e, id) {
      var m := FindIdeal(before, id);
      OnlyOneRow(init);
      if m < |before| { RowChanges(log, before[m]); } else { RowBegins(log, id); }
    } else {
      RowStays(log, Ideal(log)[k]);
    }
  }

  lemma {:induction false} FirstIsNamed(log: seq<Event>, id: string)
    ensures FirstFields(log, id).Some? <==> Named(log, id)
  {
    if log != [] {
      FirstIsNamed(log[..|log| - 1], id);
      NamedStep(log, id);
    }
  }

  lemma {:induction false} OnlyOneRow(log: seq<Event>)
    ensures forall i, j | 0 <= i < j < |Ideal(log)| :: Ideal(log)[i].toolId != Ideal(log)[j].toolId
  {
    if log != [] { OnlyOneRow(log[..|log| - 1]); }
  }

  lemma {:induction false} NamedStep(log: seq<Event>, id: string)
    requires log != []
    ensures Named(log, id) <==> Named(log[..|log| - 1], id) || Concerns(log[|log| - 1], id)
  {
    var init := log[..|log| - 1];
    if Named(init, id) {
      var i :| 0 <= i < |init| && Concerns(init[i], id);
      assert log[i] == init[i];
    }
    if Named(log, id) {
      var i :| 0 <= i < |log| && Concerns(log[i], id);
      assert i < |init| ==> init[i] == log[i];
    }
  }

  lemma {:induction false} StillFound(rows: seq<Row>, e: Event, id: string)
    requires FindIdeal(rows, id) < |rows| || Concerns(e, id)
    ensures FindIdeal(IdealOne(rows, e), id) < |IdealOne(rows, e)|
  {
    var after := IdealOne(rows, e);
    if FindIdeal(rows, id) < |rows| {
      assert after[FindIdeal(rows, id)].toolId == id;
    } else {
      assert after[|rows|].toolId == id;
    }
  }

  lemma {:induction false} NeverNamed(log: seq<Event>, id: string)
    requires !Named(log, id)
    ensures LastGiven(log, id) == Absent && FirstFields(log, id) == None && LastFields(log, id) == None
    ensures HistoryColumns(log, id) == Columns(Absent, "unknown", Absent)
  {
    if log != [] {
      NamedStep(log, id);
      NeverNamed(log[..|log| - 1], id);
    }
  }

  /** The last summary is the last text summary unless it is a value of another kind. */
  lemma {:induction false} GivenIsText(log: seq<Event>, id: string)
    ensures LastGiven(log, id) == LastText(log, id, Effective) <==> !LastGiven(log, id).Other?
    ensures !LastText(log, id, Effective).Other?
  {
    if log != [] { GivenIsText(log[..|log| - 1], id); }
  }

  // ---------------------------------------------------------------- main results

  function Shape(views: seq<View>): (r: seq<(string, ToolStatus)>)
    ensures |r| == |views|
  {
    seq(|views|, i requires 0 <= i < |views| => (views[i].toolId, views[i].status))
  }

  /** Both forms show these columns of the same tools. */
  lemma {:induction false} BothViews(log: seq<Event>, events: seq<Event>)
    requires Increasing(log) && (log != [] ==> log[0].sequence > 0) && multiset(events) == multiset(log)
    ensures ToolViews(Replay(EMPTY, log).messages) == LiveViews(Ideal(log))
    ensures SnapshotViews(ProjectTools(events)) == HistoryViews(Ideal(log))
    ensures forall k | 0 <= k < |Ideal(log)| :: RowFits(Ideal(log)[k], log)
    ensures forall id | Named(log, id) :: FindIdeal(Ideal(log), id) < |Ideal(log)|
  {
    AnyOrderIsTheLog(events, log);
    ReplayViews(log);
    ProjectViews(log);
    IdealRows(log);
  }

  /** Two lists of views agree in what `column` picks. */
  ghost predicate AgreeIn<T(!new)>(a: seq<View>, b: seq<View>, column: Columns -> T) {
    |a| == |b| && forall k | 0 <= k < |a| :: column(a[k].columns) == column(b[k].columns)
  }

  lemma {:induction false} AgreeByTool<T(!new)>(log: seq<Event>, rows: seq<Row>, column: Columns -> T)
    requires forall k | 0 <= k < |rows| :: RowFits(rows[k], log)
    requires forall id | Named(log, id) :: FindIdeal(rows, id) < |rows|
    ensures AgreeIn(LiveViews(rows), HistoryViews(rows), column) <==>
            forall id | Named(log, id) :: column(LiveColumns(log, id)) == column(HistoryColumns(log, id))
  {
    if AgreeIn(LiveViews(rows), HistoryViews(rows), column) {
      forall id | Named(log, id) ensures column(LiveColumns(log, id)) == column(HistoryColumns(log, id)) {
        var k := FindIdeal(rows, id);
        assert RowFits(rows[k], log);
        assert column(LiveViews(rows)[k].columns) == column(HistoryViews(rows)[k].columns);
      }
    }
    if forall id | Named(log, id) :: column(LiveColumns(log, id)) == column(HistoryColumns(log, id)) {
      forall k | 0 <= k < |rows| ensures column(LiveViews(rows)[k].columns) == column(HistoryViews(rows)[k].columns) {
        assert RowFits(rows[k], log);
      }
    }
  }

  /** Replaying the log and projecting its history in any order give the same tools in the
      same order with the same status; the summaries agree too exactly when no tool's last
      summary is something other than a string. */
  lemma {:induction false} ProjectionsAgree(log: seq<Event>, events: seq<Event>)
    requires Increasing(log) && (log != [] ==> log[0].sequence > 0) && multiset(events) == multiset(log)
    ensures Shape(ToolViews(Replay(EMPTY, log).messages)) == Shape(SnapshotViews(ProjectTools(events)))
    ensures AgreeIn(ToolViews(Replay(EMPTY, log).messages), SnapshotViews(ProjectTools(events)),
                    (c: Columns) => c.summary) <==>
            forall id | Named(log, id) :: !LastGiven(log, id).Other?
  {
    BothViews(log, events);
    AgreeByTool(log, Ideal(log), (c: Columns) => c.summary);
    forall id ensures LiveColumns(log, id).summary == HistoryColumns(log, id).summary <==> !LastGiven(log, id).Other? {
      GivenIsText(log, id);
    }
  }

  /** The names agree exactly when every tool's first event gives the name that the last
      event with a name gives. */
  lemma {:induction false} NamesAgree(log: seq<Event>, events: seq<Event>)
    requires Increasing(log) && (log != [] ==> log[0].sequence > 0) && multiset(events) == multiset(log)
    ensures AgreeIn(ToolViews(Replay(EMPTY, log).messages), SnapshotViews(ProjectTools(events)),
                    (c: Columns) => c.name) <==>
            forall id | Named(log, id) :: FirstName(log, id) == LastName(log, id)
  {
    BothViews(log, events);
    AgreeByTool(log, Ideal(log), (c: Columns) => c.name);
  }

  /** The errors agree exactly when every tool's last event carries, as its `error`, the last
      text its events hold in `error ?? error_redacted`. */
  lemma {:induction false} ErrorsAgree(log: seq<Event>, events: seq<Event>)
    requires Increasing(log) && (log != [] ==> log[0].sequence > 0) && multiset(events) == multiset(log)
    ensures AgreeIn(ToolViews(Replay(EMPTY, log).messages), SnapshotViews(ProjectTools(events)),
                    (c: Columns) => c.error) <==>
            forall id | Named(log, id) :: LastError(log, id) == LastText(log, id, AnyError)
  {
    BothViews(log, events);
    AgreeByTool(log, Ideal(log), (c: Columns) => c.error);
  }

  // ---------------------------------------------------------------- todos

  function TodoEvents(events: seq<Event>): seq<Event> {
    if events == [] then []
    else TodoEvents(events[..|events| - 1]) + if events[|events| - 1].body.TodoChanged? then [events[|events| - 1]]
         else []
  }

  predicate LatestFirst(a: Event, b: Event) {
    a.sequence >= b.sequence
  }

  /** `items.flatMap(...)`. */
  function FlatTodos(items: seq<RawTodo>): seq<Todo> {
    if items == [] then []
    else
      var last := items[|items| - 1];
      FlatTodos(items[..|items| - 1]) + if IsTodo(last)
          then [Todo(last.todoId.text, last.content.text, TodoStatusOf(last.status))] else []
  }

  /** `projectTodoEvents`. */
  function ProjectTodos(events: seq<Event>): seq<Todo> {
    var latest := Sort(TodoEvents(events), LatestFirst);
    if latest == [] || !latest[0].body.TodoChanged? || latest[0].body.items.None? then []
        else FlatTodos(latest[0].body.items.value)
  }

  lemma {:induction false} FlatIsFilterMap(items: seq<RawTodo>)
    ensures FlatTodos(items) == ReadTodos(items)
  {
    if items != [] { FlatIsFilterMap(items[..|items| - 1]); }
  }

  lemma {:induction false} TodoEventsAre(events: seq<Event>)
    ensures forall e :: e in TodoEvents(events) <==> e in events && e.body.TodoChanged?
  {
    if events != [] {
      TodoEventsAre(events[..|events| - 1]);
      assert events == events[..|events| - 1] + [events[|events| - 1]];
    }
  }

  /** The last todo event of a log. */
  function LastTodo(log: seq<Event>): Option<Event> {
    if log == [] then None
    else if log[|log| - 1].body.TodoChanged? then Some(log[|log| - 1])
    else LastTodo(log[..|log| - 1])
  }

  lemma {:induction false} LastTodoIsLatest(log: seq<Event>)
    requires Increasing(log)
    ensures forall e | e in log && e.body.TodoChanged? ::
              LastTodo(log).Some? && (e == LastTodo(log).value || e.sequence < LastTodo(log).value.sequence)
    ensures LastTodo(log).Some? ==> LastTodo(log).value in log && LastTodo(log).value.body.TodoChanged?
  {
    if log != [] {
      LastTodoIsLatest(log[..|log| - 1]);
      assert log == log[..|log| - 1] + [log[|log| - 1]];
    }
  }

  /** What the last todo list of a log reads as. */
  function LastList(log: seq<Event>): seq<Todo> {
    var last := LastTodo(log);
    if last.Some? && last.value.body.TodoChanged? &&
        last.value.body.items.Some? then ReadTodos(last.value.body.items.value) else []
  }

  /** The history projection reads the todos of the last todo event, in whatever order it gets them. */
  lemma {:induction false} ProjectsLastTodo(log: seq<Event>, events: seq<Event>)
    requires Increasing(log) && multiset(events) == multiset(log)
    ensures ProjectTodos(events) == LastList(log)
  {
    var picked := TodoEvents(events);
    var latest := Sort(picked, LatestFirst);
    assert TotalPreorder(LatestFirst);
    SortSorted(picked, LatestFirst);
    SameElements(latest, picked);
    SameElements(events, log);
    TodoEventsAre(events);
    LastTodoIsLatest(log);
    assert LastTodo(log).Some? ==> LastTodo(log).value in latest;
    if latest != [] {
      assert latest[0] in log && latest[0].body.TodoChanged?;
      var last := LastTodo(log).value;
      assert last in latest;
      var i :| 0 <= i < |latest| && latest[i] == last;
      assert LatestFirst(latest[0], latest[i]);
      assert latest[0] == last;
      if last.body.items.Some? { FlatIsFilterMap(last.body.items.value); }
    }
  }

  /** A run completed after the last todo list arrived. */
  predicate CompletedSince(log: seq<Event>) {
    log != [] && !log[|log| - 1].body.TodoChanged? &&
    (log[|log| - 1].body.RunCompleted? || CompletedSince(log[..|log| - 1]))
  }

  lemma {:induction false} CompletedTwice(todos: seq<Todo>)
    ensures AllCompleted(AllCompleted(todos)) == AllCompleted(todos)
  {}

  lemma {:induction false} ReduceTodos(s: State, log: seq<Event>, e: Event)
    requires s.lastSequence < e.sequence && s.todos == if CompletedSince(log) then AllCompleted(LastList(log))
             else LastList(log)
    ensures Reduce(s, e).todos == if CompletedSince(log + [e]) then AllCompleted(LastList(log + [e]))
            else LastList(log + [e])
  {
    assert (log + [e])[..|log|] == log;
    CompletedTwice(LastList(log));
  }

  lemma {:induction false} ReplayTodos(log: seq<Event>)
    requires Increasing(log) && (log != [] ==> log[0].sequence > 0)
    ensures Replay(EMPTY, log).todos == if CompletedSince(log) then AllCompleted(LastList(log)) else LastList(log)
  {
    if log != [] {
      var n := |log| - 1;
      ReplayTodos(log[..n]);
      ReplayStandsAtLast(EMPTY, log[..n]);
      ReduceTodos(Replay(EMPTY, log[..n]), log[..n], log[n]);
      assert log[..n] + [log[n]] == log;
    }
  }

  /** Replayed and projected todos agree exactly when no run completed after the last todo
      list, or that list was completed anyway. */
  lemma {:induction false} TodosAgree(log: seq<Event>, events: seq<Event>)
    requires Increasing(log) && (log != [] ==> log[0].sequence > 0) && multiset(events) == multiset(log)
    ensures Replay(EMPTY, log).todos == if CompletedSince(log) then AllCompleted(ProjectTodos(events))
            else ProjectTodos(events)
    ensures Replay(EMPTY, log).todos == ProjectTodos(events) <==>
            !CompletedSince(log) || forall i | 0 <= i < |ProjectTodos(events)| ::
                ProjectTodos(events)[i].status == TodoCompleted
  {
    ReplayTodos(log);
    ProjectsLastTodo(log, events);
    var ts := ProjectTodos(events);
    if AllCompleted(ts) == ts {
      forall i | 0 <= i < |ts| ensures ts[i].status == TodoCompleted {
        assert AllCompleted(ts)[i] == ts[i];
      }
    }
  }

  // ---------------------------------------------------------------- where they part

  const NO_FIELDS := ToolFields(Text("t"), Absent, Absent, Absent, Absent, Absent, Absent, Absent)

  lemma {:induction false} TwoEvents(a: Event, b: Event)
    requires 0 < a.sequence < b.sequence
    ensures Replay(EMPTY, [a, b]) == Reduce(Reduce(EMPTY, a), b)
    ensures ProjectTools([a, b]) == ProjectOne(ProjectOne([], a), b)
  {
    assert [a, b][..1] == [a] && [a][..0] == [];
    assert Replay(EMPTY, [a][..0]) == EMPTY;
    assert Replay(EMPTY, [a]) == Reduce(EMPTY, a);
    assert ProjectAll([a]) == ProjectOne([], a);
    AnyOrderIsTheLog([a, b], [a, b]);
  }

  /** Two events of the same tool, as the reducer shows them. */
  lemma {:induction false} TwoSteps(a: Event, b: Event)
    requires 0 < a.sequence < b.sequence && a.body.Tool? && b.body.Tool?
    requires ToolIdOf(a.body.fields) == Some("t") && ToolIdOf(b.body.fields) == Some("t")
    ensures |Replay(EMPTY, [a, b]).messages| == 1
    ensures var row := Replay(EMPTY, [a, b]).messages[0];
            row.ToolBlock? && row.toolName ==
                (if a.body.fields.name.Text? && a.body.fields.name.text != "" then a.body.fields.name.text
                 else "unknown")
            && row.error == b.body.fields.error
    ensures ProjectTools([a, b]) ==
            [NextRow("t", b.body.step, b.body.fields, Some(NextRow("t", a.body.step, a.body.fields, None)))]
  {
    TwoEvents(a, b);
    var one := UpdateTool([], a.body.step, a.body.fields, false);
    assert |one| == 1 && IsTool(one[0], "t");
    assert ToolIndex(one, "t") == 0;
    var row := ProjectOne([], a);
    assert row == [NextRow("t", a.body.step, a.body.fields, None)];
    assert FindRow(row, "t") == 0;
  }

  /** The tool name is not among the columns that agree: the reducer keeps the name of the
      first event, the history form takes the latest one. */
  lemma {:induction false} NamesMayDiffer() returns (a: Event, b: Event)
    ensures Increasing([a, b]) && 0 < a.sequence
    ensures |Replay(EMPTY, [a, b]).messages| == 1 == |ProjectTools([a, b])|
    ensures Replay(EMPTY, [a, b]).messages[0].ToolBlock? && Replay(EMPTY, [a, b]).messages[0].toolName == "unknown"
    ensures ProjectTools([a, b])[0].toolName == "shell"
  {
    a := Event(1, Tool(Proposed, NO_FIELDS));
    b := Event(2, Tool(Started, NO_FIELDS.(name := Text("shell"))));
    TwoSteps(a, b);
  }

  /** Nor is the error: a later event without an error clears it in the reducer only. */
  lemma {:induction false} ErrorsMayDiffer() returns (a: Event, b: Event)
    ensures Increasing([a, b]) && 0 < a.sequence
    ensures |Replay(EMPTY, [a, b]).messages| == 1 == |ProjectTools([a, b])|
    ensures Replay(EMPTY, [a, b]).messages[0].ToolBlock? && Replay(EMPTY, [a, b]).messages[0].error == Absent
    ensures ProjectTools([a, b])[0].error == Some("timeout")
  {
    a := Event(1, Tool(StatusChanged, NO_FIELDS.(status := Text("failed"), error := Text("timeout"))));
    b := Event(2, Tool(Completed, NO_FIELDS));
    TwoSteps(a, b);
  }
}
