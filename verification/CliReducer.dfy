/** The terminal client's projection: how one stream event changes the visible state. */
module CliReducer {
  import opened Wrappers

  // ---------------------------------------------------------------- events

  /** A payload field: missing or null, a string, or some other JSON value. */
  datatype Field = Absent | Text(text: string) | Other(tag: nat)
  {
    /** `this ?? that`. */
    function Or(that: Field): Field {
      if Absent? then that else this
    }

    function AsText(): Option<string> {
      if Text? then Some(text) else None
    }
  }

  datatype ToolStep = Proposed | Started | Completed | StatusChanged

  datatype ToolFields = ToolFields(
    toolId: Field, callId: Field, status: Field, name: Field,
    summary: Field, result: Field, error: Field, errorRedacted: Field)

  /** One element of a todo list as it arrives; `todoId` and `content` may be anything. */
  datatype RawTodo = NotAnObject | RawTodo(todoId: Field, content: Field, status: Field)

  datatype Body =
    | TextDelta(messageId: string, blockId: string, text: string)
    | MessageCompleted(messageId: string)
    | Tool(step: ToolStep, fields: ToolFields)
    | TodoChanged(items: Option<seq<RawTodo>>)
    | RunWaiting(runId: string)
    | RunCompleted(runId: string)
    | RunFailed(runId: string, reason: Option<string>)
    | InvestigationFailed(investigationId: string)
    | RoundCompleted(inputTokens: nat, outputTokens: nat)
    | ApprovalRequested(approvalId: string)
    | Unprojected(eventType: string)
    | Unknown(eventType: string)

  datatype Event = Event(sequence: nat, body: Body)
  {
    /** The transport drops events of types this client does not know. */
    predicate Known() {
      !body.Unknown?
    }
  }

  // ---------------------------------------------------------------- state

  datatype ToolStatus = IsProposed | Running | WaitingApproval | Succeeded | Failed | Uncertain

  datatype Item =
    | TextBlock(messageId: string, blockId: string, content: string, finalized: bool)
    | UserMessage(promptId: string, prompt: string)
    | ToolBlock(toolId: string, toolName: string, status: ToolStatus, error: Field, summary: Field)
    | SystemMessage(id: Option<string>, note: string)

  datatype TodoStatus = TodoPending | InProgress | TodoCompleted

  datatype Todo = Todo(todoId: string, content: string, status: TodoStatus)

  datatype Usage = Usage(rounds: nat, inputTokens: nat, outputTokens: nat)

  /** `operationOver` is what the reducer reads off the active operation's status. */
  datatype State = State(
    messages: seq<Item>,
    todos: seq<Todo>,
    pendingApprovals: set<string>,
    usage: Usage,
    operationOver: bool,
    lastSequence: nat)

  const EMPTY := State([], [], {}, Usage(0, 0, 0), false, 0)

  // ---------------------------------------------------------------- text

  /** Index of the first item satisfying `p`, or the length. */
  function FindFirst(items: seq<Item>, p: Item -> bool): (n: nat)
    ensures n <= |items|
    ensures n < |items| ==> p(items[n])
    ensures forall i :: 0 <= i < n ==> !p(items[i])
  {
    if items == [] then 0
    else if p(items[0]) then 0
    else FindFirst(items[1..], p) + 1
  }

  predicate IsBlock(item: Item, messageId: string, blockId: string) {
    item.TextBlock? && item.messageId == messageId && item.blockId == blockId
  }

  function BlockIndex(items: seq<Item>, messageId: string, blockId: string): (n: nat)
    ensures n <= |items|
    ensures n < |items| ==> IsBlock(items[n], messageId, blockId)
    ensures forall i :: 0 <= i < n ==> !IsBlock(items[i], messageId, blockId)
  {
    FindFirst(items, item => IsBlock(item, messageId, blockId))
  }

  function MergeTextDelta(items: seq<Item>, messageId: string, blockId: string, delta: string): seq<Item> {
    var n := BlockIndex(items, messageId, blockId);
    if n < |items| then items[n := items[n].(content := items[n].content + delta)]
    else items + [TextBlock(messageId, blockId, delta, false)]
  }

  function FinalizeMessage(items: seq<Item>, messageId: string): (r: seq<Item>)
    ensures |r| == |items|
  {
    seq(|items|, i requires 0 <= i < |items| =>
      if items[i].TextBlock? && items[i].messageId == messageId then items[i].(finalized := true) else items[i])
  }

  // ---------------------------------------------------------------- tools

  /** `tool_id ?? tool_call_id`, when that is a non-empty string. */
  function ToolIdOf(f: ToolFields): Option<string> {
    var id := f.toolId.Or(f.callId);
    if id.Text? && id.text != "" then Some(id.text) else None
  }

  function StatusOf(step: ToolStep, f: ToolFields): ToolStatus {
    match step
    case Proposed => IsProposed
    case Started => Running
    case Completed => Succeeded
    case StatusChanged =>
      if f.status == Text("failed") then Failed
      else if f.status == Text("succeeded") then Succeeded
      else if f.status == Text("waiting_approval") then WaitingApproval
      else if f.status == Text("uncertain") then Uncertain
      else Running
  }

  predicate IsTool(item: Item, toolId: string) {
    item.ToolBlock? && item.toolId == toolId
  }

  function ToolIndex(items: seq<Item>, toolId: string): (n: nat)
    ensures n <= |items|
    ensures n < |items| ==> IsTool(items[n], toolId)
    ensures forall i :: 0 <= i < n ==> !IsTool(items[i], toolId)
  {
    FindFirst(items, item => IsTool(item, toolId))
  }

  /** `updateToolStatus`: change the row in place or append a new one. */
  function UpdateTool(items: seq<Item>, step: ToolStep, f: ToolFields, over: bool): seq<Item> {
    var id := ToolIdOf(f);
    if id.None? then items
    else
      var status := if over && (step == Proposed || step == Started) then Uncertain else StatusOf(step, f);
      var n := ToolIndex(items, id.value);
      if n < |items| then
        items[n := items[n].(status := status, error := f.error,
                             summary := f.summary.Or(f.result).Or(items[n].summary))]
      else
        items + [ToolBlock(id.value, if f.name.Text? && f.name.text != "" then f.name.text else "unknown",
                           status, f.error, f.summary.Or(f.result))]
  }

  // ---------------------------------------------------------------- run status and todos

  function WithoutSystem(items: seq<Item>, id: string): seq<Item> {
    if items == [] then []
    else
      WithoutSystem(items[..|items| - 1], id) +
      if items[|items| - 1].SystemMessage? && items[|items| - 1].id == Some(id) then [] else [items[|items| - 1]]
  }

  function UpsertRunStatus(items: seq<Item>, runId: string, content: string): seq<Item> {
    WithoutSystem(items, "agent-run:" + runId + ":status") +
        [SystemMessage(Some("agent-run:" + runId + ":status"), content)]
  }

  function TodoStatusOf(f: Field): TodoStatus {
    if f == Text("completed") then TodoCompleted else if f == Text("in_progress") then InProgress else TodoPending
  }

  predicate IsTodo(raw: RawTodo) {
    raw.RawTodo? && raw.todoId.Text? && raw.content.Text?
  }

  /** `items.filter(...)`. */
  function OnlyTodos(items: seq<RawTodo>): (r: seq<RawTodo>)
    ensures forall i :: 0 <= i < |r| ==> IsTodo(r[i])
  {
    if items == [] then []
    else OnlyTodos(items[..|items| - 1]) + if IsTodo(items[|items| - 1]) then [items[|items| - 1]] else []
  }

  /** The reducer's `filter` followed by `map`. */
  function ReadTodos(items: seq<RawTodo>): seq<Todo> {
    var kept := OnlyTodos(items);
    seq(|kept|, i requires 0 <= i < |kept| => Todo(kept[i].todoId.text, kept[i].content.text,
                                                   TodoStatusOf(kept[i].status)))
  }

  function AllCompleted(todos: seq<Todo>): (r: seq<Todo>)
    ensures |r| == |todos|
  {
    seq(|todos|, i requires 0 <= i < |todos| => todos[i].(status := TodoCompleted))
  }

  // ---------------------------------------------------------------- the reducer

  predicate SaysFailed(item: Item) {
    item.SystemMessage? && FAILED_LABEL <= item.note
  }

  const FAILED_LABEL := "调查失败"
  const COMPLETED_LABEL := "调查完成"
  const PAUSED_LABEL := "Agent 已暂停，等待审批"

  function ReduceBody(s: State, body: Body): State {
    match body
    case TextDelta(m, b, text) => s.(messages := MergeTextDelta(s.messages, m, b, text))
    case MessageCompleted(m) => s.(messages := FinalizeMessage(s.messages, m))
    case Tool(step, f) => s.(messages := UpdateTool(s.messages, step, f, s.operationOver))
    case TodoChanged(items) => s.(todos := if items.Some? then ReadTodos(items.value) else [])
    case RunWaiting(id) => s.(messages := UpsertRunStatus(s.messages, id, PAUSED_LABEL))
    case RunCompleted(id) =>
      s.(messages := UpsertRunStatus(s.messages, id, COMPLETED_LABEL), todos := AllCompleted(s.todos))
    case RunFailed(id, reason) =>
      s.(messages := UpsertRunStatus(s.messages, id, FAILED_LABEL + if reason.Some? then "：" + reason.value else ""))
    case InvestigationFailed(id) =>
      if exists i :: 0 <= i < |s.messages| && SaysFailed(s.messages[i]) then s
      else s.(messages := UpsertRunStatus(s.messages, id, FAILED_LABEL))
    case RoundCompleted(i, o) =>
      s.(usage := Usage(s.usage.rounds + 1, s.usage.inputTokens + i, s.usage.outputTokens + o))
    case ApprovalRequested(id) => s.(pendingApprovals := s.pendingApprovals + {id})
    case Unprojected(_) => s
    case Unknown(_) => s
  }

  /** `handleStreamEvent`: an old or repeated sequence number changes nothing. */
  function Reduce(s: State, e: Event): State {
    if e.sequence <= s.lastSequence then s
    else ReduceBody(s, e.body).(lastSequence := e.sequence)
  }

  function Replay(s: State, es: seq<Event>): State {
    if es == [] then s else Reduce(Replay(s, es[..|es| - 1]), es[|es| - 1])
  }

  predicate Increasing(es: seq<Event>) {
    forall i, j :: 0 <= i < j < |es| ==> es[i].sequence < es[j].sequence
  }

  /** After a sorted log that starts above the state's sequence, the state stands at its last event. */
  lemma {:induction false} ReplayStandsAtLast(s: State, es: seq<Event>)
    requires Increasing(es) && (es != [] ==> s.lastSequence < es[0].sequence)
    ensures Replay(s, es).lastSequence == if es == [] then s.lastSequence else es[|es| - 1].sequence
  {
    if |es| > 1 { ReplayStandsAtLast(s, es[..|es| - 1]); }
  }

  // ---------------------------------------------------------------- parts of a transcript

  /** The items `f` keeps, in order. */
  function Pick<V>(items: seq<Item>, f: Item -> Option<V>): seq<V> {
    if items == [] then []
    else Pick(items[..|items| - 1], f) + if f(items[|items| - 1]).Some? then [f(items[|items| - 1]).value] else []
  }

  lemma {:induction false} PickAppend<V>(a: seq<Item>, b: seq<Item>, f: Item -> Option<V>)
    ensures Pick(a + b, f) == Pick(a, f) + Pick(b, f)
    decreases |b|
  {
    if b == [] {
      assert a + b == a;
    } else {
      PickAppend(a, b[..|b| - 1], f);
      assert (a + b)[..|a + b| - 1] == a + b[..|b| - 1];
    }
  }

  lemma {:induction false} PickOne<V>(x: Item, f: Item -> Option<V>)
    ensures Pick([x], f) == if f(x).Some? then [f(x).value] else []
  {
    assert [x][..0] == [];
  }

  lemma {:induction false} PickSplit<V>(items: seq<Item>, n: nat, x: Item, f: Item -> Option<V>)
    requires n < |items|
    ensures Pick(items[n := x], f) == Pick(items[..n], f) + Pick([x], f) + Pick(items[n + 1..], f)
  {
    assert items[n := x] == items[..n] + [x] + items[n + 1..];
    PickAppend(items[..n] + [x], items[n + 1..], f);
    PickAppend(items[..n], [x], f);
  }

  /** Replacing one item by another that `f` does not tell apart. */
  lemma {:induction false} PickReplace<V>(items: seq<Item>, n: nat, x: Item, f: Item -> Option<V>)
    requires n < |items| && f(items[n]) == f(x)
    ensures Pick(items[n := x], f) == Pick(items, f)
  {
    assert items[n := items[n]] == items;
    PickSplit(items, n, x, f);
    PickSplit(items, n, items[n], f);
    PickOne(x, f);
    PickOne(items[n], f);
  }

  lemma {:induction false} PickWithout<V>(items: seq<Item>, key: string, f: Item -> Option<V>)
    requires forall item | item in items && item.SystemMessage? :: f(item).None?
    ensures Pick(WithoutSystem(items, key), f) == Pick(items, f)
  {
    if items != [] {
      var last, rest := items[|items| - 1], WithoutSystem(items[..|items| - 1], key);
      PickWithout(items[..|items| - 1], key, f);
      PickAppend(rest, [last], f);
      PickOne(last, f);
      assert rest + [] == rest;
    }
  }

  /** Run markers are system messages. */
  lemma {:induction false} PickRunStatus<V>(items: seq<Item>, id: string, note: string, f: Item -> Option<V>)
    requires forall item: Item | item.SystemMessage? :: f(item).None?
    ensures Pick(UpsertRunStatus(items, id, note), f) == Pick(items, f)
  {
    var key := "agent-run:" + id + ":status";
    PickWithout(items, key, f);
    PickAppend(WithoutSystem(items, key), [SystemMessage(Some(key), note)], f);
    PickOne(SystemMessage(Some(key), note), f);
  }

  lemma {:induction false} PickFinalize<V>(items: seq<Item>, m: string, f: Item -> Option<V>)
    requires forall item: Item | item.TextBlock? :: f(item.(finalized := true)) == f(item)
    ensures Pick(FinalizeMessage(items, m), f) == Pick(items, f)
  {
    if items != [] {
      assert FinalizeMessage(items, m)[..|items| - 1] == FinalizeMessage(items[..|items| - 1], m);
      PickFinalize(items[..|items| - 1], m, f);
    }
  }

  /** Events other than deltas and tool events change only system messages and flags. */
  lemma {:induction false} PickOtherEvents<V>(s: State, body: Body, f: Item -> Option<V>)
    requires !body.TextDelta? && !body.Tool?
    requires forall item: Item | item.SystemMessage? :: f(item).None?
    requires forall item: Item | item.TextBlock? :: f(item.(finalized := true)) == f(item)
    ensures Pick(ReduceBody(s, body).messages, f) == Pick(s.messages, f)
  {
    match body
    case MessageCompleted(m) => PickFinalize(s.messages, m, f);
    case RunWaiting(id) => PickRunStatus(s.messages, id, PAUSED_LABEL, f);
    case RunCompleted(id) => PickRunStatus(s.messages, id, COMPLETED_LABEL, f);
    case RunFailed(id, reason) => PickRunStatus(s.messages, id, FAILED_LABEL + if reason.Some? then "：" + reason.value
                                                else "", f);
    case InvestigationFailed(id) => PickRunStatus(s.messages, id, FAILED_LABEL, f);
    case _ =>
  }
}
