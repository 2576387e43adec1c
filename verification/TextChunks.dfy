/** Assistant text on its way from the server to the terminal: cut into deltas on one side,
    merged back into blocks on the other. */
module TextChunks {
  import opened Wrappers
  import opened Strings
  import opened CliReducer
  import CliProjection
  import CliSync

  // ---------------------------------------------------------------- the server side

  const CHUNK := 160

  function Chunks(text: string): seq<string> {
    if text == "" then []
    else if |text| <= CHUNK then [text]
    else [text[..CHUNK]] + Chunks(text[CHUNK..])
  }

  lemma {:induction false} JoinAppend(a: seq<string>, b: seq<string>)
    ensures Join(a + b) == Join(a) + Join(b)
    decreases |b|
  {
    if b == [] {
      assert a + b == a && Join(a) + "" == Join(a);
    } else {
      var init, last := b[..|b| - 1], b[|b| - 1];
      JoinAppend(a, init);
      assert (a + b)[..|a + b| - 1] == a + init;
      assert Join(a) + Join(init) + last == Join(a) + (Join(init) + last);
    }
  }

  lemma {:induction false} JoinOne(part: string)
    ensures Join([part]) == part
  {
    assert [part][..0] == [] && "" + part == part;
  }

  /** Cutting loses nothing; every delta is non-empty and none is longer than the limit. */
  lemma {:induction false} ChunksJoin(text: string)
    ensures Join(Chunks(text)) == text
    ensures forall i | 0 <= i < |Chunks(text)| :: 0 < |Chunks(text)[i]| <= CHUNK
    ensures |Chunks(text)| == (|text| + CHUNK - 1) / CHUNK
  {
    if text != "" {
      if |text| <= CHUNK {
        JoinOne(text);
      } else {
        var first, rest := text[..CHUNK], text[CHUNK..];
        ChunksJoin(rest);
        JoinAppend([first], Chunks(rest));
        JoinOne(first);
        assert text == first + rest;
        assert (|text| + CHUNK - 1) / CHUNK == (|rest| + CHUNK - 1) / CHUNK + 1;
      }
    }
  }

  /** The deltas of one message; each is redacted once more before it is published. The
      events name no block, so that a message is one block. */
  function Deltas(id: string, parts: seq<string>, redact: string -> string): seq<Body> {
    if parts == [] then []
    else Deltas(id, parts[..|parts| - 1], redact) + [TextDelta(id, "", redact(parts[|parts| - 1]))]
  }

  function Published(id: string, text: string, redact: string -> string): seq<Body> {
    Deltas(id, Chunks(text), redact) + [MessageCompleted(id)]
  }

  lemma {:induction false} DeltasPrepend(id: string, part: string, parts: seq<string>, redact: string -> string)
    ensures Deltas(id, [part] + parts, redact) == [TextDelta(id, "", redact(part))] + Deltas(id, parts, redact)
  {
    if parts == [] {
      assert ([part] + parts)[..0] == [];
    } else {
      DeltasPrepend(id, part, parts[..|parts| - 1], redact);
      assert ([part] + parts)[..|parts|] == [part] + parts[..|parts| - 1];
    }
  }

  lemma {:induction false} NextChunk(text: string, offset: nat, end: nat)
    requires offset < |text| && end == if offset + CHUNK <= |text| then offset + CHUNK else |text|
    ensures Chunks(text[offset..]) == [text[offset..end]] + Chunks(text[end..])
  {
    var rest := text[offset..];
    if |rest| > CHUNK {
      assert rest[..CHUNK] == text[offset..end] && rest[CHUNK..] == text[end..];
    } else {
      assert rest == text[offset..end] && text[end..] == "";
    }
  }

  /** Characters `160 k` to `160 (k + 1)`, or to the end of the text. */
  function Piece(text: string, k: nat): string
    requires k * CHUNK <= |text|
  {
    text[k * CHUNK..if k * CHUNK + CHUNK <= |text| then k * CHUNK + CHUNK else |text|]
  }

  /** One delta for every 160 characters of the text, in order and redacted on its own, and then the completion. */
  ghost predicate CutsUp(events: seq<Body>, id: string, text: string, redact: string -> string) {
    && events != [] && events[|events| - 1] == MessageCompleted(id)
    && (|events| - 2) * CHUNK < |text| <= (|events| - 1) * CHUNK
    && forall k: nat | k < |events| - 1 :: events[k] == TextDelta(id, "", redact(Piece(text, k)))
  }

  lemma {:induction false} ChunkAt(text: string, k: nat)
    requires k < |Chunks(text)|
    ensures k * CHUNK < |text| && Chunks(text)[k] == Piece(text, k)
  {
    if |text| > CHUNK && k > 0 {
      ChunkAt(text[CHUNK..], k - 1);
    }
  }

  lemma {:induction false} DeltaAt(id: string, parts: seq<string>, redact: string -> string, k: nat)
    ensures |Deltas(id, parts, redact)| == |parts|
    ensures k < |parts| ==> Deltas(id, parts, redact)[k] == TextDelta(id, "", redact(parts[k]))
  {
    if parts != [] { DeltaAt(id, parts[..|parts| - 1], redact, k); }
  }

  lemma {:induction false} PublishedCutsUp(id: string, text: string, redact: string -> string)
    ensures CutsUp(Published(id, text, redact), id, text, redact)
  {
    var parts, events := Chunks(text), Published(id, text, redact);
    ChunksJoin(text);
    DeltaAt(id, parts, redact, 0);
    forall k: nat | k < |events| - 1 ensures k * CHUNK <= |text| &&
        events[k] == TextDelta(id, "", redact(Piece(text, k))) {
      ChunkAt(text, k);
      DeltaAt(id, parts, redact, k);
    }
  }

  /** The projection loop of one transcript message: `range(0, len(text), 160)`. */
  method PublishMessage(id: string, text: string, redact: string -> string) returns (events: seq<Body>)
    ensures CutsUp(events, id, text, redact)
    ensures events == Published(id, text, redact)
  {
    PublishedCutsUp(id, text, redact);
    events := [];
    var offset := 0;
    assert text[0..] == text;
    while offset < |text|
      invariant offset <= |text| &&
                events + Deltas(id, Chunks(text[offset..]), redact) == Deltas(id, Chunks(text), redact)
    {
      var end := if offset + CHUNK <= |text| then offset + CHUNK else |text|;
      NextChunk(text, offset, end);
      DeltasPrepend(id, text[offset..end], Chunks(text[end..]), redact);
      events := events + [TextDelta(id, "", redact(text[offset..end]))];
      offset := end;
    }
    events := events + [MessageCompleted(id)];
  }

  // ---------------------------------------------------------------- the client side

  datatype Block = Block(messageId: string, blockId: string)

  datatype Shown = Shown(block: Block, content: string)

  function ShownText(item: Item): Option<Shown> {
    if item.TextBlock? then Some(Shown(Block(item.messageId, item.blockId), item.content)) else None
  }

  function ShownTexts(items: seq<Item>): seq<Shown> {
    Pick(items, ShownText)
  }

  /** The deltas a log holds for one block, in log order. */
  function DeltasFor(log: seq<Event>, b: Block): seq<string> {
    if log == [] then []
    else
      var body := log[|log| - 1].body;
      DeltasFor(log[..|log| - 1], b) + if body.TextDelta? && Block(body.messageId, body.blockId) == b then [body.text]
      else []
  }

  /** The blocks of a log, in the order of their first deltas. */
  function FirstSeen(log: seq<Event>): seq<Block> {
    if log == [] then []
    else
      var body := log[|log| - 1].body;
      var before := FirstSeen(log[..|log| - 1]);
      if body.TextDelta? && Block(body.messageId, body.blockId) !in before
          then before + [Block(body.messageId, body.blockId)] else before
  }

  function Merged(log: seq<Event>): (r: seq<Shown>)
    ensures |r| == |FirstSeen(log)|
  {
    seq(|FirstSeen(log)|, i requires 0 <= i < |FirstSeen(log)| => Shown(FirstSeen(log)[i],
                                                                        Join(DeltasFor(log, FirstSeen(log)[i]))))
  }

  lemma {:induction false} FirstSeenExact(log: seq<Event>)
    ensures forall i, j | 0 <= i < j < |FirstSeen(log)| :: FirstSeen(log)[i] != FirstSeen(log)[j]
    ensures forall b :: b in FirstSeen(log) <==> DeltasFor(log, b) != []
  {
    if log != [] {
      FirstSeenExact(log[..|log| - 1]);
    }
  }

  lemma {:induction false} SeenExactly(log: seq<Event>, b: Block)
    ensures b in FirstSeen(log) <==> DeltasFor(log, b) != []
  {
    FirstSeenExact(log);
  }

  lemma {:induction false} NoShown(items: seq<Item>, m: string, b: string)
    requires forall i | 0 <= i < |items| :: !IsBlock(items[i], m, b)
    ensures forall k | 0 <= k < |ShownTexts(items)| :: ShownTexts(items)[k].block != Block(m, b)
  {
    if items != [] {
      var last, rest := items[|items| - 1], ShownTexts(items[..|items| - 1]);
      assert !IsBlock(last, m, b);
      NoShown(items[..|items| - 1], m, b);
      assert ShownTexts(items) == rest + if ShownText(last).Some? then [ShownText(last).value] else [];
      forall k | 0 <= k < |ShownTexts(items)| ensures ShownTexts(items)[k].block != Block(m, b) {
        assert k < |rest| ==> rest[k].block != Block(m, b);
      }
    }
  }

  function FindShown(shown: seq<Shown>, b: Block): (n: nat)
    ensures n <= |shown|
    ensures n < |shown| ==> shown[n].block == b
    ensures forall i :: 0 <= i < n ==> shown[i].block != b
  {
    if shown == [] then 0 else if shown[0].block == b then 0 else FindShown(shown[1..], b) + 1
  }

  /** A delta goes to its own block, or opens one at the end. */
  function MergeShown(shown: seq<Shown>, b: Block, delta: string): seq<Shown> {
    var n := FindShown(shown, b);
    if n < |shown| then shown[n := Shown(b, shown[n].content + delta)] else shown + [Shown(b, delta)]
  }

  lemma {:induction false} FirstShown(items: seq<Item>, m: string, b: string)
    ensures var n, shown := BlockIndex(items, m, b), ShownTexts(items);
            if n < |items|
            then FindShown(shown, Block(m, b)) == |ShownTexts(items[..n])| < |shown| &&
                 shown[|ShownTexts(items[..n])|].content == items[n].content
            else FindShown(shown, Block(m, b)) == |shown|
  {
    var n, shown := BlockIndex(items, m, b), ShownTexts(items);
    NoShown(items[..n], m, b);
    if n < |items| {
      assert items[n := items[n]] == items;
      PickSplit(items, n, items[n], ShownText);
      PickOne(items[n], ShownText);
      var k := |ShownTexts(items[..n])|;
      assert shown[k] == Shown(Block(m, b), items[n].content);
      assert forall j | 0 <= j < k :: shown[j] == ShownTexts(items[..n])[j];
    } else {
      assert items[..n] == items;
    }
  }

  lemma {:induction false} ReplaceShown(items: seq<Item>, n: nat, x: Item)
    requires n < |items| && items[n].TextBlock? && x.TextBlock?
    ensures var k := |ShownTexts(items[..n])|;
            k < |ShownTexts(items)| && ShownTexts(items[n := x]) == ShownTexts(items)[k := ShownText(x).value]
  {
    SplitShown(items, n, x);
    assert items[n := items[n]] == items;
    SplitShown(items, n, items[n]);
  }

  lemma {:induction false} SplitShown(items: seq<Item>, n: nat, x: Item)
    requires n < |items| && x.TextBlock?
    ensures ShownTexts(items[n := x]) ==
              ShownTexts(items[..n]) + [ShownText(x).value] + ShownTexts(items[n + 1..])
  {
    PickSplit(items, n, x, ShownText);
    PickOne(x, ShownText);
  }

  lemma {:induction false} MergeShows(items: seq<Item>, m: string, b: string, delta: string)
    ensures ShownTexts(MergeTextDelta(items, m, b, delta)) == MergeShown(ShownTexts(items), Block(m, b), delta)
  {
    var n := BlockIndex(items, m, b);
    FirstShown(items, m, b);
    if n < |items| {
      ReplaceShown(items, n, items[n].(content := items[n].content + delta));
    } else {
      PickAppend(items, [TextBlock(m, b, delta, false)], ShownText);
      PickOne(TextBlock(m, b, delta, false), ShownText);
    }
  }

  lemma {:induction false} LogStep(log: seq<Event>, e: Event)
    ensures !e.body.TextDelta? ==> FirstSeen(log + [e]) == FirstSeen(log)
    ensures e.body.TextDelta? ==>
              var b := Block(e.body.messageId, e.body.blockId);
              FirstSeen(log + [e]) == if b in FirstSeen(log) then FirstSeen(log) else FirstSeen(log) + [b]
  {
    assert (log + [e])[..|log|] == log;
  }

  /** What one more event adds to the joined deltas of a block. */
  lemma {:induction false} JoinStep(log: seq<Event>, e: Event, b: Block)
    ensures Join(DeltasFor(log + [e], b)) ==
            if e.body.TextDelta? && Block(e.body.messageId, e.body.blockId) == b
                then Join(DeltasFor(log, b)) + e.body.text else Join(DeltasFor(log, b))
  {
    assert (log + [e])[..|log|] == log;
    var before := DeltasFor(log, b);
    if e.body.TextDelta? && Block(e.body.messageId, e.body.blockId) == b {
      assert (before + [e.body.text])[..|before|] == before;
    } else {
      assert before + [] == before;
    }
  }

  /** A delta leaves the blocks it is not meant for alone. */
  lemma {:induction false} OtherBlocksStay(log: seq<Event>, e: Event, k: nat)
    requires e.body.TextDelta? && k < |Merged(log)| && Merged(log)[k].block != Block(e.body.messageId, e.body.blockId)
    ensures |Merged(log + [e])| >= |Merged(log)| && Merged(log + [e])[k] == Merged(log)[k]
  {
    LogStep(log, e);
    JoinStep(log, e, FirstSeen(log)[k]);
  }

  /** A delta for a block that is there extends it. */
  lemma {:induction false} OwnBlockGrows(log: seq<Event>, e: Event, n: nat)
    requires e.body.TextDelta? && n < |Merged(log)| && Merged(log)[n].block == Block(e.body.messageId, e.body.blockId)
    ensures |Merged(log + [e])| == |Merged(log)|
    ensures Merged(log + [e])[n] == Shown(Merged(log)[n].block, Merged(log)[n].content + e.body.text)
  {
    assert FirstSeen(log)[n] in FirstSeen(log);
    LogStep(log, e);
    JoinStep(log, e, FirstSeen(log)[n]);
  }

  /** A delta for a new block opens it at the end. */
  lemma {:induction false} NewBlockOpens(log: seq<Event>, e: Event)
    requires e.body.TextDelta? && forall k | 0 <= k < |Merged(log)| ::
               Merged(log)[k].block != Block(e.body.messageId, e.body.blockId)
    ensures |Merged(log + [e])| == |Merged(log)| + 1
    ensures Merged(log + [e])[|Merged(log)|] == Shown(Block(e.body.messageId, e.body.blockId), e.body.text)
  {
    var key := Block(e.body.messageId, e.body.blockId);
    SeenExactly(log, key);
    LogStep(log, e);
    JoinStep(log, e, key);
    assert "" + e.body.text == e.body.text;
    forall k | 0 <= k < |FirstSeen(log)| ensures FirstSeen(log)[k] != key {
      assert Merged(log)[k].block == FirstSeen(log)[k];
    }
    assert key !in FirstSeen(log) && DeltasFor(log, key) == [];
  }

  lemma {:induction false} MergedStep(log: seq<Event>, e: Event)
    requires e.body.TextDelta?
    ensures Merged(log + [e]) == MergeShown(Merged(log), Block(e.body.messageId, e.body.blockId), e.body.text)
  {
    var key, before, after := Block(e.body.messageId, e.body.blockId), Merged(log), Merged(log + [e]);
    var n := FindShown(before, key);
    BlocksDistinct(log);
    if n < |before| { OwnBlockGrows(log, e, n); } else { NewBlockOpens(log, e); }
    forall k | 0 <= k < |before| && k != n ensures after[k] == before[k] {
      OtherBlocksStay(log, e, k);
    }
  }

  lemma {:induction false} BlocksDistinct(log: seq<Event>)
    ensures forall i, j | 0 <= i < j < |Merged(log)| :: Merged(log)[i].block != Merged(log)[j].block
  {
    FirstSeenExact(log);
    assert forall i | 0 <= i < |Merged(log)| :: Merged(log)[i].block == FirstSeen(log)[i];
  }

  lemma {:induction false} OtherEventsMergeNothing(log: seq<Event>, e: Event)
    requires !e.body.TextDelta?
    ensures Merged(log + [e]) == Merged(log)
  {
    LogStep(log, e);
    forall k | 0 <= k < |Merged(log)| ensures Merged(log + [e])[k] == Merged(log)[k] {
      JoinStep(log, e, FirstSeen(log)[k]);
    }
  }

  /** What one event does to the blocks shown, in any state. */
  lemma {:induction false} ReduceMerges(s: State, e: Event)
    requires s.lastSequence < e.sequence
    ensures ShownTexts(Reduce(s, e).messages) ==
            if e.body.TextDelta?
                then MergeShown(ShownTexts(s.messages), Block(e.body.messageId, e.body.blockId), e.body.text)
                else ShownTexts(s.messages)
  {
    if e.body.TextDelta? {
      MergeShows(s.messages, e.body.messageId, e.body.blockId, e.body.text);
    } else if e.body.Tool? {
      UpdateToolShows(s.messages, e.body.step, e.body.fields, s.operationOver);
    } else {
      PickOtherEvents(s, e.body, ShownText);
    }
  }

  lemma {:induction false} ReduceShows(s: State, log: seq<Event>, e: Event)
    requires s.lastSequence < e.sequence && ShownTexts(s.messages) == Merged(log)
    ensures ShownTexts(Reduce(s, e).messages) == Merged(log + [e])
  {
    ReduceMerges(s, e);
    if e.body.TextDelta? { MergedStep(log, e); } else { OtherEventsMergeNothing(log, e); }
  }

  lemma {:induction false} UpdateToolShows(items: seq<Item>, step: ToolStep, f: ToolFields, over: bool)
    ensures ShownTexts(UpdateTool(items, step, f, over)) == ShownTexts(items)
  {
    var id := ToolIdOf(f);
    if id.Some? {
      var n := ToolIndex(items, id.value);
      var x := UpdateTool(items, step, f, over)[n];
      if n < |items| {
        assert UpdateTool(items, step, f, over) == items[n := x] && ShownText(x) == None == ShownText(items[n]);
        PickReplace(items, n, x, ShownText);
      } else {
        assert UpdateTool(items, step, f, over) == items + [x] && ShownText(x) == None;
        PickAppend(items, [x], ShownText);
        PickOne(x, ShownText);
        assert ShownTexts(items) + [] == ShownTexts(items);
      }
    }
  }

  /** Whatever else a log holds and however the deltas of different messages interleave, the
      transcript has one block per message, in order of first delta, with its deltas joined in log order. */
  lemma {:induction false} ReplayMerges(log: seq<Event>)
    requires Increasing(log) && (log != [] ==> log[0].sequence > 0)
    ensures ShownTexts(Replay(EMPTY, log).messages) == Merged(log)
  {
    if log != [] {
      var n := |log| - 1;
      ReplayMerges(log[..n]);
      ReplayStandsAtLast(EMPTY, log[..n]);
      ReduceShows(Replay(EMPTY, log[..n]), log[..n], log[n]);
      assert log[..n] + [log[n]] == log;
    }
  }

  /** The log holds exactly the deltas of one projection of `text` for this message. */
  ghost predicate Carries(log: seq<Event>, id: string, text: string, redact: string -> string) {
    DeltasFor(log, Block(id, "")) == Redacted(Chunks(text), redact)
  }

  function Redacted(parts: seq<string>, redact: string -> string): (r: seq<string>)
    ensures |r| == |parts|
  {
    seq(|parts|, i requires 0 <= i < |parts| => redact(parts[i]))
  }

  /** A block with deltas is shown once, with its deltas joined. */
  lemma {:induction false} ShownOnce(log: seq<Event>, b: Block) returns (k: nat)
    requires DeltasFor(log, b) != []
    ensures k < |Merged(log)| && Merged(log)[k] == Shown(b, Join(DeltasFor(log, b)))
    ensures forall j | 0 <= j < |Merged(log)| && j != k :: Merged(log)[j].block != b
  {
    FirstSeenExact(log);
    var seen := FirstSeen(log);
    assert b in seen;
    k :| 0 <= k < |seen| && seen[k] == b;
    forall j | 0 <= j < |Merged(log)| && j != k ensures Merged(log)[j].block != b {
      assert Merged(log)[j].block == seen[j];
    }
  }

  /** End to end: when the log carries a message, in any interleaving with others, the client
      shows one block for it, holding its redacted chunks. That is the projected text exactly when
      redaction keeps the chunks as a whole; and where it makes no chunk shorter, exactly when it keeps each one. */
  lemma {:induction false} EndToEnd(log: seq<Event>, id: string, text: string, redact: string -> string)
      returns (k: nat)
    requires Increasing(log) && (log != [] ==> log[0].sequence > 0) && text != "" && Carries(log, id, text, redact)
    ensures var shown := ShownTexts(Replay(EMPTY, log).messages);
            k < |shown| && shown[k] == Shown(Block(id, ""), Join(Redacted(Chunks(text), redact))) &&
            (forall j | 0 <= j < |shown| && j != k :: shown[j].block != Block(id, "")) &&
            (shown[k].content == text <==> Join(Redacted(Chunks(text), redact)) == text) &&
            (NoneShorter(Chunks(text), redact) ==> (shown[k].content == text <==> AllKept(Chunks(text), redact)))
  {
    ReplayMerges(log);
    ChunksJoin(text);
    k := ShownOnce(log, Block(id, ""));
    RedactedJoin(Chunks(text), redact);
  }

  // ---------------------------------------------------------------- from the server to the client

  predicate IsFor(body: Body, id: string) {
    body == MessageCompleted(id) || (body.TextDelta? && body.messageId == id)
  }

  /** What a log holds for one message, whatever lies between. */
  function BodiesFor(log: seq<Event>, id: string): seq<Body> {
    if log == [] then []
    else BodiesFor(log[..|log| - 1], id) + if IsFor(log[|log| - 1].body, id) then [log[|log| - 1].body] else []
  }

  function TextsOf(bodies: seq<Body>, blockId: string): seq<string> {
    if bodies == [] then []
    else
      var last := bodies[|bodies| - 1];
      TextsOf(bodies[..|bodies| - 1], blockId) + if last.TextDelta? && last.blockId == blockId then [last.text] else []
  }

  lemma {:induction false} DeltasAmong(log: seq<Event>, b: Block)
    ensures DeltasFor(log, b) == TextsOf(BodiesFor(log, b.messageId), b.blockId)
  {
    if log != [] {
      var n := |log| - 1;
      var before, all := BodiesFor(log[..n], b.messageId), BodiesFor(log, b.messageId);
      DeltasAmong(log[..n], b);
      if IsFor(log[n].body, b.messageId) { assert all[..|all| - 1] == before; } else { assert all == before; }
    }
  }

  /** Deltas that redact the parts of a message in order, and name no block. */
  ghost predicate DeltasOf(bodies: seq<Body>, id: string, parts: seq<string>, redact: string -> string) {
    |bodies| == |parts| && forall k | 0 <= k < |bodies| :: bodies[k] == TextDelta(id, "", redact(parts[k]))
  }

  lemma {:induction false} TextsOfDeltas(bodies: seq<Body>, id: string, parts: seq<string>, redact: string -> string,
                                         blockId: string)
    requires DeltasOf(bodies, id, parts, redact)
    ensures TextsOf(bodies, blockId) == if blockId == "" then Redacted(parts, redact) else []
  {
    if bodies != [] {
      var n := |bodies| - 1;
      TextsOfDeltas(bodies[..n], id, parts[..n], redact, blockId);
      assert bodies == bodies[..n] + [bodies[n]];
      TextsSnoc(bodies[..n], bodies[n], blockId);
      assert Redacted(parts, redact) == Redacted(parts[..n], redact) + [redact(parts[n])];
    }
  }

  /** The deltas among the published events all name the same block, and are the redacted chunks. */
  lemma {:induction false} TextsPublished(events: seq<Body>, id: string, text: string, redact: string -> string,
                                          blockId: string)
    requires CutsUp(events, id, text, redact)
    ensures TextsOf(events[..|events| - 1], blockId) == if blockId == "" then Redacted(Chunks(text), redact) else []
  {
    var bodies := events[..|events| - 1];
    ChunksJoin(text);
    forall k | 0 <= k < |bodies| ensures bodies[k] == TextDelta(id, "", redact(Chunks(text)[k])) { ChunkAt(text, k); }
    TextsOfDeltas(bodies, id, Chunks(text), redact, blockId);
  }

  lemma {:induction false} TextsSnoc(bodies: seq<Body>, last: Body, blockId: string)
    requires last.TextDelta?
    ensures TextsOf(bodies + [last], blockId) ==
              TextsOf(bodies, blockId) + if last.blockId == blockId then [last.text] else []
  {
    assert (bodies + [last])[..|bodies|] == bodies;
  }

  /** A log with the published events of a message, in order and among anything for others, carries the message. */
  lemma {:induction false} PublishedIsCarried(log: seq<Event>, events: seq<Body>, id: string, text: string,
                                              redact: string -> string, blockId: string)
    requires CutsUp(events, id, text, redact) && BodiesFor(log, id) == events
    ensures Carries(log, id, text, redact)
    ensures blockId != "" ==> DeltasFor(log, Block(id, blockId)) == []
  {
    DeltasAmong(log, Block(id, ""));
    DeltasAmong(log, Block(id, blockId));
    TextsPublished(events, id, text, redact, "");
    TextsPublished(events, id, text, redact, blockId);
  }

  lemma {:induction false} OneCompletion(log: seq<Event>, id: string) returns (c: nat)
    requires BodiesFor(log, id) != []
    requires forall k | 0 <= k < |BodiesFor(log, id)| ::
               BodiesFor(log, id)[k] == MessageCompleted(id) <==> k == |BodiesFor(log, id)| - 1
    ensures c < |log| && log[c].body == MessageCompleted(id)
    ensures forall i | 0 <= i < c :: log[i].body != MessageCompleted(id)
    ensures forall i | c < i < |log| :: !IsFor(log[i].body, id)
  {
    var n := |log| - 1;
    var all, before := BodiesFor(log, id), BodiesFor(log[..n], id);
    if IsFor(log[n].body, id) {
      c := n;
      assert all[|all| - 1] == log[n].body;
      forall k | 0 <= k < |before| ensures before[k] != MessageCompleted(id) { assert all[k] == before[k]; }
      NoCompletion(log[..n], id);
    } else {
      assert all == before;
      c := OneCompletion(log[..n], id);
    }
  }

  lemma {:induction false} NoCompletion(log: seq<Event>, id: string)
    requires forall k | 0 <= k < |BodiesFor(log, id)| :: BodiesFor(log, id)[k] != MessageCompleted(id)
    ensures forall i | 0 <= i < |log| :: log[i].body != MessageCompleted(id)
  {
    if log != [] {
      var n := |log| - 1;
      var all, before := BodiesFor(log, id), BodiesFor(log[..n], id);
      forall k | 0 <= k < |before| ensures before[k] != MessageCompleted(id) { assert all[k] == before[k]; }
      NoCompletion(log[..n], id);
      if log[n].body == MessageCompleted(id) { assert all[|all| - 1] == log[n].body; }
    }
  }

  /** Every block of the message is final, or none is. */
  ghost predicate Marked(items: seq<Item>, id: string, final: bool) {
    forall i | 0 <= i < |items| :: items[i].TextBlock? && items[i].messageId == id ==> items[i].finalized == final
  }

  lemma {:induction false} MarkedWithout(items: seq<Item>, key: string, id: string, final: bool)
    requires Marked(items, id, final)
    ensures Marked(WithoutSystem(items, key), id, final)
  {
    if items != [] {
      var init := items[..|items| - 1];
      assert forall i | 0 <= i < |init| :: init[i] == items[i];
      MarkedWithout(init, key, id, final);
    }
  }

  /** Only the completion finalizes the blocks of a message, and only another delta opens one that is not final. */
  lemma {:induction false} MarkedStep(s: State, e: Event, id: string, final: bool)
    requires Marked(s.messages, id, final) && e.body != MessageCompleted(id)
    requires final ==> !IsFor(e.body, id)
    ensures Marked(Reduce(s, e).messages, id, final)
  {
    match e.body
    case RunWaiting(run) => MarkedWithout(s.messages, "agent-run:" + run + ":status", id, final);
    case RunCompleted(run) => MarkedWithout(s.messages, "agent-run:" + run + ":status", id, final);
    case RunFailed(run, _) => MarkedWithout(s.messages, "agent-run:" + run + ":status", id, final);
    case InvestigationFailed(run) => MarkedWithout(s.messages, "agent-run:" + run + ":status", id, final);
    case _ =>
  }

  lemma {:induction false} MarkedBefore(log: seq<Event>, id: string)
    requires forall i | 0 <= i < |log| :: log[i].body != MessageCompleted(id)
    ensures Marked(Replay(EMPTY, log).messages, id, false)
  {
    if log != [] {
      MarkedBefore(log[..|log| - 1], id);
      MarkedStep(Replay(EMPTY, log[..|log| - 1]), log[|log| - 1], id, false);
    }
  }

  lemma {:induction false} MarkedAfter(log: seq<Event>, id: string, c: nat)
    requires Increasing(log) && (log != [] ==> log[0].sequence > 0)
    requires c < |log| && log[c].body == MessageCompleted(id)
    requires forall i | c < i < |log| :: !IsFor(log[i].body, id)
    ensures Marked(Replay(EMPTY, log).messages, id, true)
  {
    var n := |log| - 1;
    ReplayStandsAtLast(EMPTY, log[..n]);
    if c < n {
      MarkedAfter(log[..n], id, c);
      MarkedStep(Replay(EMPTY, log[..n]), log[n], id, true);
    }
  }

  /** The blocks a client shows for one message. */
  ghost predicate ShownAlone(shown: seq<Shown>, id: string, content: string) {
    exists k | 0 <= k < |shown| ::
      && shown[k] == Shown(Block(id, ""), content)
      && forall j | 0 <= j < |shown| && j != k :: shown[j].block.messageId != id
  }

  /** The k-th delta of the message keeps its piece of the text. */
  ghost predicate PiecesKept(text: string, redact: string -> string) {
    forall k: nat | k * CHUNK < |text| :: redact(Piece(text, k)) == Piece(text, k)
  }

  lemma {:induction false} PiecesAreChunks(text: string, redact: string -> string)
    ensures PiecesKept(text, redact) ==> AllKept(Chunks(text), redact)
  {
    if PiecesKept(text, redact) {
      forall i | 0 <= i < |Chunks(text)| ensures redact(Chunks(text)[i]) == Chunks(text)[i] { ChunkAt(text, i); }
    }
  }

  /** From the server's loop to the client's screen: where the events of a message arrive in order, among anything for
      others, the message has one block, that block holds its redacted pieces joined, and it is the text itself where
      redaction keeps every piece. The only completion is the last of its events, and from it on the block is final. */
  lemma {:induction false} PublishedIsShown(log: seq<Event>, events: seq<Body>, id: string, text: string,
                                            redact: string -> string) returns (c: nat)
    requires CutsUp(events, id, text, redact) && BodiesFor(log, id) == events
    requires Increasing(log) && log[0].sequence > 0 && text != ""
    ensures Carries(log, id, text, redact)
    ensures ShownAlone(ShownTexts(Replay(EMPTY, log).messages), id, Join(Redacted(Chunks(text), redact)))
    ensures PiecesKept(text, redact) ==> ShownAlone(ShownTexts(Replay(EMPTY, log).messages), id, text)
    ensures c < |log| && forall i | 0 <= i < |log| :: log[i].body == MessageCompleted(id) <==> i == c
    ensures forall i | c < i < |log| :: !IsFor(log[i].body, id)
    ensures forall i | 0 <= i <= |log| :: Marked(Replay(EMPTY, log[..i]).messages, id, c < i)
  {
    PublishedIsCarried(log, events, id, text, redact, "");
    ShownInOneBlock(log, events, id, text, redact);
    PiecesAreChunks(text, redact);
    RedactedJoin(Chunks(text), redact);
    ChunksJoin(text);
    forall k | 0 <= k < |events| ensures events[k] == MessageCompleted(id) <==> k == |events| - 1 {}
    c := OneCompletion(log, id);
    forall i | 0 <= i <= |log| ensures Marked(Replay(EMPTY, log[..i]).messages, id, c < i) {
      if c < i { MarkedAfter(log[..i], id, c); } else { MarkedBefore(log[..i], id); }
    }
  }

  lemma {:induction false} ShownInOneBlock(log: seq<Event>, events: seq<Body>, id: string, text: string,
                                           redact: string -> string)
    requires CutsUp(events, id, text, redact) && BodiesFor(log, id) == events
    requires Increasing(log) && (log != [] ==> log[0].sequence > 0) && text != ""
    ensures ShownAlone(ShownTexts(Replay(EMPTY, log).messages), id, Join(Redacted(Chunks(text), redact)))
  {
    PublishedIsCarried(log, events, id, text, redact, "");
    var k := EndToEnd(log, id, text, redact);
    var shown := ShownTexts(Replay(EMPTY, log).messages);
    ReplayMerges(log);
    forall j | 0 <= j < |shown| && j != k ensures shown[j].block.messageId != id {
      PublishedIsCarried(log, events, id, text, redact, shown[j].block.blockId);
      SeenExactly(log, shown[j].block);
      assert shown[j].block == FirstSeen(log)[j];
    }
  }

  ghost predicate NoneShorter(parts: seq<string>, redact: string -> string) {
    forall i | 0 <= i < |parts| :: |redact(parts[i])| >= |parts[i]|
  }

  ghost predicate AllKept(parts: seq<string>, redact: string -> string) {
    forall i | 0 <= i < |parts| :: redact(parts[i]) == parts[i]
  }

  lemma {:induction false} SameTail(a: string, x: string, b: string, y: string)
    requires a + x == b + y && |x| == |y|
    ensures a == b && x == y
  {
    var whole := a + x;
    assert |a| == |b|;
    assert a == whole[..|a|] && b == whole[..|a|];
    assert x == whole[|a|..] && y == whole[|a|..];
  }

  /** Redaction that makes no part shorter keeps the whole only by keeping every part. */
  lemma {:induction false} RedactedJoin(parts: seq<string>, redact: string -> string)
    ensures AllKept(parts, redact) ==> Join(Redacted(parts, redact)) == Join(parts)
    ensures NoneShorter(parts, redact) ==> |Join(Redacted(parts, redact))| >= |Join(parts)|
    ensures NoneShorter(parts, redact) && Join(Redacted(parts, redact)) == Join(parts) ==> AllKept(parts, redact)
  {
    if parts != [] {
      var n := |parts| - 1;
      var init, last := parts[..n], parts[n];
      RedactedJoin(init, redact);
      assert Redacted(parts, redact)[..n] == Redacted(init, redact);
      if NoneShorter(parts, redact) && Join(Redacted(parts, redact)) == Join(parts) {
        assert NoneShorter(init, redact) && |redact(last)| == |last|;
        SameTail(Join(Redacted(init, redact)), redact(last), Join(init), last);
        assert forall i | 0 <= i < n :: init[i] == parts[i];
      }
      if AllKept(parts, redact) {
        assert forall i | 0 <= i < n :: init[i] == parts[i];
      }
    }
  }

  // ---------------------------------------------------------------- a cut that redaction notices

  predicate IsDigit(c: char) {
    '0' <= c <= '9'
  }

  predicate IsWord(c: char) {
    IsDigit(c) || 'a' <= c <= 'z' || 'A' <= c <= 'Z' || c == '_'
  }

  function LeadingDigits(s: string): (n: nat)
    ensures n <= |s|
  {
    if s == "" || !IsDigit(s[0]) then 0 else 1 + LeadingDigits(s[1..])
  }

  /** The length of the address `s` begins with: four groups of one to three digits, with a word boundary at the end. */
  function AddressAt(s: string, groups: nat): Option<nat>
    requires groups > 0
    decreases groups
  {
    var n := LeadingDigits(s);
    if !(1 <= n <= 3) then None
    else if groups == 1 then (if n < |s| && IsWord(s[n]) then None else Some(n))
    else if n >= |s| || s[n] != '.' then None
    else
      var rest := AddressAt(s[n + 1..], groups - 1);
      if rest.None? then None else Some(n + 1 + rest.value)
  }

  const REDACTED_IP := "[REDACTED_IP]"

  /** The IPv4 rule of the redaction, from left to right; `inWord`: the character before `s` is a word character. */
  function RedactAddresses(s: string, inWord: bool): string
    decreases |s|
  {
    if s == "" then ""
    else
      var n := if inWord then None else AddressAt(s, 4);
      if n.Some? && 0 < n.value <= |s| then REDACTED_IP + RedactAddresses(s[n.value..], true)
      else [s[0]] + RedactAddresses(s[1..], IsWord(s[0]))
  }

  function Spaces(n: nat): (r: string)
    ensures |r| == n
  {
    if n == 0 then "" else " " + Spaces(n - 1)
  }

  lemma {:induction false} OneCharacter(s: string, inWord: bool)
    requires s != "" && (inWord || AddressAt(s, 4).None?)
    ensures RedactAddresses(s, inWord) == [s[0]] + RedactAddresses(s[1..], IsWord(s[0]))
  {}

  lemma {:induction false} SpaceStays(tail: string)
    ensures RedactAddresses(" " + tail, false) == " " + RedactAddresses(tail, false)
  {
    var s := " " + tail;
    assert s[0] == ' ' && s[1..] == tail && LeadingDigits(s) == 0;
    OneCharacter(s, false);
  }

  lemma {:induction false} SpacesStay(n: nat, rest: string)
    ensures RedactAddresses(Spaces(n) + rest, false) == Spaces(n) + RedactAddresses(rest, false)
  {
    if n == 0 {
      assert Spaces(0) + rest == rest && Spaces(0) + RedactAddresses(rest, false) == RedactAddresses(rest, false);
    } else {
      SpacesStay(n - 1, rest);
      SpaceStays(Spaces(n - 1) + rest);
      Grouped(" ", Spaces(n - 1), rest);
      Grouped(" ", Spaces(n - 1), RedactAddresses(rest, false));
    }
  }

  lemma {:induction false} Grouped(x: string, y: string, z: string)
    ensures (x + y) + z == x + (y + z)
  {}

  lemma {:induction false} WordStays(s: string)
    requires forall i | 0 <= i < |s| :: IsWord(s[i])
    ensures RedactAddresses(s, true) == s
  {
    if s != "" {
      WordStays(s[1..]);
      assert s == [s[0]] + s[1..];
    }
  }

  function RedactIp(s: string): string {
    RedactAddresses(s, false)
  }

  lemma {:induction false} DigitsOf(s: string, n: nat)
    requires n <= |s| && (forall i | 0 <= i < n :: IsDigit(s[i])) && (n < |s| ==> !IsDigit(s[n]))
    ensures LeadingDigits(s) == n
  {
    if n > 0 { DigitsOf(s[1..], n - 1); }
  }

  function Dotted(d: char, rest: string): string {
    [d] + ("." + rest)
  }

  function FourGroups(d: char, last: string): string {
    Dotted(d, Dotted(d, Dotted(d, last)))
  }

  lemma {:induction false} DottedParts(d: char, rest: string)
    requires IsDigit(d)
    ensures var s := Dotted(d, rest);
            s[0] == d && s[1..] == "." + rest && s[2..] == rest && s[1..][1..] == rest && s[1] == '.' &&
            LeadingDigits(s) == 1
  {
    DigitsOf(Dotted(d, rest), 1);
  }

  /** A text that redaction leaves alone, cut inside its last group of digits: the first chunk ends in
      what looks like an address, so what is shown is not what was projected. */
  lemma {:induction false} CutMakesAnAddress(n: nat, d: char, tail: string) returns (text: string)
    requires n + 7 == CHUNK && IsDigit(d) && 3 <= |tail| <= CHUNK && forall i | 0 <= i < |tail| :: IsDigit(tail[i])
    ensures RedactIp(text) == text
    ensures Join(Redacted(Chunks(text), RedactIp)) != text
  {
    text := Spaces(n) + FourGroups(d, [d] + tail);
    GroupAndTail(d, tail);
    KeptWhole(n, d, [d] + tail);
    RedactedHead(n, d);
    Grouped(Spaces(n), FourGroups(d, [d]), tail);
    TwoChunks(Spaces(n) + FourGroups(d, [d]), tail, RedactIp);
    PartsDiffer(Spaces(n), REDACTED_IP, RedactIp(tail), FourGroups(d, [d] + tail));
  }

  lemma {:induction false} KeptWhole(n: nat, d: char, long: string)
    requires IsDigit(d) && |long| > 3 && forall i | 0 <= i < |long| :: IsDigit(long[i])
    ensures RedactIp(Spaces(n) + FourGroups(d, long)) == Spaces(n) + FourGroups(d, long)
  {
    SpacesStay(n, FourGroups(d, long));
    NoAddress(d, long);
  }

  lemma {:induction false} RedactedHead(n: nat, d: char)
    requires IsDigit(d)
    ensures RedactIp(Spaces(n) + FourGroups(d, [d])) == Spaces(n) + REDACTED_IP
  {
    SpacesStay(n, FourGroups(d, [d]));
    AnAddress(d);
  }

  lemma {:induction false} GroupAndTail(d: char, tail: string)
    ensures FourGroups(d, [d] + tail) == FourGroups(d, [d]) + tail
    ensures |FourGroups(d, [d])| == 7 && FourGroups(d, [d] + tail)[0] == d
  {}

  lemma {:induction false} PartsDiffer(pad: string, a: string, b: string, c: string)
    requires a != "" && c != "" && a[0] != c[0]
    ensures pad + a + b != pad + c
  {
    assert (pad + a + b)[|pad|] == a[0] && (pad + c)[|pad|] == c[0];
  }

  lemma {:induction false} TwoChunks(head: string, tail: string, redact: string -> string)
    requires |head| == CHUNK && 0 < |tail| <= CHUNK
    ensures Join(Redacted(Chunks(head + tail), redact)) == redact(head) + redact(tail)
  {
    var text := head + tail;
    assert text[..CHUNK] == head && text[CHUNK..] == tail;
    assert Chunks(text) == [head] + [tail];
    assert Redacted(Chunks(text), redact) == [redact(head)] + [redact(tail)];
    JoinAppend([redact(head)], [redact(tail)]);
    JoinOne(redact(head));
    JoinOne(redact(tail));
  }

  lemma {:induction false} AnAddress(d: char)
    requires IsDigit(d)
    ensures RedactIp(FourGroups(d, [d])) == REDACTED_IP
  {
    var c := Dotted(d, [d]);
    var b := Dotted(d, c);
    var a := Dotted(d, b);
    DigitsOf([d], 1);
    DottedParts(d, [d]);
    DottedParts(d, c);
    DottedParts(d, b);
    assert AddressAt([d], 1) == Some(1);
    assert AddressAt(c, 2) == Some(3);
    assert AddressAt(b, 3) == Some(5);
    assert AddressAt(a, 4) == Some(7);
    assert a[7..] == "" && RedactAddresses(a[7..], true) == "";
    assert REDACTED_IP + "" == REDACTED_IP;
  }

  /** Three single digits and a long group are no address, wherever in them one starts. */
  lemma {:induction false} NoAddress(d: char, long: string)
    requires IsDigit(d) && |long| > 3 && forall i | 0 <= i < |long| :: IsDigit(long[i])
    ensures RedactIp(FourGroups(d, long)) == FourGroups(d, long)
  {
    DigitsOf(long, |long|);
    NoAddressAt(long, |long|);
    OneCharacter(long, false);
    WordStays(long[1..]);
    assert [long[0]] + long[1..] == long;
    DottedStays(d, long);
    var one := Dotted(d, long);
    AddressStep(d, long, 2);
    AddressStep(d, long, 3);
    DottedStays(d, one);
    AddressStep(d, one, 3);
    DottedStays(d, Dotted(d, one));
  }

  lemma {:induction false} NoAddressAt(s: string, n: nat)
    requires LeadingDigits(s) == n && n > 3
    ensures forall groups: nat | groups > 0 :: AddressAt(s, groups).None?
  {}

  lemma {:induction false} AddressStep(d: char, rest: string, groups: nat)
    requires IsDigit(d) && groups > 1 && AddressAt(rest, groups - 1).None?
    ensures AddressAt(Dotted(d, rest), groups).None?
  {
    DottedParts(d, rest);
  }

  lemma {:induction false} DottedStays(d: char, rest: string)
    requires IsDigit(d) && AddressAt(rest, 3).None? && RedactAddresses(rest, false) == rest
    ensures RedactAddresses(Dotted(d, rest), false) == Dotted(d, rest)
  {
    var s := Dotted(d, rest);
    DottedParts(d, rest);
    AddressStep(d, rest, 4);
    OneCharacter(s, false);
    OneCharacter(s[1..], true);
    assert ['.'] + rest == "." + rest;
  }

  /** Publishing a message twice shows its text twice: the deltas carry no offset. */
  lemma {:induction false} RepublishingDoubles(log: seq<Event>, id: string, text: string)
    requires Increasing(log) && (log != [] ==> log[0].sequence > 0) && text != ""
    requires DeltasFor(log, Block(id, "")) == Chunks(text) + Chunks(text)
    ensures Shown(Block(id, ""), text + text) in ShownTexts(Replay(EMPTY, log).messages)
  {
    ReplayMerges(log);
    ChunksJoin(text);
    JoinAppend(Chunks(text), Chunks(text));
    var _ := ShownOnce(log, Block(id, ""));
  }

  // ---------------------------------------------------------------- after a recovery

  ghost predicate HasBlock(shown: seq<Shown>, b: Block) {
    exists i | 0 <= i < |shown| :: shown[i].block == b
  }

  ghost predicate BlocksDiffer(shown: seq<Shown>) {
    forall i, j | 0 <= i < j < |shown| :: shown[i].block != shown[j].block
  }

  lemma {:induction false} MergeHasBlock(shown: seq<Shown>, key: Block, delta: string, b: Block)
    ensures HasBlock(MergeShown(shown, key, delta), b) <==> HasBlock(shown, b) || b == key
    ensures BlocksDiffer(shown) ==> BlocksDiffer(MergeShown(shown, key, delta))
  {
    var n, after := FindShown(shown, key), MergeShown(shown, key, delta);
    assert after[n].block == key;
    if i :| 0 <= i < |shown| && shown[i].block == b { assert after[i].block == b; }
    if i :| 0 <= i < |after| && after[i].block == b { assert i < |shown| ==> shown[i].block == after[i].block; }
  }

  /** Replaying events onto a state shows its blocks and those the events have deltas for, each once. */
  lemma {:induction false} BlocksAfter(s: State, es: seq<Event>, b: Block)
    requires Increasing(es) && (es != [] ==> s.lastSequence < es[0].sequence) && BlocksDiffer(ShownTexts(s.messages))
    ensures var shown := ShownTexts(Replay(s, es).messages);
            BlocksDiffer(shown) && (HasBlock(shown, b) <==>
                                    HasBlock(ShownTexts(s.messages), b) || DeltasFor(es, b) != [])
  {
    if es != [] {
      var n := |es| - 1;
      var before, e := Replay(s, es[..n]), es[n];
      BlocksAfter(s, es[..n], b);
      ReplayStandsAtLast(s, es[..n]);
      ReduceMerges(before, e);
      if e.body.TextDelta? {
        MergeHasBlock(ShownTexts(before.messages), Block(e.body.messageId, e.body.blockId), e.body.text, b);
      }
    }
  }

  lemma {:induction false} ToolsShowNoText(items: seq<Item>)
    requires forall i | 0 <= i < |items| :: items[i].ToolBlock?
    ensures ShownTexts(items) == []
  {
    if items != [] { ToolsShowNoText(items[..|items| - 1]); }
  }

  lemma {:induction false} TextBlocksShown(messages: seq<(string, string)>, i: nat)
    requires i < |messages|
    ensures var shown := ShownTexts(CliSync.TextBlocks(messages));
            |shown| == |messages| && shown[i] == Shown(Block(messages[i].0, messages[i].0), messages[i].1)
  {
    var n := |messages| - 1;
    var items := CliSync.TextBlocks(messages);
    assert items[..n] == CliSync.TextBlocks(messages[..n]);
    assert ShownTexts(items) == ShownTexts(items[..n]) + [ShownText(items[n]).value];
    if n > 0 { TextBlocksShown(messages[..n], if i < n then i else 0); }
  }

  /** The blocks a gap snapshot shows are its messages, each under its own id as block id. */
  lemma {:induction false} SnapshotBlocks(s: State, messages: seq<(string, string)>, approvals: set<string>,
                                          events: seq<Event>, last: nat)
    requires forall i, j | 0 <= i < j < |messages| :: messages[i].0 != messages[j].0
    ensures var shown := ShownTexts(CliSync.GapSnapshot(s, messages, approvals, events, last).messages);
            |shown| == |messages| && BlocksDiffer(shown) &&
            forall i | 0 <= i < |messages| :: shown[i] == Shown(Block(messages[i].0, messages[i].0), messages[i].1)
  {
    var texts, tools := CliSync.TextBlocks(messages), CliSync.ToolBlocks(CliProjection.ProjectTools(events));
    PickAppend(texts, tools, ShownText);
    ToolsShowNoText(tools);
    assert ShownTexts(texts + tools) == ShownTexts(texts);
    if messages == [] { assert texts == []; } else { TextBlocksShown(messages, 0); }
    forall i | 0 <= i < |messages|
      ensures ShownTexts(texts)[i] == Shown(Block(messages[i].0, messages[i].0), messages[i].1)
    {
      TextBlocksShown(messages, i);
    }
  }

  ghost predicate InTwoBlocks(shown: seq<Shown>, id: string) {
    exists i, j | 0 <= i < j < |shown| :: shown[i].block.messageId == id && shown[j].block.messageId == id
  }

  ghost predicate Holds(messages: seq<(string, string)>, id: string) {
    exists i | 0 <= i < |messages| :: messages[i].0 == id
  }

  lemma {:induction false} TwoBlocksExactly(messages: seq<(string, string)>, first: seq<Shown>, shown: seq<Shown>,
                                            id: string, unnamed: bool)
    requires |first| == |messages|
    requires forall i | 0 <= i < |messages| :: first[i].block == Block(messages[i].0, messages[i].0)
    requires BlocksDiffer(shown) && forall i | 0 <= i < |shown| ::
               shown[i].block.blockId in {shown[i].block.messageId, ""}
    requires HasBlock(shown, Block(id, "")) <==> HasBlock(first, Block(id, "")) || unnamed
    requires id != "" ==> (HasBlock(shown, Block(id, id)) <==> HasBlock(first, Block(id, id)))
    ensures InTwoBlocks(shown, id) <==> id != "" && Holds(messages, id) && unnamed
  {
    if InTwoBlocks(shown, id) {
      var i, j :| 0 <= i < j < |shown| && shown[i].block.messageId == id && shown[j].block.messageId == id;
      assert shown[i].block != shown[j].block;
      assert HasBlock(shown, Block(id, id)) && HasBlock(shown, Block(id, "")) && id != "";
      var m :| 0 <= m < |first| && first[m].block == Block(id, id);
      assert messages[m].0 == id;
    }
    if id != "" && Holds(messages, id) && unnamed {
      var m :| 0 <= m < |messages| && messages[m].0 == id;
      assert first[m].block == Block(id, id);
      var i :| 0 <= i < |shown| && shown[i].block == Block(id, id);
      var j :| 0 <= j < |shown| && shown[j].block == Block(id, "");
      assert i < j || j < i;
    }
  }

  /** The server's deltas name no block, while a snapshot files a message under its own id. So after a recovery a
      message is shown in two blocks exactly when the snapshot holds it and another delta for it follows. */
  lemma {:induction false} RecoveredMessageSplits(s: State, messages: seq<(string, string)>, approvals: set<string>,
                                                  events: seq<Event>, last: nat, es: seq<Event>, id: string)
    requires forall i, j | 0 <= i < j < |messages| :: messages[i].0 != messages[j].0
    requires Increasing(es) && (es != [] ==> last < es[0].sequence)
    requires forall i | 0 <= i < |es| :: es[i].body.TextDelta? ==> es[i].body.blockId == ""
    ensures InTwoBlocks(ShownTexts(Replay(CliSync.GapSnapshot(s, messages, approvals, events, last), es).messages), id)
            <==> id != "" && Holds(messages, id) && DeltasFor(es, Block(id, "")) != []
  {
    var snapshot := CliSync.GapSnapshot(s, messages, approvals, events, last);
    var first, shown := ShownTexts(snapshot.messages), ShownTexts(Replay(snapshot, es).messages);
    SnapshotBlocks(s, messages, approvals, events, last);
    BlocksAfter(snapshot, es, Block(id, id));
    BlocksAfter(snapshot, es, Block(id, ""));
    UnnamedDeltas(es, Block(id, id));
    forall i | 0 <= i < |shown| ensures shown[i].block.blockId in {shown[i].block.messageId, ""} {
      OwnOrUnnamed(snapshot, es, shown, i);
    }
    TwoBlocksExactly(messages, first, shown, id, DeltasFor(es, Block(id, "")) != []);
  }

  lemma {:induction false} UnnamedDeltas(es: seq<Event>, b: Block)
    requires forall i | 0 <= i < |es| :: es[i].body.TextDelta? ==> es[i].body.blockId == ""
    ensures DeltasFor(es, b) != [] ==> b.blockId == ""
  {
    if es != [] { UnnamedDeltas(es[..|es| - 1], b); }
  }

  /** Every block shown is one of the snapshot's or one without a name. */
  lemma {:induction false} OwnOrUnnamed(s: State, es: seq<Event>, shown: seq<Shown>, i: nat)
    requires Increasing(es) && (es != [] ==> s.lastSequence < es[0].sequence) && BlocksDiffer(ShownTexts(s.messages))
    requires forall k | 0 <= k < |es| :: es[k].body.TextDelta? ==> es[k].body.blockId == ""
    requires shown == ShownTexts(Replay(s, es).messages) && i < |shown|
    requires forall k | 0 <= k < |ShownTexts(s.messages)| ::
               ShownTexts(s.messages)[k].block.messageId == ShownTexts(s.messages)[k].block.blockId
    ensures shown[i].block.blockId in {shown[i].block.messageId, ""}
  {
    BlocksAfter(s, es, shown[i].block);
    UnnamedDeltas(es, shown[i].block);
  }
}
