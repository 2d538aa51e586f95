/** Rebuilding an assistant message from its stream of events (smoke/lib/e2e.py). */
module Reassembly {
  import opened Options

  /** A value of a content block: a string, or anything else together with its `str()`. */
  datatype Value = Text(text: string) | Other(repr: string)

  /** A content block is a Python dict. */
  type Block = map<string, Value>

  datatype Payload = BlockDict(block: Block) | NotADict

  datatype Delta =
    | TextDelta(text: string)
    | ThinkingDelta(thinking: string)
    | JsonDelta(partial: string)
    | UnknownDelta
    | DeltaNotADict

  /** `index` is `None` when the payload carries no integer index. */
  datatype Event =
    | BlockStart(index: Option<int>, payload: Payload)
    | BlockDelta(index: Option<int>, delta: Delta)
    | OtherEvent

  /** `AssertionError` is what `event_index` raises. */
  datatype Result<+T> = Content(blocks: T) | AssertionError

  /** `str(block.get(key, ""))`. */
  function Str(block: Block, key: string): string {
    if key !in block then ""
    else match block[key] case Text(s) => s case Other(repr) => repr
  }

  /** The text a delta appends to one field of a block. */
  function Grow(block: Block, key: string, more: string): Block {
    block[key := Text(Str(block, key) + more)]
  }

  function ApplyDelta(block: Block, delta: Delta): Block {
    match delta
    case TextDelta(s) => Grow(block, "text", s)
    case ThinkingDelta(s) => Grow(block, "thinking", s)
    case JsonDelta(s) => Grow(block, "_partial_json", s)
    case UnknownDelta => block
    case DeltaNotADict => block
  }

  /** The last step for one block: a tool call's collected JSON becomes its input.
      `loads` is `json.loads`, `None` where it raises. */
  function Finish(loads: string -> Option<Value>, block: Block): Block {
    if "type" in block && block["type"] == Text("tool_use") then
      var partial := Str(block, "_partial_json");
      var rest := block - {"_partial_json"};
      if partial == "" then rest
      else
        match loads(partial)
        case Some(value) => rest["input" := value]
        case None => rest["input" := Other("{}")]
    else block
  }

  // ----- the meaning of a stream

  predicate Indexed(event: Event) {
    match event
    case OtherEvent => true
    case BlockStart(index, _) => index.Some?
    case BlockDelta(index, _) => index.Some?
  }

  predicate Starts(event: Event, i: int) {
    event.BlockStart? && event.index == Some(i) && event.payload.BlockDict?
  }

  predicate OpensBlock(event: Event) {
    event.BlockStart? && event.index.Some? && event.payload.BlockDict?
  }

  /** The part of a stream that speaks about block `i`. */
  ghost function Project(events: seq<Event>, i: int): seq<Event> {
    if events == [] then []
    else
      var e := events[|events| - 1];
      Project(events[..|events| - 1], i)
      + if Starts(e, i) || (e.BlockDelta? && e.index == Some(i)) then [e] else []
  }

  /** The indices of the started blocks, in the order they start. */
  ghost function StartOrder(events: seq<Event>): seq<int> {
    if events == [] then []
    else
      var e := events[|events| - 1];
      StartOrder(events[..|events| - 1])
      + if OpensBlock(e) then [e.index.value] else []
  }

  /** What one block becomes after its own events: deltas before the start change nothing. */
  ghost function Replay(own: seq<Event>): Option<Block> {
    if own == [] then None
    else
      var e := own[|own| - 1];
      var before := Replay(own[..|own| - 1]);
      if e.BlockStart? && e.payload.BlockDict? then Some(e.payload.block)
      else if e.BlockDelta? && before.Some? then Some(ApplyDelta(before.value, e.delta))
      else before
  }

  lemma {:induction false} StartedHasContent(events: seq<Event>)
    ensures forall i :: i in StartOrder(events) <==> Replay(Project(events, i)).Some?
  {
    if events != [] {
      var front := events[..|events| - 1];
      StartedHasContent(front);
      var e := events[|events| - 1];
      forall i
        ensures i in StartOrder(events) <==> Replay(Project(events, i)).Some?
      {
        if Project(events, i) != Project(front, i) {
          assert Project(events, i) == Project(front, i) + [e];
          assert Project(events, i)[..|Project(events, i)| - 1] == Project(front, i);
        }
      }
    }
  }

  /** The content of a stream: every started block, in start order, replayed from its own
      events alone. */
  ghost function ContentOf(loads: string -> Option<Value>, events: seq<Event>): seq<Block> {
    StartedHasContent(events);
    var order := StartOrder(events);
    seq(|order|, k requires 0 <= k < |order| && order[k] in order =>
      Finish(loads, Replay(Project(events, order[k])).value))
  }

  lemma ReplayStep(events: seq<Event>, e: Event, i: int)
    ensures Replay(Project(events + [e], i)) ==
      if Starts(e, i) then Some(e.payload.block)
      else if e.BlockDelta? && e.index == Some(i) && Replay(Project(events, i)).Some? then
        Some(ApplyDelta(Replay(Project(events, i)).value, e.delta))
      else Replay(Project(events, i))
  {
    var all := events + [e];
    assert all[..|all| - 1] == events;
    if Project(all, i) != Project(events, i) {
      assert Project(all, i) == Project(events, i) + [e];
      assert Project(all, i)[..|Project(all, i)| - 1] == Project(events, i);
    }
  }

  // ----- the code

  /** The event loop: `blocks` holds every started block as its own events have grown it. */
  method CollectBlocks(events: seq<Event>) returns (ok: bool, blocks: map<int, Block>, blockOrder: seq<int>)
    ensures ok <==> forall k | 0 <= k < |events| :: Indexed(events[k])
    ensures ok ==> blockOrder == StartOrder(events) && Holds(blocks, events)
  {
    blocks, blockOrder := map[], [];
    assert Collected(blocks, blockOrder, events[..0]);
    for n := 0 to |events|
      invariant forall k | 0 <= k < n :: Indexed(events[k])
      invariant Collected(blocks, blockOrder, events[..n])
    {
      var event := events[n];
      ghost var next, nextOrder := Updated(blocks, event), Ordered(blockOrder, event);
      CollectedStep(blocks, blockOrder, events, n);
      match event {
        case BlockStart(index, payload) =>
          if index.None? { return false, blocks, blockOrder; }
          if payload.BlockDict? {
            blocks := blocks[index.value := payload.block];
            blockOrder := blockOrder + [index.value];
          }
        case BlockDelta(index, delta) =>
          if index.None? { return false, blocks, blockOrder; }
          if index.value in blocks {
            blocks := blocks[index.value := ApplyDelta(blocks[index.value], delta)];
          }
        case OtherEvent =>
      }
      assert blocks == next && blockOrder == nextOrder;
    }
    assert events[..|events|] == events;
    ok := true;
  }

  /** The blocks are what the events so far have made of each of them. */
  ghost predicate Holds(blocks: map<int, Block>, events: seq<Event>) {
    forall i :: Replay(Project(events, i)) == if i in blocks then Some(blocks[i]) else None
  }

  ghost function Updated(blocks: map<int, Block>, e: Event): map<int, Block> {
    match e
    case BlockStart(index, payload) =>
      if index.Some? && payload.BlockDict? then blocks[index.value := payload.block] else blocks
    case BlockDelta(index, delta) =>
      if index.Some? && index.value in blocks then blocks[index.value := ApplyDelta(blocks[index.value], delta)]
      else blocks
    case OtherEvent => blocks
  }

  ghost function Ordered(order: seq<int>, e: Event): seq<int> {
    if OpensBlock(e) then order + [e.index.value] else order
  }

  ghost predicate Collected(blocks: map<int, Block>, order: seq<int>, events: seq<Event>) {
    order == StartOrder(events) && Holds(blocks, events)
  }

  lemma CollectedStep(blocks: map<int, Block>, order: seq<int>, events: seq<Event>, n: nat)
    requires n < |events| && Collected(blocks, order, events[..n])
    ensures Collected(Updated(blocks, events[n]), Ordered(order, events[n]), events[..n + 1])
  {
    HoldsStep(blocks, events, n);
  }

  lemma HoldsStep(blocks: map<int, Block>, events: seq<Event>, n: nat)
    requires n < |events| && Holds(blocks, events[..n])
    ensures Holds(Updated(blocks, events[n]), events[..n + 1])
    ensures StartOrder(events[..n + 1]) == StartOrder(events[..n])
      + if OpensBlock(events[n]) then [events[n].index.value] else []
  {
    var e, now := events[n], Updated(blocks, events[n]);
    assert events[..n + 1] == events[..n] + [e];
    assert events[..n + 1][..n] == events[..n];
    forall i ensures Replay(Project(events[..n + 1], i)) == if i in now then Some(now[i]) else None {
      ReplayStep(events[..n], e, i);
    }
  }

  /** `assistant_content_from_events`: the content is that of the stream's meaning, block by
      block; an event without an index raises. */
  method AssistantContentFromEvents(loads: string -> Option<Value>, events: seq<Event>)
    returns (result: Result<seq<Block>>)
    ensures result.AssertionError? <==> exists k :: 0 <= k < |events| && !Indexed(events[k])
    ensures result.Content? ==> result.blocks == ContentOf(loads, events)
  {
    var ok, blocks, blockOrder := CollectBlocks(events);
    if !ok {
      return AssertionError;
    }
    StartedInBlocks(events, blocks);
    var content := FinishBlocks(loads, blocks, blockOrder);
    ContentMatches(loads, events, blocks, content);
    return Content(content);
  }

  /** The second loop: finish the blocks in place and list them. */
  method FinishBlocks(loads: string -> Option<Value>, collected: map<int, Block>, blockOrder: seq<int>)
    returns (content: seq<Block>)
    requires forall k | 0 <= k < |blockOrder| :: blockOrder[k] in collected
    ensures |content| == |blockOrder|
    ensures forall k | 0 <= k < |blockOrder| :: content[k] == Finish(loads, collected[blockOrder[k]])
  {
    var blocks := collected;
    content := [];
    for n := 0 to |blockOrder|
      invariant |content| == n
      invariant forall k | 0 <= k < n :: content[k] == Finish(loads, collected[blockOrder[k]])
      invariant blocks.Keys == collected.Keys
      invariant forall i | i in blocks :: blocks[i] == collected[i] || blocks[i] == Finish(loads, collected[i])
    {
      var index := blockOrder[n];
      FinishTwice(loads, collected[index]);
      blocks := blocks[index := Finish(loads, blocks[index])];
      content := content + [blocks[index]];
    }
  }

  lemma StartedInBlocks(events: seq<Event>, blocks: map<int, Block>)
    requires Holds(blocks, events)
    ensures forall k | 0 <= k < |StartOrder(events)| :: StartOrder(events)[k] in blocks
  {
    StartedHasContent(events);
    forall k | 0 <= k < |StartOrder(events)| ensures StartOrder(events)[k] in blocks {
      assert StartOrder(events)[k] in StartOrder(events);
      assert Replay(Project(events, StartOrder(events)[k])).Some?;
    }
  }

  lemma ContentMatches(
    loads: string -> Option<Value>, events: seq<Event>, blocks: map<int, Block>, content: seq<Block>)
    requires Holds(blocks, events)
    requires |content| == |StartOrder(events)|
    requires forall k | 0 <= k < |content| ::
      StartOrder(events)[k] in blocks && content[k] == Finish(loads, blocks[StartOrder(events)[k]])
    ensures content == ContentOf(loads, events)
  {
    StartedHasContent(events);
  }

  /** A block whose index was started twice is listed twice, as one shared dict: finishing it
      a second time must change nothing. */
  lemma FinishTwice(loads: string -> Option<Value>, block: Block)
    ensures Finish(loads, Finish(loads, block)) == Finish(loads, block)
  {
    if "type" in block && block["type"] == Text("tool_use") {
      var done := Finish(loads, block);
      assert done["type"] == Text("tool_use") && "_partial_json" !in done;
      assert done - {"_partial_json"} == done;
    }
  }

  // ----- reassembly undoes streaming

  /** One block as a sender streams it: a start, then the same field in chunks. */
  datatype Source = Source(index: int, start: Block, deltas: seq<Delta>)

  ghost function OwnEvents(source: Source): seq<Event> {
    [BlockStart(Some(source.index), BlockDict(source.start))]
    + seq(|source.deltas|, k requires 0 <= k < |source.deltas| => BlockDelta(Some(source.index), source.deltas[k]))
  }

  ghost function ApplyAll(block: Block, deltas: seq<Delta>): Block {
    if deltas == [] then block
    else ApplyDelta(ApplyAll(block, deltas[..|deltas| - 1]), deltas[|deltas| - 1])
  }

  lemma {:induction false} ReplayOwn(source: Source)
    ensures Replay(OwnEvents(source)) == Some(ApplyAll(source.start, source.deltas))
    decreases |source.deltas|
  {
    var own := OwnEvents(source);
    if source.deltas == [] {
      assert own[..|own| - 1] == [];
    } else {
      ReplayOwn(source.(deltas := source.deltas[..|source.deltas| - 1]));
      OwnWithoutLast(source);
    }
  }

  lemma OwnWithoutLast(source: Source)
    requires source.deltas != []
    ensures var own, n := OwnEvents(source), |source.deltas| - 1;
      && own[..|own| - 1] == OwnEvents(source.(deltas := source.deltas[..n]))
      && own[|own| - 1] == BlockDelta(Some(source.index), source.deltas[n])
  {
  }

  /** `events` interleaves the sources: blocks start in the listed order, and every block sees
      its own start and deltas in order. Nothing else is said about the interleaving. */
  ghost predicate Interleaves(events: seq<Event>, sources: seq<Source>) {
    && (forall k | 0 <= k < |events| :: Indexed(events[k]))
    && StartOrder(events) == seq(|sources|, k requires 0 <= k < |sources| => sources[k].index)
    && forall k | 0 <= k < |sources| :: Project(events, sources[k].index) == OwnEvents(sources[k])
  }

  /** Whatever the interleaving, the content is each block grown by its own deltas, in start
      order. */
  lemma ReassemblyUndoesInterleaving(
    loads: string -> Option<Value>, events: seq<Event>, sources: seq<Source>)
    requires Interleaves(events, sources)
    ensures ContentOf(loads, events)
      == seq(|sources|, k requires 0 <= k < |sources| => Finish(loads, ApplyAll(sources[k].start, sources[k].deltas)))
  {
    StartedHasContent(events);
    forall k | 0 <= k < |sources| { ReplayOwn(sources[k]); }
    assert forall k | 0 <= k < |sources| :: StartOrder(events)[k] == sources[k].index;
  }

  /** The three fields a block can be streamed through. */
  datatype Field = TextField | ThinkingField | JsonField {
    function Key(): string {
      match this
      case TextField => "text"
      case ThinkingField => "thinking"
      case JsonField => "_partial_json"
    }

    function Chunk(chunk: string): Delta {
      match this
      case TextField => TextDelta(chunk)
      case ThinkingField => ThinkingDelta(chunk)
      case JsonField => JsonDelta(chunk)
    }
  }

  ghost function Chunked(field: Field, chunks: seq<string>): seq<Delta> {
    if chunks == [] then [] else Chunked(field, chunks[..|chunks| - 1]) + [field.Chunk(chunks[|chunks| - 1])]
  }

  ghost function Concat(chunks: seq<string>): string {
    if chunks == [] then "" else Concat(chunks[..|chunks| - 1]) + chunks[|chunks| - 1]
  }

  lemma ChunkGrows(start: Block, field: Field, soFar: string, chunk: string)
    ensures ApplyDelta(start[field.Key() := Text(soFar)], field.Chunk(chunk))
      == start[field.Key() := Text(soFar + chunk)]
  {
  }

  lemma {:induction false} ChunksConcatenate(start: Block, field: Field, chunks: seq<string>)
    requires chunks != []
    ensures ApplyAll(start, Chunked(field, chunks))
      == start[field.Key() := Text(Str(start, field.Key()) + Concat(chunks))]
  {
    var front, last := chunks[..|chunks| - 1], chunks[|chunks| - 1];
    var before, first := Chunked(field, front), Str(start, field.Key());
    var total := first + Concat(chunks);
    if front == [] {
      assert Concat(chunks) == Concat(front) + last == last;
      assert ApplyAll(start, before) == start;
      assert ApplyDelta(start, field.Chunk(last)) == Grow(start, field.Key(), last);
    } else {
      assert total == first + Concat(front) + last;
      ChunksConcatenate(start, field, front);
      ChunkGrows(start, field, first + Concat(front), last);
    }
    assert ApplyDelta(ApplyAll(start, before), field.Chunk(last)) == start[field.Key() := Text(total)];
    ApplyLast(start, before, field.Chunk(last));
  }

  /** A field that starts as anything but a string goes on from its `str()`, and a missing one from
      nothing. */
  lemma FieldGoesOn(start: Block, field: Field, chunks: seq<string>)
    requires chunks != []
    ensures var now := ApplyAll(start, Chunked(field, chunks));
      && field.Key() in now
      && (field.Key() !in start ==> now[field.Key()] == Text("" + Concat(chunks)))
      && (forall s | field.Key() in start && start[field.Key()] == Text(s) ::
            now[field.Key()] == Text(s + Concat(chunks)))
      && (forall repr | field.Key() in start && start[field.Key()] == Other(repr) ::
            now[field.Key()] == Text(repr + Concat(chunks)))
      && (forall key | key != field.Key() :: (key in now <==> key in start) && (key in now ==> now[key] == start[key]))
  {
    ChunksConcatenate(start, field, chunks);
  }

  lemma ApplyLast(start: Block, before: seq<Delta>, last: Delta)
    ensures ApplyAll(start, before + [last]) == ApplyDelta(ApplyAll(start, before), last)
  {
    var deltas := before + [last];
    assert deltas[..|deltas| - 1] == before;
  }

  /** The deltas of the kinds the code knows. */
  ghost function Known(deltas: seq<Delta>): seq<Delta> {
    if deltas == [] then []
    else
      var last := deltas[|deltas| - 1];
      Known(deltas[..|deltas| - 1]) + if last.UnknownDelta? || last.DeltaNotADict? then [] else [last]
  }

  /** Deltas of other kinds may come anywhere. */
  lemma {:induction false} OnlyKnownDeltasCount(start: Block, deltas: seq<Delta>)
    ensures ApplyAll(start, deltas) == ApplyAll(start, Known(deltas))
  {
    if deltas != [] {
      var front, last := deltas[..|deltas| - 1], deltas[|deltas| - 1];
      OnlyKnownDeltasCount(start, front);
      if last.UnknownDelta? || last.DeltaNotADict? {
        assert Known(front) + [] == Known(front);
      } else {
        ApplyLast(start, Known(front), last);
      }
    }
  }

  ghost predicate ToolCall(block: Block) {
    "type" in block && block["type"] == Text("tool_use")
  }

  /** What a streamed JSON text says: nothing parseable is an empty object. */
  ghost function Loaded(loads: string -> Option<Value>, json: string): Value {
    match loads(json) case Some(value) => value case None => Other("{}")
  }

  /** The start and the chunks together say `block`: a block without chunks is its start; text and
      thinking are the start's field and the chunks after it; the input of a tool call is what its
      JSON chunks say, or what the start says when they are all empty. */
  ghost predicate Says(loads: string -> Option<Value>, start: Block, field: Field, chunks: seq<string>, block: Block) {
    if chunks == [] then block == start
    else if field.JsonField? then
      && ToolCall(start)
      && block == if Concat(chunks) == "" then start else start["input" := Loaded(loads, Concat(chunks))]
    else block == start[field.Key() := Text(Str(start, field.Key()) + Concat(chunks))]
  }

  /** `source` sends its block through one field in the chunks given. The key the code uses for the
      unparsed JSON is not a key of the block. */
  ghost predicate Sends(source: Source, field: Field, chunks: seq<string>) {
    Known(source.deltas) == Chunked(field, chunks) && "_partial_json" !in source.start
  }

  lemma StreamedBlockComesBack(
    loads: string -> Option<Value>, block: Block, source: Source, field: Field, chunks: seq<string>)
    requires Sends(source, field, chunks) && "_partial_json" !in block
    ensures Finish(loads, ApplyAll(source.start, source.deltas)) == block
      <==> Says(loads, source.start, field, chunks, block)
  {
    OnlyKnownDeltasCount(source.start, source.deltas);
    if chunks == [] {
      FinishedWhole(loads, source.start);
    } else {
      ChunksConcatenate(source.start, field, chunks);
      if field.JsonField? {
        assert "" + Concat(chunks) == Concat(chunks);
        FinishedJson(loads, source.start, Concat(chunks));
      } else {
        FinishedWhole(loads, source.start[field.Key() := Text(Str(source.start, field.Key()) + Concat(chunks))]);
      }
    }
  }

  lemma FinishedWhole(loads: string -> Option<Value>, block: Block)
    requires "_partial_json" !in block
    ensures Finish(loads, block) == block
  {
    assert block - {"_partial_json"} == block;
  }

  /** JSON chunks become the input of a tool call, and stay behind in any other block. */
  lemma FinishedJson(loads: string -> Option<Value>, start: Block, json: string)
    requires "_partial_json" !in start
    ensures var done := Finish(loads, start["_partial_json" := Text(json)]);
      if ToolCall(start) then done == (if json == "" then start else start["input" := Loaded(loads, json)])
      else "_partial_json" in done
  {
    var grown := start["_partial_json" := Text(json)];
    assert "type" in start ==> grown["type"] == start["type"];
    assert grown - {"_partial_json"} == start;
  }

  /** Reassembly undoes streaming: for all blocks, all chunkings and all interleavings, the content is
      the list of blocks if and only if each of them is what its start and its chunks say. */
  lemma RoundTrip(
    loads: string -> Option<Value>, blocks: seq<Block>, events: seq<Event>,
    sources: seq<Source>, fields: seq<Field>, chunks: seq<seq<string>>)
    requires |blocks| == |sources| == |fields| == |chunks|
    requires Interleaves(events, sources)
    requires forall k | 0 <= k < |blocks| :: Sends(sources[k], fields[k], chunks[k]) && "_partial_json" !in blocks[k]
    ensures ContentOf(loads, events) == blocks <==>
      forall k | 0 <= k < |blocks| :: Says(loads, sources[k].start, fields[k], chunks[k], blocks[k])
  {
    ReassemblyUndoesInterleaving(loads, events, sources);
    var content := ContentOf(loads, events);
    forall k | 0 <= k < |blocks|
      ensures content[k] == blocks[k] <==> Says(loads, sources[k].start, fields[k], chunks[k], blocks[k])
    {
      StreamedBlockComesBack(loads, blocks[k], sources[k], fields[k], chunks[k]);
    }
    assert content == blocks <==> forall k | 0 <= k < |blocks| :: content[k] == blocks[k];
  }

  ghost predicate SentAsText(block: Block, start: Block, field: Field, chunks: seq<string>) {
    && !field.JsonField? && chunks != []
    && field.Key() in block && block[field.Key()] == Text(Concat(chunks))
    && start == block[field.Key() := Text("")]
  }

  ghost predicate SentAsCall(
    loads: string -> Option<Value>, block: Block, start: Block, field: Field, chunks: seq<string>) {
    && field.JsonField? && ToolCall(start) && Concat(chunks) != ""
    && "input" in block && loads(Concat(chunks)) == Some(block["input"])
    && start["input" := block["input"]] == block
  }

  ghost predicate SentWhole(block: Block, start: Block, field: Field, chunks: seq<string>) {
    start == block && (chunks == [] || (field.JsonField? && ToolCall(block) && Concat(chunks) == ""))
  }

  /** How the streams the code is written for say their blocks: text and thinking start empty, a tool
      call starts with any input or none and streams its JSON, and anything else, a call without
      arguments or a redacted thought among them, is sent whole. */
  lemma UsualStreams(
    loads: string -> Option<Value>, block: Block, start: Block, field: Field, chunks: seq<string>)
    requires
      || SentAsText(block, start, field, chunks)
      || SentAsCall(loads, block, start, field, chunks)
      || SentWhole(block, start, field, chunks)
    ensures Says(loads, start, field, chunks, block)
  {
    assert "" + Concat(chunks) == Concat(chunks);
    assert chunks == [] ==> Concat(chunks) == "";
  }

  // ----- what does not matter

  lemma SameContent(loads: string -> Option<Value>, a: seq<Event>, b: seq<Event>)
    requires StartOrder(a) == StartOrder(b)
    requires forall i :: Replay(Project(a, i)) == Replay(Project(b, i))
    ensures ContentOf(loads, a) == ContentOf(loads, b)
  {
    StartedHasContent(a);
    StartedHasContent(b);
  }

  lemma {:induction false} ProjectAppend(a: seq<Event>, b: seq<Event>, i: int)
    ensures Project(a + b, i) == Project(a, i) + Project(b, i)
  {
    if b == [] {
      assert a + b == a;
    } else {
      ProjectAppend(a, b[..|b| - 1], i);
      assert (a + b)[..|a + b| - 1] == a + b[..|b| - 1];
    }
  }

  lemma {:induction false} StartOrderAppend(a: seq<Event>, b: seq<Event>)
    ensures StartOrder(a + b) == StartOrder(a) + StartOrder(b)
  {
    if b == [] {
      assert a + b == a;
    } else {
      StartOrderAppend(a, b[..|b| - 1]);
      assert (a + b)[..|a + b| - 1] == a + b[..|b| - 1];
    }
  }

  lemma ProjectOne(e: Event, i: int)
    requires e.BlockDelta?
    ensures Project([e], i) == (if e.index == Some(i) then [e] else []) && StartOrder([e]) == []
  {
    var single := [e];
    assert single[..|single| - 1] == [];
    assert Project([], i) == [];
    assert single[|single| - 1] == e;
  }

  lemma Around(a: seq<Event>, middle: seq<Event>, b: seq<Event>, i: int)
    ensures Project(a + middle + b, i) == Project(a, i) + Project(middle, i) + Project(b, i)
  {
    ProjectAppend(a + middle, b, i);
    ProjectAppend(a, middle, i);
  }

  lemma DeltasStartNothing(a: seq<Event>, middle: seq<Event>, b: seq<Event>)
    requires forall k | 0 <= k < |middle| :: middle[k].BlockDelta?
    ensures StartOrder(a + middle + b) == StartOrder(a) + StartOrder(b)
  {
    StartOrderAppend(a + middle, b);
    StartOrderAppend(a, middle);
    NoStarts(middle);
  }

  lemma {:induction false} NoStarts(middle: seq<Event>)
    requires forall k | 0 <= k < |middle| :: middle[k].BlockDelta?
    ensures StartOrder(middle) == []
  {
    if middle != [] {
      NoStarts(middle[..|middle| - 1]);
    }
  }

  lemma TwoEvents(e: Event, f: Event, i: int)
    ensures Project([e, f], i) == Project([e], i) + Project([f], i)
  {
    ProjectAppend([e], [f], i);
    assert [e] + [f] == [e, f];
  }

  lemma TwoDeltas(e: Event, f: Event, i: int)
    requires e.BlockDelta? && f.BlockDelta? && e.index != f.index
    ensures Project([e, f], i) == Project([f, e], i)
  {
    TwoEvents(e, f, i);
    TwoEvents(f, e, i);
    ProjectOne(e, i);
    ProjectOne(f, i);
    assert e.index != Some(i) || f.index != Some(i);
  }

  /** Swapping two adjacent deltas of different blocks never changes the content. */
  lemma DeltasOfDifferentBlocksCommute(
    loads: string -> Option<Value>, a: seq<Event>, e: Event, f: Event, b: seq<Event>)
    requires e.BlockDelta? && f.BlockDelta? && e.index != f.index
    ensures ContentOf(loads, a + [e, f] + b) == ContentOf(loads, a + [f, e] + b)
  {
    DeltasStartNothing(a, [e, f], b);
    DeltasStartNothing(a, [f, e], b);
    forall i
      ensures Project(a + [e, f] + b, i) == Project(a + [f, e] + b, i)
    {
      Around(a, [e, f], b, i);
      Around(a, [f, e], b, i);
      TwoDeltas(e, f, i);
    }
    SameContent(loads, a + [e, f] + b, a + [f, e] + b);
  }

  lemma {:induction false} ReplayIgnoresPrefix(early: seq<Event>, own: seq<Event>)
    requires forall k | 0 <= k < |early| :: early[k].BlockDelta?
    ensures Replay(early + own) == Replay(own)
  {
    if own == [] {
      assert early + own == early;
      ReplayOfDeltas(early);
    } else {
      assert (early + own)[..|early + own| - 1] == early + own[..|own| - 1];
      ReplayIgnoresPrefix(early, own[..|own| - 1]);
    }
  }

  lemma {:induction false} ReplayOfDeltas(early: seq<Event>)
    requires forall k | 0 <= k < |early| :: early[k].BlockDelta?
    ensures Replay(early) == None
  {
    if early != [] {
      ReplayOfDeltas(early[..|early| - 1]);
    }
  }

  /** A delta for a block that has not started yet is ignored. */
  lemma EarlyDeltaIsIgnored(loads: string -> Option<Value>, a: seq<Event>, e: Event, b: seq<Event>)
    requires e.BlockDelta? && e.index.Some?
    requires e.index.value !in StartOrder(a)
    ensures ContentOf(loads, a + [e] + b) == ContentOf(loads, a + b)
  {
    forall i
      ensures Replay(Project(a + [e] + b, i)) == Replay(Project(a + b, i))
    {
      EarlyDeltaForOne(a, e, b, i);
    }
    DeltasStartNothing(a, [e], b);
    StartOrderAppend(a, b);
    SameContent(loads, a + [e] + b, a + b);
  }

  lemma EarlyDeltaForOne(a: seq<Event>, e: Event, b: seq<Event>, i: int)
    requires e.BlockDelta? && e.index.Some?
    requires e.index.value !in StartOrder(a)
    ensures Replay(Project(a + [e] + b, i)) == Replay(Project(a + b, i))
  {
    Around(a, [e], b, i);
    ProjectAppend(a, b, i);
    ProjectOne(e, i);
    if e.index == Some(i) {
      NoStartOnlyDeltas(a, i);
    }
    EarlyOnesDrop(Project(a, i), Project([e], i), Project(b, i));
  }

  lemma EarlyOnesDrop(own: seq<Event>, one: seq<Event>, rest: seq<Event>)
    requires one != [] ==> forall k | 0 <= k < |own| :: own[k].BlockDelta?
    requires forall k | 0 <= k < |one| :: one[k].BlockDelta?
    ensures Replay(own + one + rest) == Replay(own + rest)
  {
    if one == [] {
      assert own + one == own;
    } else {
      ReplayIgnoresPrefix(own, rest);
      ReplayIgnoresPrefix(own + one, rest);
    }
  }

  lemma {:induction false} NoStartOnlyDeltas(a: seq<Event>, i: int)
    requires i !in StartOrder(a)
    ensures forall k | 0 <= k < |Project(a, i)| :: Project(a, i)[k].BlockDelta?
  {
    if a != [] {
      assert StartOrder(a[..|a| - 1]) <= StartOrder(a);
      NoStartOnlyDeltas(a[..|a| - 1], i);
    }
  }
}
