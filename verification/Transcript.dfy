/** Session entries and their conversion to provider messages (src/core/session.ts). */
module Transcripts {
  import opened Prelude

  /** A tool input: a string or any other JSON value; `json` is its serialised text. */
  datatype ToolInput = StringInput(text: string, json: string) | ValueInput(json: string)

  datatype Block =
    | TextBlock(text: string)
    | ImageBlock(url: string)
    | ToolUse(id: string, name: string, input: ToolInput)
    | ToolResult(useId: string, content: string)

  datatype Content = Plain(text: string) | Blocks(blocks: seq<Block>)
  datatype EntryType = UserEntry | AssistantEntry | MetaEntry | SystemEntry
  datatype Role = User | Assistant | System

  datatype Entry = Entry(
    kind: EntryType,
    role: Role,
    content: Content,
    uuid: string,
    parentUuid: Option<string>,
    compactBoundary: bool,
    compactSummary: bool)

  predicate IsBoundary(e: Entry) {
    e.kind == SystemEntry && e.compactBoundary
  }

  datatype Part = TextPart(text: string) | CallPart(callId: string, toolName: string, input: ToolInput)
  datatype ResultPart = ResultPart(callId: string, toolName: string, value: string)
  datatype Message =
    | UserText(text: string)
    | AssistantText(text: string)
    | AssistantParts(parts: seq<Part>)
    | ToolMessage(results: seq<ResultPart>)

  datatype Item =
    | TextItem(role: Role, text: string)
    | CallItem(callId: string, name: string, arguments: string)
    | OutputItem(callId: string, output: string)

  // ----- toModelMessages -----

  function Join(texts: seq<string>): string {
    if texts == [] then "" else if |texts| == 1 then texts[0] else texts[0] + "\n" + Join(texts[1..])
  }

  function TextOf(b: Block): seq<string> {
    if b.TextBlock? then [b.text] else []
  }

  function TextsOf(blocks: seq<Block>): seq<string> {
    FlatMap(blocks, TextOf)
  }

  function ResultOf(b: Block): seq<ResultPart> {
    if b.ToolResult? then [ResultPart(b.useId, "unknown", b.content)] else []
  }

  function ResultsOf(blocks: seq<Block>): seq<ResultPart> {
    FlatMap(blocks, ResultOf)
  }

  function PartOf(b: Block): seq<Part> {
    match b
    case TextBlock(text) => [TextPart(text)]
    case ToolUse(id, name, input) => [CallPart(id, name, input)]
    case _ => []
  }

  function PartsOf(blocks: seq<Block>): seq<Part> {
    FlatMap(blocks, PartOf)
  }

  function UserMessages(blocks: seq<Block>): seq<Message> {
    var results := ResultsOf(blocks);
    if results != [] then [ToolMessage(results)]
    else
      var text := Join(TextsOf(blocks));
      if text != "" then [UserText(text)] else []
  }

  /** The zero or one messages an entry becomes before sanitizing. */
  function MessagesOf(e: Entry): seq<Message> {
    if IsBoundary(e) then [] else
      match (e.role, e.content)
      case (User, Plain(text)) => [UserText(text)]
      case (User, Blocks(blocks)) => UserMessages(blocks)
      case (Assistant, Plain(text)) => [AssistantText(text)]
      case (Assistant, Blocks(blocks)) => if PartsOf(blocks) == [] then [] else [AssistantParts(PartsOf(blocks))]
      case (System, _) => []
  }

  function RawMessages(entries: seq<Entry>): seq<Message> {
    FlatMap(entries, MessagesOf)
  }

  /** A call is kept when some result answers it; everything else is kept. */
  function Keeps(ids: set<string>): Part -> bool {
    (p: Part) => !p.CallPart? || p.callId in ids
  }

  function KeepMessage(m: Message, ids: set<string>): seq<Message> {
    if m.AssistantParts? then
      var kept := Filter(m.parts, Keeps(ids));
      if kept == [] then [] else [AssistantParts(kept)]
    else [m]
  }

  function Keeper(ids: set<string>): Message -> seq<Message> {
    (m: Message) => KeepMessage(m, ids)
  }

  function SanitizeWith(messages: seq<Message>, ids: set<string>): seq<Message> {
    FlatMap(messages, Keeper(ids))
  }

  function Sanitize(messages: seq<Message>): seq<Message> {
    SanitizeWith(messages, ResultIds(messages))
  }

  function ToModelMessages(entries: seq<Entry>): seq<Message> {
    Sanitize(RawMessages(entries))
  }

  // ----- Contents of a conversation, in order -----

  function IsCall(): Part -> bool {
    (p: Part) => p.CallPart?
  }

  function IsText(): Part -> bool {
    (p: Part) => p.TextPart?
  }

  function CallsIn(m: Message): seq<Part> {
    if m.AssistantParts? then Filter(m.parts, IsCall()) else []
  }

  function TextsIn(m: Message): seq<Part> {
    match m
    case UserText(text) => [TextPart(text)]
    case AssistantText(text) => [TextPart(text)]
    case AssistantParts(parts) => Filter(parts, IsText())
    case ToolMessage(_) => []
  }

  function ResultsIn(m: Message): seq<ResultPart> {
    if m.ToolMessage? then m.results else []
  }

  function Calls(messages: seq<Message>): seq<Part> {
    FlatMap(messages, CallsIn)
  }

  function Texts(messages: seq<Message>): seq<Part> {
    FlatMap(messages, TextsIn)
  }

  function Results(messages: seq<Message>): seq<ResultPart> {
    FlatMap(messages, ResultsIn)
  }

  function ResultIds(messages: seq<Message>): set<string> {
    set r | r in Results(messages) :: r.callId
  }

  /** Every tool call has a result with its id. */
  predicate Paired(messages: seq<Message>) {
    forall c :: c in Calls(messages) ==> c.CallPart? && c.callId in ResultIds(messages)
  }

  lemma ContentsConcat(a: seq<Message>, b: seq<Message>)
    ensures Calls(a + b) == Calls(a) + Calls(b)
    ensures Texts(a + b) == Texts(a) + Texts(b)
    ensures Results(a + b) == Results(a) + Results(b)
  {
    FlatMapConcat(a, b, CallsIn);
    FlatMapConcat(a, b, TextsIn);
    FlatMapConcat(a, b, ResultsIn);
  }

  lemma ContentsOne(m: Message)
    ensures Calls([m]) == CallsIn(m) && Texts([m]) == TextsIn(m) && Results([m]) == ResultsIn(m)
  {
    FlatMapOne(m, CallsIn);
    FlatMapOne(m, TextsIn);
    FlatMapOne(m, ResultsIn);
  }

  /** One utterance or answer; a conversation is the sequence of its pieces. */
  datatype Piece = Said(role: Role, part: Part) | Answered(result: ResultPart)

  function Says(role: Role): Part -> seq<Piece> {
    (p: Part) => [Said(role, p)]
  }

  function AnswerOf(r: ResultPart): seq<Piece> {
    [Answered(r)]
  }

  function PiecesIn(m: Message): seq<Piece> {
    match m
    case UserText(text) => [Said(User, TextPart(text))]
    case AssistantText(text) => [Said(Assistant, TextPart(text))]
    case AssistantParts(parts) => FlatMap(parts, Says(Assistant))
    case ToolMessage(results) => FlatMap(results, AnswerOf)
  }

  function Pieces(messages: seq<Message>): seq<Piece> {
    FlatMap(messages, PiecesIn)
  }

  predicate IsUnanswered(p: Piece, ids: set<string>) {
    p.Said? && p.part.CallPart? && p.part.callId !in ids
  }

  function KeepsPiece(ids: set<string>): Piece -> bool {
    (p: Piece) => !IsUnanswered(p, ids)
  }

  // ----- Sanitizing -----

  lemma {:induction false} FilterSaid(parts: seq<Part>, role: Role, ids: set<string>)
    ensures Filter(FlatMap(parts, Says(role)), KeepsPiece(ids)) == FlatMap(Filter(parts, Keeps(ids)), Says(role))
  {
    if parts != [] {
      var head := [Said(role, parts[0])];
      FilterSaid(parts[1..], role, ids);
      FilterConcat(head, FlatMap(parts[1..], Says(role)), KeepsPiece(ids));
      FlatMapConcat(if Keeps(ids)(parts[0]) then [parts[0]] else [], Filter(parts[1..], Keeps(ids)), Says(role));
      FlatMapOne(parts[0], Says(role));
      assert head[1..] == [];
    }
  }

  lemma {:induction false} AnswersAreKept(results: seq<ResultPart>, ids: set<string>)
    ensures Filter(FlatMap(results, AnswerOf), KeepsPiece(ids)) == FlatMap(results, AnswerOf)
  {
    if results != [] {
      var head := [Answered(results[0])];
      AnswersAreKept(results[1..], ids);
      FilterConcat(head, FlatMap(results[1..], AnswerOf), KeepsPiece(ids));
      assert head[1..] == [];
    }
  }

  lemma KeepMessagePieces(m: Message, ids: set<string>)
    ensures Pieces(KeepMessage(m, ids)) == Filter(PiecesIn(m), KeepsPiece(ids))
  {
    match m
    case AssistantParts(parts) =>
      FilterSaid(parts, Assistant, ids);
      FlatMapOne(AssistantParts(Filter(parts, Keeps(ids))), PiecesIn);
    case ToolMessage(results) =>
      AnswersAreKept(results, ids);
      FlatMapOne(m, PiecesIn);
    case _ =>
      FilterAll(PiecesIn(m), KeepsPiece(ids));
      FlatMapOne(m, PiecesIn);
  }

  /** Sanitizing removes the unanswered calls from the conversation and moves nothing. */
  lemma {:induction false} SanitizeRemovesUnanswered(messages: seq<Message>, ids: set<string>)
    ensures Pieces(SanitizeWith(messages, ids)) == Filter(Pieces(messages), KeepsPiece(ids))
  {
    if messages != [] {
      SanitizeRemovesUnanswered(messages[1..], ids);
      KeepMessagePieces(messages[0], ids);
      FlatMapConcat(KeepMessage(messages[0], ids), SanitizeWith(messages[1..], ids), PiecesIn);
      FilterConcat(PiecesIn(messages[0]), Pieces(messages[1..]), KeepsPiece(ids));
    }
  }

  lemma KeepMessageFacts(m: Message, ids: set<string>)
    ensures Calls(KeepMessage(m, ids)) == Filter(CallsIn(m), Keeps(ids))
    ensures Texts(KeepMessage(m, ids)) == TextsIn(m)
    ensures Results(KeepMessage(m, ids)) == ResultsIn(m)
    ensures SanitizeWith(KeepMessage(m, ids), ids) == KeepMessage(m, ids)
  {
    if m.AssistantParts? {
      var kept := Filter(m.parts, Keeps(ids));
      FilterCommutes(m.parts, Keeps(ids), IsCall());
      FilterCommutes(m.parts, Keeps(ids), IsText());
      FilterMembers(m.parts, IsText());
      FilterAll(Filter(m.parts, IsText()), Keeps(ids));
      FilterMembers(m.parts, Keeps(ids));
      FilterAll(kept, Keeps(ids));
      ContentsOne(AssistantParts(kept));
      FlatMapOne(AssistantParts(kept), Keeper(ids));
    } else {
      ContentsOne(m);
      FlatMapOne(m, Keeper(ids));
    }
  }

  /** Sanitizing keeps every text and every result, and exactly the answered calls, all in order. */
  lemma {:induction false} SanitizeWithFacts(messages: seq<Message>, ids: set<string>)
    ensures Calls(SanitizeWith(messages, ids)) == Filter(Calls(messages), Keeps(ids))
    ensures Texts(SanitizeWith(messages, ids)) == Texts(messages)
    ensures Results(SanitizeWith(messages, ids)) == Results(messages)
    ensures SanitizeWith(SanitizeWith(messages, ids), ids) == SanitizeWith(messages, ids)
  {
    if messages != [] {
      var head, rest := KeepMessage(messages[0], ids), SanitizeWith(messages[1..], ids);
      SanitizeWithFacts(messages[1..], ids);
      KeepMessageFacts(messages[0], ids);
      ContentsConcat(head, rest);
      FlatMapConcat(head, rest, Keeper(ids));
      FilterConcat(CallsIn(messages[0]), Calls(messages[1..]), Keeps(ids));
    }
  }

  lemma SanitizeFacts(messages: seq<Message>)
    ensures Pieces(Sanitize(messages)) == Filter(Pieces(messages), KeepsPiece(ResultIds(messages)))
    ensures Texts(Sanitize(messages)) == Texts(messages)
    ensures Results(Sanitize(messages)) == Results(messages)
    ensures Calls(Sanitize(messages)) == Filter(Calls(messages), Keeps(ResultIds(messages)))
    ensures Paired(Sanitize(messages))
    ensures Sanitize(Sanitize(messages)) == Sanitize(messages)
  {
    var ids := ResultIds(messages);
    SanitizeWithFacts(messages, ids);
    SanitizeRemovesUnanswered(messages, ids);
    FilterMembers(Calls(messages), Keeps(ids));
    CallsAreCalls(messages);
  }

  lemma {:induction false} CallsAreCalls(messages: seq<Message>)
    ensures forall c :: c in Calls(messages) ==> c.CallPart?
  {
    if messages != [] {
      CallsAreCalls(messages[1..]);
      if messages[0].AssistantParts? {
        FilterMembers(messages[0].parts, IsCall());
      }
    }
  }

  predicate NoOrphanResult(messages: seq<Message>) {
    forall r :: r in Results(messages) ==> exists c :: c in Calls(messages) && c.CallPart? && c.callId == r.callId
  }

  /** Orphaned results are not removed: calls and results match both ways in the output
      exactly when every result of the input had its call there. */
  lemma OrphanResultsStay(messages: seq<Message>)
    ensures NoOrphanResult(Sanitize(messages)) <==> NoOrphanResult(messages)
  {
    var ids, out := ResultIds(messages), Sanitize(messages);
    SanitizeFacts(messages);
    FilterMembers(Calls(messages), Keeps(ids));
    forall r | r in Results(messages)
      ensures (exists c :: c in Calls(out) && c.CallPart? && c.callId == r.callId)
         <==> (exists c :: c in Calls(messages) && c.CallPart? && c.callId == r.callId)
    {
      if c :| c in Calls(messages) && c.CallPart? && c.callId == r.callId {
        assert c in Calls(out);
      }
    }
  }

  /** A result without a call passes unchanged. */
  lemma LoneResultStays(r: ResultPart)
    ensures Sanitize([ToolMessage([r])]) == [ToolMessage([r])] && !NoOrphanResult([ToolMessage([r])])
  {
    var m := ToolMessage([r]);
    FlatMapOne(m, Keeper(ResultIds([m])));
    ContentsOne(m);
    assert r in Results([m]) && Calls([m]) == [];
  }

  /** Every call has its result in a later message. */
  predicate AllAnsweredLater(messages: seq<Message>) {
    messages == [] ||
    ((forall c :: c in CallsIn(messages[0]) ==> c.CallPart? && c.callId in ResultIds(messages[1..]))
     && AllAnsweredLater(messages[1..]))
  }

  /** So has every call with one of these ids. */
  predicate AnsweredLater(messages: seq<Message>, ids: set<string>) {
    messages == [] ||
    ((forall c :: c in CallsIn(messages[0]) && c.CallPart? && c.callId in ids ==> c.callId in ResultIds(messages[1..]))
     && AnsweredLater(messages[1..], ids))
  }

  lemma CallsInAreCalls(m: Message)
    ensures forall c :: c in CallsIn(m) ==> c.CallPart?
  {
    if m.AssistantParts? { FilterMembers(m.parts, IsCall()); }
  }

  lemma {:induction false} DownstreamWith(messages: seq<Message>, ids: set<string>)
    ensures AllAnsweredLater(SanitizeWith(messages, ids)) <==> AnsweredLater(messages, ids)
  {
    if messages != [] {
      var m, tail := messages[0], SanitizeWith(messages[1..], ids);
      DownstreamWith(messages[1..], ids);
      SanitizeWithFacts(messages[1..], ids);
      assert ResultIds(tail) == ResultIds(messages[1..]);
      KeptAnsweredLater(m, ids, tail);
    }
  }

  /** Putting a sanitized message in front of sanitized ones. */
  lemma KeptAnsweredLater(m: Message, ids: set<string>, tail: seq<Message>)
    ensures AllAnsweredLater(KeepMessage(m, ids) + tail) <==>
              && (forall c :: c in CallsIn(m) && c.CallPart? && c.callId in ids ==> c.callId in ResultIds(tail))
              && AllAnsweredLater(tail)
  {
    var kept := KeepMessage(m, ids);
    KeptCalls(m, ids);
    if kept == [] {
      assert kept + tail == tail;
    } else {
      assert (kept + tail)[0] == kept[0] && (kept + tail)[1..] == tail;
    }
  }

  /** The calls of a kept message are the answered calls of the original. */
  lemma KeptCalls(m: Message, ids: set<string>)
    ensures
      var kept := KeepMessage(m, ids);
      && |kept| <= 1
      && (forall c :: c in CallsIn(m) && c.CallPart? && c.callId in ids <==> kept != [] && c in CallsIn(kept[0]))
      && (kept != [] ==> forall c :: c in CallsIn(kept[0]) ==> c.CallPart?)
  {
    var kept := KeepMessage(m, ids);
    CallsInAreCalls(m);
    KeepMessageFacts(m, ids);
    FilterMembers(CallsIn(m), Keeps(ids));
    if kept != [] { ContentsOne(kept[0]); }
  }

  /** The source's comment promises a result "downstream" of each call.  The output keeps that promise exactly
      when every call that is answered anywhere is answered in a later message. */
  lemma DownstreamIff(messages: seq<Message>)
    ensures AllAnsweredLater(Sanitize(messages)) <==> AnsweredLater(messages, ResultIds(messages))
  {
    DownstreamWith(messages, ResultIds(messages));
  }

  /** It breaks for a result logged before its call, which the code accepts. */
  lemma ResultBeforeCallIsAccepted(part: Part)
    requires part.CallPart?
    ensures
      var ms := [ToolMessage([ResultPart(part.callId, "unknown", "ok")]), AssistantParts([part])];
      Sanitize(ms) == ms && !AllAnsweredLater(ms)
  {
    var tool, call := ToolMessage([ResultPart(part.callId, "unknown", "ok")]), AssistantParts([part]);
    var ms := [tool, call];
    assert ms[1..] == [call] && [call][1..] == [];
    ContentsOne(call);
    ContentsOne(tool);
    FlatMapConcat([tool], [call], ResultsIn);
    assert [tool] + [call] == ms;
    assert tool.results[0] in Results(ms);
    FilterAll([part], Keeps(ResultIds(ms)));
    FilterAll([part], IsCall());
    assert part in CallsIn(call);
    FlatMapConcat([tool], [call], Keeper(ResultIds(ms)));
    FlatMapOne(tool, Keeper(ResultIds(ms)));
    FlatMapOne(call, Keeper(ResultIds(ms)));
    assert !AllAnsweredLater([call]);
  }

  // ----- toResponsesInput -----

  function Arguments(input: ToolInput): string {
    match input
    case StringInput(text, _) => text
    case ValueInput(json) => json
  }

  function ItemOf(role: Role, b: Block): seq<Item> {
    match (role, b)
    case (User, ToolResult(useId, content)) => [OutputItem(useId, content)]
    case (User, TextBlock(text)) => [TextItem(User, text)]
    case (Assistant, TextBlock(text)) => [TextItem(Assistant, text)]
    case (Assistant, ToolUse(id, name, input)) => [CallItem(id, name, Arguments(input))]
    case _ => []
  }

  function ItemIn(role: Role): Block -> seq<Item> {
    (b: Block) => ItemOf(role, b)
  }

  function ItemsOfBlocks(role: Role, blocks: seq<Block>): seq<Item> {
    FlatMap(blocks, ItemIn(role))
  }

  function ItemsOf(e: Entry): seq<Item> {
    if IsBoundary(e) || e.role == System then [] else
      match e.content
      case Plain(text) => [TextItem(e.role, text)]
      case Blocks(blocks) => ItemsOfBlocks(e.role, blocks)
  }

  function RawItems(entries: seq<Entry>): seq<Item> {
    FlatMap(entries, ItemsOf)
  }

  function OutputIds(items: seq<Item>): set<string> {
    set i | i in items && i.OutputItem? :: i.callId
  }

  function KeepsItem(ids: set<string>): Item -> bool {
    (i: Item) => !i.CallItem? || i.callId in ids
  }

  function ToResponsesInput(entries: seq<Entry>): seq<Item> {
    Filter(RawItems(entries), KeepsItem(OutputIds(RawItems(entries))))
  }

  /** A call as id, name and argument text. */
  function CallOf(i: Item): seq<(string, string, string)> {
    if i.CallItem? then [(i.callId, i.name, i.arguments)] else []
  }

  function ItemCalls(items: seq<Item>): seq<(string, string, string)> {
    FlatMap(items, CallOf)
  }

  function OutputOf(i: Item): seq<(string, string)> {
    if i.OutputItem? then [(i.callId, i.output)] else []
  }

  function ItemOutputs(items: seq<Item>): seq<(string, string)> {
    FlatMap(items, OutputOf)
  }

  /** A string input is passed as it is, any other as its JSON text. */
  function PartCall(p: Part): seq<(string, string, string)> {
    match p
    case TextPart(_) => []
    case CallPart(id, name, StringInput(text, _)) => [(id, name, text)]
    case CallPart(id, name, ValueInput(json)) => [(id, name, json)]
  }

  function PartCalls(parts: seq<Part>): seq<(string, string, string)> {
    FlatMap(parts, PartCall)
  }

  function PairOf(r: ResultPart): seq<(string, string)> {
    [(r.callId, r.value)]
  }

  function ResultPairs(results: seq<ResultPart>): seq<(string, string)> {
    FlatMap(results, PairOf)
  }

  lemma ItemIdsConcat(a: seq<Item>, b: seq<Item>)
    ensures ItemCalls(a + b) == ItemCalls(a) + ItemCalls(b)
    ensures ItemOutputs(a + b) == ItemOutputs(a) + ItemOutputs(b)
  {
    FlatMapConcat(a, b, CallOf);
    FlatMapConcat(a, b, OutputOf);
  }

  lemma {:induction false} PartCallsFilter(parts: seq<Part>)
    ensures PartCalls(Filter(parts, IsCall())) == PartCalls(parts)
  {
    if parts != [] {
      PartCallsFilter(parts[1..]);
      var head := if IsCall()(parts[0]) then [parts[0]] else [];
      FlatMapConcat(head, Filter(parts[1..], IsCall()), PartCall);
    }
  }

  /** Assistant blocks give the same calls to both converters. */
  lemma {:induction false} AssistantBlocksAgree(blocks: seq<Block>)
    ensures ItemCalls(ItemsOfBlocks(Assistant, blocks)) == PartCalls(PartsOf(blocks))
    ensures ItemOutputs(ItemsOfBlocks(Assistant, blocks)) == []
  {
    if blocks != [] {
      AssistantBlocksAgree(blocks[1..]);
      ItemIdsConcat(ItemOf(Assistant, blocks[0]), ItemsOfBlocks(Assistant, blocks[1..]));
      FlatMapConcat(PartOf(blocks[0]), PartsOf(blocks[1..]), PartCall);
    }
  }

  lemma UserBlockAgrees(b: Block)
    ensures ItemOutputs(ItemOf(User, b)) == ResultPairs(ResultOf(b))
    ensures ItemCalls(ItemOf(User, b)) == []
  {
    if ItemOf(User, b) != [] {
      FlatMapOne(ItemOf(User, b)[0], OutputOf);
      FlatMapOne(ItemOf(User, b)[0], CallOf);
    }
    if ResultOf(b) != [] { FlatMapOne(ResultOf(b)[0], PairOf); }
  }

  /** User blocks give the same results to both converters. */
  lemma {:induction false} UserBlocksAgree(blocks: seq<Block>)
    ensures ItemOutputs(ItemsOfBlocks(User, blocks)) == ResultPairs(ResultsOf(blocks))
    ensures ItemCalls(ItemsOfBlocks(User, blocks)) == []
  {
    if blocks != [] {
      UserBlocksAgree(blocks[1..]);
      ItemIdsConcat(ItemOf(User, blocks[0]), ItemsOfBlocks(User, blocks[1..]));
      FlatMapConcat(ResultOf(blocks[0]), ResultsOf(blocks[1..]), PairOf);
      UserBlockAgrees(blocks[0]);
    }
  }

  lemma EntryAgrees(e: Entry)
    ensures ItemCalls(ItemsOf(e)) == PartCalls(Calls(MessagesOf(e)))
    ensures ItemOutputs(ItemsOf(e)) == ResultPairs(Results(MessagesOf(e)))
  {
    if !IsBoundary(e) && e.role != System && e.content.Blocks? {
      var blocks := e.content.blocks;
      AssistantBlocksAgree(blocks);
      UserBlocksAgree(blocks);
      if e.role == Assistant {
        ContentsOne(AssistantParts(PartsOf(blocks)));
        PartCallsFilter(PartsOf(blocks));
      } else {
        ContentsOne(ToolMessage(ResultsOf(blocks)));
        ContentsOne(UserText(Join(TextsOf(blocks))));
      }
    } else if |MessagesOf(e)| == 1 {
      ContentsOne(MessagesOf(e)[0]);
      FlatMapOne(ItemsOf(e)[0], CallOf);
      FlatMapOne(ItemsOf(e)[0], OutputOf);
    }
  }

  lemma {:induction false} RawAgrees(entries: seq<Entry>)
    ensures ItemCalls(RawItems(entries)) == PartCalls(Calls(RawMessages(entries)))
    ensures ItemOutputs(RawItems(entries)) == ResultPairs(Results(RawMessages(entries)))
  {
    if entries != [] {
      EntryAgrees(entries[0]);
      RawAgrees(entries[1..]);
      ItemIdsConcat(ItemsOf(entries[0]), RawItems(entries[1..]));
      ContentsConcat(MessagesOf(entries[0]), RawMessages(entries[1..]));
      FlatMapConcat(Calls(MessagesOf(entries[0])), Calls(RawMessages(entries[1..])), PartCall);
      FlatMapConcat(Results(MessagesOf(entries[0])), Results(RawMessages(entries[1..])), PairOf);
    }
  }

  lemma {:induction false} OutputIdsAre(items: seq<Item>, id: string)
    ensures id in OutputIds(items) <==> exists v :: (id, v) in ItemOutputs(items)
  {
    if items != [] {
      var rest := items[1..];
      OutputIdsAre(rest, id);
      assert id in OutputIds(items) <==> (items[0].OutputItem? && items[0].callId == id) || id in OutputIds(rest) by {
        assert items == [items[0]] + rest;
      }
      if items[0].OutputItem? && items[0].callId == id {
        assert (id, items[0].output) in ItemOutputs(items);
      }
    }
  }

  lemma {:induction false} ResultIdsAre(results: seq<ResultPart>, id: string)
    ensures (exists r :: r in results && r.callId == id) <==> exists v :: (id, v) in ResultPairs(results)
  {
    if results != [] {
      var rest := results[1..];
      ResultIdsAre(rest, id);
      assert results == [results[0]] + rest;
      if results[0].callId == id {
        assert (id, results[0].value) in ResultPairs(results);
        assert results[0] in results;
      } else if v :| (id, v) in ResultPairs(results) {
        assert (id, v) in ResultPairs(rest);
        var r :| r in rest && r.callId == id;
        assert r in results;
      }
    }
  }

  function InIds(ids: set<string>): ((string, string, string)) -> bool {
    (call: (string, string, string)) => call.0 in ids
  }

  lemma {:induction false} FilteredPartCalls(calls: seq<Part>, ids: set<string>)
    ensures PartCalls(Filter(calls, Keeps(ids))) == Filter(PartCalls(calls), InIds(ids))
  {
    if calls != [] {
      FilteredPartCalls(calls[1..], ids);
      var head := if Keeps(ids)(calls[0]) then [calls[0]] else [];
      FlatMapConcat(head, Filter(calls[1..], Keeps(ids)), PartCall);
      FilterConcat(PartCall(calls[0]), PartCalls(calls[1..]), InIds(ids));
    }
  }

  lemma {:induction false} FilteredItemCalls(items: seq<Item>, ids: set<string>)
    ensures ItemCalls(Filter(items, KeepsItem(ids))) == Filter(ItemCalls(items), InIds(ids))
    ensures ItemOutputs(Filter(items, KeepsItem(ids))) == ItemOutputs(items)
  {
    if items != [] {
      FilteredItemCalls(items[1..], ids);
      var head := if KeepsItem(ids)(items[0]) then [items[0]] else [];
      ItemIdsConcat(head, Filter(items[1..], KeepsItem(ids)));
      FilterConcat(CallOf(items[0]), ItemCalls(items[1..]), InIds(ids));
    }
  }

  /** Both converters keep the same calls, with the same names and arguments, and the same results,
      in the same order. */
  lemma ConvertersAgree(entries: seq<Entry>)
    ensures ItemCalls(ToResponsesInput(entries)) == PartCalls(Calls(ToModelMessages(entries)))
    ensures ItemOutputs(ToResponsesInput(entries)) == ResultPairs(Results(ToModelMessages(entries)))
  {
    var raw, items := RawMessages(entries), RawItems(entries);
    RawAgrees(entries);
    SanitizeFacts(raw);
    var ids, outs := ResultIds(raw), OutputIds(items);
    assert ids == outs by {
      forall id
        ensures id in ids <==> id in outs
      {
        OutputIdsAre(items, id);
        ResultIdsAre(Results(raw), id);
      }
    }
    FilteredItemCalls(items, ids);
    FilteredPartCalls(Calls(raw), ids);
  }

  // ----- The conversation, read off the log -----

  lemma JoinSnoc(texts: seq<string>, last: string)
    ensures Join(texts + [last]) == if texts == [] then last else Join(texts) + "\n" + last
  {
    if |texts| > 1 {
      JoinSnoc(texts[1..], last);
      assert (texts + [last])[1..] == texts[1..] + [last];
    } else if texts == [] {
      assert texts + [last] == [last];
    } else {
      assert (texts + [last])[1..] == [last];
    }
  }

  function SaidInBlock(b: Block): seq<Piece> {
    match b
    case TextBlock(text) => [Said(Assistant, TextPart(text))]
    case ToolUse(id, name, input) => [Said(Assistant, CallPart(id, name, input))]
    case _ => []
  }

  function AnsweredInBlock(b: Block): seq<Piece> {
    match b
    case ToolResult(useId, content) => [Answered(ResultPart(useId, "unknown", content))]
    case _ => []
  }

  function WrittenInBlock(b: Block): seq<string> {
    match b
    case TextBlock(text) => [text]
    case _ => []
  }

  /** What an entry says: a boundary or system entry nothing, a plain text itself, assistant blocks
      their texts and calls, user blocks their results or, without any, their texts joined by line
      breaks. */
  function LoggedPieces(e: Entry): seq<Piece> {
    if (e.kind == SystemEntry && e.compactBoundary) || e.role == System then []
    else
      match e.content
      case Plain(text) => [Said(e.role, TextPart(text))]
      case Blocks(blocks) =>
        if e.role == Assistant then FlatMap(blocks, SaidInBlock)
        else if exists b :: b in blocks && b.ToolResult? then FlatMap(blocks, AnsweredInBlock)
        else
          var text := Join(FlatMap(blocks, WrittenInBlock));
          if text == "" then [] else [Said(User, TextPart(text))]
  }

  /** The ids of the results that user entries carry. */
  function LoggedResultIds(entries: seq<Entry>): set<string> {
    set p | p in FlatMap(entries, LoggedPieces) && p.Answered? :: p.result.callId
  }

  lemma {:induction false} AssistantPiecesLogged(blocks: seq<Block>)
    ensures FlatMap(PartsOf(blocks), Says(Assistant)) == FlatMap(blocks, SaidInBlock)
  {
    if blocks != [] {
      AssistantPiecesLogged(blocks[1..]);
      FlatMapConcat(PartOf(blocks[0]), PartsOf(blocks[1..]), Says(Assistant));
      if PartOf(blocks[0]) != [] { FlatMapOne(PartOf(blocks[0])[0], Says(Assistant)); }
    }
  }

  lemma {:induction false} AnswersLogged(blocks: seq<Block>)
    ensures FlatMap(ResultsOf(blocks), AnswerOf) == FlatMap(blocks, AnsweredInBlock)
    ensures ResultsOf(blocks) != [] <==> exists b :: b in blocks && b.ToolResult?
    ensures TextsOf(blocks) == FlatMap(blocks, WrittenInBlock)
  {
    if blocks != [] {
      AnswersLogged(blocks[1..]);
      FlatMapConcat(ResultOf(blocks[0]), ResultsOf(blocks[1..]), AnswerOf);
      if ResultOf(blocks[0]) != [] { FlatMapOne(ResultOf(blocks[0])[0], AnswerOf); }
      assert blocks == [blocks[0]] + blocks[1..];
    }
  }

  lemma EntryPieces(e: Entry)
    ensures |MessagesOf(e)| <= 1
    ensures Pieces(MessagesOf(e)) == LoggedPieces(e)
  {
    if !IsBoundary(e) && e.role != System {
      match e.content
      case Plain(text) => FlatMapOne(MessagesOf(e)[0], PiecesIn);
      case Blocks(blocks) =>
        if e.role == User { UserPieces(blocks); } else { AssistantPieces(blocks); }
    }
  }

  lemma UserPieces(blocks: seq<Block>)
    ensures
      Pieces(UserMessages(blocks)) ==
        if exists b :: b in blocks && b.ToolResult? then FlatMap(blocks, AnsweredInBlock)
        else
          var text := Join(FlatMap(blocks, WrittenInBlock));
          if text == "" then [] else [Said(User, TextPart(text))]
  {
    AnswersLogged(blocks);
    if UserMessages(blocks) != [] { FlatMapOne(UserMessages(blocks)[0], PiecesIn); }
  }

  lemma AssistantPieces(blocks: seq<Block>)
    ensures Pieces(if PartsOf(blocks) == [] then [] else [AssistantParts(PartsOf(blocks))]) == FlatMap(blocks, SaidInBlock)
  {
    AssistantPiecesLogged(blocks);
    if PartsOf(blocks) != [] { FlatMapOne(AssistantParts(PartsOf(blocks)), PiecesIn); }
  }

  lemma {:induction false} RawPieces(entries: seq<Entry>)
    ensures Pieces(RawMessages(entries)) == FlatMap(entries, LoggedPieces)
  {
    if entries != [] {
      EntryPieces(entries[0]);
      RawPieces(entries[1..]);
      FlatMapConcat(MessagesOf(entries[0]), RawMessages(entries[1..]), PiecesIn);
    }
  }

  lemma {:induction false} AnswersAreResults(messages: seq<Message>)
    ensures forall r :: r in Results(messages) <==> Answered(r) in Pieces(messages)
  {
    if messages != [] {
      AnswersAreResults(messages[1..]);
      MessageAnswers(messages[0]);
    }
  }

  lemma MessageAnswers(m: Message)
    ensures forall r :: r in ResultsIn(m) <==> Answered(r) in PiecesIn(m)
  {
    match m
    case AssistantParts(parts) => SaidAreNoAnswers(parts);
    case ToolMessage(results) => AnswerPieces(results);
    case _ =>
  }

  lemma {:induction false} SaidAreNoAnswers(parts: seq<Part>)
    ensures forall p :: p in FlatMap(parts, Says(Assistant)) ==> p.Said?
  {
    if parts != [] { SaidAreNoAnswers(parts[1..]); }
  }

  lemma {:induction false} AnswerPieces(results: seq<ResultPart>)
    ensures forall r :: r in results <==> Answered(r) in FlatMap(results, AnswerOf)
  {
    if results != [] {
      AnswerPieces(results[1..]);
      assert results == [results[0]] + results[1..];
    }
  }

  /** The model conversation is exactly what the log says, every text, call and result with all it
      carries and in order, without the calls whose id no result has. */
  lemma ConversationIsLogged(entries: seq<Entry>)
    ensures Pieces(ToModelMessages(entries)) == Filter(FlatMap(entries, LoggedPieces), KeepsPiece(LoggedResultIds(entries)))
  {
    var raw := RawMessages(entries);
    RawPieces(entries);
    SanitizeFacts(raw);
    AnswersAreResults(raw);
    forall id
      ensures id in ResultIds(raw) <==> id in LoggedResultIds(entries)
    {
      if id in ResultIds(raw) {
        var r :| r in Results(raw) && r.callId == id;
        assert Answered(r) in FlatMap(entries, LoggedPieces);
      }
    }
    assert ResultIds(raw) == LoggedResultIds(entries);
  }

  // ----- Texts in both formats -----

  function SpokenOf(p: Piece): seq<(Role, string)> {
    if p.Said? && p.part.TextPart? then [(p.role, p.part.text)] else []
  }

  /** The texts of a conversation with their speakers, in order. */
  function Spoken(messages: seq<Message>): seq<(Role, string)> {
    FlatMap(Pieces(messages), SpokenOf)
  }

  function TextOfItem(i: Item): seq<(Role, string)> {
    if i.TextItem? then [(i.role, i.text)] else []
  }

  function ItemTexts(items: seq<Item>): seq<(Role, string)> {
    FlatMap(items, TextOfItem)
  }

  /** A user entry of several blocks says the same in both formats when it has no text, or one
      non-empty text and no tool result. */
  predicate SaysTheSame(e: Entry) {
    !IsBoundary(e) && e.role == User && e.content.Blocks? ==>
      var texts := TextsOf(e.content.blocks);
      texts == [] || (|texts| == 1 && texts[0] != "" && ResultsOf(e.content.blocks) == [])
  }

  lemma {:induction false} SanitizingKeepsTexts(pieces: seq<Piece>, ids: set<string>)
    ensures FlatMap(Filter(pieces, KeepsPiece(ids)), SpokenOf) == FlatMap(pieces, SpokenOf)
  {
    if pieces != [] {
      SanitizingKeepsTexts(pieces[1..], ids);
      var head := if KeepsPiece(ids)(pieces[0]) then [pieces[0]] else [];
      FlatMapConcat(head, Filter(pieces[1..], KeepsPiece(ids)), SpokenOf);
      FlatMapOne(pieces[0], SpokenOf);
    }
  }

  lemma {:induction false} FilteringKeepsTexts(items: seq<Item>, ids: set<string>)
    ensures ItemTexts(Filter(items, KeepsItem(ids))) == ItemTexts(items)
  {
    if items != [] {
      FilteringKeepsTexts(items[1..], ids);
      var head := if KeepsItem(ids)(items[0]) then [items[0]] else [];
      FlatMapConcat(head, Filter(items[1..], KeepsItem(ids)), TextOfItem);
      FlatMapOne(items[0], TextOfItem);
    }
  }

  lemma {:induction false} AssistantTextsAgree(blocks: seq<Block>)
    ensures FlatMap(FlatMap(PartsOf(blocks), Says(Assistant)), SpokenOf) == ItemTexts(ItemsOfBlocks(Assistant, blocks))
  {
    if blocks != [] {
      var parts, rest := PartOf(blocks[0]), PartsOf(blocks[1..]);
      AssistantTextsAgree(blocks[1..]);
      FlatMapConcat(parts, rest, Says(Assistant));
      FlatMapConcat(FlatMap(parts, Says(Assistant)), FlatMap(rest, Says(Assistant)), SpokenOf);
      FlatMapConcat(ItemOf(Assistant, blocks[0]), ItemsOfBlocks(Assistant, blocks[1..]), TextOfItem);
    }
  }

  function ByUser(text: string): seq<(Role, string)> {
    [(User, text)]
  }

  lemma {:induction false} UserItemTexts(blocks: seq<Block>)
    ensures ItemTexts(ItemsOfBlocks(User, blocks)) == FlatMap(TextsOf(blocks), ByUser)
  {
    if blocks != [] {
      UserItemTexts(blocks[1..]);
      FlatMapConcat(ItemOf(User, blocks[0]), ItemsOfBlocks(User, blocks[1..]), TextOfItem);
      FlatMapConcat(TextOf(blocks[0]), TextsOf(blocks[1..]), ByUser);
    }
  }

  lemma {:induction false} AnswersAreSilent(results: seq<ResultPart>)
    ensures FlatMap(FlatMap(results, AnswerOf), SpokenOf) == []
  {
    if results != [] {
      AnswersAreSilent(results[1..]);
      FlatMapConcat([Answered(results[0])], FlatMap(results[1..], AnswerOf), SpokenOf);
      FlatMapOne(Answered(results[0]), SpokenOf);
    }
  }

  lemma UserEntryTexts(blocks: seq<Block>)
    ensures
      var said, shown := Spoken(UserMessages(blocks)), ItemTexts(ItemsOfBlocks(User, blocks));
      var texts := TextsOf(blocks);
      && |said| <= |shown|
      && (said == shown <==> texts == [] || (|texts| == 1 && texts[0] != "" && ResultsOf(blocks) == []))
  {
    var texts, results := TextsOf(blocks), ResultsOf(blocks);
    UserItemTexts(blocks);
    if results != [] {
      FlatMapOne(ToolMessage(results), PiecesIn);
      AnswersAreSilent(results);
    } else if Join(texts) != "" {
      FlatMapOne(UserText(Join(texts)), PiecesIn);
      FlatMapOne(Said(User, TextPart(Join(texts))), SpokenOf);
      if |texts| == 1 { FlatMapOne(texts[0], ByUser); }
    } else {
      assert |texts| <= 1;
    }
  }

  /** An entry never says more to the model API than to the responses API. */
  lemma EntryTexts(e: Entry)
    ensures |Spoken(MessagesOf(e))| <= |ItemTexts(ItemsOf(e))|
    ensures Spoken(MessagesOf(e)) == ItemTexts(ItemsOf(e)) <==> SaysTheSame(e)
  {
    if !IsBoundary(e) && e.role != System {
      match e.content
      case Plain(text) =>
        FlatMapOne(MessagesOf(e)[0], PiecesIn);
        FlatMapOne(Said(e.role, TextPart(text)), SpokenOf);
        FlatMapOne(TextItem(e.role, text), TextOfItem);
      case Blocks(blocks) =>
        if e.role == User {
          UserEntryTexts(blocks);
        } else {
          AssistantTextsAgree(blocks);
          FlatMapOne(AssistantParts(PartsOf(blocks)), PiecesIn);
        }
    }
  }

  lemma JoinedPairs<T>(a: seq<T>, a': seq<T>, b: seq<T>, b': seq<T>)
    requires |a| <= |b| && |a'| <= |b'|
    ensures a + a' == b + b' <==> a == b && a' == b'
  {
    if a + a' == b + b' {
      assert |a| == |b|;
      assert a == (a + a')[..|a|] && b == (b + b')[..|b|];
      assert a' == (a + a')[|a|..] && b' == (b + b')[|b|..];
    }
  }

  lemma {:induction false} RawTexts(entries: seq<Entry>)
    ensures |Spoken(RawMessages(entries))| <= |ItemTexts(RawItems(entries))|
    ensures Spoken(RawMessages(entries)) == ItemTexts(RawItems(entries)) <==> forall e :: e in entries ==> SaysTheSame(e)
  {
    if entries != [] {
      var e, rest := entries[0], entries[1..];
      EntryTexts(e);
      RawTexts(rest);
      FlatMapConcat(MessagesOf(e), RawMessages(rest), PiecesIn);
      FlatMapConcat(Pieces(MessagesOf(e)), Pieces(RawMessages(rest)), SpokenOf);
      FlatMapConcat(ItemsOf(e), RawItems(rest), TextOfItem);
      JoinedPairs(Spoken(MessagesOf(e)), Spoken(RawMessages(rest)), ItemTexts(ItemsOf(e)), ItemTexts(RawItems(rest)));
      assert entries == [e] + rest;
    }
  }

  /** Both converters say the same texts exactly when no user entry of blocks has an empty text,
      several texts, or a text beside a tool result. */
  lemma ConvertersAgreeOnTextsIff(entries: seq<Entry>)
    ensures Spoken(ToModelMessages(entries)) == ItemTexts(ToResponsesInput(entries)) <==>
              forall e :: e in entries ==> SaysTheSame(e)
  {
    var raw, items := RawMessages(entries), RawItems(entries);
    RawTexts(entries);
    SanitizeFacts(raw);
    SanitizingKeepsTexts(Pieces(raw), ResultIds(raw));
    FilteringKeepsTexts(items, OutputIds(items));
  }

  lemma TwoTextBlocks(a: string, b: string)
    ensures
      var blocks := [TextBlock(a), TextBlock(b)];
      && UserMessages(blocks) == [UserText(a + "\n" + b)]
      && ItemsOfBlocks(User, blocks) == [TextItem(User, a), TextItem(User, b)]
  {
    var blocks := [TextBlock(a), TextBlock(b)];
    assert blocks == [] + [blocks[0]] + [blocks[1]] == [blocks[0]] + [blocks[1]];
    FlatMapSnoc([blocks[0]], blocks[1], TextOf);
    FlatMapSnoc([blocks[0]], blocks[1], ResultOf);
    FlatMapSnoc([blocks[0]], blocks[1], ItemIn(User));
    FlatMapOne(blocks[0], TextOf);
    FlatMapOne(blocks[0], ResultOf);
    FlatMapOne(blocks[0], ItemIn(User));
    assert TextsOf(blocks) == [a] + [b] == [a, b] && [a, b][1..] == [b];
    assert Join([b]) == b;
    assert Join([a, b]) == a + "\n" + Join([b]) && |Join([a, b])| > 0;
    assert ResultsOf(blocks) == [] + [] == [];
    assert ItemsOfBlocks(User, blocks) == [TextItem(User, a)] + [TextItem(User, b)];
  }

  /** One user entry of two texts: joined for the one format, two items for the other. */
  lemma TwoTextsDiffer(a: string, b: string)
    ensures
      var e := Entry(UserEntry, User, Blocks([TextBlock(a), TextBlock(b)]), "u1", None, false, false);
      && ToModelMessages([e]) == [UserText(a + "\n" + b)]
      && ToResponsesInput([e]) == [TextItem(User, a), TextItem(User, b)]
  {
    var e := Entry(UserEntry, User, Blocks([TextBlock(a), TextBlock(b)]), "u1", None, false, false);
    var m, items := UserText(a + "\n" + b), [TextItem(User, a), TextItem(User, b)];
    TwoTextBlocks(a, b);
    FlatMapOne(e, MessagesOf);
    FlatMapOne(e, ItemsOf);
    FlatMapOne(m, Keeper(ResultIds([m])));
    FilterAll(items, KeepsItem(OutputIds(items)));
  }

  // ----- The converters as the source runs them -----

  /** `toModelMessages`: one pass that pushes messages, then the sanitizing pass. */
  method ConvertToMessages(entries: seq<Entry>) returns (out: seq<Message>)
    ensures out == ToModelMessages(entries)
  {
    var messages: seq<Message> := [];
    for i := 0 to |entries|
      invariant messages == RawMessages(entries[..i])
    {
      FlatMapSnoc(entries[..i], entries[i], MessagesOf);
      assert entries[..i + 1] == entries[..i] + [entries[i]];
      messages := PushEntry(messages, entries[i]);
    }
    assert entries[..|entries|] == entries;
    out := SanitizeToolMessages(messages);
  }

  method PushEntry(messages: seq<Message>, entry: Entry) returns (out: seq<Message>)
    ensures out == messages + MessagesOf(entry)
  {
    out := messages;
    if IsBoundary(entry) {
      return;
    }
    if entry.role == User {
      if entry.content.Plain? {
        out := out + [UserText(entry.content.text)];
      } else {
        var toolResults := ResultsOf(entry.content.blocks);
        if |toolResults| > 0 {
          out := out + [ToolMessage(toolResults)];
        } else {
          var text := Join(TextsOf(entry.content.blocks));
          if text != "" {
            out := out + [UserText(text)];
          }
        }
      }
    } else if entry.role == Assistant {
      if entry.content.Plain? {
        out := out + [AssistantText(entry.content.text)];
      } else {
        var parts := CollectParts(entry.content.blocks);
        if |parts| > 0 {
          out := out + [AssistantParts(parts)];
        }
      }
    }
  }

  method CollectParts(blocks: seq<Block>) returns (parts: seq<Part>)
    ensures parts == PartsOf(blocks)
  {
    parts := [];
    for i := 0 to |blocks|
      invariant parts == PartsOf(blocks[..i])
    {
      FlatMapSnoc(blocks[..i], blocks[i], PartOf);
      assert blocks[..i + 1] == blocks[..i] + [blocks[i]];
      match blocks[i]
      case TextBlock(text) => parts := parts + [TextPart(text)];
      case ToolUse(id, name, input) => parts := parts + [CallPart(id, name, input)];
      case _ =>
    }
    assert blocks[..|blocks|] == blocks;
  }

  lemma ResultIdsSnoc(ms: seq<Message>, m: Message)
    ensures ResultIds(ms + [m]) == ResultIds(ms) + set r | r in ResultsIn(m) :: r.callId
  {
    FlatMapConcat(ms, [m], ResultsIn);
    ContentsOne(m);
    assert forall r :: r in Results(ms + [m]) <==> r in Results(ms) || r in ResultsIn(m);
  }

  /** The first pass of `sanitizeToolMessages`. */
  method CollectResultIds(messages: seq<Message>) returns (resultIds: set<string>)
    ensures resultIds == ResultIds(messages)
  {
    resultIds := {};
    for i := 0 to |messages|
      invariant resultIds == ResultIds(messages[..i])
    {
      ResultIdsSnoc(messages[..i], messages[i]);
      assert messages[..i + 1] == messages[..i] + [messages[i]];
      if messages[i].ToolMessage? {
        resultIds := resultIds + set r | r in messages[i].results :: r.callId;
      }
    }
    assert messages[..|messages|] == messages;
  }

  /** `sanitizeToolMessages`: collect the answered ids, then copy what they allow. */
  method SanitizeToolMessages(messages: seq<Message>) returns (out: seq<Message>)
    ensures out == Sanitize(messages)
  {
    var resultIds := CollectResultIds(messages);
    out := [];
    for i := 0 to |messages|
      invariant out == SanitizeWith(messages[..i], resultIds)
    {
      assert messages[..i + 1] == messages[..i] + [messages[i]];
      FlatMapSnoc(messages[..i], messages[i], Keeper(resultIds));
      if messages[i].AssistantParts? {
        var filtered := Filter(messages[i].parts, Keeps(resultIds));
        if |filtered| > 0 {
          out := out + [AssistantParts(filtered)];
        }
      } else {
        out := out + [messages[i]];
      }
    }
    assert messages[..|messages|] == messages;
  }

  /** `toResponsesInput`. */
  method ConvertToItems(entries: seq<Entry>) returns (out: seq<Item>)
    ensures out == ToResponsesInput(entries)
  {
    var items: seq<Item> := [];
    for i := 0 to |entries|
      invariant items == RawItems(entries[..i])
    {
      FlatMapSnoc(entries[..i], entries[i], ItemsOf);
      assert entries[..i + 1] == entries[..i] + [entries[i]];
      var added := CollectItems(entries[i]);
      items := items + added;
    }
    assert entries[..|entries|] == entries;
    out := Filter(items, KeepsItem(OutputIds(items)));
  }

  method CollectItems(entry: Entry) returns (items: seq<Item>)
    ensures items == ItemsOf(entry)
  {
    items := [];
    if IsBoundary(entry) || entry.role == System {
      return;
    }
    if entry.content.Plain? {
      return [TextItem(entry.role, entry.content.text)];
    }
    var blocks := entry.content.blocks;
    for i := 0 to |blocks|
      invariant items == ItemsOfBlocks(entry.role, blocks[..i])
    {
      FlatMapSnoc(blocks[..i], blocks[i], ItemIn(entry.role));
      assert blocks[..i + 1] == blocks[..i] + [blocks[i]];
      match (entry.role, blocks[i])
      case (User, ToolResult(useId, content)) => items := items + [OutputItem(useId, content)];
      case (User, TextBlock(text)) => items := items + [TextItem(User, text)];
      case (Assistant, TextBlock(text)) => items := items + [TextItem(Assistant, text)];
      case (Assistant, ToolUse(id, name, input)) => items := items + [CallItem(id, name, Arguments(input))];
      case _ =>
    }
    assert blocks[..|blocks|] == blocks;
  }
}
