/** Token estimates, microcompaction and the compaction decision (src/core/compaction.ts). */
module Compaction {
  import opened Prelude
  import opened Transcripts
  import opened Doubles

  datatype CompactionConfig = CompactionConfig(
    maxContextTokens: int,
    maxOutputTokens: int,
    autoCompactBuffer: int,
    microcompactKeepRecent: int,
    pctOverride: Option<real>)

  const TRUNCATION_PLACEHOLDER := "[content truncated during compaction]"
  const LARGE_TOOL_RESULT_THRESHOLD := 500
  const MIN_MICROCOMPACT_SAVINGS := 20_000

  // ----- Token estimates -----

  /** `Math.ceil(chars / 3.5)`. */
  function TokensFor(chars: nat): (tokens: nat)
    ensures 7 * tokens - 6 <= 2 * chars <= 7 * tokens
  {
    (2 * chars + 6) / 7
  }

  function Ceiling(x: real): int {
    -((-x).Floor)
  }

  /** The division is done in doubles, and rounding never changes the estimate. */
  lemma RoundingKeepsTokens(chars: nat)
    requires chars <= 0x4_0000_0000_0000
    ensures Ceiling(Nearest(chars as real / 3.5)) == TokensFor(chars)
  {
    var x := chars as real / 3.5;
    var q := 2 * chars / 7;
    NearestError(x);
    if 2 * chars == 7 * q {
      IntegerIsExact(q);
      assert x == q as real;
    }
  }

  function BlockChars(b: Block): nat {
    match b
    case TextBlock(text) => |text|
    case ImageBlock(_) => 0
    case ToolUse(_, name, input) => |input.json| + |name|
    case ToolResult(_, content) => |content|
  }

  function Chars(blocks: seq<Block>): nat {
    if blocks == [] then 0 else BlockChars(blocks[0]) + Chars(blocks[1..])
  }

  function EntryTokens(e: Entry): nat {
    match e.content
    case Plain(text) => TokensFor(|text|)
    case Blocks(blocks) => TokensFor(Chars(blocks))
  }

  function SessionTokens(entries: seq<Entry>): nat {
    if entries == [] then 0 else EntryTokens(entries[0]) + SessionTokens(entries[1..])
  }

  function EffectiveWindow(cfg: CompactionConfig): int {
    cfg.maxContextTokens - cfg.maxOutputTokens
  }

  function Fraction(pct: real): real {
    Nearest(pct / 100.0)
  }

  function Product(window: int, fraction: real): real {
    Nearest(window as real * fraction)
  }

  /** `Math.floor(effectiveWindow * (pctOverride / 100))`: two rounded operations. */
  function ShareOf(window: int, pct: real): int {
    Product(window, Fraction(pct)).Floor
  }

  function AutoCompactThreshold(cfg: CompactionConfig): int {
    var plain := EffectiveWindow(cfg) - cfg.autoCompactBuffer;
    match cfg.pctOverride
    case Some(pct) =>
      if 0.0 < pct <= 100.0 then Min(ShareOf(EffectiveWindow(cfg), pct), plain) else plain
    case None => plain
  }

  // ----- Threshold -----

  /** The share in exact arithmetic. */
  function ExactShare(window: int, pct: real): real {
    window as real * (pct / 100.0)
  }

  /** How far two roundings can take the share of a window. */
  function ShareError(window: int): real {
    AbsReal(window as real) / 2251799813685248.0
  }

  predicate IsCloseShare(product: real, window: int, pct: real) {
    -ShareError(window) <= product - ExactShare(window, pct) <= ShareError(window)
  }

  lemma ProductBound(w: real, x: real, b: real)
    requires -b <= x <= b
    ensures -(AbsReal(w) * b) <= w * x <= AbsReal(w) * b
  {
    var a := AbsReal(w);
    assert a * (b - x) >= 0.0 && a * (b + x) >= 0.0;
  }

  lemma RoundingOfFactor(w: real, e: real, d: real)
    requires -1.0 <= Parts(d - e) <= 1.0
    ensures -AbsReal(w) <= Parts(w * d - w * e) <= AbsReal(w)
  {
    var x := Parts(d - e);
    ProductBound(w, x, 1.0);
    assert w * x == Parts(w * (d - e));
    assert w * (d - e) == w * d - w * e;
  }

  lemma TwoRoundings(w: real, e: real, d: real, product: real)
    requires 0.0 < e <= 1.0 && Approximates(d, e) && Approximates(product, w * d)
    ensures -AbsReal(w) <= 2251799813685248.0 * (product - w * e) <= AbsReal(w)
  {
    RoundingOfFactor(w, e, d);
    RoundingOfProduct(w, d, product);
  }

  lemma RoundingOfProduct(w: real, d: real, product: real)
    requires -2.0 <= d <= 2.0 && Approximates(product, w * d)
    ensures -(2.0 * AbsReal(w)) <= Parts(product - w * d) <= 2.0 * AbsReal(w)
  {
    ProductBound(w, d, 2.0);
    assert AbsReal(w * d) <= 2.0 * AbsReal(w);
    assert -AbsReal(w * d) <= Parts(product - w * d) <= AbsReal(w * d);
  }

  /** The product before `Math.floor` is within the error bound of the exact one. */
  lemma ShareErrors(window: int, pct: real, d: real, product: real)
    requires 0.0 < pct <= 100.0
    requires Approximates(d, pct / 100.0) && Approximates(product, window as real * d)
    ensures IsCloseShare(product, window, pct)
  {
    TwoRoundings(window as real, pct / 100.0, d, product);
  }

  /** The threshold in exact arithmetic. */
  function ExactThreshold(cfg: CompactionConfig): int {
    var plain := EffectiveWindow(cfg) - cfg.autoCompactBuffer;
    if Overrides(cfg) then Min(ExactShare(EffectiveWindow(cfg), cfg.pctOverride.value).Floor, plain) else plain
  }

  predicate Overrides(cfg: CompactionConfig) {
    cfg.pctOverride.Some? && 0.0 < cfg.pctOverride.value <= 100.0
  }

  /** An override only lowers the threshold, one outside (0, 100] is ignored, and rounding moves it
      by at most one token, and only when the exact share is that close to a whole number. */
  lemma ThresholdIsWithinOne(cfg: CompactionConfig)
    requires -0x4_0000_0000_0000 <= EffectiveWindow(cfg) <= 0x4_0000_0000_0000
    ensures AutoCompactThreshold(cfg) <= EffectiveWindow(cfg) - cfg.autoCompactBuffer
    ensures !Overrides(cfg) ==> AutoCompactThreshold(cfg) == EffectiveWindow(cfg) - cfg.autoCompactBuffer
    ensures -1 <= AutoCompactThreshold(cfg) - ExactThreshold(cfg) <= 1
    ensures Overrides(cfg) && AutoCompactThreshold(cfg) != ExactThreshold(cfg) ==>
              var share, err := ExactShare(EffectiveWindow(cfg), cfg.pctOverride.value), ShareError(EffectiveWindow(cfg));
              exists n: int :: IsNear(share, n, err)
  {
    if Overrides(cfg) {
      ShareIsClose(EffectiveWindow(cfg), cfg.pctOverride.value);
    }
  }

  /** A floor within one of the exact one, and equal to it unless the exact share is near a whole number. */
  ghost predicate IsCloseFloor(floor: int, window: int, pct: real) {
    var share := ExactShare(window, pct);
    && -1 <= floor - share.Floor <= 1
    && (floor != share.Floor ==> exists n: int :: IsNear(share, n, ShareError(window)))
  }

  lemma FloorErrors(window: int, pct: real, d: real, product: real)
    requires -0x4_0000_0000_0000 <= window <= 0x4_0000_0000_0000 && 0.0 < pct <= 100.0
    requires Approximates(d, pct / 100.0) && Approximates(product, window as real * d)
    ensures IsCloseFloor(product.Floor, window, pct)
  {
    ShareErrors(window, pct, d, product);
    FloorsAreClose(product, ExactShare(window, pct), ShareError(window));
  }

  lemma ProductError(window: int, fraction: real)
    ensures Approximates(Product(window, fraction), window as real * fraction)
  {
    NearestError(window as real * fraction);
  }

  lemma ShareIsClose(window: int, pct: real)
    requires -0x4_0000_0000_0000 <= window <= 0x4_0000_0000_0000 && 0.0 < pct <= 100.0
    ensures IsCloseFloor(ShareOf(window, pct), window, pct)
  {
    ProductError(window, Fraction(pct));
    FloorErrors(window, pct, Fraction(pct), Product(window, Fraction(pct)));
  }

  predicate IsNear(x: real, n: int, err: real) {
    -err <= x - n as real <= err
  }

  lemma FloorsAreClose(x: real, y: real, err: real)
    requires -err <= x - y <= err < 1.0
    ensures -1 <= x.Floor - y.Floor <= 1
    ensures x.Floor != y.Floor ==> exists n: int :: IsNear(y, n, err)
  {
    if x.Floor != y.Floor {
      var n := if x.Floor < y.Floor then y.Floor else x.Floor;
      assert IsNear(y, n, err);
    }
  }

  /** An override of 100 percent is the whole window, exactly. */
  lemma FullShareIsExact(window: nat)
    requires window <= 0x20_0000_0000_0000
    ensures ShareOf(window, 100.0) == window
  {
    IntegerIsExact(1);
    IntegerIsExact(window);
    assert Fraction(100.0) == 1.0;
    assert Product(window, 1.0) == window as real;
  }

  lemma SeventyPercentShare()
    ensures ShareOf(180_000, 70.0) == 125_999 && ExactShare(180_000, 70.0) == 126_000.0
  {
    SeventyPercentOf180000();
    assert (8658654068735999.0 / 68719476736.0).Floor == 125_999;
    assert ShareOf(180_000, 70.0) == (8658654068735999.0 / 68719476736.0).Floor;
  }

  /** The product is rounded, too: 70 percent of 100000 falls short of 70000 before that, and is 70000. */
  lemma SecondRoundingCounts()
    ensures ShareOf(100_000, 70.0) == 70_000
    ensures (100_000.0 * Fraction(70.0)).Floor == 69_999
  {
    SeventyPercentOf100000();
    SeventyHundredths();
    assert 100_000 as real == 100_000.0;
  }

  /** Rounding does move it: 70 percent of the default window of 180000 tokens is 126000, and
      the code computes 125999. */
  lemma SeventyPercentLosesAToken()
    ensures
      var cfg := CompactionConfig(200_000, 20_000, 13_000, 3, Some(70.0));
      ExactThreshold(cfg) == 126_000 && AutoCompactThreshold(cfg) == 125_999
  {
    SeventyPercentShare();
  }

  // ----- Active window -----

  ghost predicate HasBoundary(entries: seq<Entry>) {
    exists i :: 0 <= i < |entries| && IsBoundary(entries[i])
  }

  /** The entries from the last compaction boundary on. */
  ghost function ActiveEntries(entries: seq<Entry>): seq<Entry> {
    if entries != [] && HasBoundary(entries[1..]) then ActiveEntries(entries[1..]) else entries
  }

  /** The declarative reading: an active window is a suffix, has no boundary past its first
      entry, and starts at a boundary unless it is the whole log. */
  lemma {:induction false} ActiveEntriesSpec(entries: seq<Entry>)
    ensures
      var active := ActiveEntries(entries);
      && |active| <= |entries| && active == entries[|entries| - |active|..]
      && (forall i :: 1 <= i < |active| ==> !IsBoundary(active[i]))
      && (active == entries || (active != [] && IsBoundary(active[0])))
      && (HasBoundary(entries) <==> active != [] && IsBoundary(active[0]))
  {
    if entries != [] && HasBoundary(entries[1..]) {
      ActiveEntriesSpec(entries[1..]);
      assert HasBoundary(entries) by {
        var i :| 0 <= i < |entries[1..]| && IsBoundary(entries[1..][i]);
        assert IsBoundary(entries[i + 1]);
      }
    } else if entries != [] {
      forall i | 1 <= i < |entries|
        ensures !IsBoundary(entries[i])
      {
        assert entries[1..][i - 1] == entries[i];
      }
    }
  }

  /** Compacting cuts everything before: the window is the boundary and what follows it. */
  lemma {:induction false} ActiveAfterBoundary(log: seq<Entry>, boundary: Entry, later: seq<Entry>)
    requires IsBoundary(boundary) && !HasBoundary(later)
    ensures ActiveEntries(log + [boundary] + later) == [boundary] + later
  {
    if log == [] {
      assert log + [boundary] + later == [boundary] + later;
      assert ([boundary] + later)[1..] == later;
    } else {
      var all := log + [boundary] + later;
      assert all[1..] == log[1..] + [boundary] + later;
      assert all[1..][|log| - 1] == boundary;
      ActiveAfterBoundary(log[1..], boundary, later);
    }
  }

  /** `getActiveEntries`: scan back for the last boundary. */
  method GetActiveEntries(entries: seq<Entry>) returns (active: seq<Entry>)
    ensures active == ActiveEntries(entries)
  {
    var boundaryIdx := -1;
    var i := |entries| - 1;
    while i >= 0
      invariant -1 <= i < |entries|
      invariant boundaryIdx == -1
      invariant forall j :: i < j < |entries| ==> !IsBoundary(entries[j])
    {
      if IsBoundary(entries[i]) {
        boundaryIdx := i;
        break;
      }
      i := i - 1;
    }
    if boundaryIdx == -1 {
      return entries;
    }
    ActiveFrom(entries, boundaryIdx);
    return entries[boundaryIdx..];
  }

  lemma SplitAt(entries: seq<Entry>, b: nat)
    requires b < |entries|
    ensures entries == entries[..b] + [entries[b]] + entries[b + 1..]
    ensures [entries[b]] + entries[b + 1..] == entries[b..]
  {
  }

  /** The last boundary starts the window. */
  lemma ActiveFrom(entries: seq<Entry>, b: nat)
    requires b < |entries| && IsBoundary(entries[b])
    requires forall j :: b < j < |entries| ==> !IsBoundary(entries[j])
    ensures ActiveEntries(entries) == entries[b..]
  {
    var front, boundary, later := entries[..b], entries[b], entries[b + 1..];
    ActiveAfterBoundary(front, boundary, later);
    SplitAt(entries, b);
  }

  // ----- Microcompact -----

  predicate HasResultBlock(blocks: seq<Block>) {
    exists i :: 0 <= i < |blocks| && blocks[i].ToolResult?
  }

  predicate HasToolResult(e: Entry) {
    e.content.Blocks? && HasResultBlock(e.content.blocks)
  }

  function ResultEntries(entries: seq<Entry>): nat {
    if entries == [] then 0 else (if HasToolResult(entries[0]) then 1 else 0) + ResultEntries(entries[1..])
  }

  predicate IsLarge(b: Block) {
    b.ToolResult? && |b.content| > LARGE_TOOL_RESULT_THRESHOLD
  }

  function StripBlock(b: Block): Block {
    if IsLarge(b) then ToolResult(b.useId, TRUNCATION_PLACEHOLDER) else b
  }

  function StripBlocks(blocks: seq<Block>): seq<Block> {
    if blocks == [] then [] else [StripBlock(blocks[0])] + StripBlocks(blocks[1..])
  }

  function Strip(e: Entry): Entry {
    match e.content
    case Plain(_) => e
    case Blocks(blocks) => e.(content := Blocks(StripBlocks(blocks)))
  }

  function SavedByBlock(b: Block): int {
    if IsLarge(b) then TokensFor(|b.content|) - TokensFor(|TRUNCATION_PLACEHOLDER|) else 0
  }

  function SavedByBlocks(blocks: seq<Block>): int {
    if blocks == [] then 0 else SavedByBlock(blocks[0]) + SavedByBlocks(blocks[1..])
  }

  function LargeBlocks(blocks: seq<Block>): nat {
    if blocks == [] then 0 else (if IsLarge(blocks[0]) then 1 else 0) + LargeBlocks(blocks[1..])
  }

  function BlocksOf(e: Entry): seq<Block> {
    if e.content.Blocks? then e.content.blocks else []
  }

  /** The first entry is stripped when at least `keep` later entries also hold tool results. */
  predicate StripsFirst(entries: seq<Entry>, keep: int)
    requires entries != []
  {
    HasToolResult(entries[0]) && ResultEntries(entries[1..]) >= keep
  }

  function Stripped(entries: seq<Entry>, keep: int): seq<Entry> {
    if entries == [] then []
    else [if StripsFirst(entries, keep) then Strip(entries[0]) else entries[0]] + Stripped(entries[1..], keep)
  }

  function SavedTokens(entries: seq<Entry>, keep: int): int {
    if entries == [] then 0
    else (if StripsFirst(entries, keep) then SavedByBlocks(BlocksOf(entries[0])) else 0) + SavedTokens(entries[1..], keep)
  }

  function TruncatedBlocks(entries: seq<Entry>, keep: int): nat {
    if entries == [] then 0
    else (if StripsFirst(entries, keep) then LargeBlocks(BlocksOf(entries[0])) else 0) + TruncatedBlocks(entries[1..], keep)
  }

  // ----- Microcompact keeps the conversation -----

  /** The same message, except that some tool-result values became the placeholder. */
  predicate SameButTruncated(a: Message, b: Message) {
    if a.ToolMessage? && b.ToolMessage? then ResultsTruncated(a.results, b.results) else a == b
  }

  predicate ResultTruncated(a: ResultPart, b: ResultPart) {
    a.callId == b.callId && a.toolName == b.toolName &&
    (a.value == b.value || (b.value == TRUNCATION_PLACEHOLDER && |a.value| > LARGE_TOOL_RESULT_THRESHOLD))
  }

  predicate ResultsTruncated(a: seq<ResultPart>, b: seq<ResultPart>) {
    |a| == |b| && forall i :: 0 <= i < |a| ==> ResultTruncated(a[i], b[i])
  }

  predicate ConversationsMatch(a: seq<Message>, b: seq<Message>) {
    |a| == |b| && forall i :: 0 <= i < |a| ==> SameButTruncated(a[i], b[i])
  }

  lemma {:induction false} StripKeepsBlocks(blocks: seq<Block>)
    ensures TextsOf(StripBlocks(blocks)) == TextsOf(blocks)
    ensures PartsOf(StripBlocks(blocks)) == PartsOf(blocks)
    ensures ResultsTruncated(ResultsOf(blocks), ResultsOf(StripBlocks(blocks)))
  {
    if blocks != [] {
      var b, rest := blocks[0], blocks[1..];
      StripKeepsBlocks(rest);
      assert StripBlocks(blocks)[0] == StripBlock(b) && StripBlocks(blocks)[1..] == StripBlocks(rest);
    }
  }

  lemma StripKeepsMessages(e: Entry)
    ensures ConversationsMatch(MessagesOf(e), MessagesOf(Strip(e)))
  {
    if e.content.Blocks? {
      StripKeepsBlocks(e.content.blocks);
    }
  }

  lemma {:induction false} StrippedMatches(entries: seq<Entry>, keep: int)
    ensures ConversationsMatch(RawMessages(entries), RawMessages(Stripped(entries, keep)))
  {
    if entries != [] {
      StripKeepsMessages(entries[0]);
      StrippedMatches(entries[1..], keep);
    }
  }

  lemma {:induction false} MatchingResults(a: seq<Message>, b: seq<Message>)
    requires ConversationsMatch(a, b)
    ensures ResultsTruncated(Results(a), Results(b))
  {
    if a != [] {
      MatchingResults(a[1..], b[1..]);
      assert ResultsTruncated(ResultsIn(a[0]), ResultsIn(b[0]));
    }
  }

  lemma MatchingIdSets(a: seq<Message>, b: seq<Message>)
    requires ConversationsMatch(a, b)
    ensures ResultIds(a) == ResultIds(b)
  {
    MatchingResults(a, b);
    forall id
      ensures id in ResultIds(a) <==> id in ResultIds(b)
    {
      if id in ResultIds(a) {
        var i :| 0 <= i < |Results(a)| && Results(a)[i].callId == id;
        assert Results(b)[i] in Results(b);
      }
      if id in ResultIds(b) {
        var i :| 0 <= i < |Results(b)| && Results(b)[i].callId == id;
        assert Results(a)[i] in Results(a);
      }
    }
  }

  lemma {:induction false} SanitizeKeepsMatch(a: seq<Message>, b: seq<Message>, ids: set<string>)
    requires ConversationsMatch(a, b)
    ensures ConversationsMatch(SanitizeWith(a, ids), SanitizeWith(b, ids))
  {
    if a != [] {
      SanitizeKeepsMatch(a[1..], b[1..], ids);
      assert ConversationsMatch(KeepMessage(a[0], ids), KeepMessage(b[0], ids));
    }
  }

  /** The model sees the same conversation after microcompaction: same messages, roles, texts,
      calls, ids and order; only large tool results may have become the placeholder. */
  lemma MicrocompactKeepsConversation(entries: seq<Entry>, keep: int)
    ensures ConversationsMatch(ToModelMessages(entries), ToModelMessages(Stripped(entries, keep)))
    ensures Calls(ToModelMessages(Stripped(entries, keep))) == Calls(ToModelMessages(entries))
    ensures Texts(ToModelMessages(Stripped(entries, keep))) == Texts(ToModelMessages(entries))
  {
    StrippedMatches(entries, keep);
    var a, b := RawMessages(entries), RawMessages(Stripped(entries, keep));
    MatchingIdSets(a, b);
    SanitizeKeepsMatch(a, b, ResultIds(a));
    MatchKeepsContents(Sanitize(a), Sanitize(b));
  }

  lemma {:induction false} MatchKeepsContents(a: seq<Message>, b: seq<Message>)
    requires ConversationsMatch(a, b)
    ensures Calls(a) == Calls(b) && Texts(a) == Texts(b)
  {
    if a != [] {
      MatchKeepsContents(a[1..], b[1..]);
    }
  }

  // ----- Token accounting -----

  lemma {:induction false} SavedBounds(blocks: seq<Block>)
    ensures
      var drop := Chars(blocks) - Chars(StripBlocks(blocks));
      && drop >= 0
      && 2 * drop - 6 * LargeBlocks(blocks) <= 7 * SavedByBlocks(blocks) <= 2 * drop + 6 * LargeBlocks(blocks)
      && (LargeBlocks(blocks) == 0 ==> drop == 0)
  {
    if blocks != [] {
      SavedBounds(blocks[1..]);
      assert |TRUNCATION_PLACEHOLDER| == 37;
    }
  }

  lemma StripDrop(e: Entry)
    ensures EntryTokens(Strip(e)) <= EntryTokens(e)
    ensures
      var drop := EntryTokens(e) - EntryTokens(Strip(e));
      drop - LargeBlocks(BlocksOf(e)) <= SavedByBlocks(BlocksOf(e)) <= drop + LargeBlocks(BlocksOf(e))
  {
    SavedBounds(BlocksOf(e));
  }

  /** The reported saving misses the true drop of the session estimate by at most one token per
      truncated block. */
  lemma {:induction false} SavedTokensAccuracy(entries: seq<Entry>, keep: int)
    ensures
      var drop := SessionTokens(entries) - SessionTokens(Stripped(entries, keep));
      && drop >= 0
      && drop - TruncatedBlocks(entries, keep) <= SavedTokens(entries, keep) <= drop + TruncatedBlocks(entries, keep)
  {
    if entries != [] {
      SavedTokensAccuracy(entries[1..], keep);
      StripDrop(entries[0]);
      var s := Stripped(entries, keep);
      assert s[1..] == Stripped(entries[1..], keep);
    }
  }

  /** Entry by entry: the recent tool results are untouched, the older ones stripped, and no
      entry's estimate grows. */
  lemma {:induction false} StrippedAt(entries: seq<Entry>, keep: int, i: nat)
    requires i < |entries|
    ensures |Stripped(entries, keep)| == |entries|
    ensures Stripped(entries, keep)[i] ==
              if HasToolResult(entries[i]) && ResultEntries(entries[i + 1..]) >= keep then Strip(entries[i]) else entries[i]
    ensures EntryTokens(Stripped(entries, keep)[i]) <= EntryTokens(entries[i])
    decreases |entries|
  {
    StripDrop(entries[0]);
    if i > 0 {
      StrippedAt(entries[1..], keep, i - 1);
      assert entries[1..][i..] == entries[i + 1..];
    } else if |entries| > 1 {
      StrippedAt(entries[1..], keep, 0);
    }
  }

  lemma {:induction false} StripBlocksTwice(blocks: seq<Block>)
    ensures StripBlocks(StripBlocks(blocks)) == StripBlocks(blocks)
    ensures SavedByBlocks(StripBlocks(blocks)) == 0
    ensures HasResultBlock(StripBlocks(blocks)) <==> HasResultBlock(blocks)
  {
    if blocks != [] {
      StripBlocksTwice(blocks[1..]);
      var t := StripBlocks(blocks);
      assert |TRUNCATION_PLACEHOLDER| == 37;
      assert t[1..] == StripBlocks(blocks[1..]);
    }
  }

  /** Microcompacting again changes nothing and reports no saving. */
  lemma {:induction false} MicrocompactTwice(entries: seq<Entry>, keep: int)
    ensures Stripped(Stripped(entries, keep), keep) == Stripped(entries, keep)
    ensures SavedTokens(Stripped(entries, keep), keep) == 0
    ensures ResultEntries(Stripped(entries, keep)) == ResultEntries(entries)
  {
    if entries != [] {
      MicrocompactTwice(entries[1..], keep);
      StripBlocksTwice(BlocksOf(entries[0]));
      var s := Stripped(entries, keep);
      assert s[1..] == Stripped(entries[1..], keep);
      assert HasToolResult(s[0]) == HasToolResult(entries[0]);
    }
  }

  // ----- microcompact as the source runs it -----

  lemma {:induction false} ResultEntriesConcat(a: seq<Entry>, b: seq<Entry>)
    ensures ResultEntries(a + b) == ResultEntries(a) + ResultEntries(b)
  {
    if a == [] {
      assert a + b == b;
    } else {
      ResultEntriesConcat(a[1..], b);
      assert (a + b)[1..] == a[1..] + b;
    }
  }

  lemma ResultEntriesSplit(entries: seq<Entry>, t: nat)
    requires t < |entries|
    ensures ResultEntries(entries)
         == ResultEntries(entries[..t]) + (if HasToolResult(entries[t]) then 1 else 0) + ResultEntries(entries[t + 1..])
  {
    assert entries == entries[..t] + entries[t..];
    ResultEntriesConcat(entries[..t], entries[t..]);
    assert entries[t..][1..] == entries[t + 1..];
  }

  /** Indices of the entries that hold tool results, oldest first. */
  method ToolResultIndices(entries: seq<Entry>) returns (idx: seq<nat>)
    ensures |idx| == ResultEntries(entries)
    ensures forall r :: 0 <= r < |idx| ==>
              idx[r] < |entries| && HasToolResult(entries[idx[r]]) && ResultEntries(entries[..idx[r]]) == r
    ensures forall t :: 0 <= t < |entries| && HasToolResult(entries[t]) ==> t in idx
  {
    idx := [];
    for i := 0 to |entries|
      invariant |idx| == ResultEntries(entries[..i])
      invariant forall r :: 0 <= r < |idx| ==>
                  idx[r] < i && HasToolResult(entries[idx[r]]) && ResultEntries(entries[..idx[r]]) == r
      invariant forall t :: 0 <= t < i && HasToolResult(entries[t]) ==> t in idx
    {
      assert entries[..i + 1] == entries[..i] + [entries[i]];
      ResultEntriesConcat(entries[..i], [entries[i]]);
      assert [entries[i]][1..] == [];
      if HasToolResult(entries[i]) {
        idx := idx + [i];
      }
    }
    assert entries[..|entries|] == entries;
  }

  /** The entries old enough to be stripped. */
  method TruncatableEntries(entries: seq<Entry>, keepRecent: int) returns (truncatable: set<nat>)
    ensures forall t: nat :: t in truncatable <==>
              t < |entries| && HasToolResult(entries[t]) && ResultEntries(entries[t + 1..]) >= keepRecent
  {
    var toolResultIndices := ToolResultIndices(entries);
    var n := |toolResultIndices|;
    var older := JsSlice(toolResultIndices, 0, Max(0, n - keepRecent));
    assert older == toolResultIndices[..Max(0, Min(n, n - keepRecent))];
    truncatable := set t | t in older;
    forall t: nat
      ensures t in truncatable <==>
                t < |entries| && HasToolResult(entries[t]) && ResultEntries(entries[t + 1..]) >= keepRecent
    {
      if t < |entries| && HasToolResult(entries[t]) {
        ResultEntriesSplit(entries, t);
        var r :| 0 <= r < n && toolResultIndices[r] == t;
        assert r < n - keepRecent ==> older[r] == t;
      }
    }
  }

  method Microcompact(entries: seq<Entry>, keepRecent: int) returns (result: seq<Entry>, savedTokens: int)
    ensures result == Stripped(entries, keepRecent)
    ensures savedTokens == SavedTokens(entries, keepRecent)
  {
    var truncatable := TruncatableEntries(entries, keepRecent);
    result, savedTokens := [], 0;
    for i := 0 to |entries|
      invariant result + Stripped(entries[i..], keepRecent) == Stripped(entries, keepRecent)
      invariant savedTokens + SavedTokens(entries[i..], keepRecent) == SavedTokens(entries, keepRecent)
    {
      var entry, saved := StripEntry(entries[i], i in truncatable);
      savedTokens := savedTokens + saved;
      result := result + [entry];
    }
  }

  method StripEntry(entry: Entry, truncatable: bool) returns (kept: Entry, saved: int)
    ensures kept == if truncatable then Strip(entry) else entry
    ensures saved == if truncatable then SavedByBlocks(BlocksOf(entry)) else 0
  {
    if !truncatable || entry.content.Plain? {
      return entry, 0;
    }
    var blocks;
    blocks, saved := StripContent(entry.content.blocks);
    kept := entry.(content := Blocks(blocks));
  }

  method StripContent(blocks: seq<Block>) returns (kept: seq<Block>, saved: int)
    ensures kept == StripBlocks(blocks) && saved == SavedByBlocks(blocks)
  {
    kept, saved := [], 0;
    for i := 0 to |blocks|
      invariant kept + StripBlocks(blocks[i..]) == StripBlocks(blocks)
      invariant saved + SavedByBlocks(blocks[i..]) == SavedByBlocks(blocks)
    {
      assert blocks[i..][1..] == blocks[i + 1..];
      if blocks[i].ToolResult? && |blocks[i].content| > LARGE_TOOL_RESULT_THRESHOLD {
        saved := saved + TokensFor(|blocks[i].content|) - TokensFor(|TRUNCATION_PLACEHOLDER|);
        kept := kept + [blocks[i].(content := TRUNCATION_PLACEHOLDER)];
      } else {
        kept := kept + [blocks[i]];
      }
    }
  }

  // ----- Block by block -----

  /** What an entry writes out: its text, its blocks' texts and results, and of a tool call the input as JSON
      and the name. */
  function WrittenIn(b: Block): string {
    match b
    case TextBlock(text) => text
    case ImageBlock(_) => ""
    case ToolUse(_, name, StringInput(_, json)) => json + name
    case ToolUse(_, name, ValueInput(json)) => json + name
    case ToolResult(_, content) => content
  }

  function Written(e: Entry): string {
    match e.content
    case Plain(text) => text
    case Blocks(blocks) => FlatMap(blocks, WrittenIn)
  }

  lemma {:induction false} CharsAreWritten(blocks: seq<Block>)
    ensures Chars(blocks) == |FlatMap(blocks, WrittenIn)|
  {
    if blocks != [] { CharsAreWritten(blocks[1..]); }
  }

  /** An entry's estimate is the least integer at or above its written length over 3.5. */
  lemma EstimateIsLength(e: Entry)
    ensures 7 * EntryTokens(e) - 6 <= 2 * |Written(e)| <= 7 * EntryTokens(e)
  {
    if e.content.Blocks? { CharsAreWritten(e.content.blocks); }
  }

  lemma {:induction false} StripBlocksAt(blocks: seq<Block>, j: nat)
    requires j < |blocks|
    ensures |StripBlocks(blocks)| == |blocks| && StripBlocks(blocks)[j] == StripBlock(blocks[j])
  {
    if j > 0 {
      StripBlocksAt(blocks[1..], j - 1);
    } else if |blocks| > 1 {
      StripBlocksAt(blocks[1..], 0);
    }
  }

  /** Stripping an entry replaces the content of its tool results of more than 500 characters by the
      placeholder, and changes nothing else. */
  lemma StripIsExact(e: Entry, j: nat)
    requires e.content.Blocks? && j < |e.content.blocks|
    ensures
      var b, stripped := e.content.blocks[j], Strip(e);
      && stripped == e.(content := stripped.content)
      && stripped.content.Blocks? && |stripped.content.blocks| == |e.content.blocks|
      && stripped.content.blocks[j] ==
           (if b.ToolResult? && |b.content| > 500 then ToolResult(b.useId, "[content truncated during compaction]") else b)
  {
    StripBlocksAt(e.content.blocks, j);
  }

  /** The session estimate is the sum of its entries' estimates. */
  lemma {:induction false} EstimatesAdd(a: seq<Entry>, b: seq<Entry>)
    ensures SessionTokens(a + b) == SessionTokens(a) + SessionTokens(b)
    ensures forall e :: SessionTokens([e]) == EntryTokens(e)
  {
    forall e
      ensures SessionTokens([e]) == EntryTokens(e)
    {
      assert [e][1..] == [];
    }
    if a == [] {
      assert a + b == b;
    } else {
      assert (a + b)[0] == a[0] && (a + b)[1..] == a[1..] + b;
      EstimatesAdd(a[1..], b);
    }
  }

  /** An entry counts as a tool result when any of its blocks is one. */
  lemma ToolResultIff(e: Entry)
    ensures HasToolResult(e) <==> e.content.Blocks? && exists b :: b in e.content.blocks && b.ToolResult?
  {
  }

  /** How many blocks differ. */
  function ChangedBlocks(a: seq<Block>, b: seq<Block>): nat {
    if a == [] || b == [] then 0 else (if a[0] == b[0] then 0 else 1) + ChangedBlocks(a[1..], b[1..])
  }

  function ChangedIn(a: seq<Entry>, b: seq<Entry>): nat {
    if a == [] || b == [] then 0 else ChangedBlocks(BlocksOf(a[0]), BlocksOf(b[0])) + ChangedIn(a[1..], b[1..])
  }

  lemma {:induction false} LargeAreChanged(blocks: seq<Block>)
    ensures LargeBlocks(blocks) == ChangedBlocks(blocks, StripBlocks(blocks))
    ensures ChangedBlocks(blocks, blocks) == 0
  {
    if blocks != [] {
      LargeAreChanged(blocks[1..]);
      assert |TRUNCATION_PLACEHOLDER| == 37;
      assert StripBlocks(blocks)[1..] == StripBlocks(blocks[1..]);
    }
  }

  /** The truncated blocks are exactly those that microcompaction changes. */
  lemma {:induction false} TruncatedAreChanged(entries: seq<Entry>, keep: int)
    ensures TruncatedBlocks(entries, keep) == ChangedIn(entries, Stripped(entries, keep))
  {
    if entries != [] {
      TruncatedAreChanged(entries[1..], keep);
      LargeAreChanged(BlocksOf(entries[0]));
      assert Stripped(entries, keep)[1..] == Stripped(entries[1..], keep);
    }
  }
}
