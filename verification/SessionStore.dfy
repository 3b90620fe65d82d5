/** The session log as a parent chain (src/core/session.ts) and full compaction of it
    (src/core/compaction.ts). */
module SessionStores {
  import opened Prelude
  import opened Transcripts
  import opened Compaction

  /** The JSONL file and the uuid the next appended entry will point at. */
  datatype Store = Store(log: seq<Entry>, lastUuid: Option<string>)

  datatype Event =
    | AppendUser(content: Content, uuid: string)
    | AppendAssistant(content: Content, uuid: string)
    | Restore
    | CompactIfNeeded(cfg: CompactionConfig, summary: string, boundaryUuid: string, summaryUuid: string)
    | ForceCompact(summary: string, boundaryUuid: string, summaryUuid: string)
    | Reopen

  datatype CompactionResult = NotNeeded | Microcompacted(entries: seq<Entry>) | Full

  predicate IsReadable(e: Entry) {
    e.kind != MetaEntry
  }

  /** `readAll`. */
  function ReadAll(log: seq<Entry>): seq<Entry> {
    Filter(log, (e: Entry) => IsReadable(e))
  }

  function LastUuid(log: seq<Entry>): Option<string> {
    if log == [] then None else Some(log[|log| - 1].uuid)
  }

  function BoundaryEntry(uuid: string, parent: Option<string>): Entry {
    Entry(SystemEntry, System, Plain("Conversation compacted"), uuid, parent, true, false)
  }

  /** `text` is the summary behind the fixed introduction that precedes every summary. */
  function SummaryEntry(text: string, uuid: string, parent: string): Entry {
    Entry(UserEntry, User, Plain(text), uuid, Some(parent), false, true)
  }

  /** The two entries a full compaction writes after the entries it read. */
  function CompactionEntries(parent: Option<string>, summary: string, boundaryUuid: string, summaryUuid: string): seq<Entry> {
    [BoundaryEntry(boundaryUuid, parent), SummaryEntry(summary, summaryUuid, boundaryUuid)]
  }

  function Append(s: Store, kind: EntryType, role: Role, content: Content, uuid: string): Store {
    Store(s.log + [Entry(kind, role, content, uuid, s.lastUuid, false, false)], Some(uuid))
  }

  function AppendRaw(s: Store, e: Entry): Store {
    Store(s.log + [e], Some(e.uuid))
  }

  function RestoreStore(s: Store): Store {
    var entries := ReadAll(s.log);
    if entries == [] then s else s.(lastUuid := LastUuid(entries))
  }

  /** The write half of a full compaction whose read half saw `read`. */
  function FinishCompaction(s: Store, read: seq<Entry>, summary: string, boundaryUuid: string, summaryUuid: string): Store {
    var es := CompactionEntries(LastUuid(read), summary, boundaryUuid, summaryUuid);
    AppendRaw(AppendRaw(s, es[0]), es[1])
  }

  ghost function Decide(log: seq<Entry>, cfg: CompactionConfig): CompactionResult {
    var active := ActiveEntries(ReadAll(log));
    var threshold := AutoCompactThreshold(cfg);
    var keep := cfg.microcompactKeepRecent;
    if SessionTokens(active) < threshold then NotNeeded
    else if SavedTokens(active, keep) >= MIN_MICROCOMPACT_SAVINGS && SessionTokens(Stripped(active, keep)) < threshold
    then Microcompacted(Stripped(active, keep))
    else Full
  }

  /** Whether the event writes a compaction boundary. */
  ghost predicate Compacts(s: Store, e: Event) {
    match e
    case CompactIfNeeded(cfg, _, _, _) => Decide(s.log, cfg).Full?
    case ForceCompact(_, _, _) => ActiveEntries(ReadAll(s.log)) != []
    case _ => false
  }

  ghost function Next(s: Store, e: Event): Store {
    match e
    case AppendUser(content, uuid) => Append(s, UserEntry, User, content, uuid)
    case AppendAssistant(content, uuid) => Append(s, AssistantEntry, Assistant, content, uuid)
    case Restore => RestoreStore(s)
    case Reopen => s.(lastUuid := None)
    case CompactIfNeeded(_, summary, b, u) => if Compacts(s, e) then FinishCompaction(s, ReadAll(s.log), summary, b, u) else s
    case ForceCompact(summary, b, u) => if Compacts(s, e) then FinishCompaction(s, ReadAll(s.log), summary, b, u) else s
  }

  ghost function Run(s: Store, es: seq<Event>): Store
    decreases |es|
  {
    if es == [] then s else Run(Next(s, es[0]), es[1..])
  }

  // ----- Lines that are not messages -----

  /** The last entry of the log that is a message or a boundary is the one at `i`. */
  predicate LastMessageAt(log: seq<Entry>, i: nat) {
    i < |log| && log[i].kind != MetaEntry && forall j :: i < j < |log| ==> log[j].kind == MetaEntry
  }

  /** Other lines count for nothing: a restored store points at the last entry before them, and a
      forced compaction continues from it. */
  lemma OtherLinesAreSkipped(s: Store, i: nat, summary: string, b: string, u: string)
    requires LastMessageAt(s.log, i)
    ensures Next(s, Restore) == Store(s.log, Some(s.log[i].uuid))
    ensures
      var log := Next(s, ForceCompact(summary, b, u)).log;
      |log| == |s.log| + 2 && log[|s.log|].parentUuid == Some(s.log[i].uuid)
  {
    LastReadable(s.log, i);
    ForceOnReadable(s, ReadAll(s.log), summary, b, u);
  }

  lemma ForceOnReadable(s: Store, read: seq<Entry>, summary: string, b: string, u: string)
    requires read == ReadAll(s.log) && read != []
    ensures
      var log := Next(s, ForceCompact(summary, b, u)).log;
      |log| == |s.log| + 2 && log[|s.log|].parentUuid == LastUuid(read)
  {
    WindowIsNotEmpty(read);
    FinishContinues(s, read, summary, b, u);
  }

  lemma WindowIsNotEmpty(entries: seq<Entry>)
    requires entries != []
    ensures ActiveEntries(entries) != []
  {
    ActiveEntriesSpec(entries);
  }

  lemma FinishContinues(s: Store, read: seq<Entry>, summary: string, b: string, u: string)
    ensures
      var log := FinishCompaction(s, read, summary, b, u).log;
      |log| == |s.log| + 2 && log[|s.log|].parentUuid == LastUuid(read)
  {
  }

  /** In a log of nothing else there is nothing to restore or to compact. */
  lemma OnlyOtherLines(s: Store, summary: string, b: string, u: string)
    requires forall e :: e in s.log ==> e.kind == MetaEntry
    ensures Next(s, Restore) == s && Next(s, ForceCompact(summary, b, u)) == s
  {
    FilterNone(s.log, (e: Entry) => IsReadable(e));
  }

  lemma LastReadable(log: seq<Entry>, i: nat)
    requires LastMessageAt(log, i)
    ensures ReadAll(log) != [] && LastUuid(ReadAll(log)) == Some(log[i].uuid)
  {
    var readable := (e: Entry) => IsReadable(e);
    FilterPrefix(log, i + 1, readable);
    FilterNone(log[i + 1..], readable);
    assert log[..i + 1] == log[..i] + [log[i]];
    FilterSnoc(log[..i], log[i], readable);
  }

  // ----- The parent chain -----

  /** Each entry points at the one before it; the first points nowhere. */
  predicate Chain(log: seq<Entry>) {
    forall i :: 0 <= i < |log| ==> LinkAt(log, i)
  }

  predicate LinkAt(log: seq<Entry>, i: nat)
    requires i < |log|
  {
    log[i].parentUuid == if i == 0 then None else Some(log[i - 1].uuid)
  }

  lemma ChainSnoc(log: seq<Entry>, e: Entry)
    ensures Chain(log + [e]) <==> Chain(log) && e.parentUuid == LastUuid(log)
  {
    var longer := log + [e];
    assert forall i :: 0 <= i < |log| ==> LinkAt(longer, i) == LinkAt(log, i);
    assert LinkAt(longer, |log|) <==> e.parentUuid == LastUuid(log);
  }

  predicate NoMeta(log: seq<Entry>) {
    forall e :: e in log ==> e.kind != MetaEntry
  }

  /** The store knows the last entry, or has been reopened and not restored. */
  predicate Tracks(s: Store) {
    s.lastUuid == LastUuid(s.log) || s.lastUuid == None
  }

  /** Appending on a store that has not been restored since it was reopened on a non-empty log. */
  predicate Orphans(s: Store, e: Event) {
    (e.AppendUser? || e.AppendAssistant?) && s.lastUuid.None? && s.log != []
  }

  ghost predicate NeverOrphans(s: Store, es: seq<Event>)
    decreases |es|
  {
    es == [] || (!Orphans(s, es[0]) && NeverOrphans(Next(s, es[0]), es[1..]))
  }

  lemma ReadsEverything(log: seq<Entry>)
    requires NoMeta(log)
    ensures ReadAll(log) == log
  {
    FilterAll(log, (e: Entry) => IsReadable(e));
  }

  /** One append: the chain continues exactly when the store knows the last uuid. */
  lemma AppendKeepsChainIff(s: Store, kind: EntryType, role: Role, content: Content, uuid: string)
    requires Chain(s.log)
    ensures Chain(Append(s, kind, role, content, uuid).log) <==> s.lastUuid == LastUuid(s.log)
  {
    ChainSnoc(s.log, Entry(kind, role, content, uuid, s.lastUuid, false, false));
  }

  lemma StepFacts(s: Store, e: Event)
    requires NoMeta(s.log) && Tracks(s)
    ensures NoMeta(Next(s, e).log) && Tracks(Next(s, e)) && s.log <= Next(s, e).log
    ensures Chain(s.log) ==> (Chain(Next(s, e).log) <==> !Orphans(s, e))
  {
    ReadsEverything(s.log);
    match e
    case AppendUser(content, uuid) =>
      if Chain(s.log) { AppendKeepsChainIff(s, UserEntry, User, content, uuid); }
    case AppendAssistant(content, uuid) =>
      if Chain(s.log) { AppendKeepsChainIff(s, AssistantEntry, Assistant, content, uuid); }
    case CompactIfNeeded(_, summary, b, u) => FinishFacts(s, summary, b, u);
    case ForceCompact(summary, b, u) => FinishFacts(s, summary, b, u);
    case _ =>
  }

  lemma FinishFacts(s: Store, summary: string, b: string, u: string)
    requires NoMeta(s.log)
    ensures
      var next := FinishCompaction(s, s.log, summary, b, u);
      && NoMeta(next.log) && next.lastUuid == LastUuid(next.log)
      && next.log == s.log + CompactionEntries(LastUuid(s.log), summary, b, u)
      && (Chain(s.log) ==> Chain(next.log))
  {
    var es := CompactionEntries(LastUuid(s.log), summary, b, u);
    ChainSnoc(s.log, es[0]);
    ChainSnoc(s.log + [es[0]], es[1]);
    assert s.log + [es[0]] + [es[1]] == s.log + es;
  }

  lemma ChainPrefix(a: seq<Entry>, b: seq<Entry>)
    requires a <= b && Chain(b)
    ensures Chain(a)
  {
    assert forall i :: 0 <= i < |a| ==> LinkAt(a, i) == LinkAt(b, i);
  }

  lemma {:induction false} LogGrows(s: Store, es: seq<Event>)
    requires NoMeta(s.log) && Tracks(s)
    ensures s.log <= Run(s, es).log && NoMeta(Run(s, es).log)
    decreases |es|
  {
    if es != [] {
      StepFacts(s, es[0]);
      LogGrows(Next(s, es[0]), es[1..]);
    }
  }

  /** From any state: the chain breaks exactly when a message is appended while the store has
      forgotten a non-empty log. */
  lemma {:induction false} ChainBreaksByOrphans(s: Store, es: seq<Event>)
    requires NoMeta(s.log) && Tracks(s) && Chain(s.log)
    ensures Chain(Run(s, es).log) <==> NeverOrphans(s, es)
    decreases |es|
  {
    if es != [] {
      var next := Next(s, es[0]);
      StepFacts(s, es[0]);
      if Orphans(s, es[0]) {
        LogGrows(next, es[1..]);
        if Chain(Run(s, es).log) {
          ChainPrefix(next.log, Run(s, es).log);
        }
      } else {
        ChainBreaksByOrphans(next, es[1..]);
      }
    }
  }

  // ----- What makes a store forget -----

  /** The store does not know the last entry of its log. */
  predicate HasForgotten(s: Store) {
    s.lastUuid.None? && s.log != []
  }

  predicate IsMessage(e: Event) {
    e.AppendUser? || e.AppendAssistant?
  }

  /** The events after which the store knows its last entry. */
  ghost predicate Refreshes(s: Store, e: Event) {
    IsMessage(e) || e.Restore? || Compacts(s, e)
  }

  /** Event `j` of a run on a store created on `log`. */
  ghost predicate RefreshesAt(log: seq<Entry>, es: seq<Event>, j: nat)
    requires j < |es|
  {
    Refreshes(Run(Store(log, None), es[..j]), es[j])
  }

  /** The first `i` events end with a (re)opening on a non-empty log, and nothing refreshed the
      store since; `i == 0` is its creation. */
  ghost predicate OpenSince(log: seq<Entry>, es: seq<Event>, i: nat)
    requires i <= |es|
  {
    && (i == 0 || es[i - 1].Reopen?)
    && Run(Store(log, None), es[..i]).log != []
    && forall j :: i <= j < |es| ==> !RefreshesAt(log, es, j)
  }

  ghost predicate ForgottenSinceOpen(log: seq<Entry>, es: seq<Event>) {
    exists i: nat :: i <= |es| && OpenSince(log, es, i)
  }

  lemma StepForgets(s: Store, e: Event)
    requires NoMeta(s.log) && Tracks(s)
    ensures HasForgotten(Next(s, e)) <==> (e.Reopen? && s.log != []) || (HasForgotten(s) && !Refreshes(s, e))
  {
    ReadsEverything(s.log);
  }

  lemma {:induction false} RunSnoc(s: Store, es: seq<Event>, e: Event)
    ensures Run(s, es + [e]) == Next(Run(s, es), e)
    decreases |es|
  {
    if es == [] {
      assert [e][1..] == [];
    } else {
      assert (es + [e])[1..] == es[1..] + [e];
      RunSnoc(Next(s, es[0]), es[1..], e);
    }
  }

  lemma {:induction false} RunTracks(s: Store, es: seq<Event>)
    requires NoMeta(s.log) && Tracks(s)
    ensures NoMeta(Run(s, es).log) && Tracks(Run(s, es))
    decreases |es|
  {
    if es != [] {
      StepFacts(s, es[0]);
      RunTracks(Next(s, es[0]), es[1..]);
    }
  }

  /** One more event keeps an opening in force exactly when it does not refresh. */
  lemma OpenSinceExtends(log: seq<Entry>, es: seq<Event>, e: Event, i: nat)
    requires i <= |es|
    ensures OpenSince(log, es + [e], i) <==> OpenSince(log, es, i) && !Refreshes(Run(Store(log, None), es), e)
  {
    var longer := es + [e];
    assert longer[..i] == es[..i];
    forall j | 0 <= j < |es|
      ensures RefreshesAt(log, longer, j) == RefreshesAt(log, es, j)
    {
      assert longer[..j] == es[..j];
    }
    assert longer[..|es|] == es;
    assert RefreshesAt(log, longer, |es|) == Refreshes(Run(Store(log, None), es), e);
  }

  lemma ForgottenSinceOpenSnoc(log: seq<Entry>, es: seq<Event>, e: Event)
    ensures
      var s := Run(Store(log, None), es);
      ForgottenSinceOpen(log, es + [e]) <==>
        (e.Reopen? && Next(s, e).log != []) || (ForgottenSinceOpen(log, es) && !Refreshes(s, e))
  {
    var longer := es + [e];
    forall i: nat | i <= |es|
      ensures OpenSince(log, longer, i) <==> OpenSince(log, es, i) && !Refreshes(Run(Store(log, None), es), e)
    {
      OpenSinceExtends(log, es, e, i);
    }
    RunSnoc(Store(log, None), es, e);
    assert longer[..|longer|] == longer;
    assert OpenSince(log, longer, |longer|) <==> e.Reopen? && Next(Run(Store(log, None), es), e).log != [];
  }

  /** Over every run of a store created on any log, it has forgotten its last entry exactly when some
      opening on a non-empty log has no later message, restore, or written compaction. */
  lemma {:induction false} ForgetsIff(log: seq<Entry>, es: seq<Event>)
    requires NoMeta(log)
    ensures HasForgotten(Run(Store(log, None), es)) <==> ForgottenSinceOpen(log, es)
    decreases |es|
  {
    if es == [] {
      assert HasForgotten(Store(log, None)) <==> OpenSince(log, es, 0);
    } else {
      var front, e := es[..|es| - 1], es[|es| - 1];
      assert es == front + [e];
      ForgetsIff(log, front);
      RunTracks(Store(log, None), front);
      RunSnoc(Store(log, None), front, e);
      StepForgets(Run(Store(log, None), front), e);
      ForgottenSinceOpenSnoc(log, front, e);
    }
  }

  /** Message `k` was appended before anything refreshed the store after an opening on a non-empty log. */
  ghost predicate OrphanAt(log: seq<Entry>, es: seq<Event>, k: nat)
    requires k < |es|
  {
    IsMessage(es[k]) && ForgottenSinceOpen(log, es[..k])
  }

  lemma {:induction false} NeverOrphansSnoc(s: Store, es: seq<Event>, e: Event)
    ensures NeverOrphans(s, es + [e]) <==> NeverOrphans(s, es) && !Orphans(Run(s, es), e)
    decreases |es|
  {
    if es == [] {
      assert [e][1..] == [];
    } else {
      assert (es + [e])[1..] == es[1..] + [e];
      NeverOrphansSnoc(Next(s, es[0]), es[1..], e);
    }
  }

  lemma {:induction false} NeverOrphansIff(log: seq<Entry>, es: seq<Event>)
    requires NoMeta(log)
    ensures NeverOrphans(Store(log, None), es) <==> forall k :: 0 <= k < |es| ==> !OrphanAt(log, es, k)
    decreases |es|
  {
    if es != [] {
      var front, e := es[..|es| - 1], es[|es| - 1];
      assert es == front + [e];
      NeverOrphansIff(log, front);
      NeverOrphansSnoc(Store(log, None), front, e);
      ForgetsIff(log, front);
      assert OrphanAt(log, es, |front|) <==> Orphans(Run(Store(log, None), front), e);
      forall k | 0 <= k < |front|
        ensures OrphanAt(log, es, k) == OrphanAt(log, front, k)
      {
        assert es[..k] == front[..k];
      }
    }
  }

  /** Over every run of a store created on any chained log, the log is one parent chain exactly when
      every opening on a non-empty log is followed by a restore or a written compaction before the
      next message. */
  lemma ChainIff(log: seq<Entry>, es: seq<Event>)
    requires NoMeta(log) && Chain(log)
    ensures Chain(Run(Store(log, None), es).log) <==> forall k :: 0 <= k < |es| ==> !OrphanAt(log, es, k)
  {
    ChainBreaksByOrphans(Store(log, None), es);
    NeverOrphansIff(log, es);
  }

  /** So a new session that is never reopened is one chain. */
  lemma UnbrokenSessionIsOneChain(es: seq<Event>)
    requires forall i :: 0 <= i < |es| ==> !es[i].Reopen?
    ensures Chain(Run(Store([], None), es).log)
  {
    ChainIff([], es);
    forall k | 0 <= k < |es|
      ensures !OrphanAt([], es, k)
    {
      NeverOpened(es[..k]);
    }
  }

  lemma NeverOpened(es: seq<Event>)
    requires forall i :: 0 <= i < |es| ==> !es[i].Reopen?
    ensures !ForgottenSinceOpen([], es)
  {
    forall i: nat | i <= |es|
      ensures !OpenSince([], es, i)
    {
      if i == 0 { assert es[..0] == []; }
    }
  }

  /** Two messages with a reopening between them: the second starts a chain of its own. */
  lemma ReopenedAppendBreaksChain(content: Content)
    ensures
      var log := Run(Store([], None), [AppendUser(content, "u1"), Reopen, AppendUser(content, "u2")]).log;
      && |log| == 2 && log[1].parentUuid == None
      && !Chain(log)
  {
    var s0 := Store([], None);
    var first, second := AppendUser(content, "u1"), AppendUser(content, "u2");
    var s1 := Next(s0, first);
    var s2 := Next(s1, Reopen);
    var s3 := Next(s2, second);
    var es := [first, Reopen, second];
    assert es[1..] == [Reopen, second] && [Reopen, second][1..] == [second] && [second][1..] == [];
    assert Run(s0, es) == Run(s1, [Reopen, second]) == Run(s2, [second]) == Run(s3, []) == s3;
    assert s3.log[1].parentUuid == None && s3.log[0].uuid == "u1";
    assert !LinkAt(s3.log, 1);
  }

  // ----- The active window -----

  ghost predicate NeverCompacts(s: Store, es: seq<Event>)
    decreases |es|
  {
    es == [] || (!Compacts(s, es[0]) && NeverCompacts(Next(s, es[0]), es[1..]))
  }

  lemma {:induction false} NoBoundaryAppended(s: Store, es: seq<Event>)
    requires NoMeta(s.log) && Tracks(s) && NeverCompacts(s, es)
    ensures s.log <= Run(s, es).log
    ensures forall i :: |s.log| <= i < |Run(s, es).log| ==> !IsBoundary(Run(s, es).log[i])
    decreases |es|
  {
    if es != [] {
      StepFacts(s, es[0]);
      NoBoundaryAppended(Next(s, es[0]), es[1..]);
      var mid, end := Next(s, es[0]).log, Run(s, es).log;
      forall i | |s.log| <= i < |end|
        ensures !IsBoundary(end[i])
      {
        if i < |mid| { assert end[i] == mid[i]; }
      }
    }
  }

  /** A log with a boundary after which none follows: the window is the rest. */
  lemma WindowOf(log: seq<Entry>, written: seq<Entry>, end: seq<Entry>)
    requires |written| == 2 && IsBoundary(written[0]) && !IsBoundary(written[1])
    requires log + written <= end && NoMeta(end)
    requires forall i :: |log| + 2 <= i < |end| ==> !IsBoundary(end[i])
    ensures ActiveEntries(ReadAll(end)) == written + end[|log| + 2..]
  {
    ReadsEverything(end);
    var rest := end[|log| + 2..];
    var later := [written[1]] + rest;
    forall i | 0 <= i < |later|
      ensures !IsBoundary(later[i])
    {
      if i > 0 { assert later[i] == rest[i - 1] == end[|log| + 1 + i]; }
    }
    ActiveAfterBoundary(log, written[0], later);
    Regroup(log, written, rest);
    assert end == (log + written) + rest;
  }

  lemma Regroup(log: seq<Entry>, written: seq<Entry>, rest: seq<Entry>)
    requires |written| == 2
    ensures (log + written) + rest == log + [written[0]] + ([written[1]] + rest)
    ensures written + rest == [written[0]] + ([written[1]] + rest)
  {
  }

  /** After a full compaction the active window is exactly the boundary, the summary, and every
      entry appended since, until the next compaction. */
  lemma WindowAfterCompaction(s: Store, e: Event, es: seq<Event>)
    requires NoMeta(s.log) && Tracks(s) && Compacts(s, e) && NeverCompacts(Next(s, e), es)
    ensures
      var end := Run(s, [e] + es).log;
      var written := CompactionEntries(LastUuid(s.log), e.summary, e.boundaryUuid, e.summaryUuid);
      && s.log + written <= end
      && ActiveEntries(ReadAll(end)) == written + end[|s.log| + 2..]
  {
    ReadsEverything(s.log);
    StepFacts(s, e);
    FinishFacts(s, e.summary, e.boundaryUuid, e.summaryUuid);
    assert ([e] + es)[1..] == es;
    NoBoundaryAppended(Next(s, e), es);
    LogGrows(Next(s, e), es);
    var written := CompactionEntries(LastUuid(s.log), e.summary, e.boundaryUuid, e.summaryUuid);
    WindowOf(s.log, written, Run(s, [e] + es).log);
  }

  // ----- What is kept -----

  /** A compacted session goes on from its summary: it is the first thing either model format says,
      however much was appended since. */
  lemma SummaryLeadsTheWindow(s: Store, e: Event, es: seq<Event>)
    requires NoMeta(s.log) && Tracks(s) && Compacts(s, e) && NeverCompacts(Next(s, e), es)
    ensures
      var active := ActiveEntries(ReadAll(Run(s, [e] + es).log));
      && ToModelMessages(active) != [] && ToModelMessages(active)[0] == UserText(e.summary)
      && ToResponsesInput(active) != [] && ToResponsesInput(active)[0] == TextItem(User, e.summary)
  {
    WindowAfterCompaction(s, e, es);
    var written := CompactionEntries(LastUuid(s.log), e.summary, e.boundaryUuid, e.summaryUuid);
    SummaryLeads(written[0], written[1], Run(s, [e] + es).log[|s.log| + 2..], e.summary);
    assert written == [written[0], written[1]];
  }

  lemma SummaryLeads(boundary: Entry, summary: Entry, later: seq<Entry>, text: string)
    requires IsBoundary(boundary) && !IsBoundary(summary) && summary.role == User && summary.content == Plain(text)
    ensures
      var active := [boundary, summary] + later;
      && ToModelMessages(active) != [] && ToModelMessages(active)[0] == UserText(text)
      && ToResponsesInput(active) != [] && ToResponsesInput(active)[0] == TextItem(User, text)
  {
    var active := [boundary, summary] + later;
    var m, item := UserText(text), TextItem(User, text);
    var raw, items := RawMessages(later), RawItems(later);
    assert active == [boundary] + ([summary] + later);
    FlatMapConcat([boundary], [summary] + later, MessagesOf);
    FlatMapConcat([boundary], [summary] + later, ItemsOf);
    FlatMapConcat([summary], later, MessagesOf);
    FlatMapConcat([summary], later, ItemsOf);
    FlatMapOne(boundary, MessagesOf);
    FlatMapOne(boundary, ItemsOf);
    FlatMapOne(summary, MessagesOf);
    FlatMapOne(summary, ItemsOf);
    assert RawMessages(active) == [] + ([m] + raw) == [m] + raw;
    assert RawItems(active) == [] + ([item] + items) == [item] + items;
    assert ([m] + raw)[1..] == raw && ([item] + items)[1..] == items;
    assert ToModelMessages(active) == [m] + SanitizeWith(raw, ResultIds([m] + raw));
    assert ToResponsesInput(active) == [item] + Filter(items, KeepsItem(OutputIds([item] + items)));
  }

  /** What a message event must leave in the log, and what an entry of the log is as a message. */
  function MessageOf(e: Event): seq<(EntryType, Role, Content, string)> {
    match e
    case AppendUser(content, uuid) => [(UserEntry, User, content, uuid)]
    case AppendAssistant(content, uuid) => [(AssistantEntry, Assistant, content, uuid)]
    case _ => []
  }

  function LoggedAs(e: Entry): seq<(EntryType, Role, Content, string)> {
    if e.kind == SystemEntry || e.compactSummary then [] else [(e.kind, e.role, e.content, e.uuid)]
  }

  /** Over every run the log holds the appended messages, each with its own role, content and uuid,
      in order; all else in it was written by compactions. */
  lemma {:induction false} LogKeepsMessages(s: Store, es: seq<Event>)
    ensures FlatMap(Run(s, es).log, LoggedAs) == FlatMap(s.log, LoggedAs) + FlatMap(es, MessageOf)
    decreases |es|
  {
    if es == [] {
      assert FlatMap(s.log, LoggedAs) + [] == FlatMap(s.log, LoggedAs);
    } else {
      var before, rest := FlatMap(s.log, LoggedAs), FlatMap(es[1..], MessageOf);
      StepKeepsMessages(s, es[0]);
      LogKeepsMessages(Next(s, es[0]), es[1..]);
      assert (before + MessageOf(es[0])) + rest == before + (MessageOf(es[0]) + rest);
    }
  }

  lemma StepKeepsMessages(s: Store, e: Event)
    ensures FlatMap(Next(s, e).log, LoggedAs) == FlatMap(s.log, LoggedAs) + MessageOf(e)
  {
    var before := FlatMap(s.log, LoggedAs);
    assert before + [] == before;
    match e
    case AppendUser(content, uuid) =>
      FlatMapSnoc(s.log, Entry(UserEntry, User, content, uuid, s.lastUuid, false, false), LoggedAs);
    case AppendAssistant(content, uuid) =>
      FlatMapSnoc(s.log, Entry(AssistantEntry, Assistant, content, uuid, s.lastUuid, false, false), LoggedAs);
    case CompactIfNeeded(_, summary, b, u) => FinishKeepsMessages(s, summary, b, u);
    case ForceCompact(summary, b, u) => FinishKeepsMessages(s, summary, b, u);
    case _ =>
  }

  lemma FinishKeepsMessages(s: Store, summary: string, b: string, u: string)
    ensures FlatMap(FinishCompaction(s, ReadAll(s.log), summary, b, u).log, LoggedAs) == FlatMap(s.log, LoggedAs)
  {
    var es := CompactionEntries(LastUuid(ReadAll(s.log)), summary, b, u);
    FlatMapSnoc(s.log, es[0], LoggedAs);
    FlatMapSnoc(s.log + [es[0]], es[1], LoggedAs);
    assert FlatMap(s.log, LoggedAs) + [] == FlatMap(s.log, LoggedAs);
  }

  lemma LastUuidMoves(read: seq<Entry>, extra: seq<Entry>)
    requires DistinctUuids(read + extra)
    ensures LastUuid(read) == LastUuid(read + extra) <==> extra == []
  {
    var log := read + extra;
    if extra == [] {
      assert log == read;
    } else if read != [] {
      assert log[|read| - 1] == read[|read| - 1];
      assert log[|read| - 1].uuid != log[|log| - 1].uuid;
    }
  }

  predicate DistinctUuids(log: seq<Entry>) {
    forall i, j :: 0 <= i < j < |log| ==> log[i].uuid != log[j].uuid
  }

  /** Messages appended while the summary is being written: the chain survives exactly if there were
      none, uuids being distinct, and any that was is outside the new window without having been summarised. */
  lemma OverlappedCompaction(read: seq<Entry>, extra: seq<Entry>, s: Store, summary: string, b: string, u: string)
    requires s.log == read + extra && NoMeta(s.log) && Chain(s.log)
    ensures
      var end := FinishCompaction(s, read, summary, b, u).log;
      && (Chain(end) <==> LastUuid(read) == LastUuid(s.log))
      && (DistinctUuids(s.log) ==> (Chain(end) <==> extra == []))
      && ActiveEntries(ReadAll(end)) == CompactionEntries(LastUuid(read), summary, b, u)
  {
    var es := CompactionEntries(LastUuid(read), summary, b, u);
    var end := FinishCompaction(s, read, summary, b, u).log;
    assert end == s.log + [es[0]] + [es[1]];
    ChainSnoc(s.log, es[0]);
    ChainSnoc(s.log + [es[0]], es[1]);
    ReadsEverything(end);
    ActiveAfterBoundary(s.log, es[0], [es[1]]);
    if DistinctUuids(s.log) { LastUuidMoves(read, extra); }
    assert [es[0]] + [es[1]] == es;
  }

  /** One message read, one appended meanwhile: the chain breaks and the second message is gone
      from the window without being in what was summarised. */
  lemma MessageDuringCompactionIsLost(content: Content, summary: string, b: string, u: string)
    requires u != "u2" && b != "u2"
    ensures
      var first := Entry(UserEntry, User, content, "u1", None, false, false);
      var second := Entry(UserEntry, User, content, "u2", Some("u1"), false, false);
      var end := FinishCompaction(Store([first, second], Some("u2")), [first], summary, b, u).log;
      && !Chain(end)
      && second in end && second !in ActiveEntries(ReadAll(end))
  {
    var first := Entry(UserEntry, User, content, "u1", None, false, false);
    var second := Entry(UserEntry, User, content, "u2", Some("u1"), false, false);
    var s := Store([first, second], Some("u2"));
    assert Chain(s.log);
    OverlappedCompaction([first], [second], s, summary, b, u);
    assert LastUuid([first]) == Some("u1") && LastUuid(s.log) == Some("u2");
    var end := FinishCompaction(s, [first], summary, b, u).log;
    assert end[1] == second;
    forall e | e in CompactionEntries(Some("u1"), summary, b, u)
      ensures e.uuid != "u2"
    {
    }
  }

  /** What the automatic compaction decides, read off its result. */
  lemma DecisionIsSound(log: seq<Entry>, cfg: CompactionConfig)
    ensures
      var active := ActiveEntries(ReadAll(log));
      match Decide(log, cfg)
      case NotNeeded => SessionTokens(active) < AutoCompactThreshold(cfg)
      case Microcompacted(entries) =>
        && SessionTokens(entries) < AutoCompactThreshold(cfg) <= SessionTokens(active)
        && |entries| == |active|
        && SessionTokens(active) - SessionTokens(entries) + TruncatedBlocks(active, cfg.microcompactKeepRecent) >= 20_000
        && ConversationsMatch(ToModelMessages(active), ToModelMessages(entries))
      case Full =>
        && AutoCompactThreshold(cfg) <= SessionTokens(active)
        && (SessionTokens(Stripped(active, cfg.microcompactKeepRecent)) < AutoCompactThreshold(cfg) ==>
              SessionTokens(active) - SessionTokens(Stripped(active, cfg.microcompactKeepRecent))
                < 20_000 + TruncatedBlocks(active, cfg.microcompactKeepRecent))
  {
    var active, keep := ActiveEntries(ReadAll(log)), cfg.microcompactKeepRecent;
    MicrocompactKeepsConversation(active, keep);
    SavedTokensAccuracy(active, keep);
    if active != [] { StrippedAt(active, keep, 0); }
  }

  // ----- Store objects -----

  class SessionStore {
    /** The JSONL file of the session. */
    var file: seq<Entry>
    var lastUuid: Option<string>

    ghost function State(): Store
      reads this
    {
      Store(file, lastUuid)
    }

    /** A new store object on an existing (possibly empty) file. */
    constructor (existing: seq<Entry>)
      ensures State() == Store(existing, None)
    {
      file, lastUuid := existing, None;
    }

    method AppendEntry(kind: EntryType, role: Role, content: Content, uuid: string) returns (entry: Entry)
      modifies this
      ensures State() == Append(old(State()), kind, role, content, uuid)
      ensures entry == file[|file| - 1]
    {
      entry := Entry(kind, role, content, uuid, lastUuid, false, false);
      file := file + [entry];
      lastUuid := Some(entry.uuid);
    }

    method AppendRawEntry(entry: Entry)
      modifies this
      ensures State() == AppendRaw(old(State()), entry)
    {
      file := file + [entry];
      lastUuid := Some(entry.uuid);
    }

    method ReadEntries() returns (entries: seq<Entry>)
      ensures entries == ReadAll(file)
    {
      entries := Filter(file, (e: Entry) => IsReadable(e));
    }

    method RestoreLast()
      modifies this
      ensures State() == RestoreStore(old(State()))
    {
      var entries := ReadEntries();
      if |entries| > 0 {
        lastUuid := Some(entries[|entries| - 1].uuid);
      }
    }

    method WriteCompaction(read: seq<Entry>, summary: string, boundaryUuid: string, summaryUuid: string)
      modifies this
      ensures State() == FinishCompaction(old(State()), read, summary, boundaryUuid, summaryUuid)
    {
      var parent := if |read| > 0 then Some(read[|read| - 1].uuid) else None;
      AppendRawEntry(BoundaryEntry(boundaryUuid, parent));
      AppendRawEntry(SummaryEntry(summary, summaryUuid, boundaryUuid));
    }
  }

  method RunCompactIfNeeded(session: SessionStore, cfg: CompactionConfig, summary: string, b: string, u: string)
    returns (r: CompactionResult)
    modifies session
    ensures r == Decide(old(session.file), cfg)
    ensures session.State() == Next(old(session.State()), CompactIfNeeded(cfg, summary, b, u))
  {
    var allEntries := session.ReadEntries();
    var activeEntries := GetActiveEntries(allEntries);
    var currentTokens := SessionTokens(activeEntries);
    var threshold := AutoCompactThreshold(cfg);
    if currentTokens < threshold {
      return NotNeeded;
    }
    var microcompacted, savedTokens := Microcompact(activeEntries, cfg.microcompactKeepRecent);
    if savedTokens >= MIN_MICROCOMPACT_SAVINGS && SessionTokens(microcompacted) < threshold {
      return Microcompacted(microcompacted);
    }
    session.WriteCompaction(allEntries, summary, b, u);
    return Full;
  }

  method RunForceCompact(session: SessionStore, summary: string, b: string, u: string) returns (preTokens: Option<nat>)
    modifies session
    ensures session.State() == Next(old(session.State()), ForceCompact(summary, b, u))
    ensures
      var active := ActiveEntries(ReadAll(old(session.file)));
      preTokens == if active == [] then None else Some(SessionTokens(active))
  {
    var allEntries := session.ReadEntries();
    var activeEntries := GetActiveEntries(allEntries);
    if |activeEntries| == 0 {
      return None;
    }
    session.WriteCompaction(allEntries, summary, b, u);
    return Some(SessionTokens(activeEntries));
  }
}
