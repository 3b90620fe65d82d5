/** The append-only event log with its in-memory tail (src/core/event-log.ts). */
module EventLogs {
  import opened Prelude

  datatype Entry = Entry(seq_: nat, ts: int, kind: string, payload: string, causedBy: Option<nat>)

  /** Disk lines, memory tail, and the counter `seq`. */
  datatype Log = Log(disk: seq<Entry>, buffer: seq<Entry>, last: nat)

  /** `stored` says whether the disk append succeeds; the counter moves either way. */
  datatype Event =
    | Append(ts: int, kind: string, payload: string, causedBy: Option<nat>, stored: bool)
    | Reopen

  datatype Options = Options(afterSeq: int, limit: Option<int>, kind: Option<string>)

  function LastSeq(disk: seq<Entry>): nat {
    if disk == [] then 0 else disk[|disk| - 1].seq_
  }

  function AppendTo(l: Log, size: nat, e: Event): Log
    requires e.Append?
  {
    var entry := Entry(l.last + 1, e.ts, e.kind, e.payload, e.causedBy);
    if e.stored then Log(l.disk + [entry], TakeLast(l.buffer + [entry], size), entry.seq_)
    else l.(last := entry.seq_)
  }

  /** `createEventLog` on an existing file. */
  function Open(disk: seq<Entry>, size: nat): Log {
    Log(disk, SliceFromEnd(disk, size), LastSeq(disk))
  }

  function Next(l: Log, size: nat, e: Event): Log {
    match e
    case Append(_, _, _, _, _) => AppendTo(l, size, e)
    case Reopen => Open(l.disk, size)
  }

  function Run(l: Log, size: nat, es: seq<Event>): Log
    decreases |es|
  {
    if es == [] then l else Run(Next(l, size, es[0]), size, es[1..])
  }

  predicate Passes(e: Entry, o: Options) {
    e.seq_ > o.afterSeq && (o.kind.GetOr("") == "" || e.kind == o.kind.value)
  }

  function Selects(o: Options): Entry -> bool {
    (e: Entry) => Passes(e, o)
  }

  /** The limit is checked after each push, so even a limit below one lets one entry through. */
  function Limited(s: seq<Entry>, limit: Option<int>): seq<Entry> {
    if limit.None? || |s| <= Max(1, limit.value) then s else s[..Max(1, limit.value)]
  }

  function Select(entries: seq<Entry>, o: Options): seq<Entry> {
    Limited(Filter(entries, Selects(o)), o.limit)
  }

  // ----- What every run keeps -----

  predicate Increasing(disk: seq<Entry>) {
    forall i, j :: 0 <= i < j < |disk| ==> disk[i].seq_ < disk[j].seq_
  }

  ghost predicate LogOk(l: Log, size: nat) {
    && Increasing(l.disk)
    && (forall e :: e in l.disk ==> 1 <= e.seq_ <= l.last)
    && (size >= 1 ==> l.buffer == TakeLast(l.disk, size))
  }

  lemma TakeLastSnoc<T>(s: seq<T>, x: T, n: nat)
    ensures TakeLast(TakeLast(s, n) + [x], n) == TakeLast(s + [x], n)
  {
  }

  lemma StepKeepsLog(l: Log, size: nat, e: Event)
    requires LogOk(l, size)
    ensures LogOk(Next(l, size, e), size)
  {
    if e.Append? && e.stored {
      var entry := Entry(l.last + 1, e.ts, e.kind, e.payload, e.causedBy);
      TakeLastSnoc(l.disk, entry, size);
    }
  }

  /** Over every run of appends, failed appends and restarts: sequence numbers strictly increase
      and the memory tail is the last `size` lines of the disk. */
  lemma {:induction false} RunKeepsLog(l: Log, size: nat, es: seq<Event>)
    requires LogOk(l, size)
    ensures LogOk(Run(l, size, es), size)
    decreases |es|
  {
    if es != [] {
      StepKeepsLog(l, size, es[0]);
      RunKeepsLog(Next(l, size, es[0]), size, es[1..]);
    }
  }

  function ContentOf(e: Entry): seq<(int, string, string, Option<nat>)> {
    [(e.ts, e.kind, e.payload, e.causedBy)]
  }

  function StoredContent(e: Event): seq<(int, string, string, Option<nat>)> {
    match e
    case Append(ts, kind, payload, causedBy, true) => [(ts, kind, payload, causedBy)]
    case _ => []
  }

  /** Over every run the disk gains exactly the stored appends, in order and with all they carry. */
  lemma {:induction false} DiskHoldsAppends(l: Log, size: nat, es: seq<Event>)
    ensures FlatMap(Run(l, size, es).disk, ContentOf) == FlatMap(l.disk, ContentOf) + FlatMap(es, StoredContent)
    decreases |es|
  {
    var before := FlatMap(l.disk, ContentOf);
    if es == [] {
      assert before + [] == before;
    } else {
      var rest := FlatMap(es[1..], StoredContent);
      StepHoldsAppend(l, size, es[0]);
      DiskHoldsAppends(Next(l, size, es[0]), size, es[1..]);
      assert (before + StoredContent(es[0])) + rest == before + (StoredContent(es[0]) + rest);
    }
  }

  lemma StepHoldsAppend(l: Log, size: nat, e: Event)
    ensures FlatMap(Next(l, size, e).disk, ContentOf) == FlatMap(l.disk, ContentOf) + StoredContent(e)
  {
    if e.Append? && e.stored {
      FlatMapSnoc(l.disk, Entry(l.last + 1, e.ts, e.kind, e.payload, e.causedBy), ContentOf);
    } else {
      assert FlatMap(l.disk, ContentOf) + [] == FlatMap(l.disk, ContentOf);
    }
  }

  // ----- Failed appends -----

  /** An append that the disk refused, and one that it took. */
  predicate Fails(e: Event) {
    e.Append? && !e.stored
  }

  predicate Stores(e: Event) {
    e.Append? && e.stored
  }

  /** The counter has run ahead of the disk because an append failed. */
  predicate Ahead(l: Log) {
    l.last != LastSeq(l.disk)
  }

  /** Only a failed append as the very last event leaves the counter ahead. */
  lemma {:induction false} AheadIff(l: Log, size: nat, es: seq<Event>)
    requires LogOk(l, size)
    ensures Ahead(Run(l, size, es)) <==> if es == [] then Ahead(l) else Fails(es[|es| - 1])
    decreases |es|
  {
    if es != [] {
      StepKeepsLog(l, size, es[0]);
      AheadIff(Next(l, size, es[0]), size, es[1..]);
    }
  }

  /** After any run from an opened log, reopening gives the same counter exactly when the run does
      not end in a failed append.  It gives the same tail, except that a buffer of size zero is
      reloaded with the whole file. */
  lemma ReopenRestoresIff(disk: seq<Entry>, size: nat, es: seq<Event>)
    requires LogOk(Open(disk, size), size)
    ensures
      var l := Run(Open(disk, size), size, es);
      && (Open(l.disk, size).last == l.last <==> !(es != [] && Fails(es[|es| - 1])))
      && Open(l.disk, size).buffer == if size >= 1 then l.buffer else l.disk
  {
    AheadIff(Open(disk, size), size, es);
    RunKeepsLog(Open(disk, size), size, es);
  }

  /** A run that ends in a failed append forgets it on reopening; and a log without memory, reopened
      after a stored one, has it in memory. */
  lemma ReopeningDiffers(size: nat, ts: int, kind: string, payload: string)
    ensures
      var l := Run(Open([], size), size, [Append(ts, kind, payload, None, false)]);
      l.last == 1 && Open(l.disk, size).last == 0
    ensures
      var l := Run(Open([], 0), 0, [Append(ts, kind, payload, None, true)]);
      l.buffer == [] && Open(l.disk, 0).buffer == [Entry(1, ts, kind, payload, None)]
  {
    var refused, taken := Append(ts, kind, payload, None, false), Append(ts, kind, payload, None, true);
    assert [refused][1..] == [] && [taken][1..] == [];
    assert Run(Open([], size), size, [refused]) == Next(Open([], size), size, refused);
    assert Run(Open([], 0), 0, [taken]) == Next(Open([], 0), 0, taken);
    assert [] + [Entry(1, ts, kind, payload, None)] == [Entry(1, ts, kind, payload, None)];
  }

  predicate Contiguous(disk: seq<Entry>) {
    forall i :: 0 <= i < |disk| ==> disk[i].seq_ == i + 1
  }

  /** No append is ever stored while the counter is ahead. */
  predicate NeverSkips(l: Log, size: nat, es: seq<Event>)
    decreases |es|
  {
    es == [] || (!Skips(l, es[0]) && NeverSkips(Next(l, size, es[0]), size, es[1..]))
  }

  lemma {:induction false} DiskGrows(l: Log, size: nat, es: seq<Event>)
    ensures l.disk <= Run(l, size, es).disk
    decreases |es|
  {
    if es != [] { DiskGrows(Next(l, size, es[0]), size, es[1..]); }
  }

  predicate Skips(l: Log, e: Event) {
    Stores(e) && Ahead(l)
  }

  lemma StepContiguousIff(l: Log, size: nat, e: Event)
    requires LogOk(l, size) && Contiguous(l.disk)
    ensures Contiguous(Next(l, size, e).disk) <==> !Skips(l, e)
  {
    assert LastSeq(l.disk) == |l.disk|;
    if e.Append? && e.stored {
      var next := Next(l, size, e);
      assert next.disk[|l.disk|].seq_ == l.last + 1;
      assert forall i :: 0 <= i < |l.disk| ==> next.disk[i] == l.disk[i];
    }
  }

  /** A failed append with a stored one right behind it. */
  predicate GapAt(es: seq<Event>, i: nat)
    requires i + 1 < |es|
  {
    Fails(es[i]) && Stores(es[i + 1])
  }

  lemma {:induction false} NeverSkipsIff(l: Log, size: nat, es: seq<Event>)
    requires LogOk(l, size)
    ensures NeverSkips(l, size, es) <==>
              && !(es != [] && Skips(l, es[0]))
              && forall i :: 0 <= i < |es| - 1 ==> !GapAt(es, i)
    decreases |es|
  {
    if es != [] {
      StepKeepsLog(l, size, es[0]);
      NeverSkipsIff(Next(l, size, es[0]), size, es[1..]);
      if |es| > 1 {
        AheadIff(l, size, [es[0]]);
        assert [es[0]][1..] == [];
        assert Ahead(Next(l, size, es[0])) <==> Fails(es[0]);
        assert Skips(Next(l, size, es[0]), es[1]) <==> GapAt(es, 0);
        assert forall i :: 0 <= i < |es| - 2 ==> GapAt(es[1..], i) == GapAt(es, i + 1);
        assert forall i :: 1 <= i < |es| - 1 ==> GapAt(es, i) == GapAt(es[1..], i - 1);
      }
    }
  }

  /** From an opened log, sequence numbers are 1, 2, 3, ... exactly when no failed append is
      directly followed by a stored one. */
  lemma ContiguousIff(disk: seq<Entry>, size: nat, es: seq<Event>)
    requires Contiguous(disk)
    ensures Contiguous(Run(Open(disk, size), size, es).disk) <==> forall i :: 0 <= i < |es| - 1 ==> !GapAt(es, i)
  {
    var l := Open(disk, size);
    assert LogOk(l, size);
    SkippingBreaks(l, size, es);
    NeverSkipsIff(l, size, es);
  }

  /** The smallest run that leaves a gap. */
  lemma FailedAppendLeavesGap(size: nat, ts: int, kind: string, payload: string)
    ensures
      var es := [Append(ts, kind, payload, None, false), Append(ts, kind, payload, None, true)];
      var l := Run(Open([], size), size, es);
      && l.disk == [Entry(2, ts, kind, payload, None)]
      && !Contiguous(l.disk)
  {
    var refused, taken := Append(ts, kind, payload, None, false), Append(ts, kind, payload, None, true);
    assert [refused, taken][1..] == [taken] && [taken][1..] == [];
    var start := Open([], size);
    var ahead := Next(start, size, refused);
    var end := Next(ahead, size, taken);
    assert Run(start, size, [refused, taken]) == Run(ahead, size, [taken]) == Run(end, size, []) == end;
    assert end.disk == [] + [Entry(2, ts, kind, payload, None)];
    assert end.disk[0].seq_ == 2;
  }

  lemma {:induction false} SkippingBreaks(l: Log, size: nat, es: seq<Event>)
    requires LogOk(l, size) && Contiguous(l.disk)
    ensures Contiguous(Run(l, size, es).disk) <==> NeverSkips(l, size, es)
    decreases |es|
  {
    if es != [] {
      var next := Next(l, size, es[0]);
      StepKeepsLog(l, size, es[0]);
      StepContiguousIff(l, size, es[0]);
      if Skips(l, es[0]) {
        DiskGrows(next, size, es[1..]);
      } else {
        SkippingBreaks(next, size, es[1..]);
      }
    }
  }

  // ----- Memory agrees with disk -----

  function Evicted(l: Log): seq<Entry> {
    if |l.buffer| <= |l.disk| then l.disk[..|l.disk| - |l.buffer|] else []
  }

  lemma SplitDisk(l: Log, size: nat, o: Options)
    requires LogOk(l, size) && size >= 1
    ensures Filter(l.disk, Selects(o)) == Filter(Evicted(l), Selects(o)) + Filter(l.buffer, Selects(o))
  {
    assert l.disk == Evicted(l) + l.buffer;
    FilterConcat(Evicted(l), l.buffer, Selects(o));
  }

  /** The first match of a non-empty filter heads every limited answer. */
  lemma FirstSelected(entries: seq<Entry>, o: Options)
    requires Filter(entries, Selects(o)) != []
    ensures Select(entries, o) != [] && Select(entries, o)[0] == Filter(entries, Selects(o))[0]
    ensures Select(entries, o)[0] in entries
  {
    FilterMembers(entries, Selects(o));
    assert Filter(entries, Selects(o))[0] in Filter(entries, Selects(o));
  }

  /** `recent` answers like `read` exactly when no entry that left memory passes the filter. */
  lemma RecentAgreesIff(l: Log, size: nat, o: Options)
    requires LogOk(l, size) && size >= 1
    ensures Select(l.buffer, o) == Select(l.disk, o) <==> forall e :: e in Evicted(l) ==> !Passes(e, o)
  {
    var gone := Evicted(l);
    SplitDisk(l, size, o);
    FilterMembers(gone, Selects(o));
    if Filter(gone, Selects(o)) == [] {
      assert forall e :: e in gone ==> !(e in Filter(gone, Selects(o)));
      assert [] + Filter(l.buffer, Selects(o)) == Filter(l.buffer, Selects(o));
    } else {
      var first := Filter(gone, Selects(o))[0];
      assert first in Filter(gone, Selects(o));
      FirstSelected(l.disk, o);
      OldIsNotNew(l, size, first);
      if Select(l.buffer, o) == Select(l.disk, o) {
        FilterMembers(l.buffer, Selects(o));
        FirstSelected(l.buffer, o);
      }
    }
  }

  /** An evicted entry is older than everything in memory. */
  lemma OldIsNotNew(l: Log, size: nat, e: Entry)
    requires LogOk(l, size) && size >= 1 && e in Evicted(l)
    ensures e !in l.buffer
    ensures l.buffer != [] && e.seq_ < l.buffer[0].seq_
  {
    var n := |l.disk| - |l.buffer|;
    var i :| 0 <= i < n && l.disk[i] == e;
    forall j | 0 <= j < |l.buffer|
      ensures l.buffer[j].seq_ > e.seq_
    {
      assert l.buffer[j] == l.disk[n + j];
    }
  }

  /** Asking from the first buffered seq on, memory is as good as disk. */
  lemma RecentAgreesFromBuffer(l: Log, size: nat, o: Options)
    requires LogOk(l, size) && size >= 1
    requires l.buffer != [] ==> o.afterSeq + 1 >= l.buffer[0].seq_
    ensures Select(l.buffer, o) == Select(l.disk, o)
  {
    RecentAgreesIff(l, size, o);
    forall e | e in Evicted(l)
      ensures !Passes(e, o)
    {
      OldIsNotNew(l, size, e);
    }
  }

  /** `limit` bounds the answer exactly when it is at least one or nothing matches. */
  lemma LimitHoldsIff(entries: seq<Entry>, o: Options)
    requires o.limit.Some?
    ensures |Select(entries, o)| <= Max(0, o.limit.value) <==> o.limit.value >= 1 || Filter(entries, Selects(o)) == []
    ensures Select(entries, o) <= Filter(entries, Selects(o))
    ensures |Select(entries, o)| == Min(|Filter(entries, Selects(o))|, Max(1, o.limit.value))
  {
  }

  /** Without a limit, reading returns exactly the entries after the given seq and of the given type,
      where no type and the empty one mean any. */
  lemma SelectIff(entries: seq<Entry>, o: Options, e: Entry)
    requires o.limit.None?
    ensures e in Select(entries, o) <==>
              e in entries && e.seq_ > o.afterSeq && (o.kind == None || o.kind == Some("") || o.kind == Some(e.kind))
  {
    FilterMembers(entries, Selects(o));
  }

  /** Asked for no entries at all, the log returns its first match. */
  lemma ZeroLimitReturnsOne(e: Entry)
    requires e.seq_ >= 1
    ensures Select([e], Options(0, Some(0), None)) == [e]
  {
    FilterAll([e], Selects(Options(0, Some(0), None)));
  }

  // ----- Pages -----

  function TotalPages(total: nat, pageSize: nat): nat
    requires pageSize >= 1
  {
    Max(1, (total + pageSize - 1) / pageSize)
  }

  /** One page of `query`, newest first. */
  function Page(all: seq<Entry>, page: nat, pageSize: nat): seq<Entry>
    requires page >= 1 && pageSize >= 1
  {
    var total := |all|;
    Reversed(JsSlice(all, Max(0, total - page * pageSize), total - (page - 1) * pageSize))
  }

  /** Pages 1 to `n`, one after the other. */
  function Pages(all: seq<Entry>, n: nat, pageSize: nat): seq<Entry>
    requires pageSize >= 1
  {
    if n == 0 then [] else Pages(all, n - 1, pageSize) + Page(all, n, pageSize)
  }

  /** Where page `n` starts, and so where page `n + 1` ends. */
  function Cut(total: nat, n: nat, pageSize: nat): nat {
    Max(0, total - n * pageSize)
  }

  lemma Multiples(n: nat, pageSize: nat)
    requires n >= 1
    ensures n * pageSize == (n - 1) * pageSize + pageSize
  {
  }

  lemma MultiplesGrow(a: nat, b: nat, pageSize: nat)
    requires a <= b
    ensures a * pageSize <= b * pageSize
  {
    assert b * pageSize == a * pageSize + (b - a) * pageSize;
  }

  /** A page within range is its slice, counted from the newest end. */
  lemma PageInRange(all: seq<Entry>, n: nat, pageSize: nat)
    requires n >= 1 && pageSize >= 1 && (n - 1) * pageSize <= |all|
    ensures Cut(|all|, n - 1, pageSize) == |all| - (n - 1) * pageSize
    ensures Cut(|all|, n, pageSize) == Max(0, Cut(|all|, n - 1, pageSize) - pageSize)
    ensures Cut(|all|, n, pageSize) <= Cut(|all|, n - 1, pageSize) <= |all|
    ensures Page(all, n, pageSize) == Reversed(all[Cut(|all|, n, pageSize)..Cut(|all|, n - 1, pageSize)])
  {
    Multiples(n, pageSize);
  }

  lemma {:induction false} PagesCoverTail(all: seq<Entry>, n: nat, pageSize: nat)
    requires pageSize >= 1 && (n == 0 || (n - 1) * pageSize <= |all|)
    ensures Cut(|all|, n, pageSize) <= |all|
    ensures Pages(all, n, pageSize) == Reversed(all[Cut(|all|, n, pageSize)..])
  {
    if n == 0 {
      assert all[|all|..] == [];
    } else {
      if n > 1 { Multiples(n - 1, pageSize); }
      PagesCoverTail(all, n - 1, pageSize);
      PageInRange(all, n, pageSize);
      var start, end := Cut(|all|, n, pageSize), Cut(|all|, n - 1, pageSize);
      ReversedConcat(all[start..end], all[end..]);
      assert all[start..end] + all[end..] == all[start..];
    }
  }

  lemma TotalPagesFit(total: nat, pageSize: nat)
    requires pageSize >= 1
    ensures
      var n := TotalPages(total, pageSize);
      total <= n * pageSize && (n - 1) * pageSize <= total && (total > 0 ==> (n - 1) * pageSize < total)
  {
    var q := (total + pageSize - 1) / pageSize;
    assert q * pageSize <= total + pageSize - 1 < q * pageSize + pageSize;
    assert (q - 1) * pageSize == q * pageSize - pageSize;
    if q == 0 {
      assert total == 0;
    }
  }

  lemma FullPage(all: seq<Entry>, k: nat, n: nat, pageSize: nat)
    requires pageSize >= 1 && 1 <= k < n && (n - 1) * pageSize <= |all|
    ensures |Page(all, k, pageSize)| == pageSize
  {
    MultiplesGrow(k, n - 1, pageSize);
    Multiples(k, pageSize);
    PageInRange(all, k, pageSize);
    ReversedIndex(all[Cut(|all|, k, pageSize)..Cut(|all|, k - 1, pageSize)]);
  }

  /** All pages together are the matching log, newest first, each entry once; every page but the
      last is full. */
  lemma PagesPartitionLog(all: seq<Entry>, pageSize: nat)
    requires pageSize >= 1
    ensures
      var n := TotalPages(|all|, pageSize);
      && Pages(all, n, pageSize) == Reversed(all)
      && (forall k :: 1 <= k < n ==> |Page(all, k, pageSize)| == pageSize)
      && |Page(all, n, pageSize)| == |all| - (n - 1) * pageSize <= pageSize
  {
    var n := TotalPages(|all|, pageSize);
    TotalPagesFit(|all|, pageSize);
    PagesCoverTail(all, n, pageSize);
    assert Cut(|all|, n, pageSize) == 0 && all[0..] == all;
    Multiples(n, pageSize);
    PageInRange(all, n, pageSize);
    ReversedIndex(all[..Cut(|all|, n - 1, pageSize)]);
    forall k | 1 <= k < n
      ensures |Page(all, k, pageSize)| == pageSize
    {
      FullPage(all, k, n, pageSize);
    }
  }

  /** A page past the last is not always empty: the negative end index wraps around to the oldest
      entries unless it lands on zero or beyond the start. */
  lemma PagePastEnd(all: seq<Entry>, page: nat, pageSize: nat)
    requires pageSize >= 1 && page > TotalPages(|all|, pageSize)
    ensures
      var skipped := (page - 1) * pageSize;
      && |all| <= skipped
      && (Page(all, page, pageSize) == [] <==> skipped == |all| || skipped >= 2 * |all|)
      && (|all| < skipped < 2 * |all| ==> Page(all, page, pageSize) == Reversed(all[..2 * |all| - skipped]))
  {
    var n, skipped := TotalPages(|all|, pageSize), (page - 1) * pageSize;
    TotalPagesFit(|all|, pageSize);
    MultiplesGrow(n, page - 1, pageSize);
    Multiples(page, pageSize);
    assert Page(all, page, pageSize) == Reversed(JsSlice(all, 0, |all| - skipped));
    ReversedIndex(JsSlice(all, 0, |all| - skipped));
  }

  /** Three entries, two to a page: page 3 of 2 repeats the two oldest entries. */
  lemma PageThreeOfTwo(a: Entry, b: Entry, c: Entry)
    ensures TotalPages(3, 2) == 2 && Page([a, b, c], 3, 2) == [b, a]
  {
    var all := [a, b, c];
    PagePastEnd(all, 3, 2);
    assert Page(all, 3, 2) == Reversed(all[..2]);
    assert Reversed([b]) == [b] && Reversed([a, b]) == [b] + [a] by { assert [b][1..] == [] && [a, b][1..] == [b]; }
    assert all[..2] == [a, b] && [a, b][1..] == [b] && [b][1..] == [];
  }

  // ----- The log object -----

  datatype QueryResult = QueryResult(entries: seq<Entry>, total: nat, page: nat, pageSize: nat, totalPages: nat)

  /** The loop shared by `read` and `recent`: filter, push, stop once the limit is reached. */
  method Scan(entries: seq<Entry>, o: Options) returns (results: seq<Entry>)
    ensures results == Select(entries, o)
  {
    results := [];
    for i := 0 to |entries|
      invariant results == Filter(entries[..i], Selects(o))
      invariant o.limit.Some? && results != [] ==> |results| < o.limit.value
    {
      FilterSnoc(entries[..i], entries[i], Selects(o));
      assert entries[..i + 1] == entries[..i] + [entries[i]];
      FilterPrefix(entries, i + 1, Selects(o));
      var entry := entries[i];
      if entry.seq_ <= o.afterSeq {
        continue;
      }
      if o.kind.Some? && o.kind.value != "" && entry.kind != o.kind.value {
        continue;
      }
      results := results + [entry];
      if o.limit.Some? && |results| >= o.limit.value {
        return;
      }
    }
    assert entries[..|entries|] == entries;
  }

  class EventLog {
    const bufferSize: nat
    /** The log file, one entry per line. */
    var file: seq<Entry>
    var buffer: seq<Entry>
    var seq_: nat

    ghost function State(): Log
      reads this
    {
      Log(file, buffer, seq_)
    }

    constructor (existing: seq<Entry>, bufferSize: nat)
      ensures State() == Open(existing, bufferSize) && this.bufferSize == bufferSize
    {
      this.bufferSize := bufferSize;
      file := existing;
      buffer := SliceFromEnd(existing, bufferSize);
      seq_ := if |existing| == 0 then 0 else existing[|existing| - 1].seq_;
    }

    /** Returns nothing when the payload is invalid or the disk refuses the line. */
    method AppendEvent(ts: int, kind: string, payload: string, causedBy: Option<nat>, valid: bool, stored: bool)
      returns (r: Option<Entry>)
      modifies this
      ensures !valid ==> r == None && State() == old(State())
      ensures valid ==> State() == AppendTo(old(State()), bufferSize, Append(ts, kind, payload, causedBy, stored))
      ensures r.Some? <==> valid && stored
      ensures r.Some? ==> file == old(file) + [r.value] && r.value.seq_ == seq_
    {
      if !valid {
        return None;
      }
      seq_ := seq_ + 1;
      var entry := Entry(seq_, ts, kind, payload, causedBy);
      if !stored {
        return None;
      }
      file := file + [entry];
      buffer := buffer + [entry];
      if |buffer| > bufferSize {
        buffer := buffer[|buffer| - bufferSize..];
      }
      return Some(entry);
    }

    method Read(o: Options) returns (r: seq<Entry>)
      ensures r == Select(file, o)
    {
      r := Scan(file, o);
    }

    method Recent(o: Options) returns (r: seq<Entry>)
      ensures r == Select(buffer, o)
    {
      r := Scan(buffer, o);
    }

    method Query(page: int, pageSize: int, kind: Option<string>) returns (r: QueryResult)
      ensures r.page == Max(1, page) && r.pageSize == Max(1, pageSize)
      ensures
        var all := Filter(file, Selects(Options(0, None, kind)));
        && r.total == |all|
        && r.totalPages == TotalPages(r.total, r.pageSize)
        && r.entries == Page(all, r.page, r.pageSize)
    {
      var p: nat, size: nat := Max(1, page), Max(1, pageSize);
      var all := Read(Options(0, None, kind));
      var total := |all|;
      var start := Max(0, total - p * size);
      var end := total - (p - 1) * size;
      return QueryResult(Reversed(JsSlice(all, start, end)), total, p, size, TotalPages(total, size));
    }
  }
}
