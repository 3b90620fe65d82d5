/** The inbox (src/core/inbox-store.ts): an entry log with a separate read-state file, the
    in-memory store that specifies it, and cursor paging. */
module InboxStores {
  import opened Prelude
  import opened Strings

  datatype Input = Input(workspaceId: string, docs: seq<string>, comments: string)
  datatype InputError = WorkspaceRequired | EmptyEntry | EmptyDocPath

  /** An entry as read; `readAt` is absent while unread. */
  datatype Entry = Entry(id: string, ts: int, input: Input, readAt: Option<int>)

  /** `limit: undefined` is 100. */
  datatype ReadOptions = ReadOptions(limit: Option<int>, before: string, workspaceId: string)
  datatype ReadResult = ReadResult(entries: seq<Entry>, hasMore: bool)

  /** The log file never carries `readAt`; the overlay file maps ids to times. */
  datatype Files = Files(log: seq<Entry>, read: map<string, int>)

  function Validate(input: Input): Option<InputError> {
    if input.workspaceId == "" then Some(WorkspaceRequired)
    else if input.docs == [] && Trim(input.comments) == "" then Some(EmptyEntry)
    else if exists i :: 0 <= i < |input.docs| && input.docs[i] == "" then Some(EmptyDocPath)
    else None
  }

  function IndexOfId(entries: seq<Entry>, id: string): (i: nat)
    ensures i <= |entries|
    ensures i < |entries| ==> entries[i].id == id
    ensures forall j :: 0 <= j < i ==> entries[j].id != id
  {
    if entries == [] || entries[0].id == id then 0 else 1 + IndexOfId(entries[1..], id)
  }

  predicate HasId(entries: seq<Entry>, id: string) {
    IndexOfId(entries, id) < |entries|
  }

  // ----- Reading -----

  function InWorkspace(w: string): Entry -> bool {
    (e: Entry) => e.input.workspaceId == w
  }

  function ForWorkspace(entries: seq<Entry>, w: string): seq<Entry> {
    if w == "" then entries else Filter(entries, InWorkspace(w))
  }

  /** Everything older than the cursor entry; nothing when the cursor is unknown. */
  function Before(entries: seq<Entry>, before: string): seq<Entry> {
    if before == "" then entries
    else if HasId(entries, before) then entries[..IndexOfId(entries, before)]
    else []
  }

  /** `scoped.slice(-limit)`: zero keeps everything, a negative limit drops from the front. */
  function Window(scoped: seq<Entry>, limit: int): seq<Entry> {
    if limit >= 0 then SliceFromEnd(scoped, limit) else JsSlice(scoped, -limit, |scoped|)
  }

  function ReadPage(entries: seq<Entry>, o: ReadOptions): ReadResult {
    var scoped := Before(ForWorkspace(entries, o.workspaceId), o.before);
    var window := Window(scoped, o.limit.GetOr(100));
    ReadResult(Reversed(window), |window| < |scoped|)
  }

  // ----- The in-memory store -----

  function MemoryAppend(m: seq<Entry>, id: string, ts: int, input: Input): seq<Entry> {
    m + [Entry(id, ts, input, None)]
  }

  function MemoryMark(m: seq<Entry>, id: string, readAt: Option<int>): (seq<Entry>, bool) {
    var i := IndexOfId(m, id);
    if i < |m| then (m[i := m[i].(readAt := readAt)], true) else (m, false)
  }

  function MemoryDelete(m: seq<Entry>, id: string): (seq<Entry>, bool) {
    var i := IndexOfId(m, id);
    if i < |m| then (m[..i] + m[i + 1..], true) else (m, false)
  }

  // ----- The file store -----

  function Overlay(e: Entry, read: map<string, int>): Entry {
    if e.id in read && read[e.id] > 0 then e.(readAt := Some(read[e.id])) else e
  }

  function OverlayAll(log: seq<Entry>, read: map<string, int>): seq<Entry> {
    if log == [] then [] else [Overlay(log[0], read)] + OverlayAll(log[1..], read)
  }

  function View(f: Files): seq<Entry> {
    OverlayAll(f.log, f.read)
  }

  function FileAppend(f: Files, id: string, ts: int, input: Input): Files {
    f.(log := f.log + [Entry(id, ts, input, None)])
  }

  function FileMarkRead(f: Files, id: string, readAt: int): (Files, bool) {
    if HasId(f.log, id) then (f.(read := f.read[id := readAt]), true) else (f, false)
  }

  function FileMarkUnread(f: Files, id: string): (Files, bool) {
    if HasId(f.log, id) then (f.(read := f.read - {id}), true) else (f, false)
  }

  function IsNotId(id: string): Entry -> bool {
    (e: Entry) => e.id != id
  }

  function FileDelete(f: Files, id: string): (Files, bool) {
    if HasId(f.log, id) then (Files(Filter(f.log, IsNotId(id)), f.read - {id}), true) else (f, false)
  }

  // ----- Runs of both stores -----

  datatype Event =
    | Append(id: string, ts: int, input: Input)
    | MarkRead(id: string, readAt: int)
    | MarkUnread(id: string)
    | Delete(id: string)

  datatype Answer = Appended | Rejected(error: InputError) | Found(yes: bool)

  function FileNext(f: Files, e: Event): (Files, Answer) {
    match e
    case Append(id, ts, input) =>
      if Validate(input).Some? then (f, Rejected(Validate(input).value)) else (FileAppend(f, id, ts, input), Appended)
    case MarkRead(id, readAt) => var (f', yes) := FileMarkRead(f, id, readAt); (f', Found(yes))
    case MarkUnread(id) => var (f', yes) := FileMarkUnread(f, id); (f', Found(yes))
    case Delete(id) => var (f', yes) := FileDelete(f, id); (f', Found(yes))
  }

  function MemoryNext(m: seq<Entry>, e: Event): (seq<Entry>, Answer) {
    match e
    case Append(id, ts, input) =>
      if Validate(input).Some? then (m, Rejected(Validate(input).value)) else (MemoryAppend(m, id, ts, input), Appended)
    case MarkRead(id, readAt) => var (m', yes) := MemoryMark(m, id, Some(readAt)); (m', Found(yes))
    case MarkUnread(id) => var (m', yes) := MemoryMark(m, id, None); (m', Found(yes))
    case Delete(id) => var (m', yes) := MemoryDelete(m, id); (m', Found(yes))
  }

  function FileRun(f: Files, es: seq<Event>): (Files, seq<Answer>)
    decreases |es|
  {
    if es == [] then (f, []) else
      var (f', a) := FileNext(f, es[0]);
      var (end, answers) := FileRun(f', es[1..]);
      (end, [a] + answers)
  }

  function MemoryRun(m: seq<Entry>, es: seq<Event>): (seq<Entry>, seq<Answer>)
    decreases |es|
  {
    if es == [] then (m, []) else
      var (m', a) := MemoryNext(m, es[0]);
      var (end, answers) := MemoryRun(m', es[1..]);
      (end, [a] + answers)
  }

  ghost predicate DistinctIds(entries: seq<Entry>) {
    forall i, j :: 0 <= i < j < |entries| ==> entries[i].id != entries[j].id
  }

  /** Generated ids are new to the log. */
  ghost predicate FreshId(f: Files, e: Event) {
    e.Append? ==> !HasId(f.log, e.id)
  }

  /** Read times are positive. */
  predicate PositiveTime(e: Event) {
    e.MarkRead? ==> e.readAt > 0
  }

  ghost predicate FreshRun(f: Files, es: seq<Event>)
    decreases |es|
  {
    es == [] || (FreshId(f, es[0]) && FreshRun(FileNext(f, es[0]).0, es[1..]))
  }

  ghost predicate FilesOk(f: Files) {
    && DistinctIds(f.log)
    && (forall i :: 0 <= i < |f.log| ==> f.log[i].readAt.None?)
    && (forall id :: id in f.read ==> HasId(f.log, id))
  }

  // ----- Refinement -----

  lemma {:induction false} OverlayAt(log: seq<Entry>, read: map<string, int>)
    ensures |OverlayAll(log, read)| == |log|
    ensures forall i :: 0 <= i < |log| ==> OverlayAll(log, read)[i] == Overlay(log[i], read)
  {
    if log != [] { OverlayAt(log[1..], read); }
  }

  lemma SameIndex(f: Files, id: string)
    ensures IndexOfId(View(f), id) == IndexOfId(f.log, id) && |View(f)| == |f.log|
  {
    OverlayAt(f.log, f.read);
    assert forall k :: 0 <= k < |f.log| ==> View(f)[k].id == f.log[k].id;
  }

  /** Marking one id in the overlay changes at most its own entry. */
  lemma MarkRefines(f: Files, id: string, read: map<string, int>)
    requires FilesOk(f) && HasId(f.log, id)
    requires read - {id} == f.read - {id}
    ensures
      var i := IndexOfId(f.log, id);
      |View(f)| == |f.log| && OverlayAll(f.log, read) == View(f)[i := Overlay(f.log[i], read)]
  {
    var i := IndexOfId(f.log, id);
    OverlayAt(f.log, f.read);
    OverlayAt(f.log, read);
    forall j | 0 <= j < |f.log| && j != i
      ensures Overlay(f.log[j], read) == Overlay(f.log[j], f.read)
    {
      var k := f.log[j].id;
      assert k != id;
      assert k in read <==> k in read - {id};
      assert k in f.read <==> k in f.read - {id};
      assert k in read ==> read[k] == (read - {id})[k];
      assert k in f.read ==> f.read[k] == (f.read - {id})[k];
    }
  }

  lemma FilterOneOut(log: seq<Entry>, id: string)
    requires DistinctIds(log) && HasId(log, id)
    ensures Filter(log, IsNotId(id)) == log[..IndexOfId(log, id)] + log[IndexOfId(log, id) + 1..]
  {
    var i := IndexOfId(log, id);
    FilterAround(log[..i], log[i], log[i + 1..], IsNotId(id));
    assert log == log[..i] + [log[i]] + log[i + 1..];
  }

  lemma FilterAround(front: seq<Entry>, e: Entry, back: seq<Entry>, p: Entry -> bool)
    requires !p(e) && (forall x :: x in front ==> p(x)) && (forall x :: x in back ==> p(x))
    ensures Filter(front + [e] + back, p) == front + back
  {
    FilterConcat(front + [e], back, p);
    FilterSnoc(front, e, p);
    FilterAll(front, p);
    FilterAll(back, p);
    assert front + [] == front;
  }

  /** Forgetting the read time of an id no entry has changes no entry. */
  lemma {:induction false} OverlayForgets(log: seq<Entry>, read: map<string, int>, id: string)
    requires forall i :: 0 <= i < |log| ==> log[i].id != id
    ensures OverlayAll(log, read - {id}) == OverlayAll(log, read)
  {
    if log != [] {
      assert forall i :: 0 <= i < |log| - 1 ==> log[1..][i] == log[i + 1];
      OverlayForgets(log[1..], read, id);
    }
  }

  lemma {:induction false} OverlayConcat(a: seq<Entry>, b: seq<Entry>, read: map<string, int>)
    ensures OverlayAll(a + b, read) == OverlayAll(a, read) + OverlayAll(b, read)
  {
    if a == [] {
      assert a + b == b;
    } else {
      var head, rest := [Overlay(a[0], read)], OverlayAll(a[1..], read);
      calc {
        OverlayAll(a + b, read);
      ==  { assert (a + b)[0] == a[0] && (a + b)[1..] == a[1..] + b; }
        head + OverlayAll(a[1..] + b, read);
      ==  { OverlayConcat(a[1..], b, read); }
        head + (rest + OverlayAll(b, read));
      ==
        (head + rest) + OverlayAll(b, read);
      }
    }
  }

  lemma RemoveOneOk(log: seq<Entry>, i: nat, read: map<string, int>)
    requires i < |log| && FilesOk(Files(log, read))
    ensures FilesOk(Files(log[..i] + log[i + 1..], read - {log[i].id}))
    ensures var kept := log[..i] + log[i + 1..]; forall j :: 0 <= j < |kept| ==> kept[j].id != log[i].id
  {
    var kept := log[..i] + log[i + 1..];
    assert forall j :: 0 <= j < |kept| ==> kept[j] == log[if j < i then j else j + 1];
    forall k | k in read - {log[i].id}
      ensures HasId(kept, k)
    {
      var j := IndexOfId(log, k);
      assert kept[if j < i then j else j - 1] == log[j];
    }
  }

  lemma OverlaySplit(log: seq<Entry>, i: nat, read: map<string, int>)
    requires i < |log|
    ensures |OverlayAll(log, read)| == |log|
    ensures OverlayAll(log, read)[..i] == OverlayAll(log[..i], read)
    ensures OverlayAll(log, read)[i + 1..] == OverlayAll(log[i + 1..], read)
  {
    OverlayAt(log, read);
    OverlayAt(log[..i], read);
    OverlayAt(log[i + 1..], read);
  }

  lemma DeleteRefines(f: Files, id: string)
    requires FilesOk(f) && HasId(f.log, id)
    ensures
      var i := IndexOfId(f.log, id);
      && |View(f)| == |f.log|
      && View(FileDelete(f, id).0) == View(f)[..i] + View(f)[i + 1..]
      && FilesOk(FileDelete(f, id).0)
  {
    var i := IndexOfId(f.log, id);
    var front, back := f.log[..i], f.log[i + 1..];
    FilterOneOut(f.log, id);
    RemoveOneOk(f.log, i, f.read);
    OverlaySplit(f.log, i, f.read);
    calc {
      View(FileDelete(f, id).0);
    ==
      OverlayAll(front + back, f.read - {id});
    ==  { OverlayForgets(front + back, f.read, id); }
      OverlayAll(front + back, f.read);
    ==  { OverlayConcat(front, back, f.read); }
      OverlayAll(front, f.read) + OverlayAll(back, f.read);
    }
  }

  lemma AppendRefines(f: Files, id: string, ts: int, input: Input)
    requires FilesOk(f) && !HasId(f.log, id)
    ensures View(FileAppend(f, id, ts, input)) == MemoryAppend(View(f), id, ts, input)
    ensures FilesOk(FileAppend(f, id, ts, input))
  {
    var longer := FileAppend(f, id, ts, input).log;
    OverlayAt(f.log, f.read);
    OverlayAt(longer, f.read);
    forall k | k in f.read
      ensures HasId(longer, k)
    {
      assert longer[IndexOfId(f.log, k)].id == k;
    }
  }

  lemma MarkReadRefinesIff(f: Files, id: string, readAt: int)
    requires FilesOk(f)
    ensures
      var (f', yes) := FileMarkRead(f, id, readAt);
      var (m', found) := MemoryMark(View(f), id, Some(readAt));
      && FilesOk(f') && yes == found
      && (View(f') == m' <==> !(HasId(f.log, id) && readAt <= 0))
  {
    SameIndex(f, id);
    if HasId(f.log, id) {
      var i, read := IndexOfId(f.log, id), f.read[id := readAt];
      MarkRefines(f, id, read);
      OverlayAt(f.log, f.read);
      var shown, kept := Overlay(f.log[i], read), f.log[i].(readAt := Some(readAt));
      assert shown == kept <==> readAt > 0;
      assert View(f)[i := shown][i] == shown && View(f)[i := kept][i] == kept;
    }
  }

  lemma MarkUnreadRefines(f: Files, id: string)
    requires FilesOk(f)
    ensures
      var (f', yes) := FileMarkUnread(f, id);
      FilesOk(f') && (View(f'), yes) == MemoryMark(View(f), id, None)
  {
    SameIndex(f, id);
    OverlayAt(f.log, f.read);
    if HasId(f.log, id) {
      MarkRefines(f, id, f.read - {id});
    }
  }

  /** One operation: both stores answer alike and stay alike, except that a read time of zero or
      less is dropped by the overlay and kept in memory. */
  lemma StepRefinesIff(f: Files, e: Event)
    requires FilesOk(f) && FreshId(f, e)
    ensures
      var (f', a) := FileNext(f, e);
      var (m', b) := MemoryNext(View(f), e);
      && FilesOk(f')
      && a == b
      && (View(f') == m' <==> !(e.MarkRead? && HasId(f.log, e.id) && e.readAt <= 0))
  {
    match e
    case Append(id, ts, input) => AppendRefines(f, id, ts, input);
    case MarkRead(id, readAt) => MarkReadRefinesIff(f, id, readAt);
    case MarkUnread(id) => MarkUnreadRefines(f, id);
    case Delete(id) =>
      SameIndex(f, id);
      if HasId(f.log, id) { DeleteRefines(f, id); }
  }

  /** A read time of zero: the entry stays unread in the file store and is read in memory. */
  lemma ZeroReadTimeDiffers(id: string, ts: int, input: Input)
    ensures
      var f := Files([Entry(id, ts, input, None)], map[]);
      && View(FileNext(f, MarkRead(id, 0)).0) == [Entry(id, ts, input, None)]
      && MemoryNext(View(f), MarkRead(id, 0)).0 == [Entry(id, ts, input, Some(0))]
  {
    var f := Files([Entry(id, ts, input, None)], map[]);
    OverlayAt(f.log, f.read);
    OverlayAt(f.log, f.read[id := 0]);
  }

  /** Every sequential run with positive read times: same answers, and afterwards every read with
      any options returns the same page from both stores. */
  lemma {:induction false} RunRefines(f: Files, es: seq<Event>, o: ReadOptions)
    requires FilesOk(f) && FreshRun(f, es) && forall i :: 0 <= i < |es| ==> PositiveTime(es[i])
    ensures
      var (f', answers) := FileRun(f, es);
      var (m', expected) := MemoryRun(View(f), es);
      && answers == expected
      && FilesOk(f')
      && View(f') == m'
      && ReadPage(View(f'), o) == ReadPage(m', o)
    decreases |es|
  {
    if es != [] {
      assert PositiveTime(es[0]);
      StepRefinesIff(f, es[0]);
      assert forall i :: 0 <= i < |es| - 1 ==> es[1..][i] == es[i + 1];
      RunRefines(FileNext(f, es[0]).0, es[1..], o);
    }
  }

  // ----- What the specification promises -----

  /** Input is accepted exactly when it names a workspace, has a document or a comment, and every
      document has a path. */
  lemma AcceptedIff(input: Input)
    ensures Validate(input) == None <==>
              && input.workspaceId != ""
              && (input.docs != [] || Trim(input.comments) != "")
              && forall d :: d in input.docs ==> d != ""
    ensures Validate(input) == Some(WorkspaceRequired) <==> input.workspaceId == ""
  {
    assert forall i :: 0 <= i < |input.docs| ==> input.docs[i] in input.docs;
  }

  /** An accepted entry joins the end unread, as given. */
  lemma AppendIsUnread(m: seq<Entry>, id: string, ts: int, input: Input)
    requires Validate(input).None?
    ensures MemoryNext(m, Append(id, ts, input)) == (m + [Entry(id, ts, input, None)], Appended)
  {
  }

  /** Marking sets or removes the read time of the one entry, and answers whether there is one. */
  lemma MarkIsExact(m: seq<Entry>, id: string, readAt: int, i: nat)
    requires DistinctIds(m) && i < |m|
    ensures
      var (read, found) := MemoryNext(m, MarkRead(id, readAt));
      && |read| == |m| && read[i] == (if m[i].id == id then m[i].(readAt := Some(readAt)) else m[i])
      && found == Found(exists j :: 0 <= j < |m| && m[j].id == id)
    ensures
      var (unread, found) := MemoryNext(m, MarkUnread(id));
      && |unread| == |m| && unread[i] == (if m[i].id == id then m[i].(readAt := None) else m[i])
      && found == Found(exists j :: 0 <= j < |m| && m[j].id == id)
  {
    var k := IndexOfId(m, id);
    if k < |m| { assert m[k].id == id; }
  }

  /** Deleting removes the one entry and no other. */
  lemma DeleteIsExact(m: seq<Entry>, id: string)
    requires DistinctIds(m)
    ensures
      var (rest, found) := MemoryNext(m, Delete(id));
      && (forall e :: e in rest <==> e in m && e.id != id)
      && found == Found(exists j :: 0 <= j < |m| && m[j].id == id)
  {
    var k := IndexOfId(m, id);
    var rest := MemoryNext(m, Delete(id)).0;
    if k < |m| {
      assert m == m[..k] + [m[k]] + m[k + 1..];
      forall e | e in rest
        ensures e.id != id
      {
        if e in m[k + 1..] {
          var j :| 0 <= j < |m[k + 1..]| && m[k + 1..][j] == e;
          assert m[k].id != m[k + 1 + j].id;
        }
      }
    }
  }

  /** A workspace's entries are those that name it, and with no workspace all of them. */
  lemma InScopeIff(entries: seq<Entry>, w: string, e: Entry)
    ensures e in ForWorkspace(entries, w) <==> e in entries && (w == "" || e.input.workspaceId == w)
  {
    FilterMembers(entries, InWorkspace(w));
  }

  /** A limit of zero is no limit, and a negative one leaves out that many of the oldest. */
  lemma OddLimits(entries: seq<Entry>, limit: int)
    requires limit <= 0
    ensures
      var r := ReadPage(entries, ReadOptions(Some(limit), "", ""));
      var k := Min(-limit, |entries|);
      r == ReadResult(Reversed(entries[k..]), k > 0)
  {
    var k := Min(-limit, |entries|);
    assert Window(entries, limit) == entries[k..];
  }

  // ----- Paging -----

  /** Successive reads, each with `before` set to the last entry of the page before. */
  ghost function Walk(page: (nat, string) -> ReadResult, k: nat, before: string, fuel: nat): seq<Entry>
    decreases fuel
  {
    var r := page(k, before);
    if !r.hasMore || r.entries == [] || fuel == 0 then r.entries
    else r.entries + Walk(page, k + 1, r.entries[|r.entries| - 1].id, fuel - 1)
  }

  /** The `k`-th read goes to the `k`-th log: entries may have been appended between pages. */
  ghost function Reader(logs: nat -> seq<Entry>, w: string, limit: nat): (nat, string) -> ReadResult {
    (k: nat, before: string) => ReadPage(logs(k), ReadOptions(Some(limit), before, w))
  }

  /** Each log extends the one before it, with distinct non-empty ids. */
  ghost predicate Growing(logs: nat -> seq<Entry>) {
    forall k: nat :: GrowsAt(logs, k)
  }

  ghost predicate GrowsAt(logs: nat -> seq<Entry>, k: nat) {
    logs(k) <= logs(k + 1) && DistinctIds(logs(k)) && forall e :: e in logs(k) ==> e.id != ""
  }

  lemma FilterKeepsIds(entries: seq<Entry>, w: string)
    requires DistinctIds(entries)
    ensures DistinctIds(ForWorkspace(entries, w))
  {
    if w != "" { FilterDistinctIds(entries, w); }
  }

  lemma {:induction false} FilterDistinctIds(entries: seq<Entry>, w: string)
    requires DistinctIds(entries)
    ensures DistinctIds(Filter(entries, InWorkspace(w)))
  {
    if entries != [] {
      FilterDistinctIds(entries[1..], w);
      FilterMembers(entries[1..], InWorkspace(w));
      var rest := Filter(entries[1..], InWorkspace(w));
      forall j | 0 <= j < |rest|
        ensures rest[j].id != entries[0].id
      {
        assert rest[j] in entries[1..];
        var i :| 0 <= i < |entries[1..]| && entries[1..][i] == rest[j];
        assert entries[i + 1].id != entries[0].id;
      }
    }
  }

  lemma ForWorkspacePrefix(a: seq<Entry>, b: seq<Entry>, w: string)
    requires a <= b
    ensures ForWorkspace(a, w) <= ForWorkspace(b, w)
  {
    if w != "" {
      FilterPrefix(b, |a|, InWorkspace(w));
      assert b[..|a|] == a;
    }
  }

  /** The cursor finds its own place whatever was appended since. */
  lemma BeforeIsStable(all: seq<Entry>, base: seq<Entry>, i: nat)
    requires base <= all && DistinctIds(all) && i < |base| && base[i].id != ""
    ensures Before(all, base[i].id) == base[..i]
  {
    var j := IndexOfId(all, base[i].id);
    assert all[i] == base[i];
  }

  /** One page below position `top` and the cursor it leaves. */
  lemma PageBelow(scoped: seq<Entry>, limit: nat)
    requires limit >= 1
    ensures
      var window := Window(scoped, limit);
      var cut := if |scoped| <= limit then 0 else |scoped| - limit;
      && window == scoped[cut..]
      && (|window| < |scoped| <==> cut > 0)
      && (window != [] <==> scoped != [])
      && (scoped != [] ==> Reversed(window) != [] && Reversed(window)[|Reversed(window)| - 1] == scoped[cut])
  {
    ReversedIndex(Window(scoped, limit));
  }

  /** Where a page of `limit` entries below position `top` starts. */
  function PageStart(top: nat, limit: nat): nat {
    if top <= limit then 0 else top - limit
  }

  /** The cursor `before` stands at position `top` of the first view. */
  ghost predicate StandsAt(entries: seq<Entry>, base: seq<Entry>, w: string, top: nat, before: string) {
    && base <= ForWorkspace(entries, w)
    && top <= |base|
    && (if before == "" then base == ForWorkspace(entries, w) && top == |base| else top < |base| && base[top].id == before)
  }

  lemma PageAtCursor(entries: seq<Entry>, base: seq<Entry>, w: string, top: nat, before: string, limit: nat)
    requires DistinctIds(entries) && StandsAt(entries, base, w, top, before) && limit >= 1
    ensures
      var r := ReadPage(entries, ReadOptions(Some(limit), before, w));
      var start := PageStart(top, limit);
      && r == ReadResult(Reversed(base[start..top]), start > 0)
      && (start > 0 ==> r.entries != [] && r.entries[|r.entries| - 1] == base[start])
  {
    FilterKeepsIds(entries, w);
    if before == "" {
      assert base[..top] == base;
    } else {
      BeforeIsStable(ForWorkspace(entries, w), base, top);
    }
    assert Before(ForWorkspace(entries, w), before) == base[..top];
    PageBelow(base[..top], limit);
    var start := PageStart(top, limit);
    assert base[..top][start..] == base[start..top];
  }

  /** The page below position `top`. */
  function PageBelowTop(base: seq<Entry>, top: nat, limit: nat): ReadResult
    requires top <= |base|
  {
    ReadResult(Reversed(base[PageStart(top, limit)..top]), PageStart(top, limit) > 0)
  }

  /** A reader whose pages are the stretches of `base` lists everything below its cursor, newest
      first and without gap or repetition. */
  lemma {:induction false} WalkFrom(page: (nat, string) -> ReadResult, base: seq<Entry>, k: nat, top: nat, before: string, limit: nat, fuel: nat)
    requires limit >= 1 && fuel >= top && top <= |base|
    requires page(k, before) == PageBelowTop(base, top, limit)
    requires forall j: nat, t: nat :: k < j && t < |base| ==> page(j, base[t].id) == PageBelowTop(base, t, limit)
    ensures Walk(page, k, before, fuel) == Reversed(base[..top])
    decreases fuel
  {
    var start := PageStart(top, limit);
    ReversedIndex(base[start..top]);
    ReversedSplit(base, start, top);
    if start > 0 {
      WalkFrom(page, base, k + 1, start, base[start].id, limit, fuel - 1);
    }
  }

  lemma ReversedSplit(base: seq<Entry>, start: nat, top: nat)
    requires start <= top <= |base|
    ensures Reversed(base[..top]) == Reversed(base[start..top]) + Reversed(base[..start])
    ensures start == 0 ==> base[start..top] == base[..top]
  {
    ReversedConcat(base[..start], base[start..top]);
    assert base[..start] + base[start..top] == base[..top];
  }

  lemma BaseIdsNonEmpty(logs: nat -> seq<Entry>, base: seq<Entry>, k: nat, w: string, i: nat)
    requires Growing(logs) && base <= ForWorkspace(logs(k), w) && i < |base|
    ensures base[i].id != ""
  {
    assert GrowsAt(logs, k);
    if w != "" { FilterMembers(logs(k), InWorkspace(w)); }
    assert base[i] in ForWorkspace(logs(k), w);
  }

  lemma PrefixOfLater(logs: nat -> seq<Entry>, j: nat, w: string)
    requires Growing(logs)
    ensures ForWorkspace(logs(0), w) <= ForWorkspace(logs(j), w)
  {
    if j > 0 {
      PrefixOfLater(logs, j - 1, w);
      assert GrowsAt(logs, j - 1);
      ForWorkspacePrefix(logs(j - 1), logs(j), w);
    }
  }

  /** Any later log answers a cursor of the first view with the first view's page. */
  lemma LaterPage(logs: nat -> seq<Entry>, w: string, limit: nat, j: nat, t: nat)
    requires Growing(logs) && limit >= 1 && t < |ForWorkspace(logs(0), w)|
    ensures
      var base := ForWorkspace(logs(0), w);
      Reader(logs, w, limit)(j, base[t].id) == PageBelowTop(base, t, limit)
  {
    var base := ForWorkspace(logs(0), w);
    PrefixOfLater(logs, j, w);
    assert GrowsAt(logs, j);
    BaseIdsNonEmpty(logs, base, 0, w, t);
    PageAtCursor(logs(j), base, w, t, base[t].id, limit);
  }

  /** Paging visits each entry present at the first page exactly once, newest first, no matter
      what is appended between pages; later arrivals never appear. */
  lemma PagingVisitsEachOnce(logs: nat -> seq<Entry>, w: string, limit: nat, fuel: nat)
    requires Growing(logs) && limit >= 1 && fuel >= |logs(0)|
    ensures Walk(Reader(logs, w, limit), 0, "", fuel) == Reversed(ForWorkspace(logs(0), w))
  {
    var base, page := ForWorkspace(logs(0), w), Reader(logs, w, limit);
    if w != "" { FilterMembers(logs(0), InWorkspace(w)); }
    assert GrowsAt(logs, 0);
    PageAtCursor(logs(0), base, w, |base|, "", limit);
    forall j: nat, t: nat | 0 < j && t < |base|
      ensures page(j, base[t].id) == PageBelowTop(base, t, limit)
    {
      LaterPage(logs, w, limit, j, t);
    }
    WalkFrom(page, base, 0, |base|, "", limit, fuel);
    assert base[..|base|] == base;
  }

  /** `hasMore` is false exactly on a page that reaches the oldest entry in scope. */
  lemma HasMoreIff(entries: seq<Entry>, o: ReadOptions)
    requires o.limit.GetOr(100) >= 1
    ensures
      var scoped := Before(ForWorkspace(entries, o.workspaceId), o.before);
      var r := ReadPage(entries, o);
      && (r.hasMore <==> |scoped| > o.limit.GetOr(100))
      && (!r.hasMore <==> r.entries == Reversed(scoped))
      && |r.entries| <= o.limit.GetOr(100)
  {
    var scoped := Before(ForWorkspace(entries, o.workspaceId), o.before);
    ReversedIndex(Window(scoped, o.limit.GetOr(100)));
    ReversedIndex(scoped);
  }
}
