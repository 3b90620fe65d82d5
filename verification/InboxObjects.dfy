/** The two inbox stores of src/core/inbox-store.ts as objects. */
module InboxObjects {
  import opened Prelude
  import opened InboxStores

  /** The scan of `delete`: every line but those of `id`, and whether there was one. */
  method KeepOthers(lines: seq<Entry>, id: string) returns (kept: seq<Entry>, removed: bool)
    ensures kept == Filter(lines, IsNotId(id))
    ensures removed <==> HasId(lines, id)
  {
    kept, removed := [], false;
    for i := 0 to |lines|
      invariant kept == Filter(lines[..i], IsNotId(id))
      invariant removed ==> HasId(lines, id)
      invariant !removed ==> forall j :: 0 <= j < i ==> lines[j].id != id
    {
      FilterSnoc(lines[..i], lines[i], IsNotId(id));
      assert lines[..i + 1] == lines[..i] + [lines[i]];
      if lines[i].id == id {
        removed := true;
      } else {
        kept := kept + [lines[i]];
      }
    }
    assert lines[..|lines|] == lines;
  }

  /** `createInboxStore`: the entry log and the read-state file. */
  class FileInbox {
    var log: seq<Entry>
    var read: map<string, int>

    ghost function State(): Files
      reads this
    {
      Files(log, read)
    }

    constructor (existing: Files)
      ensures State() == existing
    {
      log, read := existing.log, existing.read;
    }

    method EntryExists(id: string) returns (r: bool)
      ensures r <==> HasId(log, id)
    {
      for i := 0 to |log|
        invariant forall j :: 0 <= j < i ==> log[j].id != id
      {
        if log[i].id == id {
          return true;
        }
      }
      return false;
    }

    method AppendEntry(id: string, ts: int, input: Input) returns (r: Answer)
      modifies this
      ensures (State(), r) == FileNext(old(State()), Append(id, ts, input))
    {
      var invalid := Validate(input);
      if invalid.Some? {
        return Rejected(invalid.value);
      }
      log := log + [Entry(id, ts, input, None)];
      return Appended;
    }

    method MarkEntryRead(id: string, readAt: int) returns (r: bool)
      modifies this
      ensures (State(), Found(r)) == FileNext(old(State()), MarkRead(id, readAt))
    {
      r := EntryExists(id);
      if r {
        read := read[id := readAt];
      }
    }

    method MarkEntryUnread(id: string) returns (r: bool)
      modifies this
      ensures (State(), Found(r)) == FileNext(old(State()), MarkUnread(id))
    {
      r := EntryExists(id);
      if !r || id !in read {
        assert read - {id} == read || !r;
        return;
      }
      read := read - {id};
    }

    method DeleteEntry(id: string) returns (removed: bool)
      modifies this
      ensures (State(), Found(removed)) == FileNext(old(State()), Delete(id))
    {
      var kept: seq<Entry>;
      kept, removed := KeepOthers(log, id);
      if removed {
        log := kept;
        read := read - {id};
      }
    }

    method ReadEntries(o: ReadOptions) returns (r: ReadResult)
      ensures r == ReadPage(View(State()), o)
    {
      var all: seq<Entry> := [];
      for i := 0 to |log|
        invariant all + OverlayAll(log[i..], read) == OverlayAll(log, read)
      {
        assert log[i..][1..] == log[i + 1..];
        all := all + [Overlay(log[i], read)];
      }
      assert all == View(State());
      if o.workspaceId != "" {
        all := Filter(all, InWorkspace(o.workspaceId));
      }
      var scoped := all;
      if o.before != "" {
        var idx := IndexOfId(all, o.before);
        scoped := if idx < |all| then all[..idx] else [];
      }
      var window := Window(scoped, o.limit.GetOr(100));
      return ReadResult(Reversed(window), |window| < |scoped|);
    }
  }

  /** `createMemoryInboxStore`: one array whose entries are edited in place. */
  class MemoryInbox {
    var entries: seq<Entry>

    constructor ()
      ensures entries == []
    {
      entries := [];
    }

    method AppendEntry(id: string, ts: int, input: Input) returns (r: Answer)
      modifies this
      ensures (entries, r) == MemoryNext(old(entries), Append(id, ts, input))
    {
      var invalid := Validate(input);
      if invalid.Some? {
        return Rejected(invalid.value);
      }
      entries := entries + [Entry(id, ts, input, None)];
      return Appended;
    }

    method Mark(id: string, readAt: Option<int>) returns (r: bool)
      modifies this
      ensures (entries, r) == MemoryMark(old(entries), id, readAt)
    {
      var idx := IndexOfId(entries, id);
      if idx >= |entries| {
        return false;
      }
      entries := entries[idx := entries[idx].(readAt := readAt)];
      return true;
    }

    method DeleteEntry(id: string) returns (removed: bool)
      modifies this
      ensures (entries, Found(removed)) == MemoryNext(old(entries), Delete(id))
    {
      var idx := IndexOfId(entries, id);
      if idx >= |entries| {
        return false;
      }
      entries := entries[..idx] + entries[idx + 1..];
      return true;
    }
  }
}
