/** The registry of headless runs and its pruning (src/workspaces/headless-task-registry.ts). */
module HeadlessRegistries {
  import opened Prelude

  const MAX_RECORDS := 200

  datatype Status = Running | Finished | Failed | Interrupted
  datatype Record = Record(
    taskId: string, wsId: string, agent: string, prompt: string,
    status: Status, startedAt: int, finishedAt: Option<int>, agentSessionId: Option<string>)

  /** A completion patch: absent fields stay as they are. */
  datatype Patch = Patch(status: Option<Status>, finishedAt: Option<int>)

  datatype Event =
    | Create(record: Record)
    | Complete(taskId: string, patch: Patch)
    | SetAgentSession(taskId: string, agentSessionId: string)
    | Restart

  function IsRunning(): Record -> bool {
    (r: Record) => r.status == Running
  }

  function IsFinished(): Record -> bool {
    (r: Record) => r.status != Running
  }

  function IdsOf(rs: seq<Record>): set<string> {
    set r | r in rs :: r.taskId
  }

  function NotAmong(ids: set<string>): Record -> bool {
    (r: Record) => r.taskId !in ids
  }

  ghost predicate DistinctIds(rs: seq<Record>) {
    forall i, j :: 0 <= i < j < |rs| ==> rs[i].taskId != rs[j].taskId
  }

  /** The ids `flush` drops: those of the oldest finished records over the limit. */
  function ToDrop(tasks: seq<Record>): set<string> {
    if |tasks| <= MAX_RECORDS then {}
    else
      var finished := Filter(tasks, IsFinished());
      IdsOf(finished[..Min(|tasks| - MAX_RECORDS, |finished|)])
  }

  function Prune(tasks: seq<Record>): seq<Record> {
    Filter(tasks, NotAmong(ToDrop(tasks)))
  }

  /** The intent, independent of ids: remove the first `d` finished records. */
  function DropOldest(tasks: seq<Record>, d: nat): seq<Record> {
    if tasks == [] || d == 0 then tasks
    else if tasks[0].status == Running then [tasks[0]] + DropOldest(tasks[1..], d)
    else DropOldest(tasks[1..], d - 1)
  }

  function Reconciled(r: Record): Record {
    if r.status == Running
    then r.(status := Interrupted, finishedAt := Some(r.finishedAt.GetOr(r.startedAt)))
    else r
  }

  function ReconcileAll(rs: seq<Record>): seq<Record> {
    if rs == [] then [] else [Reconciled(rs[0])] + ReconcileAll(rs[1..])
  }

  function IndexOfTask(rs: seq<Record>, id: string): (i: nat)
    ensures i <= |rs|
    ensures i < |rs| ==> rs[i].taskId == id
    ensures forall j :: 0 <= j < i ==> rs[j].taskId != id
  {
    if rs == [] || rs[0].taskId == id then 0 else 1 + IndexOfTask(rs[1..], id)
  }

  function Patched(r: Record, p: Patch): Record {
    r.(status := p.status.GetOr(r.status), finishedAt := if p.finishedAt.Some? then p.finishedAt else r.finishedAt)
  }

  function Next(tasks: seq<Record>, e: Event): seq<Record> {
    match e
    case Create(record) => Prune(tasks + [record.(status := Running)])
    case Complete(id, patch) =>
      var i := IndexOfTask(tasks, id);
      if i < |tasks| then Prune(tasks[i := Patched(tasks[i], patch)]) else tasks
    case SetAgentSession(id, session) =>
      var i := IndexOfTask(tasks, id);
      if i == |tasks| || tasks[i].agentSessionId == Some(session) then tasks
      else Prune(tasks[i := tasks[i].(agentSessionId := Some(session))])
    case Restart =>
      if Filter(tasks, IsRunning()) == [] then tasks else Prune(ReconcileAll(tasks))
  }

  function Run(tasks: seq<Record>, es: seq<Event>): seq<Record>
    decreases |es|
  {
    if es == [] then tasks else Run(Next(tasks, es[0]), es[1..])
  }

  /** Task ids are generated fresh. */
  ghost predicate FreshRun(tasks: seq<Record>, es: seq<Event>)
    decreases |es|
  {
    es == [] ||
    ((es[0].Create? ==> es[0].record.taskId !in IdsOf(tasks)) && FreshRun(Next(tasks, es[0]), es[1..]))
  }

  // ----- Pruning -----

  /** Dropping the oldest finished records keeps every running one, in order, and a suffix of the
      finished ones. */
  lemma {:induction false} DropOldestFacts(tasks: seq<Record>, d: nat)
    ensures
      var out, finished := DropOldest(tasks, d), Filter(tasks, IsFinished());
      && Filter(out, IsRunning()) == Filter(tasks, IsRunning())
      && Filter(out, IsFinished()) == finished[Min(d, |finished|)..]
      && |out| == |tasks| - Min(d, |finished|)
  {
    if tasks != [] && d > 0 {
      var head, rest := tasks[0], tasks[1..];
      if head.status == Running {
        DropOldestFacts(rest, d);
      } else {
        DropOldestFacts(rest, d - 1);
      }
      assert tasks == [head] + rest;
    }
  }

  lemma TailDistinct(tasks: seq<Record>)
    requires tasks != [] && DistinctIds(tasks)
    ensures DistinctIds(tasks[1..]) && tasks[0].taskId !in IdsOf(tasks[1..])
  {
    forall r | r in tasks[1..]
      ensures r.taskId != tasks[0].taskId
    {
      var i :| 0 <= i < |tasks[1..]| && tasks[1..][i] == r;
      assert tasks[i + 1].taskId != tasks[0].taskId;
    }
  }

  lemma KeepAllUnless(tasks: seq<Record>, ids: set<string>)
    requires ids !! IdsOf(tasks)
    ensures Filter(tasks, NotAmong(ids)) == tasks
  {
    forall r | r in tasks
      ensures NotAmong(ids)(r)
    {
      assert r.taskId in IdsOf(tasks);
    }
    FilterAll(tasks, NotAmong(ids));
  }

  /** An extra id that no record has makes no difference. */
  lemma {:induction false} IgnoreForeignId(tasks: seq<Record>, ids: set<string>, id: string)
    requires id !in IdsOf(tasks)
    ensures Filter(tasks, NotAmong(ids + {id})) == Filter(tasks, NotAmong(ids))
  {
    if tasks != [] {
      assert tasks[0] in tasks;
      assert tasks[0].taskId in IdsOf(tasks);
      forall x | x in IdsOf(tasks[1..])
        ensures x in IdsOf(tasks)
      {
        var r :| r in tasks[1..] && r.taskId == x;
        assert r in tasks;
      }
      IgnoreForeignId(tasks[1..], ids, id);
    }
  }

  /** Filtering by the ids of the oldest finished records is dropping those records. */
  lemma {:induction false} FilterIsDropOldest(tasks: seq<Record>, d: nat)
    requires DistinctIds(tasks) && d <= |Filter(tasks, IsFinished())|
    ensures Filter(tasks, NotAmong(IdsOf(Filter(tasks, IsFinished())[..d]))) == DropOldest(tasks, d)
  {
    if tasks == [] || d == 0 {
      KeepAllUnless(tasks, IdsOf(Filter(tasks, IsFinished())[..0]));
    } else {
      var head, rest := tasks[0], tasks[1..];
      TailDistinct(tasks);
      assert tasks == [head] + rest;
      if head.status == Running {
        FilterIsDropOldest(rest, d);
        KeptHead(head, rest, d);
      } else {
        FilterIsDropOldest(rest, d - 1);
        DroppedHead(head, rest, d);
      }
    }
  }

  /** A running first record survives, and changes nothing for the others. */
  lemma KeptHead(head: Record, rest: seq<Record>, d: nat)
    requires head.taskId !in IdsOf(rest) && d <= |Filter(rest, IsFinished())|
    ensures
      var ids := IdsOf(Filter(rest, IsFinished())[..d]);
      Filter([head] + rest, NotAmong(ids)) == [head] + Filter(rest, NotAmong(ids))
  {
    var finished := Filter(rest, IsFinished());
    FilterMembers(rest, IsFinished());
    assert forall r :: r in finished[..d] ==> r in finished;
    assert ([head] + rest)[1..] == rest;
  }

  /** A dropped first record takes its id with it. */
  lemma DroppedHead(head: Record, rest: seq<Record>, d: nat)
    requires head.taskId !in IdsOf(rest) && 0 < d <= |Filter(rest, IsFinished())| + 1
    ensures
      var finished := Filter(rest, IsFinished());
      Filter([head] + rest, NotAmong(IdsOf(([head] + finished)[..d]))) == Filter(rest, NotAmong(IdsOf(finished[..d - 1])))
  {
    var finished := Filter(rest, IsFinished());
    assert ([head] + finished)[..d] == [head] + finished[..d - 1];
    assert IdsOf(([head] + finished)[..d]) == IdsOf(finished[..d - 1]) + {head.taskId};
    IgnoreForeignId(rest, IdsOf(finished[..d - 1]), head.taskId);
    assert ([head] + rest)[1..] == rest;
  }

  function Excess(tasks: seq<Record>): nat {
    if |tasks| <= MAX_RECORDS then 0 else |tasks| - MAX_RECORDS
  }

  lemma PruneIsDropOldest(tasks: seq<Record>)
    requires DistinctIds(tasks)
    ensures Prune(tasks) == DropOldest(tasks, Excess(tasks))
  {
    var finished := Filter(tasks, IsFinished());
    var d := Min(Excess(tasks), |finished|);
    if |tasks| <= MAX_RECORDS {
      KeepAllUnless(tasks, {});
    } else {
      calc {
        Prune(tasks);
      ==
        Filter(tasks, NotAmong(IdsOf(finished[..d])));
      ==  { FilterIsDropOldest(tasks, d); }
        DropOldest(tasks, d);
      ==  { DropMore(tasks, d, Excess(tasks)); }
        DropOldest(tasks, Excess(tasks));
      }
    }
  }

  /** Asking to drop more finished records than there are drops them all. */
  lemma {:induction false} DropMore(tasks: seq<Record>, d: nat, more: nat)
    requires d <= more && (d == more || d == |Filter(tasks, IsFinished())|)
    ensures DropOldest(tasks, d) == DropOldest(tasks, more)
  {
    if tasks != [] && d < more {
      if tasks[0].status == Running {
        DropMore(tasks[1..], d, more);
        if d == 0 {
          assert DropOldest(tasks[1..], 0) == tasks[1..];
        }
      } else {
        DropMore(tasks[1..], d - 1, more - 1);
      }
    }
  }

  predicate Bounded(tasks: seq<Record>) {
    |tasks| <= MAX_RECORDS || forall r :: r in tasks ==> r.status == Running
  }

  lemma AllDropped(out: seq<Record>)
    requires Filter(out, IsFinished()) == []
    ensures forall r :: r in out ==> r.status == Running
  {
    FilterMembers(out, IsFinished());
    assert forall r :: r in out && r.status != Running ==> r in Filter(out, IsFinished());
  }

  /** A flush loses no running record, keeps order, drops finished records oldest first, and
      leaves at most 200 records or only running ones. */
  lemma FlushFacts(tasks: seq<Record>)
    requires DistinctIds(tasks)
    ensures
      var out, finished := Prune(tasks), Filter(tasks, IsFinished());
      var k := Min(Max(0, |tasks| - 200), |finished|);
      && Filter(out, IsRunning()) == Filter(tasks, IsRunning())
      && Filter(out, IsFinished()) == finished[k..]
      && |out| == |tasks| - k
      && (|out| <= 200 || forall r :: r in out ==> r.status == Running)
      && DistinctIds(out)
  {
    PruneIsDropOldest(tasks);
    DropOldestFacts(tasks, Excess(tasks));
    FilterDistinct(tasks, ToDrop(tasks));
    if |Prune(tasks)| > MAX_RECORDS {
      AllDropped(Prune(tasks));
    }
  }

  lemma {:induction false} FilterDistinct(tasks: seq<Record>, ids: set<string>)
    requires DistinctIds(tasks)
    ensures DistinctIds(Filter(tasks, NotAmong(ids)))
    ensures IdsOf(Filter(tasks, NotAmong(ids))) <= IdsOf(tasks)
  {
    FilterMembers(tasks, NotAmong(ids));
    if tasks != [] {
      TailDistinct(tasks);
      FilterDistinct(tasks[1..], ids);
      var rest := Filter(tasks[1..], NotAmong(ids));
      assert forall i :: 0 <= i < |rest| ==> rest[i].taskId in IdsOf(rest);
    }
  }

  /** A running record with the id of one of the oldest finished records over the limit. */
  ghost predicate SharesDroppedId(tasks: seq<Record>) {
    exists i, j :: SharesId(tasks, i, j)
  }

  ghost predicate SharesId(tasks: seq<Record>, i: int, j: int) {
    var finished := Filter(tasks, IsFinished());
    && 0 <= i < |finished| && i < |tasks| - 200
    && 0 <= j < |tasks| && tasks[j].status == Running
    && finished[i].taskId == tasks[j].taskId
  }

  /** Without distinct ids a flush loses running records exactly when one of them has the id of
      one of the first |tasks| - 200 finished records. */
  lemma RunningLostIff(tasks: seq<Record>)
    ensures Filter(Prune(tasks), IsRunning()) != Filter(tasks, IsRunning()) <==> SharesDroppedId(tasks)
  {
    var running, finished, ids := Filter(tasks, IsRunning()), Filter(tasks, IsFinished()), ToDrop(tasks);
    FilterCommutes(tasks, NotAmong(ids), IsRunning());
    FilterMembers(tasks, IsRunning());
    FilterMembers(running, NotAmong(ids));
    if SharesDroppedId(tasks) {
      var i, j :| SharesId(tasks, i, j);
      assert finished[i] in finished[..Min(|tasks| - MAX_RECORDS, |finished|)];
      assert tasks[j].taskId in ids && tasks[j] in running;
    } else {
      forall id | id in ids
        ensures id !in IdsOf(running)
      {
        var i :| 0 <= i < Min(|tasks| - MAX_RECORDS, |finished|) && finished[i].taskId == id;
        if r :| r in running && r.taskId == id {
          var j :| 0 <= j < |tasks| && tasks[j] == r;
          assert SharesId(tasks, i, j);
        }
      }
      KeepAllUnless(running, ids);
    }
  }

  /** One finished and 200 running records with one id: the flush drops them all. */
  lemma SharedIdLosesAll(done: Record, live: Record)
    requires done.status != Running && live.status == Running && done.taskId == live.taskId
    ensures Prune([done] + seq(200, _ => live)) == []
  {
    var running: seq<Record> := seq(200, _ => live);
    var tasks := [done] + running;
    assert forall r :: r in running ==> r == live;
    FilterNone(running, IsFinished());
    assert tasks[1..] == running;
    assert Filter(tasks, IsFinished()) == [done] + [] == [done];
    assert ToDrop(tasks) == IdsOf([done][..1]) == {live.taskId};
    forall r | r in tasks
      ensures !NotAmong(ToDrop(tasks))(r)
    {
    }
    FilterNone(tasks, NotAmong(ToDrop(tasks)));
  }

  // ----- Runs -----

  lemma {:induction false} ReconcileAt(rs: seq<Record>)
    ensures |ReconcileAll(rs)| == |rs|
    ensures forall i :: 0 <= i < |rs| ==> ReconcileAll(rs)[i] == Reconciled(rs[i])
  {
    if rs != [] { ReconcileAt(rs[1..]); }
  }

  lemma StepKeepsRegistry(tasks: seq<Record>, e: Event)
    requires DistinctIds(tasks) && Bounded(tasks)
    requires e.Create? ==> e.record.taskId !in IdsOf(tasks)
    ensures DistinctIds(Next(tasks, e)) && Bounded(Next(tasks, e))
  {
    match e
    case Create(record) =>
      assert forall i :: 0 <= i < |tasks| ==> tasks[i].taskId in IdsOf(tasks);
      FlushFacts(tasks + [record.(status := Running)]);
    case Complete(id, patch) =>
      var i := IndexOfTask(tasks, id);
      if i < |tasks| { FlushFacts(tasks[i := Patched(tasks[i], patch)]); }
    case SetAgentSession(id, session) =>
      var i := IndexOfTask(tasks, id);
      if i < |tasks| { FlushFacts(tasks[i := tasks[i].(agentSessionId := Some(session))]); }
    case Restart =>
      ReconcileAt(tasks);
      FlushFacts(ReconcileAll(tasks));
  }

  /** Over every run from an empty registry: at most 200 records, or only running ones. */
  lemma {:induction false} RegistryStaysBounded(tasks: seq<Record>, es: seq<Event>)
    requires DistinctIds(tasks) && Bounded(tasks) && FreshRun(tasks, es)
    ensures DistinctIds(Run(tasks, es)) && Bounded(Run(tasks, es))
    decreases |es|
  {
    if es != [] {
      StepKeepsRegistry(tasks, es[0]);
      RegistryStaysBounded(Next(tasks, es[0]), es[1..]);
    }
  }

  /** A created record is running and newest, with all it was created with, and no other running
      record goes. */
  lemma CreatedIsKept(tasks: seq<Record>, record: Record)
    requires DistinctIds(tasks) && record.taskId !in IdsOf(tasks)
    ensures Filter(Next(tasks, Create(record)), IsRunning()) == Filter(tasks, IsRunning()) + [record.(status := Running)]
  {
    var r := record.(status := Running);
    assert forall i :: 0 <= i < |tasks| ==> tasks[i].taskId in IdsOf(tasks);
    FlushFacts(tasks + [r]);
    FilterSnoc(tasks, r, IsRunning());
  }

  /** Below the limit an update changes exactly the fields it names, of exactly the record it names;
      an unknown id changes nothing. */
  lemma UpdatesAreExact(tasks: seq<Record>, id: string, patch: Patch, session: string, i: nat)
    requires DistinctIds(tasks) && |tasks| <= 200 && i < |tasks|
    ensures
      var done := Next(tasks, Complete(id, patch));
      && |done| == |tasks|
      && (tasks[i].taskId != id ==> done[i] == tasks[i])
      && (tasks[i].taskId == id ==>
            && done[i] == tasks[i].(status := done[i].status, finishedAt := done[i].finishedAt)
            && done[i].status == (if patch.status.Some? then patch.status.value else tasks[i].status)
            && done[i].finishedAt == (if patch.finishedAt.Some? then patch.finishedAt else tasks[i].finishedAt))
    ensures
      var named := Next(tasks, SetAgentSession(id, session));
      && |named| == |tasks|
      && named[i] == (if tasks[i].taskId == id then tasks[i].(agentSessionId := Some(session)) else tasks[i])
  {
    var k := IndexOfTask(tasks, id);
    if k < |tasks| {
      KeepAllUnless(tasks[k := Patched(tasks[k], patch)], {});
      KeepAllUnless(tasks[k := tasks[k].(agentSessionId := Some(session))], {});
    }
  }

  /** Below the limit a restart interrupts exactly the running records, which finish when they say
      they did, or else when they started. */
  lemma RestartIsExact(tasks: seq<Record>, i: nat)
    requires |tasks| <= 200 && i < |tasks|
    ensures
      var next := Next(tasks, Restart);
      && |next| == |tasks|
      && next[i] ==
           (if tasks[i].status != Running then tasks[i]
            else tasks[i].(status := Interrupted,
                           finishedAt := Some(if tasks[i].finishedAt.Some? then tasks[i].finishedAt.value else tasks[i].startedAt)))
  {
    ReconcileAt(tasks);
    KeepAllUnless(ReconcileAll(tasks), {});
    FilterMembers(tasks, IsRunning());
    assert tasks[i] in tasks;
  }

  /** A restart leaves no record running, and records a finish time for each it interrupts. */
  lemma NoZombieAfterRestart(tasks: seq<Record>)
    ensures Filter(Next(tasks, Restart), IsRunning()) == []
    ensures forall r :: r in Next(tasks, Restart) && r.status == Interrupted && r !in tasks ==> r.finishedAt.Some?
  {
    var out := Next(tasks, Restart);
    if Filter(tasks, IsRunning()) != [] {
      var rec := ReconcileAll(tasks);
      ReconcileAt(tasks);
      FilterMembers(rec, NotAmong(ToDrop(rec)));
      forall r | r in rec
        ensures r.status != Running && (r in tasks || r.finishedAt.Some?)
      {
        var i :| 0 <= i < |rec| && rec[i] == r;
        assert r == Reconciled(tasks[i]);
      }
      FilterNone(out, IsRunning());
    }
  }

  // ----- The registry object -----

  lemma ReconcileNothing(rs: seq<Record>)
    requires Filter(rs, IsRunning()) == []
    ensures ReconcileAll(rs) == rs
  {
    ReconcileAt(rs);
    FilterMembers(rs, IsRunning());
    assert forall i :: 0 <= i < |rs| ==> rs[i] in rs && rs[i] !in Filter(rs, IsRunning());
  }

  lemma {:induction false} ReconcileSnoc(rs: seq<Record>, r: Record)
    ensures ReconcileAll(rs + [r]) == ReconcileAll(rs) + [Reconciled(r)]
  {
    ReconcileAt(rs);
    ReconcileAt(rs + [r]);
  }

  /** The loop of `reconcile`. */
  method InterruptRunning(stored: seq<Record>) returns (out: seq<Record>, changed: bool)
    ensures out == ReconcileAll(stored)
    ensures changed <==> Filter(stored, IsRunning()) != []
    ensures !changed ==> out == stored
  {
    out, changed := [], false;
    for i := 0 to |stored|
      invariant out == ReconcileAll(stored[..i])
      invariant changed <==> Filter(stored[..i], IsRunning()) != []
    {
      assert stored[..i + 1] == stored[..i] + [stored[i]];
      FilterSnoc(stored[..i], stored[i], IsRunning());
      ReconcileSnoc(stored[..i], stored[i]);
      var t := stored[i];
      if t.status == Running {
        t := t.(status := Interrupted, finishedAt := Some(t.finishedAt.GetOr(t.startedAt)));
        changed := true;
      }
      out := out + [t];
    }
    assert stored[..|stored|] == stored;
    if !changed {
      ReconcileNothing(stored);
    }
  }

  class HeadlessTaskRegistry {
    var tasks: seq<Record>

    /** `load`: read the file, then reconcile. */
    constructor (stored: seq<Record>)
      ensures tasks == Next(stored, Restart)
    {
      tasks := stored;
      new;
      Reconcile();
    }

    method Reconcile()
      modifies this
      ensures tasks == Next(old(tasks), Restart)
    {
      var out, changed := InterruptRunning(tasks);
      tasks := out;
      if changed {
        Flush();
      }
    }

    method Flush()
      modifies this
      ensures tasks == Prune(old(tasks))
    {
      KeepAllUnless(tasks, {});
      if |tasks| > MAX_RECORDS {
        var dropCount := |tasks| - MAX_RECORDS;
        var toDrop := IdsOf(JsSlice(Filter(tasks, IsFinished()), 0, dropCount));
        assert toDrop == ToDrop(tasks);
        if toDrop != {} {
          tasks := Filter(tasks, NotAmong(toDrop));
        }
      }
    }

    method CreateTask(record: Record) returns (created: Record)
      requires record.status == Running
      modifies this
      ensures created == record && tasks == Next(old(tasks), Create(record))
    {
      created := record;
      tasks := tasks + [record];
      Flush();
    }

    method CompleteTask(taskId: string, patch: Patch)
      modifies this
      ensures tasks == Next(old(tasks), Complete(taskId, patch))
    {
      var i := IndexOfTask(tasks, taskId);
      if i >= |tasks| {
        return;
      }
      tasks := tasks[i := Patched(tasks[i], patch)];
      Flush();
    }

    method RecordAgentSession(taskId: string, agentSessionId: string)
      modifies this
      ensures tasks == Next(old(tasks), SetAgentSession(taskId, agentSessionId))
    {
      var i := IndexOfTask(tasks, taskId);
      if i >= |tasks| || tasks[i].agentSessionId == Some(agentSessionId) {
        return;
      }
      tasks := tasks[i := tasks[i].(agentSessionId := Some(agentSessionId))];
      Flush();
    }
  }
}
