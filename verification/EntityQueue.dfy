/** Concurrent writers of the file entity store (src/core/entity-store.ts:102-195).  Every call
    is a task chained on the promise that `writeTail` held; once that has settled the task
    reads the file, writes the shared tmp file and renames it.  Any task may be advanced at
    any moment, and any of its steps may fail. */
module EntityQueue {
  import opened Prelude
  import opened Strings
  import opened EntityNames
  import opened EntityStores

  datatype Op = Upsert(input: EntityInput) | Delete(name: string)
  datatype Outcome = Saved(entity: Entity) | Removed(found: bool) | Failed

  /** How far a task is; `HasRead` holds its private copy of the file. */
  datatype Stage =
    | Waiting
    | Started
    | HasRead(all: seq<Entity>)
    | HasWritten(at: int, outcome: Outcome)
    | Settled(at: int, outcome: Outcome)

  /** `after` is the task whose settling the chained promise stands for; None is `Promise.resolve()`. */
  datatype Task = Task(op: Op, after: Option<nat>, stage: Stage)
  datatype Done = Done(op: Op, at: int, outcome: Outcome)

  /** `done` records the tasks in the order they settled; no step reads it. */
  datatype State = State(
    file: seq<Entity>,
    tmp: seq<Entity>,
    tasks: seq<Task>,
    writeTail: Option<nat>,
    done: seq<Done>)

  /** `Advance` is one asynchronous step of one task: the clock it would read, whether its I/O
      succeeds, and what a failed write leaves in the tmp file. */
  datatype Event = Submit(op: Op) | Advance(i: nat, now: int, ok: bool, junk: seq<Entity>)

  predicate IsValid(op: Op) {
    op.Upsert? ==> Validate(op.input).None?
  }

  /** The new file contents and the result an operation computes from what it read. */
  function Plan(all: seq<Entity>, op: Op, now: int): (seq<Entity>, Outcome) {
    match op
    case Upsert(input) => var (next, e) := FileUpsert(all, input, now); (next, Saved(e))
    case Delete(name) => var (next, found) := FileDelete(all, name); (next, Removed(found))
  }

  /** `serialize`: chain on the tail, and become the tail. */
  function Serialize(s: State, op: Op): State {
    s.(tasks := s.tasks + [Task(op, s.writeTail, Waiting)], writeTail := Some(|s.tasks|))
  }

  /** The chained promise has settled, either way: `then(op, op)`. */
  predicate IsReleased(s: State, t: Task) {
    t.after.None? || (t.after.value < |s.tasks| && s.tasks[t.after.value].stage.Settled?)
  }

  function Enter(s: State, i: nat, stage: Stage): State
    requires i < |s.tasks|
  {
    s.(tasks := s.tasks[i := s.tasks[i].(stage := stage)])
  }

  function Settle(s: State, i: nat, at: int, outcome: Outcome): State
    requires i < |s.tasks|
  {
    Enter(s, i, Settled(at, outcome)).(done := s.done + [Done(s.tasks[i].op, at, outcome)])
  }

  function Step(s: State, i: nat, now: int, ok: bool, junk: seq<Entity>): State
    requires i < |s.tasks|
  {
    match s.tasks[i].stage
    case Waiting => if IsReleased(s, s.tasks[i]) then Enter(s, i, Started) else s
    case Started => if ok then Enter(s, i, HasRead(s.file)) else Settle(s, i, now, Failed)
    case HasRead(all) =>
      var (next, outcome) := Plan(all, s.tasks[i].op, now);
      if outcome == Removed(false) then Settle(s, i, now, outcome)
      else if ok then Enter(s.(tmp := next), i, HasWritten(now, outcome))
      else Settle(s.(tmp := junk), i, now, Failed)
    case HasWritten(at, outcome) =>
      if ok then Settle(s.(file := s.tmp), i, at, outcome) else Settle(s, i, at, Failed)
    case Settled(_, _) => s
  }

  function Next(s: State, e: Event): State {
    match e
    case Submit(op) => if IsValid(op) then Serialize(s, op) else s
    case Advance(i, now, ok, junk) => if i < |s.tasks| then Step(s, i, now, ok, junk) else s
  }

  function Run(s: State, es: seq<Event>): State
    decreases |es|
  {
    if es == [] then s else Run(Next(s, es[0]), es[1..])
  }

  // ----- The specification: the in-memory store, run sequentially -----

  function Apply(m: Memory, op: Op, now: int): (Memory, Outcome) {
    match op
    case Upsert(input) => var (m', e) := MemoryUpsert(m, input, now); (m', Saved(e))
    case Delete(name) => var (m', found) := MemoryDelete(m, name); (m', Removed(found))
  }

  /** The in-memory store after the settled operations, in order, failed ones left out. */
  function Replay(m: Memory, done: seq<Done>): Memory {
    if done == [] then m else
      var before, last := Replay(m, done[..|done| - 1]), done[|done| - 1];
      if last.outcome.Failed? then before else Apply(before, last.op, last.at).0
  }

  /** Every operation that did not fail returned what the in-memory store returns at its turn. */
  predicate OutcomesMatch(m: Memory, done: seq<Done>) {
    done == [] ||
    var before, last := done[..|done| - 1], done[|done| - 1];
    && OutcomesMatch(m, before)
    && (last.outcome.Failed? || last.outcome == Apply(Replay(m, before), last.op, last.at).1)
  }

  function OpOf(d: Done): seq<Op> {
    [d.op]
  }

  function TaskOp(t: Task): seq<Op> {
    [t.op]
  }

  function AcceptedOp(e: Event): seq<Op> {
    if e.Submit? && IsValid(e.op) then [e.op] else []
  }

  /** The accepted operations in the order of their calls. */
  function Accepted(es: seq<Event>): seq<Op> {
    FlatMap(es, AcceptedOp)
  }

  // ----- What the promise chain keeps -----

  /** Each task waits for the one called before it, so tasks settle in call order and nothing
      behind the first unsettled task has left its promise. */
  ghost predicate ChainOk(s: State) {
    && s.writeTail == (if s.tasks == [] then None else Some(|s.tasks| - 1))
    && |s.done| <= |s.tasks|
    && forall i :: 0 <= i < |s.tasks| ==> TaskOk(s, i)
  }

  ghost predicate TaskOk(s: State, i: nat)
    requires i < |s.tasks|
  {
    var t := s.tasks[i];
    && t.after == (if i == 0 then None else Some(i - 1))
    && (i < |s.done| ==> t.stage.Settled? && s.done[i] == Done(t.op, t.stage.at, t.stage.outcome))
    && (i == |s.done| ==> !t.stage.Settled?)
    && (i > |s.done| ==> t.stage == Waiting)
  }

  /** A step of any task but the first unsettled one does nothing. */
  lemma OnlyFrontMoves(s: State, i: nat, now: int, ok: bool, junk: seq<Entity>)
    requires ChainOk(s) && i < |s.tasks|
    ensures i != |s.done| ==> Step(s, i, now, ok, junk) == s
    ensures i == |s.done| ==> Step(s, i, now, ok, junk) != s
  {
    assert TaskOk(s, i);
    if i > 0 { assert TaskOk(s, i - 1); }
    if i == |s.done| && s.tasks[i].stage == Waiting {
      assert Enter(s, i, Started).tasks[i].stage == Started;
    }
  }

  lemma EnterKeepsChain(s: State, stage: Stage)
    requires ChainOk(s) && |s.done| < |s.tasks| && !stage.Settled?
    ensures ChainOk(Enter(s, |s.done|, stage))
  {
    var next := Enter(s, |s.done|, stage);
    forall i | 0 <= i < |next.tasks|
      ensures TaskOk(next, i)
    {
      assert TaskOk(s, i);
    }
  }

  lemma SettleKeepsChain(s: State, at: int, outcome: Outcome)
    requires ChainOk(s) && |s.done| < |s.tasks|
    ensures ChainOk(Settle(s, |s.done|, at, outcome))
  {
    var next := Settle(s, |s.done|, at, outcome);
    forall i | 0 <= i < |next.tasks|
      ensures TaskOk(next, i)
    {
      assert TaskOk(s, i);
    }
  }

  lemma SerializeKeepsChain(s: State, op: Op)
    requires ChainOk(s)
    ensures ChainOk(Serialize(s, op))
  {
    var next := Serialize(s, op);
    forall i | 0 <= i < |next.tasks|
      ensures TaskOk(next, i)
    {
      if i < |s.tasks| {
        assert TaskOk(s, i);
        assert next.tasks[i] == s.tasks[i];
      }
    }
  }

  // ----- What the files keep -----

  /** The step the first unsettled task is at is based on the file as it is. */
  ghost predicate FrontOk(s: State) {
    |s.done| < |s.tasks| ==>
      match s.tasks[|s.done|].stage
      case HasRead(all) => all == s.file
      case HasWritten(at, outcome) => (s.tmp, outcome) == Plan(s.file, s.tasks[|s.done|].op, at)
      case _ => true
  }

  ghost predicate FileOk(m: Memory, file: seq<Entity>, done: seq<Done>) {
    && MemoryOk(Replay(m, done))
    && file == Values(Replay(m, done))
    && OutcomesMatch(m, done)
  }

  ghost predicate Inv(m: Memory, s: State) {
    ChainOk(s) && FileOk(m, s.file, s.done) && FrontOk(s)
  }

  lemma PlanRefines(m: Memory, op: Op, now: int)
    requires MemoryOk(m)
    ensures
      var (m', outcome) := Apply(m, op, now);
      MemoryOk(m') && Plan(Values(m), op, now) == (Values(m'), outcome)
  {
    match op
    case Upsert(input) => UpsertRefines(m, input, now);
    case Delete(name) => DeleteRefines(m, name);
  }

  lemma DoneSnoc(m: Memory, done: seq<Done>, d: Done)
    ensures Replay(m, done + [d]) == if d.outcome.Failed? then Replay(m, done) else Apply(Replay(m, done), d.op, d.at).0
    ensures OutcomesMatch(m, done + [d]) <==>
              OutcomesMatch(m, done) && (d.outcome.Failed? || d.outcome == Apply(Replay(m, done), d.op, d.at).1)
  {
    assert (done + [d])[..|done|] == done;
  }

  lemma SettleKeepsInv(m: Memory, s: State, file: seq<Entity>, tmp: seq<Entity>, at: int, outcome: Outcome)
    requires Inv(m, s) && |s.done| < |s.tasks|
    requires (outcome.Failed? && file == s.file) || (file, outcome) == Plan(s.file, s.tasks[|s.done|].op, at)
    ensures Inv(m, Settle(s.(file := file, tmp := tmp), |s.done|, at, outcome))
  {
    var i := |s.done|;
    var written := s.(file := file, tmp := tmp);
    TmpKeepsChain(s, file, tmp);
    SettleKeepsChain(written, at, outcome);
    PlanRefines(Replay(m, s.done), s.tasks[i].op, at);
    DoneSnoc(m, s.done, Done(s.tasks[i].op, at, outcome));
    var next := Settle(written, i, at, outcome);
    if i + 1 < |s.tasks| {
      assert TaskOk(s, i + 1);
      assert next.tasks[i + 1] == s.tasks[i + 1];
    }
  }

  /** A delete that finds nothing plans the file it read. */
  lemma {:induction false} DeleteNothing(all: seq<Entity>, name: string)
    requires !FileDelete(all, name).1
    ensures FileDelete(all, name).0 == all
  {
    if all != [] {
      FilterMembers(all[1..], OtherKey(KeyOf(name)));
      DeleteNothing(all[1..], name);
    }
  }

  lemma FrontKeepsInv(m: Memory, s: State, now: int, ok: bool, junk: seq<Entity>)
    requires Inv(m, s) && |s.done| < |s.tasks|
    ensures Inv(m, Step(s, |s.done|, now, ok, junk))
  {
    var i := |s.done|;
    var op := s.tasks[i].op;
    assert TaskOk(s, i);
    match s.tasks[i].stage
    case Waiting => EnterKeepsChain(s, Started);
    case Started =>
      EnterKeepsChain(s, HasRead(s.file));
      SettleKeepsInv(m, s, s.file, s.tmp, now, Failed);
    case HasRead(all) => WriteKeepsInv(m, s, now, ok, junk);
    case HasWritten(at, outcome) =>
      SettleKeepsInv(m, s, s.file, s.tmp, at, Failed);
      SettleKeepsInv(m, s, s.tmp, s.tmp, at, outcome);
  }

  lemma WriteKeepsInv(m: Memory, s: State, now: int, ok: bool, junk: seq<Entity>)
    requires Inv(m, s) && |s.done| < |s.tasks| && s.tasks[|s.done|].stage.HasRead?
    ensures Inv(m, Step(s, |s.done|, now, ok, junk))
  {
    var op := s.tasks[|s.done|].op;
    var (next, outcome) := Plan(s.file, op, now);
    if outcome == Removed(false) {
      DeleteNothing(s.file, op.name);
      SettleKeepsInv(m, s, s.file, s.tmp, now, outcome);
    } else if ok {
      TmpKeepsChain(s, s.file, next);
      EnterKeepsChain(s.(tmp := next), HasWritten(now, outcome));
    } else {
      SettleKeepsInv(m, s, s.file, junk, now, Failed);
    }
  }

  lemma NextKeepsInv(m: Memory, s: State, e: Event)
    requires Inv(m, s)
    ensures Inv(m, Next(s, e))
  {
    match e
    case Submit(op) => SerializeKeepsChain(s, op);
    case Advance(i, now, ok, junk) =>
      if i < |s.tasks| {
        OnlyFrontMoves(s, i, now, ok, junk);
        if i == |s.done| { FrontKeepsInv(m, s, now, ok, junk); }
      }
  }

  lemma {:induction false} RunKeepsInv(m: Memory, s: State, es: seq<Event>)
    requires Inv(m, s)
    ensures Inv(m, Run(s, es))
    decreases |es|
  {
    if es != [] {
      NextKeepsInv(m, s, es[0]);
      RunKeepsInv(m, Next(s, es[0]), es[1..]);
    }
  }

  // ----- Call order -----

  lemma {:induction false} SameOps(a: seq<Task>, b: seq<Task>)
    requires |a| == |b| && forall i :: 0 <= i < |a| ==> a[i].op == b[i].op
    ensures FlatMap(a, TaskOp) == FlatMap(b, TaskOp)
  {
    if a != [] {
      SameOps(a[1..], b[1..]);
    }
  }

  lemma {:induction false} RunKeepsOrder(s: State, es: seq<Event>)
    ensures FlatMap(Run(s, es).tasks, TaskOp) == FlatMap(s.tasks, TaskOp) + Accepted(es)
    decreases |es|
  {
    if es == [] {
      assert FlatMap(s.tasks, TaskOp) + [] == FlatMap(s.tasks, TaskOp);
    } else {
      var before, rest := FlatMap(s.tasks, TaskOp), Accepted(es[1..]);
      OrderStep(s, es[0]);
      RunKeepsOrder(Next(s, es[0]), es[1..]);
      assert (before + AcceptedOp(es[0])) + rest == before + (AcceptedOp(es[0]) + rest);
    }
  }

  lemma OrderStep(s: State, e: Event)
    ensures FlatMap(Next(s, e).tasks, TaskOp) == FlatMap(s.tasks, TaskOp) + AcceptedOp(e)
  {
    match e
    case Submit(op) =>
      if IsValid(op) { FlatMapSnoc(s.tasks, Task(op, s.writeTail, Waiting), TaskOp); }
    case Advance(i, now, ok, junk) =>
      SameOps(s.tasks, Next(s, e).tasks);
  }

  lemma {:induction false} DoneAreTasks(done: seq<Done>, tasks: seq<Task>)
    requires |done| <= |tasks| && forall i :: 0 <= i < |done| ==> done[i].op == tasks[i].op
    ensures FlatMap(done, OpOf) <= FlatMap(tasks, TaskOp)
  {
    if done != [] {
      DoneAreTasks(done[1..], tasks[1..]);
    }
  }

  // ----- The store's promise -----

  function Idle(file: seq<Entity>, tmp: seq<Entity>): State {
    State(file, tmp, [], None, [])
  }

  /** At most one task is between its first and its last step: once a task has left its promise,
      every task called before it has settled. */
  ghost predicate Exclusive(s: State) {
    forall i, j :: 0 <= i < j < |s.tasks| && s.tasks[j].stage != Waiting ==> s.tasks[i].stage.Settled?
  }

  /** Reached by some interleaving from an idle store that holds what the memory holds. */
  ghost predicate Reaches(m: Memory, tmp: seq<Entity>, es: seq<Event>, s: State) {
    MemoryOk(m) && s == Run(Idle(Values(m), tmp), es)
  }

  /** Over every interleaving of every task: tasks exclude each other, they settle in call order,
      and the file is the in-memory store after the settled operations. */
  lemma RunLinearizes(m: Memory, tmp: seq<Entity>, es: seq<Event>, s: State)
    requires Reaches(m, tmp, es, s)
    ensures forall i, j :: 0 <= i < j < |s.tasks| && s.tasks[j].stage != Waiting ==> s.tasks[i].stage.Settled?
    ensures FlatMap(s.tasks, TaskOp) == Accepted(es)
    ensures FlatMap(s.done, OpOf) <= Accepted(es)
    ensures FileOk(m, s.file, s.done)
  {
    var s0 := Idle(Values(m), tmp);
    RunKeepsInv(m, s0, es);
    RunKeepsOrder(s0, es);
    assert [] + Accepted(es) == Accepted(es);
    ChainExcludes(s);
  }

  lemma ChainExcludes(s: State)
    requires ChainOk(s)
    ensures Exclusive(s) && FlatMap(s.done, OpOf) <= FlatMap(s.tasks, TaskOp)
  {
    forall i, j | 0 <= i < j < |s.tasks| && s.tasks[j].stage != Waiting
      ensures s.tasks[i].stage.Settled?
    {
      assert TaskOk(s, i) && TaskOk(s, j);
    }
    forall i | 0 <= i < |s.done|
      ensures s.done[i].op == s.tasks[i].op
    {
      assert TaskOk(s, i);
    }
    DoneAreTasks(s.done, s.tasks);
  }

  /** At any moment of any run, all three unqueued reads return what the in-memory store returns
      after some prefix of the calls. */
  lemma ReadsSeeACommittedState(m: Memory, tmp: seq<Entity>, es: seq<Event>, s: State, name: string, query: string)
    requires Reaches(m, tmp, es, s)
    ensures FlatMap(s.done, OpOf) <= Accepted(es) && OutcomesMatch(m, s.done)
    ensures
      var now := Replay(m, s.done);
      && MemoryOk(now)
      && FileGet(s.file, name) == MemoryGet(now, name)
      && SortNewest(s.file) == SortNewest(Values(now))
      && Search(s.file, query) == Search(Values(now), query)
  {
    RunLinearizes(m, tmp, es, s);
    ReadsRefine(Replay(m, s.done), name);
  }

  /** A failed operation leaves the file as it was: over every run, a step that settles a task as
      failed, or settles none, does not change the file. */
  lemma OnlySuccessChangesFile(m: Memory, s: State, e: Event)
    requires Inv(m, s) && Next(s, e).file != s.file
    ensures |s.done| < |s.tasks|
    ensures
      var d := Next(s, e).done;
      |d| == |s.done| + 1 && !d[|s.done|].outcome.Failed? && d[|s.done|].op == s.tasks[|s.done|].op
    ensures Next(s, e).file == Plan(s.file, s.tasks[|s.done|].op, Next(s, e).done[|s.done|].at).0
  {
    OnlyFrontMoves(s, e.i, e.now, e.ok, e.junk);
    assert TaskOk(s, e.i);
  }

  /** An entity as `upsert` makes it: a one-word name and a description. */
  predicate IsProper(e: Entity) {
    e.name != "" && (forall i :: 0 <= i < |e.name| ==> !IsSpace(e.name[i])) && e.description != ""
  }

  predicate AllProper(all: seq<Entity>) {
    forall e :: e in all ==> IsProper(e)
  }

  predicate AllAccepted(s: State) {
    forall t :: t in s.tasks ==> IsValid(t.op)
  }

  lemma PlanKeepsProper(all: seq<Entity>, op: Op, now: int)
    requires AllProper(all) && IsValid(op)
    ensures AllProper(Plan(all, op, now).0)
  {
    match op
    case Upsert(input) =>
      AcceptedIff(input);
      assert forall e :: e in Plan(all, op, now).0 ==> e in all || e == Plan(all, op, now).1.entity;
    case Delete(name) => FilterMembers(all, OtherKey(KeyOf(name)));
  }

  lemma StepKeepsProper(m: Memory, s: State, e: Event)
    requires Inv(m, s) && AllProper(s.file) && AllAccepted(s)
    ensures AllProper(Next(s, e).file) && AllAccepted(Next(s, e))
  {
    if Next(s, e).file != s.file {
      OnlySuccessChangesFile(m, s, e);
      assert s.tasks[|s.done|] in s.tasks;
      PlanKeepsProper(s.file, s.tasks[|s.done|].op, Next(s, e).done[|s.done|].at);
    }
    AcceptedStay(s, e);
  }

  lemma AcceptedStay(s: State, e: Event)
    requires AllAccepted(s)
    ensures AllAccepted(Next(s, e))
  {
    match e
    case Submit(op) =>
    case Advance(i, now, ok, junk) =>
      var next := Next(s, e);
      OpsStay(s, i, now, ok, junk);
      forall t | t in next.tasks
        ensures IsValid(t.op)
      {
        var j :| 0 <= j < |next.tasks| && next.tasks[j] == t;
        assert s.tasks[j] in s.tasks;
      }
  }

  lemma OpsStay(s: State, i: nat, now: int, ok: bool, junk: seq<Entity>)
    ensures
      var next := Next(s, Advance(i, now, ok, junk));
      |next.tasks| == |s.tasks| && forall j :: 0 <= j < |s.tasks| ==> next.tasks[j].op == s.tasks[j].op
  {
  }

  /** Whatever is submitted, and whatever fails, only proper entities are ever stored. */
  lemma {:induction false} StoredEntitiesAreProper(m: Memory, s: State, es: seq<Event>)
    requires Inv(m, s) && AllProper(s.file) && AllAccepted(s)
    ensures AllProper(Run(s, es).file)
    decreases |es|
  {
    if es != [] {
      NextKeepsInv(m, s, es[0]);
      StepKeepsProper(m, s, es[0]);
      StoredEntitiesAreProper(m, Next(s, es[0]), es[1..]);
    }
  }

  // ----- The chain never blocks -----

  predicate CanMove(s: State, i: nat) {
    && i < |s.tasks|
    && !s.tasks[i].stage.Settled?
    && (s.tasks[i].stage == Waiting ==> IsReleased(s, s.tasks[i]))
  }

  /** Whatever failed before, exactly the first unsettled task can move. */
  lemma ExactlyFrontCanMove(s: State, i: nat)
    requires ChainOk(s)
    ensures CanMove(s, i) <==> i == |s.done| < |s.tasks|
  {
    if i < |s.tasks| {
      assert TaskOk(s, i);
      if i > 0 { assert TaskOk(s, i - 1); }
    }
  }

  function StepsLeft(stage: Stage): nat {
    match stage
    case Waiting => 4
    case Started => 3
    case HasRead(_) => 2
    case HasWritten(_, _) => 1
    case Settled(_, _) => 0
  }

  /** Steps still to come at most. */
  function Work(s: State): nat
    requires |s.done| <= |s.tasks|
  {
    if |s.done| == |s.tasks| then 0
    else 4 * (|s.tasks| - |s.done| - 1) + StepsLeft(s.tasks[|s.done|].stage)
  }

  /** A schedule that always advances some task that can move. */
  ghost predicate IsBusy(s: State, es: seq<Event>)
    decreases |es|
  {
    es == [] || (es[0].Advance? && CanMove(s, es[0].i) && IsBusy(Next(s, es[0]), es[1..]))
  }

  lemma MoveIsProgress(s: State, e: Event)
    requires ChainOk(s) && e.Advance? && CanMove(s, e.i)
    ensures ChainOk(Next(s, e)) && Work(Next(s, e)) < Work(s) && |Next(s, e).tasks| == |s.tasks|
  {
    ExactlyFrontCanMove(s, e.i);
    var k := |s.done|;
    assert TaskOk(s, k);
    if k + 1 < |s.tasks| { assert TaskOk(s, k + 1); }
    var op := s.tasks[k].op;
    match s.tasks[k].stage
    case Waiting => EnterKeepsChain(s, Started);
    case Started =>
      EnterKeepsChain(s, HasRead(s.file));
      SettleKeepsChain(s, e.now, Failed);
    case HasRead(all) =>
      var (next, outcome) := Plan(all, op, e.now);
      SettleKeepsChain(s, e.now, outcome);
      TmpKeepsChain(s, s.file, next);
      TmpKeepsChain(s, s.file, e.junk);
      EnterKeepsChain(s.(tmp := next), HasWritten(e.now, outcome));
      SettleKeepsChain(s.(tmp := e.junk), e.now, Failed);
    case HasWritten(at, outcome) =>
      SettleKeepsChain(s, at, Failed);
      TmpKeepsChain(s, s.tmp, s.tmp);
      SettleKeepsChain(s.(file := s.tmp), at, outcome);
  }

  lemma TmpKeepsChain(s: State, file: seq<Entity>, tmp: seq<Entity>)
    requires ChainOk(s)
    ensures ChainOk(s.(file := file, tmp := tmp))
  {
    var next := s.(file := file, tmp := tmp);
    assert forall j :: 0 <= j < |s.tasks| ==> TaskOk(s, j) ==> TaskOk(next, j);
  }

  /** Whatever fails, every busy schedule is short, and it is stuck only when all tasks have settled. */
  lemma {:induction false} QueueDrains(s: State, es: seq<Event>)
    requires ChainOk(s) && IsBusy(s, es)
    ensures |es| <= Work(s) <= 4 * (|s.tasks| - |s.done|)
    ensures
      var t := Run(s, es);
      && |t.tasks| == |s.tasks|
      && ((forall i: nat :: !CanMove(t, i)) <==> |t.done| == |t.tasks|)
    decreases |es|
  {
    if es != [] {
      MoveIsProgress(s, es[0]);
      QueueDrains(Next(s, es[0]), es[1..]);
    } else {
      ExactlyFrontCanMove(s, |s.done|);
      forall i: nat
        ensures CanMove(s, i) <==> i == |s.done| < |s.tasks|
      {
        ExactlyFrontCanMove(s, i);
      }
    }
  }

  // ----- Without the chain -----

  /** Two upserts that do not wait for each other, each read before the other renames. */
  lemma UnchainedUpsertIsLost(a: EntityInput, b: EntityInput, now: int)
    requires KeyOf(a.name) != KeyOf(b.name)
    ensures
      var s := TwoTasks(a, b, [], Waiting, Waiting);
      var t := Run(s, Both(now) + Both(now) + Both(now) + Both(now));
      && t.file == [MakeEntity(b, now)]
      && |t.done| == 2 && !t.done[0].outcome.Failed? && !t.done[1].outcome.Failed?
  {
    var s := TwoTasks(a, b, [], Waiting, Waiting);
    var s1 := TwoTasks(a, b, [], Started, Started);
    var s2 := TwoTasks(a, b, [], HasRead([]), HasRead([]));
    BothStart(a, b, now);
    BothWrite(a, b, now);
    var s3 := Next(Next(s2, Both(now)[0]), Both(now)[1]);
    RunPair(s, now, Both(now) + Both(now) + Both(now));
    RunPair(s1, now, Both(now) + Both(now));
    RunPair(s2, now, Both(now));
    RunPair(s3, now, []);
    assert Both(now) + [] == Both(now);
    assert Both(now) + Both(now) + Both(now) + Both(now) == Both(now) + (Both(now) + Both(now) + Both(now));
    assert Both(now) + Both(now) + Both(now) == Both(now) + (Both(now) + Both(now));
  }

  lemma BothStart(a: EntityInput, b: EntityInput, now: int)
    ensures
      var s, s1 := TwoTasks(a, b, [], Waiting, Waiting), TwoTasks(a, b, [], Started, Started);
      && Next(Next(s, Both(now)[0]), Both(now)[1]) == s1
      && Next(Next(s1, Both(now)[0]), Both(now)[1]) == TwoTasks(a, b, [], HasRead([]), HasRead([]))
  {
  }

  lemma BothWrite(a: EntityInput, b: EntityInput, now: int)
    ensures
      var s := TwoTasks(a, b, [], HasRead([]), HasRead([]));
      var s1 := Next(Next(s, Both(now)[0]), Both(now)[1]);
      var t := Next(Next(s1, Both(now)[0]), Both(now)[1]);
      && t.file == [MakeEntity(b, now)]
      && |t.done| == 2 && !t.done[0].outcome.Failed? && !t.done[1].outcome.Failed?
  {
    var ea, eb := MakeEntity(a, now), MakeEntity(b, now);
    var s := TwoTasks(a, b, [], HasRead([]), HasRead([]));
    var s1 := Next(Next(s, Both(now)[0]), Both(now)[1]);
    assert s1 == TwoTasks(a, b, [eb], HasWritten(now, Saved(ea)), HasWritten(now, Saved(eb)));
  }

  function TwoTasks(a: EntityInput, b: EntityInput, tmp: seq<Entity>, x: Stage, y: Stage): State {
    State([], tmp, [Task(Upsert(a), None, x), Task(Upsert(b), None, y)], None, [])
  }

  function Both(now: int): seq<Event> {
    [Advance(0, now, true, []), Advance(1, now, true, [])]
  }

  lemma RunPair(s: State, now: int, es: seq<Event>)
    ensures Run(s, Both(now) + es) == Run(Next(Next(s, Both(now)[0]), Both(now)[1]), es)
  {
    var all := Both(now) + es;
    assert all[1..][1..] == es && all[0] == Both(now)[0] && all[1..][0] == Both(now)[1];
  }
}
