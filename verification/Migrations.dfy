/** The migration runner (src/migrations/runner.ts) with crashes at every step. */
module Migrations {
  import opened Prelude

  /** The config directory without the journal: file name to JSON text. */
  type Config = map<string, string>

  datatype Migration = Migration(id: string, up: Config -> Config)
  datatype Applied = Applied(id: string, appliedAt: string, appVersion: string)
  datatype Meta = Meta(appVersion: string, appliedMigrations: seq<Applied>)

  /** What survives a crash.  `meta` is None while `_meta.json` is missing or not a journal. */
  datatype Disk = Disk(config: Config, meta: Option<Meta>)

  /** One start of the program: how many disk writes it gets to, its clock and its version. */
  datatype Attempt = Attempt(steps: nat, now: string, version: string)

  function Journal(d: Disk): seq<Applied> {
    if d.meta.Some? then d.meta.value.appliedMigrations else []
  }

  function IdsOf(applied: seq<Applied>): seq<string> {
    if applied == [] then [] else [applied[0].id] + IdsOf(applied[1..])
  }

  function MigrationIds(ms: seq<Migration>): seq<string> {
    if ms == [] then [] else [ms[0].id] + MigrationIds(ms[1..])
  }

  function NotIn(ids: seq<string>): Migration -> bool {
    (m: Migration) => m.id !in ids
  }

  function Pending(d: Disk, registry: seq<Migration>): seq<Migration> {
    Filter(registry, NotIn(IdsOf(Journal(d))))
  }

  function Record(d: Disk, m: Migration, a: Attempt): Disk {
    d.(meta := Some(Meta(a.version, Journal(d) + [Applied(m.id, a.now, a.version)])))
  }

  /** Applies and journals `pending` one by one, stopping dead after `steps` writes. */
  function Execute(d: Disk, pending: seq<Migration>, a: Attempt, steps: nat): Disk
    decreases steps
  {
    if pending == [] || steps == 0 then d
    else
      var upped := d.(config := pending[0].up(d.config));
      if steps == 1 then upped else Execute(Record(upped, pending[0], a), pending[1..], a, steps - 2)
  }

  function Try(d: Disk, registry: seq<Migration>, a: Attempt): Disk {
    Execute(d, Pending(d, registry), a, a.steps)
  }

  function TryAll(d: Disk, registry: seq<Migration>, attempts: seq<Attempt>): Disk
    decreases |attempts|
  {
    if attempts == [] then d else TryAll(Try(d, registry, attempts[0]), registry, attempts[1..])
  }

  /** An attempt long enough never to be cut off. */
  predicate Completes(registry: seq<Migration>, a: Attempt) {
    a.steps >= 2 * |registry|
  }

  ghost predicate Idempotent(m: Migration) {
    forall c {:trigger m.up(m.up(c))} :: m.up(m.up(c)) == m.up(c)
  }

  ghost predicate WellFormed(registry: seq<Migration>) {
    && DistinctRegistry(registry)
    && forall m :: m in registry ==> Idempotent(m)
  }

  /** The config after applying `ms` in order. */
  function ApplyAll(c: Config, ms: seq<Migration>): Config
    decreases |ms|
  {
    if ms == [] then c else ApplyAll(ms[0].up(c), ms[1..])
  }

  // ----- Sequences of ids -----

  lemma {:induction false} IdsAt(ms: seq<Migration>)
    ensures |MigrationIds(ms)| == |ms|
    ensures forall i :: 0 <= i < |ms| ==> MigrationIds(ms)[i] == ms[i].id
  {
    if ms != [] { IdsAt(ms[1..]); }
  }

  lemma {:induction false} IdsOfSnoc(applied: seq<Applied>, x: Applied)
    ensures IdsOf(applied + [x]) == IdsOf(applied) + [x.id]
  {
    if applied == [] {
      assert [x][1..] == [];
    } else {
      var head, rest := [applied[0].id], IdsOf(applied[1..]);
      calc {
        IdsOf(applied + [x]);
      ==  { assert (applied + [x])[0] == applied[0] && (applied + [x])[1..] == applied[1..] + [x]; }
        head + IdsOf(applied[1..] + [x]);
      ==  { IdsOfSnoc(applied[1..], x); }
        head + (rest + [x.id]);
      ==
        (head + rest) + [x.id];
      }
    }
  }

  /** The ids of the registry differ. */
  predicate DistinctRegistry(registry: seq<Migration>) {
    Distinct(MigrationIds(registry))
  }

  lemma TailDistinct(ms: seq<Migration>)
    requires ms != [] && DistinctRegistry(ms)
    ensures DistinctRegistry(ms[1..]) && forall m :: m in ms[1..] ==> m.id != ms[0].id
  {
    var rest := ms[1..];
    IdsAt(ms);
    IdsAt(rest);
    assert forall i :: 0 <= i < |rest| ==> MigrationIds(rest)[i] == MigrationIds(ms)[i + 1];
    forall m | m in rest
      ensures m.id != ms[0].id
    {
      var i :| 0 <= i < |rest| && rest[i] == m;
      assert MigrationIds(ms)[0] != MigrationIds(ms)[i + 1];
    }
  }

  lemma ConsDistinct(m: Migration, ms: seq<Migration>)
    requires DistinctRegistry(ms) && forall x :: x in ms ==> x.id != m.id
    ensures DistinctRegistry([m] + ms)
  {
    IdsAt(ms);
    IdsAt([m] + ms);
    assert forall i :: 0 <= i < |ms| ==> ms[i] in ms;
  }

  /** Filtering keeps ids distinct. */
  lemma {:induction false} PendingDistinct(registry: seq<Migration>, ids: seq<string>)
    requires DistinctRegistry(registry)
    ensures DistinctRegistry(Filter(registry, NotIn(ids)))
  {
    if registry != [] {
      TailDistinct(registry);
      PendingDistinct(registry[1..], ids);
      FilterMembers(registry[1..], NotIn(ids));
      var rest := Filter(registry[1..], NotIn(ids));
      if NotIn(ids)(registry[0]) {
        ConsDistinct(registry[0], rest);
        assert Filter(registry, NotIn(ids)) == [registry[0]] + rest;
      } else {
        assert Filter(registry, NotIn(ids)) == [] + rest == rest;
      }
    }
  }

  lemma PendingIsShorter(d: Disk, registry: seq<Migration>)
    ensures |Pending(d, registry)| <= |registry|
  {
    FilterMembers(registry, NotIn(IdsOf(Journal(d))));
  }

  /** Journaling the first pending migration leaves exactly the others pending. */
  lemma PendingAfterRecord(d: Disk, registry: seq<Migration>, a: Attempt)
    requires DistinctRegistry(registry) && Pending(d, registry) != []
    ensures Pending(Record(d, Pending(d, registry)[0], a), registry) == Pending(d, registry)[1..]
  {
    var ids, pending := IdsOf(Journal(d)), Pending(d, registry);
    var next := Record(d, pending[0], a);
    IdsOfSnoc(Journal(d), Applied(pending[0].id, a.now, a.version));
    FilterBoth(registry, NotIn(ids), NotIn([pending[0].id]), NotIn(ids + [pending[0].id]));
    PendingDistinct(registry, ids);
    TailDistinct(pending);
    FilterAll(pending[1..], NotIn([pending[0].id]));
    assert Filter(pending, NotIn([pending[0].id])) == [] + Filter(pending[1..], NotIn([pending[0].id]));
  }

  // ----- The journal, whatever the bodies do -----

  /** The journaled ids followed by the pending ones: what the journal will end as. */
  function FinalIds(d: Disk, registry: seq<Migration>): seq<string> {
    IdsOf(Journal(d)) + MigrationIds(Pending(d, registry))
  }

  lemma RecordKeepsJournal(d: Disk, registry: seq<Migration>, config: Config, a: Attempt)
    requires DistinctRegistry(registry) && Pending(d, registry) != []
    ensures
      var m := Pending(d, registry)[0];
      FinalIds(Record(d.(config := config), m, a), registry) == FinalIds(d, registry)
  {
    var pending, upped := Pending(d, registry), d.(config := config);
    assert Pending(upped, registry) == pending;
    PendingAfterRecord(upped, registry, a);
    IdsOfSnoc(Journal(d), Applied(pending[0].id, a.now, a.version));
    var ids, rest := IdsOf(Journal(d)), MigrationIds(pending[1..]);
    assert (ids + [pending[0].id]) + rest == ids + ([pending[0].id] + rest);
  }

  lemma {:induction false} ExecuteKeepsJournal(d: Disk, registry: seq<Migration>, a: Attempt, steps: nat)
    requires DistinctRegistry(registry)
    ensures
      var end := Execute(d, Pending(d, registry), a, steps);
      && FinalIds(end, registry) == FinalIds(d, registry)
      && (steps >= 2 * |Pending(d, registry)| ==> Pending(end, registry) == [])
    decreases steps
  {
    var pending := Pending(d, registry);
    if pending != [] && steps > 1 {
      var upped := d.(config := pending[0].up(d.config));
      RecordKeepsJournal(d, registry, upped.config, a);
      assert Pending(upped, registry) == pending;
      PendingAfterRecord(upped, registry, a);
      ExecuteKeepsJournal(Record(upped, pending[0], a), registry, a, steps - 2);
    }
  }

  lemma {:induction false} TryAllKeepsJournal(d: Disk, registry: seq<Migration>, attempts: seq<Attempt>)
    requires DistinctRegistry(registry)
    ensures FinalIds(TryAll(d, registry, attempts), registry) == FinalIds(d, registry)
    decreases |attempts|
  {
    if attempts != [] {
      ExecuteKeepsJournal(d, registry, attempts[0], attempts[0].steps);
      TryAllKeepsJournal(Try(d, registry, attempts[0]), registry, attempts[1..]);
    }
  }

  /** A completed attempt after any number of cut-off ones: the journal is the old one followed by
      the pending ids in registry order.  Only the ids have to differ. */
  lemma JournalEndsTheSame(d: Disk, registry: seq<Migration>, crashed: seq<Attempt>, last: Attempt)
    requires DistinctRegistry(registry) && Completes(registry, last)
    ensures IdsOf(Journal(Try(TryAll(d, registry, crashed), registry, last))) ==
              IdsOf(Journal(d)) + MigrationIds(Pending(d, registry))
  {
    var mid := TryAll(d, registry, crashed);
    TryAllKeepsJournal(d, registry, crashed);
    PendingIsShorter(mid, registry);
    ExecuteKeepsJournal(mid, registry, last, last.steps);
    var end := Try(mid, registry, last);
    assert IdsOf(Journal(end)) + [] == IdsOf(Journal(end));
  }

  /** The journal of a completed run repeats no id exactly when the old one repeated none. */
  lemma JournalStaysDistinct(d: Disk, registry: seq<Migration>, crashed: seq<Attempt>, last: Attempt)
    requires DistinctRegistry(registry) && Completes(registry, last)
    ensures Distinct(IdsOf(Journal(Try(TryAll(d, registry, crashed), registry, last)))) <==> Distinct(IdsOf(Journal(d)))
  {
    JournalEndsTheSame(d, registry, crashed, last);
    var ids, pending := IdsOf(Journal(d)), Pending(d, registry);
    PendingDistinct(registry, ids);
    IdsAt(pending);
    FilterMembers(registry, NotIn(ids));
    forall i | 0 <= i < |pending|
      ensures MigrationIds(pending)[i] !in ids
    {
      assert pending[i] in pending;
    }
    DistinctConcat(ids, MigrationIds(pending));
  }

  lemma DistinctConcat(a: seq<string>, b: seq<string>)
    requires Distinct(b) && forall j :: 0 <= j < |b| ==> b[j] !in a
    ensures Distinct(a + b) <==> Distinct(a)
  {
    var all := a + b;
    if Distinct(a) {
      forall i, j | 0 <= i < j < |all|
        ensures all[i] != all[j]
      {
        if i < |a| <= j { assert all[j] == b[j - |a|]; }
      }
    }
    if Distinct(all) {
      assert forall i :: 0 <= i < |a| ==> a[i] == all[i];
    }
  }

  /** The record of one migration: its id, the clock and the version of the attempt. */
  function StampOf(a: Attempt): Migration -> seq<Applied> {
    (m: Migration) => [Applied(m.id, a.now, a.version)]
  }

  /** Each attempt stamps what it journals with its own clock and version, one record for every two
      writes, and leaves the older records alone. */
  lemma {:induction false} AttemptStampsItsRecords(d: Disk, pending: seq<Migration>, a: Attempt, steps: nat)
    ensures
      var k, end := Min(|pending|, steps / 2), Execute(d, pending, a, steps);
      && Journal(end) == Journal(d) + FlatMap(pending[..k], StampOf(a))
      && (if k == 0 then end.meta == d.meta else end.meta.Some? && end.meta.value.appVersion == a.version)
    decreases steps
  {
    var k := Min(|pending|, steps / 2);
    if k == 0 {
      assert Journal(d) + [] == Journal(d);
    } else {
      var next := Record(d.(config := pending[0].up(d.config)), pending[0], a);
      AttemptStampsItsRecords(next, pending[1..], a, steps - 2);
      StampsSplit(Journal(d), pending, k, a);
    }
  }

  lemma StampsSplit(journal: seq<Applied>, pending: seq<Migration>, k: nat, a: Attempt)
    requires 1 <= k <= |pending|
    ensures (journal + [Applied(pending[0].id, a.now, a.version)]) + FlatMap(pending[1..][..k - 1], StampOf(a)) ==
              journal + FlatMap(pending[..k], StampOf(a))
  {
    assert pending[..k][0] == pending[0] && pending[..k][1..] == pending[1..][..k - 1];
    assert FlatMap(pending[..k], StampOf(a)) == StampOf(a)(pending[0]) + FlatMap(pending[1..][..k - 1], StampOf(a));
  }

  // ----- The config -----

  /** The config once the pending migrations are applied. */
  function FinalConfig(d: Disk, registry: seq<Migration>): Config {
    ApplyAll(d.config, Pending(d, registry))
  }

  /** Dying between body and journal: the body will run again, and must not mind. */
  lemma UpKeepsConfig(d: Disk, registry: seq<Migration>)
    requires WellFormed(registry) && Pending(d, registry) != []
    ensures FinalConfig(d.(config := Pending(d, registry)[0].up(d.config)), registry) == FinalConfig(d, registry)
  {
    var m := Pending(d, registry)[0];
    FilterMembers(registry, NotIn(IdsOf(Journal(d))));
    assert m in Pending(d, registry);
    assert Idempotent(m);
  }

  /** Surviving both writes: the first pending migration is done. */
  lemma RecordKeepsConfig(d: Disk, registry: seq<Migration>, a: Attempt)
    requires DistinctRegistry(registry) && Pending(d, registry) != []
    ensures
      var pending := Pending(d, registry);
      var next := Record(d.(config := pending[0].up(d.config)), pending[0], a);
      Pending(next, registry) == pending[1..] && FinalConfig(next, registry) == FinalConfig(d, registry)
  {
    var pending := Pending(d, registry);
    var upped := d.(config := pending[0].up(d.config));
    assert Pending(upped, registry) == pending;
    PendingAfterRecord(upped, registry, a);
  }

  lemma {:induction false} ExecuteKeepsConfig(d: Disk, registry: seq<Migration>, pending: seq<Migration>, a: Attempt, steps: nat)
    requires WellFormed(registry) && pending == Pending(d, registry)
    ensures FinalConfig(Execute(d, pending, a, steps), registry) == FinalConfig(d, registry)
    decreases steps
  {
    if pending != [] && steps == 1 {
      UpKeepsConfig(d, registry);
    } else if pending != [] && steps > 1 {
      var next := Record(d.(config := pending[0].up(d.config)), pending[0], a);
      RecordKeepsConfig(d, registry, a);
      ExecuteKeepsConfig(next, registry, pending[1..], a, steps - 2);
    }
  }

  lemma {:induction false} TryAllKeepsConfig(d: Disk, registry: seq<Migration>, attempts: seq<Attempt>)
    requires WellFormed(registry)
    ensures FinalConfig(TryAll(d, registry, attempts), registry) == FinalConfig(d, registry)
    decreases |attempts|
  {
    if attempts != [] {
      ExecuteKeepsConfig(d, registry, Pending(d, registry), attempts[0], attempts[0].steps);
      TryAllKeepsConfig(Try(d, registry, attempts[0]), registry, attempts[1..]);
    }
  }

  /** With idempotent bodies the config is that of every pending migration applied once, too. */
  lemma AnyHistoryEndsTheSame(d: Disk, registry: seq<Migration>, crashed: seq<Attempt>, last: Attempt)
    requires WellFormed(registry) && Completes(registry, last)
    ensures
      var end := Try(TryAll(d, registry, crashed), registry, last);
      && end.config == ApplyAll(d.config, Pending(d, registry))
      && IdsOf(Journal(end)) == IdsOf(Journal(d)) + MigrationIds(Pending(d, registry))
  {
    var mid := TryAll(d, registry, crashed);
    JournalEndsTheSame(d, registry, crashed, last);
    TryAllKeepsConfig(d, registry, crashed);
    PendingIsShorter(mid, registry);
    ExecuteKeepsConfig(mid, registry, Pending(mid, registry), last, last.steps);
    ExecuteKeepsJournal(mid, registry, last, last.steps);
  }

  /** Crashes make no difference to the config or to the journaled ids. */
  lemma CrashEquivalence(d: Disk, registry: seq<Migration>, crashed: seq<Attempt>, last: Attempt, clean: Attempt)
    requires WellFormed(registry) && Completes(registry, last) && Completes(registry, clean)
    ensures
      var end, once := Try(TryAll(d, registry, crashed), registry, last), Try(d, registry, clean);
      end.config == once.config && IdsOf(Journal(end)) == IdsOf(Journal(once))
  {
    AnyHistoryEndsTheSame(d, registry, crashed, last);
    AnyHistoryEndsTheSame(d, registry, [], clean);
  }

  // ----- Exactly when crashes are harmless -----

  /** From any disk, any crashes before a completed run are as good as none. */
  ghost predicate CrashSafe(registry: seq<Migration>) {
    forall d, crashed, last, clean :: Completes(registry, last) && Completes(registry, clean) ==>
      SameOutcome(Try(TryAll(d, registry, crashed), registry, last), Try(d, registry, clean))
  }

  /** The same for the journal alone. */
  ghost predicate JournalSafe(registry: seq<Migration>) {
    forall d, crashed, last, clean :: Completes(registry, last) && Completes(registry, clean) ==>
      SameJournal(Try(TryAll(d, registry, crashed), registry, last), Try(d, registry, clean))
  }

  predicate SameJournal(a: Disk, b: Disk) {
    IdsOf(Journal(a)) == IdsOf(Journal(b))
  }

  predicate SameOutcome(a: Disk, b: Disk) {
    a.config == b.config && SameJournal(a, b)
  }

  /** A journal of these ids. */
  function JournalOf(ids: seq<string>): seq<Applied> {
    if ids == [] then [] else [Applied(ids[0], "", "")] + JournalOf(ids[1..])
  }

  lemma {:induction false} JournalHasIds(ids: seq<string>)
    ensures IdsOf(JournalOf(ids)) == ids
  {
    if ids != [] { JournalHasIds(ids[1..]); }
  }

  function HasId(id: string): Migration -> bool {
    (m: Migration) => m.id == id
  }

  function IsOther(id: string): string -> bool {
    (x: string) => x != id
  }

  function OtherIds(registry: seq<Migration>, id: string): seq<string> {
    Filter(MigrationIds(registry), IsOther(id))
  }

  /** The disk on which only the migrations called `id` are pending. */
  function OnlyPending(c: Config, registry: seq<Migration>, id: string): Disk {
    Disk(c, Some(Meta("", JournalOf(OtherIds(registry, id)))))
  }

  lemma {:induction false} FilterSame<T>(s: seq<T>, p: T -> bool, q: T -> bool)
    requires forall x :: x in s ==> p(x) == q(x)
    ensures Filter(s, p) == Filter(s, q)
  {
    if s != [] {
      assert s[0] in s && forall x :: x in s[1..] ==> x in s;
      FilterSame(s[1..], p, q);
    }
  }

  lemma OnlyPendingFacts(c: Config, registry: seq<Migration>, id: string)
    ensures
      var d := OnlyPending(c, registry, id);
      && Pending(d, registry) == Filter(registry, HasId(id))
      && IdsOf(Journal(d)) == OtherIds(registry, id)
  {
    var ids := MigrationIds(registry);
    JournalHasIds(OtherIds(registry, id));
    FilterMembers(ids, IsOther(id));
    IdsAt(registry);
    forall m | m in registry
      ensures NotIn(OtherIds(registry, id))(m) == HasId(id)(m)
    {
      var i :| 0 <= i < |registry| && registry[i] == m;
      assert ids[i] == m.id;
    }
    FilterSame(registry, NotIn(OtherIds(registry, id)), HasId(id));
  }

  /** What a run to completion leaves, whatever the registry. */
  lemma {:induction false} ExecuteAll(d: Disk, pending: seq<Migration>, a: Attempt, steps: nat)
    requires steps >= 2 * |pending|
    ensures
      var end := Execute(d, pending, a, steps);
      end.config == ApplyAll(d.config, pending) && IdsOf(Journal(end)) == IdsOf(Journal(d)) + MigrationIds(pending)
    decreases |pending|
  {
    if pending == [] {
      assert IdsOf(Journal(d)) + [] == IdsOf(Journal(d));
    } else {
      var m := pending[0];
      var next := Record(d.(config := m.up(d.config)), m, a);
      ExecuteAll(next, pending[1..], a, steps - 2);
      IdsOfSnoc(Journal(d), Applied(m.id, a.now, a.version));
      var ids, rest := IdsOf(Journal(d)), MigrationIds(pending[1..]);
      assert (ids + [m.id]) + rest == ids + ([m.id] + rest);
    }
  }

  /** Two pending migrations with one id: a crash after the first is journaled hides the second. */
  lemma RepeatedIdIsUnsafe(registry: seq<Migration>, id: string)
    requires |Filter(registry, HasId(id))| >= 2
    ensures !JournalSafe(registry) && !CrashSafe(registry)
  {
    var d, pending := OnlyPending(map[], registry, id), Filter(registry, HasId(id));
    var cut, full := Attempt(2, "", ""), Attempt(2 * |registry|, "", "");
    OnlyPendingFacts(map[], registry, id);
    FilterMembers(registry, HasId(id));
    ExecuteAll(d, pending, full, full.steps);
    var ids := IdsOf(Journal(d));
    var mid := Try(d, registry, cut);
    assert pending[0] in pending;
    IdsOfSnoc(Journal(d), Applied(id, "", ""));
    assert mid == Record(d.(config := pending[0].up(d.config)), pending[0], cut);
    assert IdsOf(Journal(mid)) == ids + [id];
    NothingPending(registry, id, ids + [id]);
    assert Try(mid, registry, full) == mid;
    IdsAt(pending);
    assert TryAll(d, registry, [cut]) == mid by { assert [cut][1..] == []; }
    assert |IdsOf(Journal(Try(d, registry, full)))| == |ids| + |pending|;
    assert !SameJournal(Try(TryAll(d, registry, [cut]), registry, full), Try(d, registry, full));
    assert !SameOutcome(Try(TryAll(d, registry, [cut]), registry, full), Try(d, registry, full));
  }

  lemma NothingPending(registry: seq<Migration>, id: string, ids: seq<string>)
    requires ids == OtherIds(registry, id) + [id]
    ensures Filter(registry, NotIn(ids)) == []
  {
    IdsAt(registry);
    FilterMembers(MigrationIds(registry), IsOther(id));
    forall m | m in registry
      ensures !NotIn(ids)(m)
    {
      var i :| 0 <= i < |registry| && registry[i] == m;
      assert MigrationIds(registry)[i] == m.id;
    }
    FilterNone(registry, NotIn(ids));
  }

  /** A pending migration whose body is not idempotent: a crash before its journal entry runs it twice. */
  lemma NonIdempotentIsUnsafe(registry: seq<Migration>, m: Migration, c: Config)
    requires Filter(registry, HasId(m.id)) == [m] && m.up(m.up(c)) != m.up(c)
    ensures !CrashSafe(registry)
  {
    var d := OnlyPending(c, registry, m.id);
    var cut, full := Attempt(1, "", ""), Attempt(2 * |registry|, "", "");
    OnlyPendingFacts(c, registry, m.id);
    OnlyPendingFacts(m.up(c), registry, m.id);
    FilterMembers(registry, HasId(m.id));
    var mid := Try(d, registry, cut);
    assert mid == OnlyPending(m.up(c), registry, m.id);
    ExecuteAll(d, [m], full, full.steps);
    ExecuteAll(mid, [m], full, full.steps);
    assert [m][1..] == [];
    assert TryAll(d, registry, [cut]) == mid by { assert [cut][1..] == []; }
    assert !SameOutcome(Try(TryAll(d, registry, [cut]), registry, full), Try(d, registry, full));
  }

  /** Two positions that pass a filter give it two elements. */
  lemma FilterTwo<T>(s: seq<T>, p: T -> bool, i: nat, j: nat)
    requires i < j < |s| && p(s[i]) && p(s[j])
    ensures |Filter(s, p)| >= 2
  {
    FilterPrefix(s, j, p);
    FilterMembers(s[..j], p);
    FilterMembers(s[j..], p);
    assert s[..j][i] == s[i] && s[j..][0] == s[j];
    assert s[i] in Filter(s[..j], p) && s[j] in Filter(s[j..], p);
  }

  /** Two positions with one id make the registry unsafe. */
  lemma RepetitionIsUnsafe(registry: seq<Migration>)
    requires !DistinctRegistry(registry)
    ensures !JournalSafe(registry) && !CrashSafe(registry)
  {
    IdsAt(registry);
    var i, j :| 0 <= i < j < |registry| && MigrationIds(registry)[i] == MigrationIds(registry)[j];
    FilterTwo(registry, HasId(registry[i].id), i, j);
    RepeatedIdIsUnsafe(registry, registry[i].id);
  }

  /** Crashes leave the journal alone exactly when ids are distinct, whatever the bodies do. */
  lemma JournalSafeIff(registry: seq<Migration>)
    ensures JournalSafe(registry) <==> DistinctRegistry(registry)
  {
    if DistinctRegistry(registry) {
      forall d, crashed, last, clean | Completes(registry, last) && Completes(registry, clean)
        ensures SameJournal(Try(TryAll(d, registry, crashed), registry, last), Try(d, registry, clean))
      {
        JournalEndsTheSame(d, registry, crashed, last);
        JournalEndsTheSame(d, registry, [], clean);
      }
    } else {
      RepetitionIsUnsafe(registry);
    }
  }

  /** Crashes are harmless exactly when ids are distinct and every body is idempotent. */
  lemma CrashSafeIff(registry: seq<Migration>)
    ensures CrashSafe(registry) <==> WellFormed(registry)
  {
    if WellFormed(registry) {
      forall d, crashed, last, clean | Completes(registry, last) && Completes(registry, clean)
        ensures SameOutcome(Try(TryAll(d, registry, crashed), registry, last), Try(d, registry, clean))
      {
        CrashEquivalence(d, registry, crashed, last, clean);
      }
    } else if DistinctRegistry(registry) {
      var m :| m in registry && !Idempotent(m);
      var c :| m.up(m.up(c)) != m.up(c);
      OnlyOneHasId(registry, m);
      NonIdempotentIsUnsafe(registry, m, c);
    } else {
      RepetitionIsUnsafe(registry);
    }
  }

  lemma {:induction false} OnlyOneHasId(registry: seq<Migration>, m: Migration)
    requires DistinctRegistry(registry) && m in registry
    ensures Filter(registry, HasId(m.id)) == [m]
  {
    var first, rest := registry[0], registry[1..];
    IdsAt(registry);
    IdsAt(rest);
    assert forall i :: 0 <= i < |rest| ==> MigrationIds(rest)[i] == MigrationIds(registry)[i + 1];
    if first.id == m.id {
      forall x | x in rest
        ensures x.id != m.id
      {
        var i :| 0 <= i < |rest| && rest[i] == x;
        assert MigrationIds(registry)[0] != MigrationIds(registry)[i + 1];
      }
      FilterNone(rest, HasId(m.id));
      assert first == m;
    } else {
      OnlyOneHasId(rest, m);
    }
  }

  // ----- The two ways to break it, in full -----

  function AppendX(c: Config): Config {
    c["a" := (if "a" in c then c["a"] else "") + "x"]
  }

  function SetA(c: Config): Config {
    c["a" := "1"]
  }

  function SetB(c: Config): Config {
    c["b" := "2"]
  }

  /** A body that is not idempotent runs twice when the crash falls between it and the journal. */
  lemma NonIdempotentBodyRunsTwice()
    ensures
      var registry, start := [Migration("0001", AppendX)], Disk(map[], None);
      var crashed := Try(start, registry, Attempt(1, "t", "v"));
      && Try(start, registry, Attempt(2, "t", "v")).config == map["a" := "x"]
      && Try(crashed, registry, Attempt(2, "t", "v")).config == map["a" := "xx"]
  {
    var m, start := Migration("0001", AppendX), Disk(map[], None);
    var a1, a2 := Attempt(1, "t", "v"), Attempt(2, "t", "v");
    assert [m][1..] == [];
    FilterAll([m], NotIn([]));
    assert Pending(start, [m]) == [m];
    var half := Try(start, [m], a1);
    assert half == Disk(AppendX(map[]), None);
    assert Pending(half, [m]) == [m];
    assert "" + "x" == "x" && "x" + "x" == "xx";
    assert Try(start, [m], a2) == Record(half, m, a2);
    assert Try(half, [m], a2) == Record(Disk(AppendX(half.config), None), m, a2);
  }

  /** With a repeated id a crash between the two loses the second body for good. */
  lemma RepeatedIdLosesABody()
    ensures
      var registry, start := [Migration("0001", SetA), Migration("0001", SetB)], Disk(map[], None);
      var crashed := Try(start, registry, Attempt(2, "t", "v"));
      && Try(start, registry, Attempt(4, "t", "v")).config == map["a" := "1", "b" := "2"]
      && Try(crashed, registry, Attempt(4, "t", "v")).config == map["a" := "1"]
  {
    var first, second := Migration("0001", SetA), Migration("0001", SetB);
    var registry, start := [first, second], Disk(map[], None);
    var a2, a4 := Attempt(2, "t", "v"), Attempt(4, "t", "v");
    assert registry[1..] == [second] && [second][1..] == [];
    FilterAll(registry, NotIn([]));
    assert Pending(start, registry) == registry;
    var d1 := Record(Disk(SetA(map[]), None), first, a2);
    assert Try(start, registry, a2) == Execute(d1, [second], a2, 0) == d1;
    assert Journal(d1)[1..] == [];
    assert IdsOf(Journal(d1)) == ["0001"];
    assert Filter([second], NotIn(["0001"])) == [];
    assert Pending(d1, registry) == [];
    var d2 := Record(Disk(SetA(map[]), None), first, a4);
    assert Try(start, registry, a4) == Execute(d2, [second], a4, 2);
  }

  // ----- The runner itself -----

  class ConfigDir {
    var config: Config
    var meta: Option<Meta>

    ghost function State(): Disk
      reads this
    {
      Disk(config, meta)
    }

    constructor (d: Disk)
      ensures State() == d
    {
      config, meta := d.config, d.meta;
    }
  }

  /** What `Execute` does at position `i`. */
  lemma ExecuteFrom(d: Disk, pending: seq<Migration>, i: nat, a: Attempt, steps: nat)
    requires i < |pending|
    ensures
      var upped := d.(config := pending[i].up(d.config));
      Execute(d, pending[i..], a, steps) ==
        if steps == 0 then d else if steps == 1 then upped
        else Execute(Record(upped, pending[i], a), pending[i + 1..], a, steps - 2)
  {
    assert pending[i..][0] == pending[i] && pending[i..][1..] == pending[i + 1..];
  }

  /** `runMigrations`.  `a.steps` is where the process dies; a snapshot writes outside the
      config directory and is not a step. */
  method RunMigrations(ctx: ConfigDir, registry: seq<Migration>, a: Attempt) returns (completed: bool)
    modifies ctx
    ensures ctx.State() == Try(old(ctx.State()), registry, a)
    ensures Completes(registry, a) ==> completed
  {
    var appliedMigrations := if ctx.meta.Some? then ctx.meta.value.appliedMigrations else [];
    var pending := Filter(registry, NotIn(IdsOf(appliedMigrations)));
    PendingIsShorter(ctx.State(), registry);
    var left: nat := a.steps;
    ghost var goal := Try(ctx.State(), registry, a);
    assert pending[0..] == pending;
    for i := 0 to |pending|
      invariant appliedMigrations == Journal(ctx.State())
      invariant Completes(registry, a) ==> left >= 2 * (|pending| - i)
      invariant Execute(ctx.State(), pending[i..], a, left) == goal
    {
      ExecuteFrom(ctx.State(), pending, i, a, left);
      appliedMigrations := RunOne(ctx, pending[i], appliedMigrations, a, left);
      if left <= 1 {
        return false;
      }
      left := left - 2;
    }
    return true;
  }

  /** The body of the loop: apply, then journal, unless the process dies first. */
  method RunOne(ctx: ConfigDir, m: Migration, applied: seq<Applied>, a: Attempt, left: nat) returns (journal: seq<Applied>)
    requires applied == Journal(ctx.State())
    modifies ctx
    ensures journal == Journal(ctx.State())
    ensures
      var d := old(ctx.State());
      var upped := d.(config := m.up(d.config));
      ctx.State() == if left == 0 then d else if left == 1 then upped else Record(upped, m, a)
  {
    journal := applied;
    if left == 0 {
      return;
    }
    ctx.config := m.up(ctx.config);
    if left == 1 {
      return;
    }
    journal := journal + [Applied(m.id, a.now, a.version)];
    ctx.meta := Some(Meta(a.version, journal));
  }
}
