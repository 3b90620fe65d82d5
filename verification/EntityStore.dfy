/** The entity store (src/core/entity-store.ts): the file-backed store, the in-memory store
    that specifies it, and the promise queue that serialises writers. */
module EntityStores {
  import opened Prelude
  import opened Strings
  import opened EntityNames

  datatype EntityType = Asset | Topic
  datatype EntityInput = EntityInput(name: string, description: string, kind: EntityType)
  datatype Entity = Entity(name: string, description: string, kind: EntityType, createdAt: int)
  datatype InputError = NameRequired | NameHasSpace | DescriptionRequired

  /** `validateInput`; the type check is done by the datatype. */
  function Validate(input: EntityInput): Option<InputError> {
    var name := Trim(input.name);
    if name == "" then Some(NameRequired)
    else if exists i :: 0 <= i < |name| && IsSpace(name[i]) then Some(NameHasSpace)
    else if Trim(input.description) == "" then Some(DescriptionRequired)
    else None
  }

  function MakeEntity(input: EntityInput, createdAt: int): Entity {
    Entity(Trim(input.name), Trim(input.description), input.kind, createdAt)
  }

  // ----- File contents -----

  /** `all.findIndex(e => keyOf(e.name) === k)`, with the length for "not found". */
  function IndexOfKey(all: seq<Entity>, k: string): (i: nat)
    ensures i <= |all|
    ensures i < |all| ==> KeyOf(all[i].name) == k
    ensures forall j :: 0 <= j < i ==> KeyOf(all[j].name) != k
  {
    if all == [] || KeyOf(all[0].name) == k then 0 else 1 + IndexOfKey(all[1..], k)
  }

  function FileUpsert(all: seq<Entity>, input: EntityInput, now: int): (seq<Entity>, Entity) {
    var i := IndexOfKey(all, KeyOf(input.name));
    var entity := MakeEntity(input, if i < |all| then all[i].createdAt else now);
    (if i < |all| then all[i := entity] else all + [entity], entity)
  }

  function OtherKey(k: string): Entity -> bool {
    (e: Entity) => KeyOf(e.name) != k
  }

  function FileDelete(all: seq<Entity>, name: string): (seq<Entity>, bool) {
    var next := Filter(all, OtherKey(KeyOf(name)));
    (next, |next| != |all|)
  }

  function FileGet(all: seq<Entity>, name: string): Option<Entity> {
    var i := IndexOfKey(all, KeyOf(name));
    if i < |all| then Some(all[i]) else None
  }

  // ----- list and search -----

  /** Stable sort by `b.createdAt - a.createdAt`. */
  function SortNewest(s: seq<Entity>): seq<Entity> {
    if s == [] then [] else InsertOlder(s[0], SortNewest(s[1..]))
  }

  /** Puts `e` before every entity that is not newer, so earlier entities win ties. */
  function InsertOlder(e: Entity, s: seq<Entity>): seq<Entity> {
    if s == [] || s[0].createdAt <= e.createdAt then [e] + s else [s[0]] + InsertOlder(e, s[1..])
  }

  predicate NewestFirst(s: seq<Entity>) {
    forall i, j :: 0 <= i < j < |s| ==> s[i].createdAt >= s[j].createdAt
  }

  function CreatedAt(t: int): Entity -> bool {
    (e: Entity) => e.createdAt == t
  }

  lemma {:induction false} InsertOlderSorted(e: Entity, s: seq<Entity>)
    requires NewestFirst(s)
    ensures NewestFirst(InsertOlder(e, s))
    ensures InsertOlder(e, s)[0] == (if s == [] || s[0].createdAt <= e.createdAt then e else s[0])
  {
    if s != [] && s[0].createdAt > e.createdAt {
      var r := InsertOlder(e, s[1..]);
      InsertOlderSorted(e, s[1..]);
      assert s[0].createdAt >= r[0].createdAt;
      assert forall i :: 0 <= i < |r| ==> r[0].createdAt >= r[i].createdAt;
    }
  }

  lemma {:induction false} InsertOlderContents(e: Entity, s: seq<Entity>)
    ensures multiset(InsertOlder(e, s)) == multiset([e]) + multiset(s)
  {
    if s != [] && s[0].createdAt > e.createdAt {
      InsertOlderContents(e, s[1..]);
      assert s == [s[0]] + s[1..];
    }
  }

  lemma {:induction false} InsertOlderTies(e: Entity, s: seq<Entity>, t: int)
    ensures Filter(InsertOlder(e, s), CreatedAt(t)) == (if e.createdAt == t then [e] else []) + Filter(s, CreatedAt(t))
  {
    if s == [] || s[0].createdAt <= e.createdAt {
      assert ([e] + s)[1..] == s;
    } else {
      InsertOlderTies(e, s[1..], t);
      assert InsertOlder(e, s)[1..] == InsertOlder(e, s[1..]);
    }
  }

  lemma {:induction false} SortNewestSorts(s: seq<Entity>)
    ensures NewestFirst(SortNewest(s))
  {
    if s != [] {
      SortNewestSorts(s[1..]);
      InsertOlderSorted(s[0], SortNewest(s[1..]));
    }
  }

  lemma {:induction false} SortNewestPermutes(s: seq<Entity>)
    ensures multiset(SortNewest(s)) == multiset(s)
  {
    if s != [] {
      SortNewestPermutes(s[1..]);
      InsertOlderContents(s[0], SortNewest(s[1..]));
      assert s == [s[0]] + s[1..];
    }
  }

  lemma {:induction false} SortNewestKeepsTies(s: seq<Entity>, t: int)
    ensures Filter(SortNewest(s), CreatedAt(t)) == Filter(s, CreatedAt(t))
  {
    if s != [] {
      SortNewestKeepsTies(s[1..], t);
      InsertOlderTies(s[0], SortNewest(s[1..]), t);
    }
  }

  /** `list` is newest first, has the same entities, and keeps the stored order among ties. */
  lemma SortNewestIsStable(s: seq<Entity>)
    ensures NewestFirst(SortNewest(s))
    ensures multiset(SortNewest(s)) == multiset(s)
    ensures forall t :: Filter(SortNewest(s), CreatedAt(t)) == Filter(s, CreatedAt(t))
  {
    SortNewestSorts(s);
    SortNewestPermutes(s);
    forall t
      ensures Filter(SortNewest(s), CreatedAt(t)) == Filter(s, CreatedAt(t))
    {
      SortNewestKeepsTies(s, t);
    }
  }

  function Matches(q: string): Entity -> bool {
    (e: Entity) => Contains(Lower(e.name), q) || Contains(Lower(e.description), q)
  }

  function Search(all: seq<Entity>, query: string): seq<Entity> {
    var q := Lower(Trim(query));
    if q == "" then SortNewest(all) else Filter(SortNewest(all), Matches(q))
  }

  // ----- The in-memory store -----

  /** A JavaScript `Map`: entries by key, keys in insertion order. */
  datatype Memory = Memory(byKey: map<string, Entity>, order: seq<string>)

  ghost predicate MemoryOk(m: Memory) {
    && Distinct(m.order)
    && (forall k :: k in m.order <==> k in m.byKey)
    && (forall k :: k in m.byKey ==> KeyOf(m.byKey[k].name) == k)
  }

  function ValuesIn(byKey: map<string, Entity>, order: seq<string>): seq<Entity>
    requires forall k :: k in order ==> k in byKey
  {
    if order == [] then [] else [byKey[order[0]]] + ValuesIn(byKey, order[1..])
  }

  /** `[...byKey.values()]`. */
  ghost function Values(m: Memory): seq<Entity>
    requires MemoryOk(m)
  {
    ValuesIn(m.byKey, m.order)
  }

  function MapSet(m: Memory, k: string, e: Entity): Memory {
    Memory(m.byKey[k := e], if k in m.byKey then m.order else m.order + [k])
  }

  function IsNot(k: string): string -> bool {
    (x: string) => x != k
  }

  function MapDelete(m: Memory, k: string): Memory {
    Memory(m.byKey - {k}, Filter(m.order, IsNot(k)))
  }

  function MemoryUpsert(m: Memory, input: EntityInput, now: int): (Memory, Entity) {
    var k := KeyOf(input.name);
    var entity := MakeEntity(input, if k in m.byKey then m.byKey[k].createdAt else now);
    (MapSet(m, k, entity), entity)
  }

  function MemoryDelete(m: Memory, name: string): (Memory, bool) {
    (MapDelete(m, KeyOf(name)), KeyOf(name) in m.byKey)
  }

  function MemoryGet(m: Memory, name: string): Option<Entity> {
    if KeyOf(name) in m.byKey then Some(m.byKey[KeyOf(name)]) else None
  }

  // ----- The file store refines the in-memory store -----

  lemma {:induction false} ValuesAt(byKey: map<string, Entity>, order: seq<string>)
    requires forall k :: k in order ==> k in byKey
    ensures |ValuesIn(byKey, order)| == |order|
    ensures forall i :: 0 <= i < |order| ==> ValuesIn(byKey, order)[i] == byKey[order[i]]
  {
    if order != [] {
      ValuesAt(byKey, order[1..]);
    }
  }

  /** The file index of a key is its insertion rank, and it is missing from both or neither. */
  lemma IndexIsRank(m: Memory, k: string)
    requires MemoryOk(m)
    ensures
      var i := IndexOfKey(Values(m), k);
      && |Values(m)| == |m.order|
      && (i < |m.order| <==> k in m.byKey)
      && (i < |m.order| ==> m.order[i] == k && Values(m)[i] == m.byKey[k])
  {
    ValuesAt(m.byKey, m.order);
    var i := IndexOfKey(Values(m), k);
    assert i < |m.order| ==> KeyOf(m.byKey[m.order[i]].name) == m.order[i];
    if k in m.byKey {
      var j :| 0 <= j < |m.order| && m.order[j] == k;
      assert KeyOf(Values(m)[j].name) == k;
    }
  }

  /** Setting a present key rewrites one value in place. */
  lemma SetPresent(m: Memory, k: string, e: Entity, i: nat)
    requires MemoryOk(m) && KeyOf(e.name) == k && i < |m.order| && m.order[i] == k
    ensures MemoryOk(MapSet(m, k, e)) && i < |Values(m)| && Values(MapSet(m, k, e)) == Values(m)[i := e]
  {
    ValuesAt(m.byKey, m.order);
    ValuesAt(MapSet(m, k, e).byKey, m.order);
  }

  /** Setting a new key appends one value. */
  lemma SetAbsent(m: Memory, k: string, e: Entity)
    requires MemoryOk(m) && KeyOf(e.name) == k && k !in m.byKey
    ensures MemoryOk(MapSet(m, k, e)) && Values(MapSet(m, k, e)) == Values(m) + [e]
  {
    ValuesAt(m.byKey, m.order);
    ValuesAt(MapSet(m, k, e).byKey, MapSet(m, k, e).order);
  }

  lemma UpsertRefines(m: Memory, input: EntityInput, now: int)
    requires MemoryOk(m)
    ensures
      var (m', e) := MemoryUpsert(m, input, now);
      MemoryOk(m') && FileUpsert(Values(m), input, now) == (Values(m'), e)
  {
    var k := KeyOf(input.name);
    var e := MemoryUpsert(m, input, now).1;
    IndexIsRank(m, k);
    TrimKeepsKey(input.name);
    if k in m.byKey {
      SetPresent(m, k, e, IndexOfKey(Values(m), k));
    } else {
      SetAbsent(m, k, e);
    }
  }

  lemma {:induction false} FilteredValues(byKey: map<string, Entity>, order: seq<string>, k: string)
    requires forall x :: x in order ==> x in byKey && KeyOf(byKey[x].name) == x
    ensures forall x :: x in Filter(order, IsNot(k)) ==> x in byKey - {k}
    ensures Filter(ValuesIn(byKey, order), OtherKey(k)) == ValuesIn(byKey - {k}, Filter(order, IsNot(k)))
  {
    FilterMembers(order, IsNot(k));
    if order != [] {
      FilteredValues(byKey, order[1..], k);
      var v, rest := ValuesIn(byKey, order), Filter(order[1..], IsNot(k));
      assert v[0] == byKey[order[0]] && v[1..] == ValuesIn(byKey, order[1..]);
      if order[0] != k {
        assert Filter(order, IsNot(k)) == [order[0]] + rest;
        assert ([order[0]] + rest)[1..] == rest;
        assert Filter(v, OtherKey(k)) == [v[0]] + Filter(v[1..], OtherKey(k));
      } else {
        assert Filter(order, IsNot(k)) == [] + rest == rest;
        assert Filter(v, OtherKey(k)) == [] + Filter(v[1..], OtherKey(k)) == Filter(v[1..], OtherKey(k));
      }
    }
  }

  lemma {:induction false} FilterKeepsDistinct(s: seq<string>, k: string)
    requires Distinct(s)
    ensures Distinct(Filter(s, IsNot(k)))
    ensures |Filter(s, IsNot(k))| == |s| <==> k !in s
  {
    if s != [] {
      FilterKeepsDistinct(s[1..], k);
      FilterMembers(s[1..], IsNot(k));
      assert s == [s[0]] + s[1..];
      assert s[0] !in s[1..];
    }
  }

  lemma DeleteRefines(m: Memory, name: string)
    requires MemoryOk(m)
    ensures
      var (m', removed) := MemoryDelete(m, name);
      MemoryOk(m') && FileDelete(Values(m), name) == (Values(m'), removed)
  {
    var k := KeyOf(name);
    var m' := MapDelete(m, k);
    FilterMembers(m.order, IsNot(k));
    FilterKeepsDistinct(m.order, k);
    FilteredValues(m.byKey, m.order, k);
    ValuesAt(m.byKey, m.order);
    ValuesAt(m'.byKey, m'.order);
  }

  lemma ReadsRefine(m: Memory, name: string)
    requires MemoryOk(m)
    ensures FileGet(Values(m), name) == MemoryGet(m, name)
  {
    IndexIsRank(m, KeyOf(name));
  }

  // ----- What the specification promises -----

  /** Input is accepted exactly when the trimmed name is one non-empty word and the description
      says something. */
  lemma AcceptedIff(input: EntityInput)
    ensures Validate(input) == None <==>
              && Trim(input.name) != ""
              && (forall i :: 0 <= i < |Trim(input.name)| ==> !IsSpace(Trim(input.name)[i]))
              && Trim(input.description) != ""
    ensures Validate(input) == Some(NameRequired) <==> Trim(input.name) == ""
    ensures Validate(input) == Some(DescriptionRequired) ==> Trim(input.description) == ""
  {
  }

  /** Storing an entity makes it the one found under every spelling of its name, with the first
      creation time, and changes nothing else. */
  lemma UpsertThenGet(m: Memory, input: EntityInput, now: int, name: string)
    requires MemoryOk(m)
    ensures
      var (m', e) := MemoryUpsert(m, input, now);
      var before := MemoryGet(m, input.name);
      && e == Entity(Trim(input.name), Trim(input.description), input.kind, if before.Some? then before.value.createdAt else now)
      && MemoryGet(m', name) == (if KeyOf(name) == KeyOf(input.name) then Some(e) else MemoryGet(m, name))
      && (forall x :: x in m.order ==> x in m'.order) && |m'.order| == |m.order| + if before.Some? then 0 else 1
  {
  }

  /** Deleting a name removes what was found under it, in every spelling, and nothing else. */
  lemma DeleteThenGet(m: Memory, name: string, other: string)
    requires MemoryOk(m)
    ensures
      var (m', removed) := MemoryDelete(m, name);
      && (removed <==> MemoryGet(m, name).Some?)
      && MemoryGet(m', other) == (if KeyOf(other) == KeyOf(name) then None else MemoryGet(m, other))
  {
  }

  /** A search finds exactly the entities whose name or description contains the folded query, and
      with a blank query all of them, newest first. */
  lemma SearchIff(all: seq<Entity>, query: string, e: Entity)
    ensures
      var q := Lower(Trim(query));
      e in Search(all, query) <==>
        e in all && (q == "" || Occurs(Lower(e.name), q) || Occurs(Lower(e.description), q))
    ensures NewestFirst(Search(all, query))
  {
    var q, sorted := Lower(Trim(query)), SortNewest(all);
    SortNewestIsStable(all);
    assert e in sorted <==> e in all by {
      assert e in multiset(sorted) <==> e in multiset(all);
    }
    FilterMembers(sorted, Matches(q));
    FilterKeepsNewest(sorted, Matches(q));
    MatchesIff(q, e);
  }

  lemma MatchesIff(q: string, e: Entity)
    ensures Matches(q)(e) <==> Occurs(Lower(e.name), q) || Occurs(Lower(e.description), q)
  {
    ContainsIff(Lower(e.name), q);
    ContainsIff(Lower(e.description), q);
  }

  lemma {:induction false} FilterKeepsNewest(s: seq<Entity>, p: Entity -> bool)
    requires NewestFirst(s)
    ensures NewestFirst(Filter(s, p))
  {
    if s != [] {
      FilterKeepsNewest(s[1..], p);
      FilterMembers(s[1..], p);
      var rest := Filter(s[1..], p);
      assert forall i :: 0 <= i < |rest| ==> rest[i] in s[1..];
    }
  }
}
