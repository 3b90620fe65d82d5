/** The two entity stores of src/core/entity-store.ts as objects, operation by operation. */
module EntityStoreObjects {
  import opened Prelude
  import opened Strings
  import opened EntityNames
  import opened EntityStores

  datatype Result<T> = Ok(value: T) | Err(error: InputError)

  /** `createEntityStore`: the committed file and the shared tmp file. */
  class FileEntityStore {
    var file: seq<Entity>
    var tmp: seq<Entity>

    constructor (existing: seq<Entity>)
      ensures file == existing
    {
      file, tmp := existing, [];
    }

    method WriteAll(entities: seq<Entity>)
      modifies this
      ensures file == entities
    {
      tmp := entities;
      file := tmp;
    }

    method FindIndex(all: seq<Entity>, k: string) returns (idx: int)
      ensures idx == if IndexOfKey(all, k) < |all| then IndexOfKey(all, k) else -1
    {
      for i := 0 to |all|
        invariant forall j :: 0 <= j < i ==> KeyOf(all[j].name) != k
      {
        if KeyOf(all[i].name) == k {
          return i;
        }
      }
      return -1;
    }

    method Upsert(input: EntityInput, now: int) returns (r: Result<Entity>)
      modifies this
      ensures r.Err? ==> Validate(input) == Some(r.error) && file == old(file)
      ensures r.Ok? ==> Validate(input).None? && (file, r.value) == FileUpsert(old(file), input, now)
    {
      var invalid := Validate(input);
      if invalid.Some? {
        return Err(invalid.value);
      }
      var all := file;
      var idx := FindIndex(all, KeyOf(input.name));
      var createdAt := now;
      if idx >= 0 {
        createdAt := all[idx].createdAt;
      }
      var entity := Entity(Trim(input.name), Trim(input.description), input.kind, createdAt);
      if idx >= 0 {
        all := all[idx := entity];
      } else {
        all := all + [entity];
      }
      WriteAll(all);
      return Ok(entity);
    }

    method Delete(name: string) returns (removed: bool)
      modifies this
      ensures removed == FileDelete(old(file), name).1
      ensures file == if removed then FileDelete(old(file), name).0 else old(file)
    {
      var k := KeyOf(name);
      var next := Filter(file, OtherKey(k));
      if |next| == |file| {
        return false;
      }
      WriteAll(next);
      return true;
    }

    method Get(name: string) returns (r: Option<Entity>)
      ensures r == FileGet(file, name)
    {
      var idx := FindIndex(file, KeyOf(name));
      return if idx >= 0 then Some(file[idx]) else None;
    }
  }

  /** `createMemoryEntityStore`: a `Map` with its insertion order. */
  class MemoryEntityStore {
    var byKey: map<string, Entity>
    var order: seq<string>

    ghost function State(): Memory
      reads this
    {
      Memory(byKey, order)
    }

    constructor ()
      ensures MemoryOk(State()) && Values(State()) == []
    {
      byKey, order := map[], [];
    }

    method Upsert(input: EntityInput, now: int) returns (r: Result<Entity>)
      requires MemoryOk(State())
      modifies this
      ensures MemoryOk(State())
      ensures r.Err? ==> Validate(input) == Some(r.error) && State() == old(State())
      ensures r.Ok? ==> Validate(input).None? && (State(), r.value) == MemoryUpsert(old(State()), input, now)
      ensures r.Ok? ==> (Values(State()), r.value) == FileUpsert(Values(old(State())), input, now)
    {
      var invalid := Validate(input);
      if invalid.Some? {
        return Err(invalid.value);
      }
      UpsertRefines(State(), input, now);
      var k := KeyOf(input.name);
      var createdAt := now;
      if k in byKey {
        createdAt := byKey[k].createdAt;
      } else {
        order := order + [k];
      }
      var entity := Entity(Trim(input.name), Trim(input.description), input.kind, createdAt);
      byKey := byKey[k := entity];
      return Ok(entity);
    }

    method Delete(name: string) returns (removed: bool)
      requires MemoryOk(State())
      modifies this
      ensures MemoryOk(State()) && (State(), removed) == MemoryDelete(old(State()), name)
      ensures (Values(State()), removed) == FileDelete(Values(old(State())), name)
    {
      DeleteRefines(State(), name);
      var k := KeyOf(name);
      removed := k in byKey;
      byKey := byKey - {k};
      order := Filter(order, IsNot(k));
    }

    method Get(name: string) returns (r: Option<Entity>)
      requires MemoryOk(State())
      ensures r == FileGet(Values(State()), name)
    {
      ReadsRefine(State(), name);
      var k := KeyOf(name);
      return if k in byKey then Some(byKey[k]) else None;
    }
  }
}
