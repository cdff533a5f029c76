/**
 * The plugin API's key-value store as the stress commands see it: KVGet,
 * KVSet, KVDelete and KVDeleteAll, each of which may return an error. Which
 * call errs is decided by a fault oracle fixed with the store; a call that
 * errs changes nothing. Every call, failed or not, is appended to a ghost
 * trace so that the order of calls can be specified.
 */
module Gateway {

  /** Go's string and []byte hold bytes; here both are `string`, a sequence of code points. */
  type Bytes = string

  type Entries = map<string, Bytes>

  datatype Call = Get(key: string) | Set(key: string, value: Bytes) | Delete(key: string) | DeleteAll

  /** Which calls the store answers with an error. */
  datatype Faults = Faults(gets: set<string>, sets: set<string>, deletes: set<string>, deleteAll: bool)

  const NO_FAULTS: Faults := Faults({}, {}, {}, false)

  predicate Fails(f: Faults, c: Call) {
    match c
    case Get(k) => k in f.gets
    case Set(k, _) => k in f.sets
    case Delete(k) => k in f.deletes
    case DeleteAll => f.deleteAll
  }

  /** What a successful KVGet returns: the stored bytes, or nothing for an absent key. */
  function Lookup(m: Entries, key: string): Bytes {
    if key in m then m[key] else []
  }

  class KVStore {
    var entries: Entries
    const faults: Faults
    ghost var trace: seq<Call>

    constructor (initial: Entries, faults: Faults)
      ensures entries == initial && this.faults == faults && trace == []
    {
      entries := initial;
      this.faults := faults;
      trace := [];
    }

    method KVGet(key: string) returns (value: Bytes, ok: bool)
      modifies this`trace
      ensures ok == !Fails(faults, Get(key))
      ensures value == if ok then Lookup(entries, key) else []
      ensures trace == old(trace) + [Get(key)]
    {
      trace := trace + [Get(key)];
      ok := key !in faults.gets;
      value := if ok then Lookup(entries, key) else [];
    }

    method KVSet(key: string, value: Bytes) returns (ok: bool)
      modifies this
      ensures ok == !Fails(faults, Set(key, value))
      ensures entries == if ok then old(entries)[key := value] else old(entries)
      ensures trace == old(trace) + [Set(key, value)]
    {
      trace := trace + [Set(key, value)];
      ok := key !in faults.sets;
      if ok {
        entries := entries[key := value];
      }
    }

    method KVDelete(key: string) returns (ok: bool)
      modifies this
      ensures ok == !Fails(faults, Delete(key))
      ensures entries == if ok then old(entries) - {key} else old(entries)
      ensures trace == old(trace) + [Delete(key)]
    {
      trace := trace + [Delete(key)];
      ok := key !in faults.deletes;
      if ok {
        entries := entries - {key};
      }
    }

    method KVDeleteAll() returns (ok: bool)
      modifies this
      ensures ok == !Fails(faults, DeleteAll)
      ensures entries == if ok then map[] else old(entries)
      ensures trace == old(trace) + [DeleteAll]
    {
      trace := trace + [DeleteAll];
      ok := !faults.deleteAll;
      if ok {
        entries := map[];
      }
    }
  }
}
