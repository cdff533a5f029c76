/**
 * Whole runs of the stress harness on one store: Setup followed by Read,
 * Save, Teardown and DeleteAll, chained through the specification
 * functions of module Commands.
 */
module Lifecycle {
  import opened Wrappers
  import opened Gateway
  import opened Commands
  import opened CommandProperties
  import Json
  import Strconv

  /** The store after a successful individual-mode Setup of the ids. */
  function AfterSetup(m: Entries, ids: seq<string>): Entries {
    WriteOwn(m, ids)[REGISTRY_KEY := Json.Encode(ids)]
  }

  /** On a store that never errs, `setup n` succeeds and leaves AfterSetup behind. */
  lemma SetupSucceeds(n: nat, uuids: nat -> string, m: Entries, useArray: bool)
    requires n <= Strconv.MAX_INT64
    ensures var ids := Ids(uuids, n);
      var parameters := if useArray then [Strconv.Itoa(n), "array"] else [Strconv.Itoa(n)];
      var e := SetupSpec(parameters, uuids, NO_FAULTS, m);
      |ids| == n && e.status == Ok(SetupDone(n))
      && e.entries == (if useArray then m[REGISTRY_KEY := Json.Encode(ids)] else AfterSetup(m, ids))
      && Json.Decode(Lookup(e.entries, REGISTRY_KEY)) == Some(ids)
  {
    Strconv.AtoiItoa(n);
    var ids := Ids(uuids, n);
    FirstInNone(ids, {});
    WriteOwnNothing(m);
    Json.DecodeEncode(ids);
  }

  /** Setup(n) then Read in individual mode reports exactly n, after one get per id in generation order. */
  lemma SetupThenRead(n: nat, uuids: nat -> string, m: Entries)
    requires n <= Strconv.MAX_INT64
    ensures var s := SetupSpec([Strconv.Itoa(n)], uuids, NO_FAULTS, m);
      var r := ReadSpec([], NO_FAULTS, s.entries);
      s.status == Ok(SetupDone(n))
      && r.status == Ok(ReadDone(n, false))
      && r.calls == [Get(REGISTRY_KEY)] + Gets(Ids(uuids, n))
  {
    SetupSucceeds(n, uuids, m, false);
    FirstInNone(Ids(uuids, n), {});
  }

  /**
   * Setup(n, array) creates no per-id entry, and Read in array mode then
   * reports n after the registry get alone.
   */
  lemma SetupArrayThenReadArray(n: nat, uuids: nat -> string, m: Entries)
    requires n <= Strconv.MAX_INT64
    ensures var s := SetupSpec([Strconv.Itoa(n), "array"], uuids, NO_FAULTS, m);
      var r := ReadSpec(["array"], NO_FAULTS, s.entries);
      SameOutside(m, s.entries, {REGISTRY_KEY})
      && r.status == Ok(ReadDone(n, true))
      && r.calls == [Get(REGISTRY_KEY)]
  {
    SetupSucceeds(n, uuids, m, true);
  }

  /**
   * After Setup(n, array), an individual-mode Read fails at stage 3 on the
   * first id when the store errs for that absent key; a store that, like the
   * plugin API, answers an absent key with no error lets it succeed.
   */
  lemma ReadEachAfterArraySetup(n: nat, uuids: nat -> string, m: Entries, f: Faults)
    requires 0 < n <= Strconv.MAX_INT64
    requires f.sets == {} && REGISTRY_KEY !in f.gets && uuids(0) in f.gets
    ensures var s := SetupSpec([Strconv.Itoa(n), "array"], uuids, f, m);
      ReadSpec([], f, s.entries).status == Fail(3, StoreError(Get(uuids(0))))
    ensures var s := SetupSpec([Strconv.Itoa(n), "array"], uuids, NO_FAULTS, m);
      ReadSpec([], NO_FAULTS, s.entries).status == Ok(ReadDone(n, false))
  {
    Strconv.AtoiItoa(n);
    var ids := Ids(uuids, n);
    FirstInNone(ids, {});
    WriteOwnNothing(m);
    Json.DecodeEncode(ids);
    FirstInAt(ids, f.gets, 0);
  }

  /**
   * Teardown after Setup(n) removes the registry and all n ids and nothing
   * else; a second Teardown then finds no registry bytes and fails to
   * decode them, at stage 2.
   */
  lemma SetupThenTeardownTwice(n: nat, uuids: nat -> string, m: Entries)
    requires n <= Strconv.MAX_INT64
    ensures var ids := Ids(uuids, n);
      var s := SetupSpec([Strconv.Itoa(n)], uuids, NO_FAULTS, m);
      var t := TeardownSpec(NO_FAULTS, s.entries);
      t.status == Ok(Deleted(n))
      && (forall j :: 0 <= j < n ==> ids[j] !in t.entries)
      && REGISTRY_KEY !in t.entries
      && SameOutside(m, t.entries, (set u | u in ids) + {REGISTRY_KEY})
      && TeardownSpec(NO_FAULTS, t.entries) == Effect(Fail(2, CorruptRegistry), t.entries, [Get(REGISTRY_KEY)])
  {
    SetupSucceeds(n, uuids, m, false);
    var ids := Ids(uuids, n);
    TeardownAfterSetup(m, ids);
    TeardownWithoutRegistry(TeardownSpec(NO_FAULTS, AfterSetup(m, ids)).entries);
  }

  /** Teardown on what Setup left removes the ids and the registry and nothing else. */
  lemma TeardownAfterSetup(m: Entries, ids: seq<string>)
    ensures var t := TeardownSpec(NO_FAULTS, AfterSetup(m, ids));
      t.status == Ok(Deleted(|ids|))
      && (forall j :: 0 <= j < |ids| ==> ids[j] !in t.entries)
      && REGISTRY_KEY !in t.entries
      && SameOutside(m, t.entries, (set u | u in ids) + {REGISTRY_KEY})
  {
    var s := AfterSetup(m, ids);
    Json.DecodeEncode(ids);
    assert Lookup(s, REGISTRY_KEY) == Json.Encode(ids);
    FirstInNone(ids, {});
    WriteOwnAll(m, ids);
    TeardownSuccess(NO_FAULTS, s, ids);
  }

  /** With no registry left, teardown reads empty bytes, which do not decode. */
  lemma TeardownWithoutRegistry(m: Entries)
    requires REGISTRY_KEY !in m
    ensures TeardownSpec(NO_FAULTS, m) == Effect(Fail(2, CorruptRegistry), m, [Get(REGISTRY_KEY)])
  {
    assert Lookup(m, REGISTRY_KEY) == [];
    Json.DecodeRejectsEmpty();
  }

  /** Each id already holds its own bytes after Setup, so rewriting them all changes nothing. */
  lemma RewriteAfterSetup(m: Entries, ids: seq<string>)
    requires REGISTRY_KEY !in ids
    ensures WriteOwn(AfterSetup(m, ids), ids) == AfterSetup(m, ids)
  {
    var s := AfterSetup(m, ids);
    assert forall k :: k in WriteOwn(s, ids) <==> k in s;
    assert forall k :: k in s ==> WriteOwn(s, ids)[k] == s[k];
  }

  /**
   * The full cycle on a store that never errs: Setup(n), Save in individual
   * mode (every key read, then rewritten with its own id, leaving the store
   * as it was), Teardown, and DeleteAll on what is left.
   */
  lemma FullCycle(n: nat, uuids: nat -> string, m: Entries)
    requires n <= Strconv.MAX_INT64
    requires Unique(uuids)
    ensures var ids := Ids(uuids, n);
      var s := SetupSpec([Strconv.Itoa(n)], uuids, NO_FAULTS, m);
      var v := SaveSpec([], NO_FAULTS, s.entries);
      var t := TeardownSpec(NO_FAULTS, v.entries);
      var d := DeleteAllSpec(NO_FAULTS, t.entries);
      s.status == Ok(SetupDone(n))
      && v.status == Ok(SavedIndividually(n)) && v.entries == s.entries
      && v.calls == [Get(REGISTRY_KEY)] + SaveCalls(ids)
      && t.status == Ok(Deleted(n))
      && d.status == Ok(DeletedAll) && d.entries == map[]
  {
    SetupSucceeds(n, uuids, m, false);
    var ids := Ids(uuids, n);
    FirstInNone(ids, {});
    assert NO_FAULTS.gets + NO_FAULTS.sets == {};
    assert REGISTRY_KEY !in ids;
    RewriteAfterSetup(m, ids);
    SetupThenTeardownTwice(n, uuids, m);
  }
}
