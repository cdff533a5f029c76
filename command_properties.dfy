/**
 * Properties of the stress handlers, derived from their specification
 * functions in module Commands: which keys each handler writes or deletes
 * and in what order, at which stage it stops, that nothing is rolled back,
 * and what a success means for the store.
 */
module CommandProperties {
  import opened Wrappers
  import opened Gateway
  import opened Commands
  import Json
  import Strconv

  /** Keys outside `touched` have the same presence and value in both stores. */
  ghost predicate SameOutside(m: Entries, m': Entries, touched: set<string>) {
    forall key :: key !in touched ==> (key in m' <==> key in m) && Lookup(m', key) == Lookup(m, key)
  }

  // ----- Setup -----

  /**
   * No parameters means 1000 ids in individual mode; a count Atoi rejects
   * stops at stage 1 before any call; array mode needs a second parameter
   * that is exactly "array".
   */
  lemma SetupParameters(parameters: seq<string>, uuids: nat -> string, f: Faults, m: Entries)
    ensures parameters == [] ==> SetupSpec(parameters, uuids, f, m) == SetupCountSpec(1000, false, uuids, f, m)
    ensures |parameters| > 0 && Strconv.Atoi(parameters[0]).None? ==>
      SetupSpec(parameters, uuids, f, m) == Effect(Fail(1, BadCount(parameters[0])), m, [])
    ensures |parameters| > 0 && Strconv.Atoi(parameters[0]).Some? ==>
      SetupSpec(parameters, uuids, f, m)
      == SetupCountSpec(Strconv.Atoi(parameters[0]).value, |parameters| > 1 && parameters[1] == "array", uuids, f, m)
  {
  }

  /** `setup abc` is a parse failure: stage 1, no store call. */
  lemma SetupRejectsNonNumeric(uuids: nat -> string, f: Faults, m: Entries)
    ensures SetupSpec(["abc"], uuids, f, m) == Effect(Fail(1, BadCount("abc")), m, [])
  {
    assert !Strconv.IsDigit("abc"[0]);
  }

  /** Writing the first k ids stores each of them under itself and changes nothing else. */
  lemma WriteOwnPrefix(m: Entries, ids: seq<string>, k: nat)
    requires k <= |ids|
    ensures forall j :: 0 <= j < k ==> ids[j] in WriteOwn(m, ids[..k]) && WriteOwn(m, ids[..k])[ids[j]] == ids[j]
    ensures SameOutside(m, WriteOwn(m, ids[..k]), set u | u in ids[..k])
  {
    assert forall j :: 0 <= j < k ==> ids[j] in ids[..k];
  }

  /** Writing all ids stores each of them under itself and changes nothing else. */
  lemma WriteOwnAll(m: Entries, ids: seq<string>)
    ensures forall j :: 0 <= j < |ids| ==> ids[j] in WriteOwn(m, ids) && WriteOwn(m, ids)[ids[j]] == ids[j]
    ensures SameOutside(m, WriteOwn(m, ids), set u | u in ids)
  {
  }

  lemma WriteOwnNothing(m: Entries)
    ensures WriteOwn(m, []) == m
  {
  }

  /**
   * Individual mode, first failing KVSet at position k: one KVSet(u, u) per
   * id in generation order up to and including the failing one, stage 2,
   * the ids before k stay written, the registry is never written and no
   * other key changes.
   */
  lemma SetupStopsAtFirstFailedSet(n: int, uuids: nat -> string, f: Faults, m: Entries)
    requires Unique(uuids)
    requires FirstIn(Ids(uuids, n), f.sets) < |Ids(uuids, n)|
    ensures var ids := Ids(uuids, n);
      var k := FirstIn(ids, f.sets);
      var e := SetupCountSpec(n, false, uuids, f, m);
      e.status == Fail(2, StoreError(Set(ids[k], ids[k])))
      && e.calls == OwnSets(ids[..k + 1])
      && (forall j :: 0 <= j < |e.calls| ==> e.calls[j].key != REGISTRY_KEY)
      && (forall j :: 0 <= j < k ==> ids[j] in e.entries && e.entries[ids[j]] == ids[j])
      && SameOutside(m, e.entries, set u | u in ids[..k])
  {
    var ids := Ids(uuids, n);
    var k := FirstIn(ids, f.sets);
    WriteOwnPrefix(m, ids, k);
  }

  /**
   * Individual mode, success: every generated id is stored under itself,
   * the registry holds exactly the ids in generation order, the result
   * carries the requested count, and nothing else changes.
   */
  lemma SetupIndividualSuccess(n: int, uuids: nat -> string, f: Faults, m: Entries)
    requires Unique(uuids)
    requires SetupCountSpec(n, false, uuids, f, m).status.Ok?
    ensures var ids := Ids(uuids, n);
      var e := SetupCountSpec(n, false, uuids, f, m);
      e.status == Ok(SetupDone(n)) && |ids| == Count(n)
      && e.calls == OwnSets(ids) + [Set(REGISTRY_KEY, Json.Encode(ids))]
      && (forall j :: 0 <= j < |ids| ==> ids[j] in e.entries && e.entries[ids[j]] == ids[j])
      && REGISTRY_KEY in e.entries && Json.Decode(e.entries[REGISTRY_KEY]) == Some(ids)
      && SameOutside(m, e.entries, (set u | u in ids) + {REGISTRY_KEY})
  {
    var ids := Ids(uuids, n);
    assert FirstIn(ids, f.sets) == |ids|;
    var c := Set(REGISTRY_KEY, Json.Encode(ids));
    assert SetupCountSpec(n, false, uuids, f, m)
      == Effect(Ok(SetupDone(n)), WriteOwn(m, ids)[REGISTRY_KEY := Json.Encode(ids)], OwnSets(ids) + [c]);
    WriteOwnAll(m, ids);
    Json.DecodeEncode(ids);
  }

  /**
   * Array mode writes nothing but the registry. On success the registry
   * holds exactly the generated ids in order (none when n <= 0) and the
   * result carries n; on failure, at stage 4, the store is unchanged.
   */
  lemma SetupArrayOnlyRegistry(n: int, uuids: nat -> string, f: Faults, m: Entries)
    ensures var ids := Ids(uuids, n);
      var e := SetupCountSpec(n, true, uuids, f, m);
      e.calls == [Set(REGISTRY_KEY, Json.Encode(ids))]
      && SameOutside(m, e.entries, {REGISTRY_KEY})
      && (e.status.Ok? ==>
            e.status == Ok(SetupDone(n)) && REGISTRY_KEY in e.entries
            && Json.Decode(e.entries[REGISTRY_KEY]) == Some(ids) && |ids| == Count(n))
      && (e.status.Fail? ==> e.status.stage == 4 && e.entries == m)
      && (n <= 0 ==> ids == [])
  {
    WriteOwnNothing(m);
    Json.DecodeEncode(Ids(uuids, n));
  }

  // ----- Read -----

  /** Read never changes the store. */
  lemma ReadLeavesStore(parameters: seq<string>, f: Faults, m: Entries)
    ensures ReadSpec(parameters, f, m).entries == m
  {
  }

  /** A failed registry get is stage 1, a registry that does not decode stage 2; both after one call. */
  lemma ReadRegistryStages(parameters: seq<string>, f: Faults, m: Entries)
    ensures Fails(f, Get(REGISTRY_KEY)) ==>
      ReadSpec(parameters, f, m) == Effect(Fail(1, StoreError(Get(REGISTRY_KEY))), m, [Get(REGISTRY_KEY)])
    ensures !Fails(f, Get(REGISTRY_KEY)) && Json.Decode(Lookup(m, REGISTRY_KEY)).None? ==>
      ReadSpec(parameters, f, m) == Effect(Fail(2, CorruptRegistry), m, [Get(REGISTRY_KEY)])
  {
  }

  /**
   * A successful Read reports the length of the registry list and the
   * mode; array mode issues only the registry get, individual mode one get
   * per listed key, in list order.
   */
  lemma ReadSuccess(parameters: seq<string>, f: Faults, m: Entries)
    requires ReadSpec(parameters, f, m).status.Ok?
    ensures Json.Decode(Lookup(m, REGISTRY_KEY)).Some?
    ensures var arr := Json.Decode(Lookup(m, REGISTRY_KEY)).value;
      var e := ReadSpec(parameters, f, m);
      e.status == Ok(ReadDone(|arr|, WantsArray(parameters)))
      && e.calls == [Get(REGISTRY_KEY)] + (if WantsArray(parameters) then [] else Gets(arr))
  {
  }

  /** Individual mode stops at stage 3 on the first listed key whose get fails. */
  lemma ReadStopsAtFirstFailedGet(parameters: seq<string>, f: Faults, m: Entries, arr: seq<string>)
    requires !WantsArray(parameters) && !Fails(f, Get(REGISTRY_KEY))
    requires Json.Decode(Lookup(m, REGISTRY_KEY)) == Some(arr)
    requires FirstIn(arr, f.gets) < |arr|
    ensures var k := FirstIn(arr, f.gets);
      ReadSpec(parameters, f, m) == Effect(Fail(3, StoreError(Get(arr[k]))), m, [Get(REGISTRY_KEY)] + Gets(arr[..k + 1]))
  {
  }

  // ----- Save -----

  /**
   * Array mode: the list written back under the registry key is the list
   * read, element for element; no per-key entry is read or written; a
   * failed write is stage 4 and changes nothing.
   */
  lemma SaveWithArrayKeepsList(parameters: seq<string>, f: Faults, m: Entries, arr: seq<string>)
    requires WantsArray(parameters) && !Fails(f, Get(REGISTRY_KEY))
    requires Json.Decode(Lookup(m, REGISTRY_KEY)) == Some(arr)
    ensures var e := SaveSpec(parameters, f, m);
      e.calls == [Get(REGISTRY_KEY), Set(REGISTRY_KEY, Json.Encode(arr))]
      && SameOutside(m, e.entries, {REGISTRY_KEY})
      && (e.status.Ok? ==>
            e.status == Ok(SavedWithArray(|arr|)) && Json.Decode(Lookup(e.entries, REGISTRY_KEY)) == Some(arr))
      && (e.status.Fail? ==> e.status == Fail(4, StoreError(Set(REGISTRY_KEY, Json.Encode(arr)))) && e.entries == m)
  {
    Json.DecodeEncode(arr);
  }

  /** The calls of individual-mode Save: for the i-th listed key a get, then a set of its own id. */
  lemma {:induction false} SaveCallsAt(ids: seq<string>, i: nat)
    requires i < |ids|
    ensures |SaveCalls(ids)| == 2 * |ids|
    ensures SaveCalls(ids)[2 * i] == Get(ids[i]) && SaveCalls(ids)[2 * i + 1] == Set(ids[i], ids[i])
    decreases |ids|
  {
    var front := ids[..|ids| - 1];
    if i < |ids| - 1 {
      SaveCallsAt(front, i);
    } else if front != [] {
      SaveCallsAt(front, 0);
    }
  }

  /**
   * Individual mode, success: every listed key holds its own id, the
   * registry and every unlisted key are unchanged, and the result carries
   * the list length.
   */
  lemma SaveEachSuccess(f: Faults, m: Entries, arr: seq<string>)
    requires SaveEachSpec(arr, f, m).status.Ok?
    ensures var e := SaveEachSpec(arr, f, m);
      e.status == Ok(SavedIndividually(|arr|))
      && e.calls == SaveCalls(arr)
      && (forall j :: 0 <= j < |arr| ==> arr[j] in e.entries && e.entries[arr[j]] == arr[j])
      && SameOutside(m, e.entries, set u | u in arr)
      && (REGISTRY_KEY !in arr ==> Lookup(e.entries, REGISTRY_KEY) == Lookup(m, REGISTRY_KEY))
  {
    var k := FirstIn(arr, f.gets + f.sets);
    assert k == |arr|;
    assert SaveEachSpec(arr, f, m) == Effect(Ok(SavedIndividually(|arr|)), WriteOwn(m, arr), SaveCalls(arr));
    WriteOwnAll(m, arr);
  }

  /**
   * Individual mode stops at the first listed key whose get (stage 5) or
   * set (stage 6) fails; the keys before it stay rewritten, the rest are
   * untouched.
   */
  lemma SaveEachStops(f: Faults, m: Entries, arr: seq<string>)
    requires FirstIn(arr, f.gets + f.sets) < |arr|
    ensures var k := FirstIn(arr, f.gets + f.sets);
      var u := arr[k];
      var e := SaveEachSpec(arr, f, m);
      (u in f.gets ==> e.status == Fail(5, StoreError(Get(u))) && e.calls == SaveCalls(arr[..k]) + [Get(u)])
      && (u !in f.gets ==> e.status == Fail(6, StoreError(Set(u, u))) && e.calls == SaveCalls(arr[..k]) + [Get(u), Set(u, u)])
      && (forall j :: 0 <= j < k ==> arr[j] in e.entries && e.entries[arr[j]] == arr[j])
      && SameOutside(m, e.entries, set u | u in arr[..k])
  {
    WriteOwnPrefix(m, arr, FirstIn(arr, f.gets + f.sets));
  }

  // ----- Teardown -----

  /** Removing a list of keys removes each of them and changes nothing else. */
  lemma RemovedAll(m: Entries, ids: seq<string>)
    ensures forall j :: 0 <= j < |ids| ==> ids[j] !in Removed(m, ids)
    ensures SameOutside(m, Removed(m, ids), set u | u in ids)
  {
  }

  /**
   * Teardown, success: neither a listed key nor the registry remains,
   * every other key is unchanged, the result carries the list length, and
   * the deletes ran in list order followed by the registry's.
   */
  lemma TeardownSuccess(f: Faults, m: Entries, arr: seq<string>)
    requires !Fails(f, Get(REGISTRY_KEY))
    requires Json.Decode(Lookup(m, REGISTRY_KEY)) == Some(arr)
    requires TeardownSpec(f, m).status.Ok?
    ensures var e := TeardownSpec(f, m);
      e.status == Ok(Deleted(|arr|))
      && e.calls == [Get(REGISTRY_KEY)] + Deletes(arr) + [Delete(REGISTRY_KEY)]
      && (forall j :: 0 <= j < |arr| ==> arr[j] !in e.entries)
      && REGISTRY_KEY !in e.entries
      && SameOutside(m, e.entries, (set u | u in arr) + {REGISTRY_KEY})
  {
  }

  /**
   * Teardown stops at stage 3 on the first listed key whose delete fails;
   * the keys before it stay deleted and the registry is not deleted.
   */
  lemma {:induction false} TeardownStopsAtFirstFailedDelete(f: Faults, m: Entries, arr: seq<string>)
    requires FirstIn(arr, f.deletes) < |arr|
    ensures var k := FirstIn(arr, f.deletes);
      var e := TeardownListSpec(arr, f, m);
      e.status == Fail(3, StoreError(Delete(arr[k])))
      && e.calls == Deletes(arr[..k + 1])
      && (forall j :: 0 <= j < k ==> arr[j] !in e.entries)
      && SameOutside(m, e.entries, set u | u in arr[..k])
  {
    var k := FirstIn(arr, f.deletes);
    RemovedAll(m, arr[..k]);
    assert forall j :: 0 <= j < k ==> arr[..k][j] == arr[j];
  }

  // ----- DeleteAll -----

  /** Exactly one KVDeleteAll; it empties the whole store or fails at stage 1 changing nothing. */
  lemma DeleteAllEmpties(f: Faults, m: Entries)
    ensures var e := DeleteAllSpec(f, m);
      e.calls == [DeleteAll]
      && (e.status.Ok? <==> !f.deleteAll)
      && (e.status.Ok? ==> e.status == Ok(DeletedAll) && e.entries == map[])
      && (e.status.Fail? ==> e.status == Fail(1, StoreError(DeleteAll)) && e.entries == m)
  {
  }
}
