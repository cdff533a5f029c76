/**
 * The five stress-test handlers of server/commands.go. Each one is a
 * fail-fast sequence of calls on the key-value store; the batch of
 * generated ids is kept as a JSON list under the registry key "alluuids".
 *
 * For each handler a closed-form specification function (SetupSpec, ...)
 * gives the Effect of one invocation: the status it returns, the entries
 * of the store afterwards and the calls it issues, in order. The methods of
 * class Plugin are the handlers themselves and are proved to have exactly
 * that effect; module CommandProperties derives the harness's properties
 * from the specification functions.
 */
module Commands {
  import opened Wrappers
  import opened Gateway
  import Json
  import Strconv

  const REGISTRY_KEY: string := "alluuids"
  const DEFAULT_COUNT: int := 1000

  datatype Report =
    | SetupDone(count: int)
    | ReadDone(count: int, avoidedIndividualReads: bool)
    | SavedWithArray(count: int)
    | SavedIndividually(count: int)
    | Deleted(count: int)
    | DeletedAll

  /** Why a handler stopped: the count did not parse, a store call failed, or the registry did not decode. */
  datatype Cause = BadCount(parameter: string) | StoreError(call: Call) | CorruptRegistry

  /** What a handler returns: a success summary, or the stage number it failed at and why. */
  datatype Status = Ok(report: Report) | Fail(stage: nat, cause: Cause)

  datatype Effect = Effect(status: Status, entries: Entries, calls: seq<Call>)

  // ----- Parameters -----

  /** The count Setup uses: 1000 when no parameter is given, else the first one parsed by strconv.Atoi. */
  function CountParameter(parameters: seq<string>): Option<int> {
    if |parameters| > 0 then Strconv.Atoi(parameters[0]) else Some(DEFAULT_COUNT)
  }

  /** Setup runs in array mode exactly when its second parameter is "array". */
  predicate SetupWantsArray(parameters: seq<string>) {
    |parameters| > 1 && parameters[1] == "array"
  }

  /** Read and Save run in array mode exactly when their first parameter is "array". */
  predicate WantsArray(parameters: seq<string>) {
    |parameters| > 0 && parameters[0] == "array"
  }

  // ----- Identifiers and the calls made on them -----

  function Count(n: int): nat {
    if n > 0 then n else 0
  }

  /** The ids the loop of Setup generates for count n: none when n <= 0. */
  function Ids(uuids: nat -> string, n: int): seq<string> {
    seq(Count(n), i requires 0 <= i => uuids(i))
  }

  /** uuid.New() never repeats an id and never produces the registry key. */
  ghost predicate Unique(uuids: nat -> string) {
    (forall i: nat, j: nat :: i != j ==> uuids(i) != uuids(j))
    && (forall i: nat :: uuids(i) != REGISTRY_KEY)
  }

  /** The position of the first element of xs in s, or |xs| if there is none. */
  function FirstIn(xs: seq<string>, s: set<string>): (k: nat)
    ensures k <= |xs|
    ensures forall j :: 0 <= j < k ==> xs[j] !in s
    ensures k < |xs| ==> xs[k] in s
  {
    if xs == [] || xs[0] in s then 0 else 1 + FirstIn(xs[1..], s)
  }

  /** KVSet(u, []byte(u)) for each u, in order. */
  function OwnSets(ids: seq<string>): seq<Call> {
    seq(|ids|, i requires 0 <= i < |ids| => Set(ids[i], ids[i]))
  }

  function Gets(ids: seq<string>): seq<Call> {
    seq(|ids|, i requires 0 <= i < |ids| => Get(ids[i]))
  }

  function Deletes(ids: seq<string>): seq<Call> {
    seq(|ids|, i requires 0 <= i < |ids| => Delete(ids[i]))
  }

  /** KVGet(u) followed by KVSet(u, []byte(u)) for each u, in order. */
  function SaveCalls(ids: seq<string>): seq<Call>
    decreases |ids|
  {
    if ids == [] then []
    else
      var u := ids[|ids| - 1];
      SaveCalls(ids[..|ids| - 1]) + [Get(u), Set(u, u)]
  }

  /** The store after each listed id has been written with its own bytes. */
  function WriteOwn(m: Entries, ids: seq<string>): Entries {
    map k | k in m.Keys + (set u | u in ids) :: if k in ids then k else m[k]
  }

  /** The store after each listed id has been deleted. */
  function Removed(m: Entries, ids: seq<string>): Entries {
    m - (set u | u in ids)
  }

  /** The concurrent round trip of handleSave: the goroutine sends its argument back unchanged. */
  function DoSomething(u: string): string {
    u
  }

  // ----- Specifications of the handlers -----

  function SetupSpec(parameters: seq<string>, uuids: nat -> string, f: Faults, m: Entries): Effect {
    match CountParameter(parameters)
    case None => Effect(Fail(1, BadCount(parameters[0])), m, [])
    case Some(n) => SetupCountSpec(n, SetupWantsArray(parameters), uuids, f, m)
  }

  /** Setup once the count n and the mode are known. */
  function SetupCountSpec(n: int, useArray: bool, uuids: nat -> string, f: Faults, m: Entries): Effect {
    var ids := Ids(uuids, n);
    var k := FirstIn(ids, f.sets);
    if !useArray && k < |ids| then
      Effect(Fail(2, StoreError(Set(ids[k], ids[k]))), WriteOwn(m, ids[..k]), OwnSets(ids[..k + 1]))
    else
      var written := if useArray then [] else ids;
      var c := Set(REGISTRY_KEY, Json.Encode(ids));
      if Fails(f, c) then
        Effect(Fail(4, StoreError(c)), WriteOwn(m, written), OwnSets(written) + [c])
      else
        Effect(Ok(SetupDone(n)), WriteOwn(m, written)[REGISTRY_KEY := Json.Encode(ids)], OwnSets(written) + [c])
  }

  function ReadSpec(parameters: seq<string>, f: Faults, m: Entries): Effect {
    var g := Get(REGISTRY_KEY);
    if Fails(f, g) then Effect(Fail(1, StoreError(g)), m, [g])
    else
      match Json.Decode(Lookup(m, REGISTRY_KEY))
      case None => Effect(Fail(2, CorruptRegistry), m, [g])
      case Some(arr) =>
        var e := ReadListSpec(arr, WantsArray(parameters), f, m);
        Effect(e.status, e.entries, [g] + e.calls)
  }

  /** The loop of handleRead, after the registry has been read: in array mode it skips every key. */
  function ReadListSpec(arr: seq<string>, useArray: bool, f: Faults, m: Entries): Effect {
    if useArray then Effect(Ok(ReadDone(|arr|, true)), m, [])
    else
      var k := FirstIn(arr, f.gets);
      if k < |arr| then Effect(Fail(3, StoreError(Get(arr[k]))), m, Gets(arr[..k + 1]))
      else Effect(Ok(ReadDone(|arr|, false)), m, Gets(arr))
  }

  function SaveSpec(parameters: seq<string>, f: Faults, m: Entries): Effect {
    var g := Get(REGISTRY_KEY);
    if Fails(f, g) then Effect(Fail(1, StoreError(g)), m, [g])
    else
      match Json.Decode(Lookup(m, REGISTRY_KEY))
      case None => Effect(Fail(2, CorruptRegistry), m, [g])
      case Some(arr) =>
        var e := if WantsArray(parameters) then SaveWithArraySpec(arr, f, m) else SaveEachSpec(arr, f, m);
        Effect(e.status, e.entries, [g] + e.calls)
  }

  /** The array branch of handleSave, after the registry has been read. */
  function SaveWithArraySpec(arr: seq<string>, f: Faults, m: Entries): Effect {
    var c := Set(REGISTRY_KEY, Json.Encode(arr));
    if Fails(f, c) then Effect(Fail(4, StoreError(c)), m, [c])
    else Effect(Ok(SavedWithArray(|arr|)), m[REGISTRY_KEY := Json.Encode(arr)], [c])
  }

  /** The individual branch of handleSave, after the registry has been read. */
  function SaveEachSpec(arr: seq<string>, f: Faults, m: Entries): Effect {
    var k := FirstIn(arr, f.gets + f.sets);
    if k < |arr| then
      var u := arr[k];
      if u in f.gets then Effect(Fail(5, StoreError(Get(u))), WriteOwn(m, arr[..k]), SaveCalls(arr[..k]) + [Get(u)])
      else Effect(Fail(6, StoreError(Set(u, u))), WriteOwn(m, arr[..k]), SaveCalls(arr[..k]) + [Get(u), Set(u, u)])
    else Effect(Ok(SavedIndividually(|arr|)), WriteOwn(m, arr), SaveCalls(arr))
  }

  function TeardownSpec(f: Faults, m: Entries): Effect {
    var g := Get(REGISTRY_KEY);
    if Fails(f, g) then Effect(Fail(1, StoreError(g)), m, [g])
    else
      match Json.Decode(Lookup(m, REGISTRY_KEY))
      case None => Effect(Fail(2, CorruptRegistry), m, [g])
      case Some(arr) =>
        var e := TeardownListSpec(arr, f, m);
        Effect(e.status, e.entries, [g] + e.calls)
  }

  /** The rest of handleTeardown: delete every listed key, then the registry. */
  function TeardownListSpec(arr: seq<string>, f: Faults, m: Entries): Effect {
    var k := FirstIn(arr, f.deletes);
    if k < |arr| then Effect(Fail(3, StoreError(Delete(arr[k]))), Removed(m, arr[..k]), Deletes(arr[..k + 1]))
    else
      var d := Delete(REGISTRY_KEY);
      if Fails(f, d) then Effect(Fail(4, StoreError(d)), Removed(m, arr), Deletes(arr) + [d])
      else Effect(Ok(Deleted(|arr|)), Removed(m, arr) - {REGISTRY_KEY}, Deletes(arr) + [d])
  }

  function DeleteAllSpec(f: Faults, m: Entries): Effect {
    if Fails(f, DeleteAll) then Effect(Fail(1, StoreError(DeleteAll)), m, [DeleteAll])
    else Effect(Ok(DeletedAll), map[], [DeleteAll])
  }

  // ----- Facts the handlers' loops use -----

  lemma WriteOwnSnoc(m: Entries, ids: seq<string>, u: string)
    ensures WriteOwn(m, ids + [u]) == WriteOwn(m, ids)[u := u]
  {
    assert forall k :: k in ids + [u] <==> k in ids || k == u;
  }

  lemma RemovedSnoc(m: Entries, ids: seq<string>, u: string)
    ensures Removed(m, ids + [u]) == Removed(m, ids) - {u}
  {
    assert (set v | v in ids + [u]) == (set v | v in ids) + {u};
  }

  lemma SaveCallsSnoc(ids: seq<string>, u: string)
    ensures SaveCalls(ids + [u]) == SaveCalls(ids) + [Get(u), Set(u, u)]
  {
    assert (ids + [u])[..|ids|] == ids;
  }

  /** FirstIn is the only index before which nothing is in s and at which something is. */
  lemma FirstInAt(xs: seq<string>, s: set<string>, i: nat)
    requires i < |xs| && xs[i] in s
    requires forall j :: 0 <= j < i ==> xs[j] !in s
    ensures FirstIn(xs, s) == i
  {
  }

  lemma FirstInNone(xs: seq<string>, s: set<string>)
    requires forall j :: 0 <= j < |xs| ==> xs[j] !in s
    ensures FirstIn(xs, s) == |xs|
  {
  }

  // ----- The handlers -----

  class Plugin {
    const api: KVStore

    constructor (api: KVStore)
      ensures this.api == api
    {
      this.api := api;
    }

    method HandleSetup(parameters: seq<string>, uuids: nat -> string) returns (res: Status)
      modifies api
      ensures var e := SetupSpec(parameters, uuids, api.faults, old(api.entries));
        res == e.status && api.entries == e.entries && api.trace == old(api.trace) + e.calls
    {
      var n := DEFAULT_COUNT;
      if |parameters| > 0 {
        var parsed := Strconv.Atoi(parameters[0]);
        if parsed.None? {
          return Fail(1, BadCount(parameters[0]));
        }
        n := parsed.value;
      }
      var useArray := |parameters| > 1 && parameters[1] == "array";
      res := SetupCount(n, useArray, uuids);
    }

    /** The rest of handleSetup: generate n ids, store each unless in array mode, then the registry. */
    method SetupCount(n: int, useArray: bool, uuids: nat -> string) returns (res: Status)
      modifies api
      ensures var e := SetupCountSpec(n, useArray, uuids, api.faults, old(api.entries));
        res == e.status && api.entries == e.entries && api.trace == old(api.trace) + e.calls
    {
      ghost var ids := Ids(uuids, n);
      var arr: seq<string> := [];
      var i := 0;
      while i < n
        invariant 0 <= i <= |ids|
        invariant arr == ids[..i]
        invariant !useArray ==> forall j :: 0 <= j < i ==> ids[j] !in api.faults.sets
        invariant api.entries == WriteOwn(old(api.entries), if useArray then [] else arr)
        invariant api.trace == old(api.trace) + OwnSets(if useArray then [] else arr)
      {
        var u := uuids(i);
        if !useArray {
          var ok := api.KVSet(u, u);
          if !ok {
            FirstInAt(ids, api.faults.sets, i);
            assert OwnSets(ids[..i + 1]) == OwnSets(arr) + [Set(u, u)];
            return Fail(2, StoreError(Set(u, u)));
          }
          WriteOwnSnoc(old(api.entries), arr, u);
          assert OwnSets(arr + [u]) == OwnSets(arr) + [Set(u, u)];
        }
        arr := arr + [u];
        i := i + 1;
      }
      assert arr == ids;
      if !useArray {
        FirstInNone(ids, api.faults.sets);
      }
      var b := Json.Encode(arr);
      var ok := api.KVSet(REGISTRY_KEY, b);
      if !ok {
        return Fail(4, StoreError(Set(REGISTRY_KEY, b)));
      }
      return Ok(SetupDone(n));
    }

    method HandleRead(parameters: seq<string>) returns (res: Status)
      modifies api`trace
      ensures api.entries == old(api.entries)
      ensures var e := ReadSpec(parameters, api.faults, old(api.entries));
        res == e.status && api.entries == e.entries && api.trace == old(api.trace) + e.calls
    {
      var b, ok := api.KVGet(REGISTRY_KEY);
      if !ok {
        return Fail(1, StoreError(Get(REGISTRY_KEY)));
      }
      var decoded := Json.Decode(b);
      if decoded.None? {
        return Fail(2, CorruptRegistry);
      }
      var arr := decoded.value;
      var useArray := |parameters| > 0 && parameters[0] == "array";
      res := ReadList(arr, useArray);
    }

    /** The loop of handleRead: get every listed key unless in array mode. */
    method ReadList(arr: seq<string>, useArray: bool) returns (res: Status)
      modifies api`trace
      ensures var e := ReadListSpec(arr, useArray, api.faults, api.entries);
        res == e.status && api.trace == old(api.trace) + e.calls
    {
      var i := 0;
      while i < |arr|
        invariant 0 <= i <= |arr|
        invariant !useArray ==> forall j :: 0 <= j < i ==> arr[j] !in api.faults.gets
        invariant api.trace == old(api.trace) + Gets(if useArray then [] else arr[..i])
      {
        if !useArray {
          assert Gets(arr[..i + 1]) == Gets(arr[..i]) + [Get(arr[i])];
          var _, got := api.KVGet(arr[i]);
          if !got {
            FirstInAt(arr, api.faults.gets, i);
            return Fail(3, StoreError(Get(arr[i])));
          }
        }
        i := i + 1;
      }
      if !useArray {
        FirstInNone(arr, api.faults.gets);
        assert arr[..i] == arr;
      }
      return Ok(ReadDone(|arr|, useArray));
    }

    method HandleSave(parameters: seq<string>) returns (res: Status)
      modifies api
      ensures var e := SaveSpec(parameters, api.faults, old(api.entries));
        res == e.status && api.entries == e.entries && api.trace == old(api.trace) + e.calls
    {
      var b, ok := api.KVGet(REGISTRY_KEY);
      if !ok {
        return Fail(1, StoreError(Get(REGISTRY_KEY)));
      }
      var decoded := Json.Decode(b);
      if decoded.None? {
        return Fail(2, CorruptRegistry);
      }
      var arr := decoded.value;
      var useArray := |parameters| > 0 && parameters[0] == "array";
      if useArray {
        res := SaveWithArray(arr);
      } else {
        res := SaveEach(arr);
      }
    }

    /** The array branch of handleSave: rebuild the list through the round trip and store it back. */
    method SaveWithArray(arr: seq<string>) returns (res: Status)
      modifies api
      ensures var e := SaveWithArraySpec(arr, api.faults, old(api.entries));
        res == e.status && api.entries == e.entries && api.trace == old(api.trace) + e.calls
    {
      var newArr: seq<string> := [];
      var i := 0;
      while i < |arr|
        invariant 0 <= i <= |arr|
        invariant newArr == arr[..i]
      {
        var u2 := DoSomething(arr[i]);
        newArr := newArr + [u2];
        i := i + 1;
      }
      assert newArr == arr;
      var b := Json.Encode(newArr);
      var ok := api.KVSet(REGISTRY_KEY, b);
      if !ok {
        return Fail(4, StoreError(Set(REGISTRY_KEY, b)));
      }
      return Ok(SavedWithArray(|newArr|));
    }

    /** The individual branch of handleSave: read each key, round-trip its id, write it back. */
    method SaveEach(arr: seq<string>) returns (res: Status)
      modifies api
      ensures var e := SaveEachSpec(arr, api.faults, old(api.entries));
        res == e.status && api.entries == e.entries && api.trace == old(api.trace) + e.calls
    {
      ghost var faulty := api.faults.gets + api.faults.sets;
      ghost var m0 := api.entries;
      var i := 0;
      while i < |arr|
        invariant 0 <= i <= |arr|
        invariant forall j :: 0 <= j < i ==> arr[j] !in faulty
        invariant api.entries == WriteOwn(m0, arr[..i])
        invariant api.trace == old(api.trace) + SaveCalls(arr[..i])
      {
        var u := arr[i];
        assert arr[..i + 1] == arr[..i] + [u];
        var stage := SaveOne(u);
        if stage != 0 {
          FirstInAt(arr, faulty, i);
          if stage == 5 {
            return Fail(5, StoreError(Get(u)));
          }
          return Fail(6, StoreError(Set(u, u)));
        }
        WriteOwnSnoc(m0, arr[..i], u);
        SaveCallsSnoc(arr[..i], u);
        i := i + 1;
      }
      FirstInNone(arr, faulty);
      assert arr[..i] == arr;
      return Ok(SavedIndividually(|arr|));
    }

    /**
     * One round of handleSave's individual loop: KVGet(u), the goroutine
     * round trip, KVSet(u, []byte(u)). The stage is 0 when both calls
     * succeed, 5 when the get fails and 6 when the set fails.
     */
    method SaveOne(u: string) returns (stage: nat)
      modifies api
      ensures stage == if u in api.faults.gets then 5 else if u in api.faults.sets then 6 else 0
      ensures api.entries == if stage == 0 then old(api.entries)[u := u] else old(api.entries)
      ensures api.trace == old(api.trace) + if stage == 5 then [Get(u)] else [Get(u), Set(u, u)]
    {
      var _, got := api.KVGet(u);
      if !got {
        return 5;
      }
      var u2 := DoSomething(u);
      var stored := api.KVSet(u, u2);
      if !stored {
        return 6;
      }
      return 0;
    }

    /** handleTeardown takes parameters but does not look at them. */
    method HandleTeardown(parameters: seq<string>) returns (res: Status)
      modifies api
      ensures var e := TeardownSpec(api.faults, old(api.entries));
        res == e.status && api.entries == e.entries && api.trace == old(api.trace) + e.calls
    {
      var b, ok := api.KVGet(REGISTRY_KEY);
      if !ok {
        return Fail(1, StoreError(Get(REGISTRY_KEY)));
      }
      var decoded := Json.Decode(b);
      if decoded.None? {
        return Fail(2, CorruptRegistry);
      }
      var arr := decoded.value;
      res := TeardownList(arr);
    }

    /** The rest of handleTeardown: delete every listed key in order, then the registry. */
    method TeardownList(arr: seq<string>) returns (res: Status)
      modifies api
      ensures var e := TeardownListSpec(arr, api.faults, old(api.entries));
        res == e.status && api.entries == e.entries && api.trace == old(api.trace) + e.calls
    {
      var i := 0;
      while i < |arr|
        invariant 0 <= i <= |arr|
        invariant forall j :: 0 <= j < i ==> arr[j] !in api.faults.deletes
        invariant api.entries == Removed(old(api.entries), arr[..i])
        invariant api.trace == old(api.trace) + Deletes(arr[..i])
      {
        assert arr[..i + 1] == arr[..i] + [arr[i]];
        assert Deletes(arr[..i + 1]) == Deletes(arr[..i]) + [Delete(arr[i])];
        var deleted := api.KVDelete(arr[i]);
        if !deleted {
          FirstInAt(arr, api.faults.deletes, i);
          return Fail(3, StoreError(Delete(arr[i])));
        }
        RemovedSnoc(old(api.entries), arr[..i], arr[i]);
        i := i + 1;
      }
      FirstInNone(arr, api.faults.deletes);
      assert arr[..i] == arr;
      var ok := api.KVDelete(REGISTRY_KEY);
      if !ok {
        return Fail(4, StoreError(Delete(REGISTRY_KEY)));
      }
      return Ok(Deleted(|arr|));
    }

    /** handleDeleteAll takes parameters but does not look at them. */
    method HandleDeleteAll(parameters: seq<string>) returns (res: Status)
      modifies api
      ensures var e := DeleteAllSpec(api.faults, old(api.entries));
        res == e.status && api.entries == e.entries && api.trace == old(api.trace) + e.calls
    {
      var ok := api.KVDeleteAll();
      if !ok {
        return Fail(1, StoreError(DeleteAll));
      }
      return Ok(DeletedAll);
    }
  }
}
