# Stress harness of the crispy-system Mattermost plugin, in Dafny

The plugin registers the slash command `/stress`. Its subcommands load the
plugin key-value store, so that the cost of different access patterns can
be measured:

- `setup [n [array]]` generates n ids (1000 by default). In individual mode
  it stores each id under itself. In both modes it then stores the whole list
  as JSON under the registry key `alluuids`.
- `read [array]` reads the registry. In individual mode it then reads every
  listed key.
- `save [array]` reads the registry. In array mode it writes the list back
  under the registry key. In individual mode it reads every listed key and
  rewrites it with its own id.
- `teardown` deletes every listed key, then the registry.
- `deleteall` empties the store.

Each handler fails fast. On the first error it returns a numbered stage
(`"2 " + error`). Nothing is rolled back, so the writes done before the
failure stay in the store. `ExecuteCommand` splits the command line with
`strings.Fields`, dispatches on the second token and answers with the
handler's result and the elapsed time, which `fmtDuration` splits into
minutes, seconds and milliseconds.

Modules:

- `Gateway` is the key-value store, a class `KVStore`:
  - its `entries` map is updated in place;
  - a fixed fault oracle says which calls return an error, and a failed call changes nothing;
  - a ghost `trace` records every call in order.
- `Commands` holds class `Plugin` with the five handlers as methods. Each
  method is proved to have exactly the effect its closed-form
  specification function gives (`SetupSpec`, `ReadSpec`, `SaveSpec`,
  `TeardownSpec`, `DeleteAllSpec`). That effect has three parts, each
  stated outright: the status, the store afterwards, and the calls issued.
- `CommandProperties` proves each handler's stages, writes and order from
  those functions.
- `Lifecycle` chains the handlers: Setup then Read, Save, Teardown (twice)
  and DeleteAll.
- `Plugin` models `ExecuteCommand` and its routing.
- `Strings` models `strings.Fields`.
- `Durations` models `Duration.Round` and `fmtDuration`.
- `Strconv` models `strconv.Atoi`.
- `Json` is the JSON list codec for `[]string`.

A reading in which a missing key is an error would expect a second
teardown, and an individual read after an array-mode setup, to fail with
not-found. The handlers only branch on the error a store call returns, and
the plugin API returns no error for a missing key: KVGet yields empty
bytes. So in the model:

- a second teardown fails at stage 2, because empty bytes are not JSON
  (`Lifecycle.SetupThenTeardownTwice`);
- an individual read after an array-mode setup fails at stage 3 only when
  the store reports an error for that key, and succeeds otherwise
  (`Lifecycle.ReadEachAfterArraySetup`).

## Model

| member | source | states |
|---|---|---|
| Strconv.Atoi | server/commands.go:15-18 | An accepted count lies in the signed 64-bit range and starts with a digit or a sign; anything else is an error |
| Strconv.DigitsValue | server/commands.go:15 | The decimal spelling of n is a non-empty run of digits whose value is n |
| Strconv.AtoiItoa | server/commands.go:15-18 | Every 64-bit integer, printed in decimal and parsed by Atoi, comes back unchanged |
| Strconv.AtoiLeadingZero | server/commands.go:15-18 | A count with a leading zero or a leading `+` is accepted with the same value |
| Strconv.ZeroPrefixValue | server/commands.go:15 | A leading zero does not change a digit string's value |
| Strings.WordLength | server/plugin.go:45 | Returns the length of the longest space-free prefix: no space before it, a space at it |
| Strings.Fields | server/plugin.go:45 | Every token is non-empty and contains no unicode.IsSpace character |
| Strings.WordLengthOfWord | server/plugin.go:45 | A token followed by a space or the end of input is read whole |
| Strings.FieldsSkipsLeadingSpace | server/plugin.go:45 | A leading space does not change the tokens |
| Strings.FieldsOfUnwords | server/plugin.go:45 | Splitting space-free tokens joined by blanks gives back exactly those tokens |
| Durations.Round | server/plugin.go:88 | Rounding keeps a duration inside the 64-bit range. A non-positive unit leaves it unchanged. When the multiple it rounds to lies past the largest or below the smallest duration, the result is that end of the range |
| Durations.RoundNearest | server/plugin.go:88 | Whenever the multiple Round steps to lies in the duration range (so Round does not saturate), the result is the multiple of the unit next to d toward zero or the next one away from zero, within half a unit of d; a tie goes away from zero |
| Durations.RoundToMicrosecond | server/plugin.go:88 | Away from the range ends, the result is the nearest multiple of a microsecond; ties go away from zero |
| Durations.FmtDuration | server/plugin.go:87-94 | The minutes, seconds and milliseconds add up to the rounded duration cut to whole milliseconds. For a non-negative duration, minutes is its whole number of minutes, seconds is below 60, milliseconds is below 1000, and the printed time is at most 1 ms short of the duration rounded to a microsecond. The negative case is the mirror image |
| Json.Encode | server/commands.go:39-43 | json.Marshal of the id list always succeeds and gives a bracketed list |
| Json.EncodeNoControl | server/commands.go:39-43 | The text json.Marshal writes holds no raw control character: each one inside a string is escaped |
| Json.Decode | server/commands.go:58-61 | Only `null` and a bracketed list decode; everything else is a decoding error |
| Json.DecodeNoControl | server/commands.go:58-61 | Text holding a raw control character never decodes: inside a string literal json.Unmarshal refuses one too, and before, between or after tokens Decode admits no whitespace at all |
| Json.HexRoundTrip | server/commands.go:39-58 | The hex digits of a `\u` escape read back as the code they were written for |
| Json.ReadHex4 | server/commands.go:39-58 | The four hex digits written for an escaped character read back as that character |
| Json.ParseEscapeChar | server/commands.go:39-58 | Each character, as written inside a literal, reads back as itself |
| Json.ParseString | server/commands.go:58 | A parsed string literal always consumes input |
| Json.ParseEscaped | server/commands.go:39-58 | An escaped string is read back as the original, up to its closing quote |
| Json.ParseElementsOfElements | server/commands.go:39-58 | A non-empty list of encoded strings parses back to that list |
| Json.DecodeEncode | server/commands.go:39-61 | Unmarshal inverts Marshal: the registry list comes back element for element, in order |
| Json.DecodeRejectsEmpty | server/commands.go:58-61 | Empty bytes, which is what a missing registry reads as, are a decoding error |
| Gateway.KVStore.constructor | server/commands.go:33 | A store starts with the given entries and faults, and an empty trace |
| Gateway.KVStore.KVGet | server/commands.go:52-55 | Fails exactly when the oracle says so. On success it returns the stored bytes, or empty bytes for a missing key. The entries never change, and the call is appended to the trace |
| Gateway.KVStore.KVSet | server/commands.go:33-36 | Fails exactly when the oracle says so. On success it binds the key to the value; on failure the entries are unchanged. The call is appended to the trace |
| Gateway.KVStore.KVDelete | server/commands.go:155-158 | Fails exactly when the oracle says so. On success the key is removed; on failure the entries are unchanged. The call is appended to the trace |
| Gateway.KVStore.KVDeleteAll | server/commands.go:170-173 | Fails exactly when the oracle says so. On success the store is empty; on failure the entries are unchanged. The call is appended to the trace |
| Commands.FirstIn | server/commands.go:26-37 | Returns the index of the first element in the set, or the length when there is none; nothing before it is in the set |
| Commands.WriteOwnSnoc | server/commands.go:33 | Writing one more id under itself is one map update |
| Commands.RemovedSnoc | server/commands.go:155 | Deleting one more key removes exactly that key |
| Commands.SaveCallsSnoc | server/commands.go:123-137 | One more individual save appends a get and a set of that id |
| Commands.FirstInAt | server/commands.go:26-37 | The first element in the set is the first index at which the loop fails |
| Commands.FirstInNone | server/commands.go:26-37 | When no element is in the set, the loop runs to the end |
| Commands.Plugin.constructor | server/plugin.go:14-23 | The plugin wraps the given store |
| Commands.Plugin.HandleSetup | server/commands.go:11-49 | Status, new entries and calls are exactly SetupSpec: a count Atoi rejects is stage 1 with no call; then the ids are written, then the registry |
| Commands.Plugin.SetupCount | server/commands.go:21-48 | For n ids, in individual mode it writes each id under itself, in generation order, stopping at stage 2 on the first failure. Then it writes the JSON list of all ids to the registry (stage 4 on failure). The effect is exactly SetupCountSpec |
| Commands.Plugin.HandleRead | server/commands.go:51-83 | Status and calls are exactly ReadSpec (stage 1 get failure, stage 2 undecodable registry); the entries never change |
| Commands.Plugin.ReadList | server/commands.go:63-82 | In individual mode it gets every listed key in order, stopping at stage 3 on the first failure; array mode issues no call. The result is the list length and the mode |
| Commands.Plugin.HandleSave | server/commands.go:85-140 | Status, new entries and calls are exactly SaveSpec: stages 1 and 2, then the branch its mode selects |
| Commands.Plugin.SaveWithArray | server/commands.go:104-121 | Passes the list through the goroutine round trip, then writes it back to the registry (stage 4 on failure); the effect is exactly SaveWithArraySpec |
| Commands.Plugin.SaveEach | server/commands.go:123-139 | For each listed key in order, a get (stage 5) then a set of its own id (stage 6), stopping at the first failure. The effect is exactly SaveEachSpec |
| Commands.Plugin.SaveOne | server/commands.go:124-136 | One loop round: returns stage 5 (failed get, only the get issued, nothing changed), 6 (failed set, nothing changed) or 0 (the key now holds its id) |
| Commands.Plugin.HandleTeardown | server/commands.go:142-167 | Status, new entries and calls are exactly TeardownSpec: stage 1 get failure, stage 2 undecodable registry, then the deletes |
| Commands.Plugin.TeardownList | server/commands.go:154-166 | Deletes each listed key in order, stopping at stage 3 on the first failure, then deletes the registry (stage 4). The effect is exactly TeardownListSpec |
| Commands.Plugin.HandleDeleteAll | server/commands.go:169-176 | One KVDeleteAll; status and new entries are exactly DeleteAllSpec |
| CommandProperties.SetupParameters | server/commands.go:12-24 | With no parameter the count is 1000 in individual mode. A count Atoi rejects is stage 1 with no call and no change. Array mode needs a second parameter that is exactly "array" |
| CommandProperties.SetupRejectsNonNumeric | server/commands.go:14-18 | `setup abc` fails at stage 1 before any store call |
| CommandProperties.WriteOwnPrefix | server/commands.go:26-37 | After writing the first k ids, each holds itself and no other key changed |
| CommandProperties.WriteOwnAll | server/commands.go:123-137 | After writing all ids, each holds itself and no other key changed |
| CommandProperties.WriteOwnNothing | server/commands.go:29-31 | Writing no id leaves the store as it was |
| CommandProperties.SetupStopsAtFirstFailedSet | server/commands.go:26-37 | On the first id whose write fails, Setup stops at stage 2. One write per id has been issued, up to and including that one. The earlier ids stay written, and the registry is never written |
| CommandProperties.SetupIndividualSuccess | server/commands.go:26-48 | On success, every id holds itself, the registry decodes to exactly the ids in generation order, the count is reported, and nothing else changed |
| CommandProperties.SetupArrayOnlyRegistry | server/commands.go:21-46 | Array mode issues only the registry write. On success the registry decodes to the ids; on failure it is stage 4 with the store unchanged. A count of zero or less gives an empty list |
| CommandProperties.ReadLeavesStore | server/commands.go:51-83 | Read never changes the store |
| CommandProperties.ReadRegistryStages | server/commands.go:52-61 | A failed registry get is stage 1 and an undecodable registry is stage 2, each after that one call |
| CommandProperties.ReadSuccess | server/commands.go:63-82 | A successful read reports the registry list's length and the mode. Array mode issues only the registry get; individual mode issues one get per listed key, in order |
| CommandProperties.ReadStopsAtFirstFailedGet | server/commands.go:67-75 | Individual mode stops at stage 3 on the first listed key whose get fails, after the gets up to that key |
| CommandProperties.SaveWithArrayKeepsList | server/commands.go:104-121 | Array mode writes back exactly the list it read and touches no other key. A failed write is stage 4 and changes nothing |
| CommandProperties.SaveCallsAt | server/commands.go:123-137 | The individual save of the i-th key issues the 2i-th call (its get) and the 2i+1-th call (the set of its own id) |
| CommandProperties.SaveEachSuccess | server/commands.go:123-139 | On success, every listed key holds its own id and every other key is unchanged, including the registry when it is not listed. The list length is reported |
| CommandProperties.SaveEachStops | server/commands.go:123-137 | Individual mode stops on the first listed key whose get (stage 5) or set (stage 6) fails. The earlier keys stay rewritten and nothing else changed |
| CommandProperties.RemovedAll | server/commands.go:154-159 | After deleting the listed keys, none of them remains and nothing else changed |
| CommandProperties.TeardownSuccess | server/commands.go:142-167 | On success, no listed key and no registry remains, and every other key is unchanged. The deletes ran in list order, then the registry's, and the list length is reported |
| CommandProperties.TeardownStopsAtFirstFailedDelete | server/commands.go:154-159 | Teardown stops at stage 3 on the first key whose delete fails. The earlier keys stay deleted, the registry is not deleted, and nothing else changed |
| CommandProperties.DeleteAllEmpties | server/commands.go:169-176 | Exactly one KVDeleteAll is issued. It succeeds exactly when the store does not err, and then the store is empty; otherwise it is stage 1 with nothing changed |
| Lifecycle.SetupSucceeds | server/commands.go:11-49 | On a store that never errs, `setup n` (with or without `array`) succeeds, and the registry decodes to the n generated ids |
| Lifecycle.SetupThenRead | server/commands.go:11-83 | After `setup n`, an individual read reports n, after one get per id in generation order |
| Lifecycle.SetupArrayThenReadArray | server/commands.go:21-83 | `setup n array` writes only the registry, and a following array read reports n after one call |
| Lifecycle.ReadEachAfterArraySetup | server/commands.go:21-75 | After `setup n array`, an individual read fails at stage 3 on the first id when the store errs for it, and succeeds with n when the store does not err |
| Lifecycle.SetupThenTeardownTwice | server/commands.go:11-167 | Teardown after `setup n` removes exactly the n ids and the registry. A second teardown fails at stage 2 |
| Lifecycle.RewriteAfterSetup | server/commands.go:26-137 | Rewriting every id with itself after Setup leaves the store unchanged |
| Lifecycle.FullCycle | server/commands.go:11-176 | On a store that never errs, setup, individual save, teardown and deleteall all succeed. Save leaves the store as Setup left it, and deleteall ends with an empty store |
| Plugin.ExecuteCommand | server/plugin.go:42-85 | A first token other than "/stress" touches no store and names the token. Otherwise it runs the handler the second token names, with the tokens after it, and answers with the command, the handler's result (or "Index!", or nothing) and FmtDuration of the elapsed time |
| Plugin.RouteOf | server/plugin.go:45-76 | The line goes to no handler exactly when its first token is not "/stress". A handler is chosen only when the second token is its name, and it gets exactly the tokens after that one |
| Plugin.RouteGuard | server/plugin.go:45-51 | Handlers run only when the first token is exactly "/stress"; otherwise the answer names that token |
| Plugin.RouteTokens | server/plugin.go:53-73 | `/stress <sub> p1 … pk` reaches the handler of sub with exactly p1 … pk |
| Plugin.RouteIndex | server/plugin.go:54-75 | The index text is returned exactly when the line is the single token "/stress" |
| Plugin.RouteUnmatched | server/plugin.go:62-76 | A second token that names no handler runs nothing and leaves the result empty |

## Left out

- Goroutines and channels: the `doSomething` round trip in handleSave is the identity `Commands.DoSomething`; concurrency is not modelled.
- `uuid.New()`: the successive ids are the parameter `uuids`. The lemmas that need distinct ids, none equal to the registry key, state this as `Unique(uuids)`.
- Json.Decode accepts a subset of what `json.Unmarshal` accepts into a `[]string`: a list of string literals, or `null`. It refuses whitespace before, between or after tokens, which json.Unmarshal skips; a `null` element inside the list, which json.Unmarshal reads as the empty string; and a `\u` escape of a surrogate half, which json.Unmarshal joins with its partner or reads as U+FFFD. Every text it accepts, json.Unmarshal accepts with the same list. Like json.Unmarshal, it refuses a raw control character inside a string literal. Because it admits no whitespace, it also refuses the space, tab, newline or carriage return that json.Unmarshal skips before, between or after tokens (`Json.DecodeNoControl`).
- Json.Encode follows `json.Marshal` as it was before Go 1.22: it writes backspace and form feed as `\u0008` and `\u000c`, where later versions write `\b` and `\f`. Strings are sequences of code points, so the invalid UTF-8 that Marshal replaces cannot occur. Since Encode never fails, the stage-3 `json.Marshal` error of handleSetup and handleSave is unreachable in the model.
- Error and result text: `appErr.Error()`, `err.Error()`, `fmt.Sprintf` and `%q`/`%02d` formatting are not modelled. A result is the `Status` datatype: the stage number and a cause, or the reported counts and mode.
- `OnActivate`, `RegisterCommand`, `mErr` and the `CommandResponse` wrapper are not modelled, and neither are the configuration and its lock, which the core does not use.
- `time.Now` and `time.Since`: the elapsed duration is the parameter `elapsed` of `ExecuteCommand`.
- Plugin.ExecuteCommand: it requires at least one token, because the source reads `split[0]` unguarded and panics on a blank line. The panic itself is not modelled.
- Strings.Fields works on code points; the UTF-8 decoding of the command line is not modelled.
- The fault oracle is fixed per key and per kind of call, so a transient store error, one that hits a key once and not again, is not modelled.
- Strconv.Atoi: the error text (`strconv.ErrSyntax` or `strconv.ErrRange`) is not modelled; both are the `BadCount` cause.
