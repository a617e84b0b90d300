# timed-cache: a Dafny model of the TTL cache

`cache.js` is an in-process key/value cache. An entry is removed when its
time-to-live (TTL) expires or `remove` is called, and the callback supplied with
it is then called; `clear` and a replacing `put` drop entries without calling back.
This project models its core as a pure state machine and proves what the
code promises:

- how `put` replaces an entry and reschedules its timer,
- how `get`, `remove`, `clear` and `size` behave,
- what a timer firing does,
- how `serialize` turns any key into the string the entry is stored under.

Files and modules:

- `wrappers.dfy` (`Wrappers`): `Option`. `None` plays the JavaScript `undefined` of a failed lookup.
- `json.dfy` (`Json`, `JsonFacts`): the values a caller can use as keys (`JsValue`: `undefined`, `null`, booleans, integer numbers, strings, arrays, and objects as ordered lists of members), plus a model of `JSON.stringify` on them (`Json.Text`, `Json.Stringify`). `Json.Canon` is the part of a value that its JSON text keeps: an `undefined` array element becomes `null`, and an `undefined` object member disappears.
- `json_parse.dfy` (`JsonParse`): a JSON decoder. It is the partner of `Json.Text`: decoding the text of any value gives back its canonical form. So two keys have the same JSON text exactly when they have the same canonical form.
- `keys.dfy` (`Keys`): `serialize` (`Keys.Serialize`), and exactly when two keys share an entry. The mapping is not injective across types: `1` and `"1"` share an entry, and so do `undefined` and `"undefined"`.
- `cache.dfy` (`TtlCache`): the cache state and its transitions.
  - The state (`Cache`) holds the entry map (normalized key to `{handle, data, callback}`), the pending one-shot timers by handle, the next handle, the log of callback calls, and `defaultTtl`.
  - The transitions are `Create` (the constructor), `Put`, `Get`, `Remove` (with `Detach`, the part before the callback runs), `Clear`, `Size`, `SetDefaultTtl` (assigning the public field), and `Fire` (a pending timer runs).
  - `Cancel` and `Schedule` stand for `clearTimeout` and `setTimeout`.
- `lifecycle.dfy` (`Lifecycle`): the timer invariant. There is exactly one pending timer per entry: its handle, scheduled for a key that normalizes to the entry's key.
  - Each operation preserves the invariant.
  - The per-operation postconditions are proved here.
  - Runs of operations (`Step`, `Run`) carry the callback guarantees. Each entry's callback runs at most once. Callbacks of superseded or cleared entries never run.

Behaviour of the code worth knowing:

- `new Cache(options)` falls back to 60000 ms only when `options.defaultTtl` is falsy (absent or 0). A negative value is kept (cache.js:68-69).
- `put` likewise uses `options.ttl` whenever it is truthy, negative values included (cache.js:90).
- The store is the module-level object `cache` (cache.js:46), not a per-instance map. The model has one store.
- `serialize` reads `this.prefix`, but it is called without a receiver (cache.js:81-83 against 92, 122, 131). So in non-strict code the prefix is the global object's `prefix` property, ordinarily absent, which string concatenation writes as "undefined", not the `'__cache__'` set in the constructor. `Keys.Prefix` is that text. Every property proved holds for any fixed prefix.

## Model

| member | source | states |
|---|---|---|
| TtlCache.Create | cache.js:62-73 | `defaultTtl` is the option when truthy and 60000 otherwise, so it is never falsy; the new cache has no entry, no pending timer and no callback call |
| TtlCache.SetDefaultTtl | cache.js:68-69 | assigning `defaultTtl` changes nothing else: entries, timers and callback log stay |
| TtlCache.Cancel | cache.js:102 | after `clearTimeout` the handle is no longer pending and every other pending timer is unchanged; cancelling a handle that is not pending changes nothing |
| TtlCache.Schedule | cache.js:107-109 | `setTimeout` adds exactly one fresh handle, bound to the original key and the delay, leaving every other timer as it was |
| TtlCache.EffectiveTtl | cache.js:90 | the delay is `options.ttl` when it is truthy and the current `defaultTtl` when it is absent or 0; it is 0 only if `defaultTtl` is |
| TtlCache.EffectiveCallback | cache.js:91 | the stored callback is the caller's function exactly when one is given, and the no-op otherwise |
| TtlCache.Put | cache.js:89-114 | after `put`, `get` of the key returns the new value; the key set gains the normalized key; every other entry is unchanged; the stored callback is the given one or the no-op; no callback is called |
| TtlCache.Get | cache.js:121-124 | `get` returns a value exactly when the normalized key has an entry, and then it is that entry's data |
| TtlCache.Detach | cache.js:130-136 | the first half of `remove`: the entry is gone and its timer cancelled, and it is the entry that was stored under the normalized key |
| TtlCache.Remove | cache.js:130-139 | afterwards `get` of the key finds nothing; on an absent key the state is unchanged; on a present key exactly one callback call is appended, with the key given to `remove` and the stored data |
| TtlCache.Clear | cache.js:144-151 | no entry remains, no former entry's timer is pending, and no callback is called |
| TtlCache.Size | cache.js:157-159 | `size()` counts the entries: it is 0 exactly when the cache is empty, and positive whenever some key reads as present |
| TtlCache.Fire | cache.js:107-109 | a handle that is not pending does nothing; a pending one stops being pending and its key then reads as absent |
| Json.Text | cache.js:81 | JSON text is never empty and starts like a JSON value; its first character tells arrays, objects, strings and numbers apart from each other and from the literals |
| Json.Stringify | cache.js:81 | `JSON.stringify` gives no text exactly for `undefined` |
| JsonFacts.TextOfCanon | cache.js:81 | the JSON text of a value equals that of its canonical form |
| JsonFacts.CanonIsClean | cache.js:81 | a canonical value contains no `undefined` |
| JsonFacts.CleanIsCanon | cache.js:81 | a value without `undefined` is its own canonical form |
| JsonParse.ValueRoundTrip | cache.js:81 | decoding the JSON text of any value, followed by input that cannot extend it, yields the value's canonical form and the rest of the input |
| JsonParse.EscapeStringRoundTrip | cache.js:81 | decoding an escaped string literal yields the original string |
| JsonParse.NumberRoundTrip | cache.js:81 | decoding the decimal text of an integer yields that integer |
| JsonParse.ParseText | cache.js:81 | the decoder inverts `JSON.stringify` up to canonical form |
| JsonParse.TextInjective | cache.js:81 | two values have the same JSON text if and only if they have the same canonical form |
| Keys.Serialize | cache.js:79-84 | a normalized key is the prefix followed by the key itself for a string, by "undefined" for `undefined`, and by the key's JSON text for anything else |
| Keys.SerializeDecodes | cache.js:79-84 | after the prefix, the normalized key of anything but a string or `undefined` decodes back to the key's canonical form |
| Keys.StringKeysCollideIff | cache.js:83 | two string keys share an entry if and only if they are equal |
| Keys.StructuredKeysCollideIff | cache.js:80-81 | two non-string keys share an entry if and only if they have the same shape (same elements in the same order, same members in the same order, `undefined` members ignored) |
| Keys.StringMeetsStructuredIff | cache.js:79-84 | a string key and a non-string key share an entry if and only if the string is the other key's JSON text |
| Keys.CleanKeysCollideIff | cache.js:80-81 | non-string keys without `undefined` share an entry if and only if they are equal values |
| Keys.NumberOneMeetsStringOne | cache.js:79-84 | the number 1 and the string "1" share an entry |
| Keys.UndefinedMeetsItsName | cache.js:80-81 | the key `undefined` and the string "undefined" share an entry |
| Keys.ReorderedArraysDiffer | tests/cache.spec.js:62-80 | `[1,'a',3,4]` and `[1,'a',4,3]` are different keys |
| Keys.MemberOrderMatters | cache.js:81 | objects with the same members in another order are different keys |
| Keys.UndefinedMemberIgnored | cache.js:81 | an object member whose value is `undefined` does not affect the key |
| Lifecycle.CreateInv | cache.js:62-73 | a new cache satisfies the timer invariant |
| Lifecycle.PutInv | cache.js:97-113 | `put` preserves the timer invariant, the issued-handle bookkeeping and at-most-once notification |
| Lifecycle.RemoveInv | cache.js:130-139 | `remove` preserves the invariant |
| Lifecycle.ClearInv | cache.js:144-151 | `clear` preserves the invariant |
| Lifecycle.FireInv | cache.js:107-109 | a timer firing preserves the invariant |
| Lifecycle.PutTimers | cache.js:97-113 | `put` cancels the superseded entry's timer and schedules one fresh timer for the original key, with `options.ttl` if truthy else the current `defaultTtl`; all other timers are untouched |
| Lifecycle.GetAfterPut | cache.js:89-124 | after `put`, `get` of a key returns the new value if it normalizes like the put key, and what it returned before otherwise |
| Lifecycle.PutSize | cache.js:113 | `put` on a new key adds one to `size()`, and on an existing key leaves it |
| Lifecycle.DefaultTtlReadAtPut | cache.js:90 | without `options.ttl`, the timer's delay is the `defaultTtl` assigned last before the call |
| Lifecycle.RemovePresent | cache.js:134-138 | `remove` of a present key deletes exactly that entry, cancels exactly its timer, appends one callback call with `(key given to remove, stored data)`, and lowers `size()` by one |
| Lifecycle.CallbackRunsAfterDelete | cache.js:134-138 | the callback runs in a state where the entry is already deleted, so `get` of the key inside it finds nothing |
| Lifecycle.RemoveIdempotent | cache.js:130-139 | a second `remove` of the key, or of any key normalizing like it, changes nothing |
| Lifecycle.GetAfterRemove | cache.js:121-139 | after `remove`, keys normalizing like it read as absent and all others read as before |
| Lifecycle.ClearCancelsEverything | cache.js:144-151 | after `clear` no timer is pending, there is no entry, `size()` is 0, and no callback was called |
| Lifecycle.OneTimerPerEntry | cache.js:157-159 | the pending handles are exactly the entries' handles, and `size()` equals the number of pending timers |
| Lifecycle.FireIsRemove | cache.js:107-109 | a pending timer's firing is exactly `remove` of the key given to the `put` that scheduled it |
| Lifecycle.FireNotifiesOwnEntry | cache.js:107-109 | a firing calls back the timer's own entry once, with the put key and the stored data, and lowers `size()` by one |
| Lifecycle.RemoveThenFireSilent | cache.js:135 | after `remove`, the removed entry's timer firing does nothing, so removal and expiry never both call back |
| Lifecycle.StepInv | cache.js:89-151 | every operation, assignment of `defaultTtl` and timer firing preserves the invariant |
| Lifecycle.RunInv | cache.js:89-151 | the invariant holds after any sequence of them |
| Lifecycle.RunExtendsLog | cache.js:137 | over any run, callback calls are only ever appended |
| Lifecycle.RetiredStaysSilent | cache.js:102 | once an entry's handle is no longer pending, it never becomes pending again and its callback is never called again |
| Lifecycle.SupersededNeverNotified | cache.js:99-103 | the callback of an entry replaced by `put` is never called, whatever follows |
| Lifecycle.ClearSilencesEveryEntry | cache.js:144-150 | `clear` calls no callback, and no entry that was in the cache is ever called back afterwards |
| Lifecycle.CallbacksAtMostOnce | cache.js:130-139 | from a new cache, after any run, no entry's callback has been called twice and `size()` equals the number of pending timers |

## Left out

- The UMD export wrapper and `noConflict` (cache.js:15-40) are packaging only.
- Real time is not modelled. `setTimeout` delays are recorded as integers, and a timer may fire at any step while it is pending. The model says nothing about when it fires.
- Lifecycle.CallbacksAtMostOnce: states "at most once", not "exactly once": whether a pending timer eventually fires depends on real time, which is not modelled. What is proved is that every entry has a pending timer (`OneTimerPerEntry`) and that its firing calls back that entry (`FireNotifiesOwnEntry`).
- Only part of `JSON.stringify` is modelled. Numbers are integers, and every integer is written in decimal. The model leaves out:
  - fractions, `NaN` and `Infinity` (written `null`),
  - the exponent form used from 1e21 up,
  - `-0`,
  - functions and symbols,
  - `toJSON` methods,
  - cyclic structures and BigInt, both of which throw,
  - lone UTF-16 surrogates: Dafny characters are Unicode scalar values.
- An object key is the list of its members in the order the engine enumerates them. The engine's ordering rules, such as integer-like names first, are not modelled.
- An object key (`Json.Obj`) may list the same member name twice, which no JavaScript object does. The key facts are proved for all such values, so they hold for real objects too.
- Keys are values, not references. Two structurally equal objects are the same `JsValue`. Mutating an object after using it as a key is out of scope.
- Callback bodies are not modelled. A call is recorded in the log and does nothing else. Re-entrant calls into the cache are left out. So are exceptions a callback throws, and the `TypeError` from a truthy non-function `callback` option.
- `options.ttl` and `options.defaultTtl` are integers or absent. Other JavaScript values, such as strings, are not modelled.
- The store shared by all instances (cache.js:46) is one store in the model. `Create` starts it empty. A second `new Cache()` would see the entries of the first, and that is not modelled.
- `get` returns `Some(data)` for a present entry even when the data is `undefined`. In JavaScript the caller cannot tell that case from absence. The model keeps them apart and says nothing about the JavaScript caller's view.
