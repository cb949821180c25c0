# Decode hooks of consul's `lib/decode`, modelled in Dafny

The package `lib/decode` provides two mapstructure decode hooks. The decoder
calls every registered hook on each node of loosely typed configuration data
(maps parsed from JSON or HCL) before it assigns the node into a typed struct.

- `HookTranslateKeys` keeps old configuration files working after keys are
  renamed. A destination type opts in by implementing `KeyTranslator`, whose
  `DecodeKeyMapping` method returns a map from lower-case deprecated keys to
  canonical keys. The hook rewrites the keys of the data map in place. A
  deprecated key is matched case-insensitively. Its value moves to the
  canonical key unless that key, compared with its exact case, already holds
  a value. The hook does nothing for pointer destinations, for data that is
  not a `map[string]interface{}` and for types that implement `KeyTranslator`
  with neither receiver form. It never fails.
- `HookNormalizeHCLNestedBlocks` handles HCL, which stores a nested block as
  a `[]map[string]interface{}`. When the destination is not a sequence, it
  unwraps the slice: no element gives `nil`, one element gives that map, and
  more than one is an error.

Files:

- `strings.dfy` (module `Strings`): ASCII lower-casing, the part of Go's
  `strings.ToLower` the key lookup relies on.
- `values.dfy` (module `Values`): the `interface{}` values a hook receives,
  the Go map object (`StringMap`, a class whose `entries` the hook updates in
  place), and the part of a `reflect.Type` the hooks inspect: its kind and
  how it declares `DecodeKeyMapping`.
- `key_translation.dfy` (module `KeyTranslation`): the key translation as a
  pure function `Translate(m, rules, order)`. It is one `Visit` per key, in
  the order the `range` loop visits the keys. Go does not specify that order,
  so every lemma holds for an arbitrary order. Most lemmas hold for any order
  that visits every original key once (`Enumerates`).
- `decode.dfy` (module `Decode`): the two hooks. `HookTranslateKeys` is a
  method with the source's loop over a snapshot of the keys, each picked
  nondeterministically. It is proved to leave the map equal to
  `Translate(old map, rules, order)` for the order it used.
  `HookNormalizeHCLNestedBlocks` is a function.
- `scenarios.dfy` (module `Scenarios`): the key mappings and maps of the
  package's test cases, with what the translation produces for them in every
  visiting order.

Some properties are guaranteed only under a side condition. Outside it
nothing is promised: the property may still hold for a particular map, or
it may fail.

- A deprecated key's value is guaranteed to reach its absent canonical key
  when no other key of the map translates to the same canonical key. When two
  keys do, the one visited first wins (`Scenarios.CollidingKeysDependOnOrder`).
- That the deprecated key itself is gone afterwards is guaranteed when, in
  addition, no key of the map translates to the deprecated key. Such a key
  would move into it once it has left.
- An already present canonical key is guaranteed to keep its value, and the
  deprecated key its own, when the canonical key is not moved on in turn: it
  is not deprecated, or it translates to itself. Under a chain of renames (a
  canonical key that translates on to a different key), the code can move the
  deprecated key onto a canonical key that was present when the loop started,
  once that key has moved on (`Scenarios.ChainedCanonicalOverwritten`). The
  promise that a present canonical key leaves the deprecated key untouched
  can therefore fail under a chain.
- Translation is guaranteed to settle the map, and to be idempotent, when the
  mapping has no chain: every canonical key that is itself deprecated
  translates to itself.

## Model

| member | source | states |
|---|---|---|
| Strings.ToLower | lib/decode/decode.go:64 | the result has the key's length, turns each upper-case ASCII letter into the lower-case letter at the same place in the alphabet, leaves every other character as it is, and contains no upper-case letter |
| Strings.ToLowerUnique | lib/decode/decode.go:64 | any lower-case string equal to a key up to ASCII case is that key's lower-cased form |
| Strings.ToLowerIdempotent | lib/decode/decode.go:64 | lower-casing twice is lower-casing once |
| Strings.ToLowerMatchesEqualFold | lib/decode/decode.go:15-19 | two keys select the same mapping entry exactly when they differ only in case: the match is case-insensitive |
| KeyTranslation.Translate | lib/decode/decode.go:63-78 | the map after one `Visit` per key of `order`, in that order; it has no contract of its own, and its properties are the lemmas below |
| KeyTranslation.Visit | lib/decode/decode.go:63-78 | one loop iteration keeps the number of keys, changes no key other than the visited one, and adds only that key's canonical key, holding the visited key's value |
| KeyTranslation.TranslateKeepsSize | lib/decode/decode.go:63-78 | in any visiting order the translated map has as many keys as the original |
| KeyTranslation.UnvisitedKept | lib/decode/decode.go:63-78 | a key not yet visited is still present with its original value, so the loop's `v` is the original value |
| KeyTranslation.NonDeprecatedKept | lib/decode/decode.go:64-68 | a key whose lower-case form has no mapping entry keeps its value, in any order |
| KeyTranslation.CanonicalPresentKept | lib/decode/decode.go:70-73 | if the canonical key is already present (exact case) and is not deprecated or translates to itself, both it and the deprecated key keep their values |
| KeyTranslation.CanonicalReceivesValue | lib/decode/decode.go:75-77 | a deprecated key's value ends up under its absent canonical key in any complete order, provided no other key translates to that canonical key |
| KeyTranslation.MovedToCanonical | lib/decode/decode.go:75-77 | a deprecated key whose canonical key is absent ends up removed with its value under the canonical key, provided no other key translates to that canonical key or to the deprecated key |
| KeyTranslation.TranslateProvenance | lib/decode/decode.go:63-78 | every entry of the result is an original entry, either in place or moved once to its own canonical key: no value is invented or translated twice |
| KeyTranslation.SettledUnchanged | lib/decode/decode.go:63-78 | a map in which every deprecated key's canonical key is present is left unchanged |
| KeyTranslation.TranslateSettles | lib/decode/decode.go:63-78 | when every deprecated canonical key translates to itself, a complete pass leaves no deprecated key whose canonical key is missing |
| KeyTranslation.TranslateIdempotent | lib/decode/decode.go:63-78 | when every deprecated canonical key translates to itself, translating the translated map again changes nothing |
| KeyTranslation.NonMoverKept | lib/decode/decode.go:63-78 | with no competing keys, every key that is not moved keeps its value throughout the loop |
| KeyTranslation.TranslateIsRenamed | lib/decode/decode.go:63-78 | with no competing keys, a complete pass in any order yields the reference map `Renamed`, which is stated without any loop |
| KeyTranslation.TranslateOrderIndependent | lib/decode/decode.go:63-78 | with no competing keys, any two visiting orders give the same map |
| Decode.KeyMapping | lib/decode/decode.go:52-62 | a type provides a mapping exactly when it declares `DecodeKeyMapping` with either receiver; both forms give that type's mapping |
| Decode.TranslationRules | lib/decode/decode.go:42-60 | rules apply exactly when the destination is no pointer, the data is a map and the type is a KeyTranslator in either form |
| Decode.HookTranslateKeys | lib/decode/decode.go:38-80 | returns the data itself and no error; leaves the map unchanged when the rules do not apply; otherwise visits each original key once and leaves the map equal to `Translate` of the old map in that order |
| Decode.HookNormalizeHCLNestedBlocks | lib/decode/decode.go:94-113 | passes data through for slice-to-slice/array and for data that is not a slice of maps; else no element gives nil, one gives that map, more than one gives the data and an error carrying it; fails only then; never leaves a slice of maps for a non-sequence destination |
| Decode.UnwrapSingleBlock | lib/decode/decode.go:82-84 | wrapping a map as a single block and normalizing it for a non-sequence destination gives that same map back |
| Decode.NormalizeIdempotent | lib/decode/decode.go:94-113 | normalizing the hook's own result again, for the same types, gives the same result |
| Scenarios.StructReceiverTranslation | lib/decode/decode_test.go:16-31 | with TypeStruct's mapping, "OldOne" and "oldtwo" move to "One" and "two" and "None" stays, in every order |
| Scenarios.PointerReceiverTranslation | lib/decode/decode_test.go:162-168 | with TypePtrToStruct's mapping, keys equal up to case to "old_three" and to "old_four" or "oldfour" move to "Three" and "four", in every order |
| Scenarios.PointerReceiverNestedTranslation | lib/decode/decode_test.go:50-83 | the nested map with "old_THREE" and "old_four" translates to "Three" and "four" |
| Scenarios.PointerReceiverTopLevelTranslation | lib/decode/decode_test.go:170-192 | the map with "Old_Three" and "OldFour" translates to "Three" and "four" |
| Scenarios.CanonicalAlreadyPresentUnchanged | lib/decode/decode_test.go:99-115 | when "One" and "two" already hold values, the map is unchanged, in any order |
| Scenarios.FirstVisitedWins | lib/decode/decode.go:70-77 | of two deprecated keys sharing an absent canonical key, the first visited moves and the second stays |
| Scenarios.ChainOverridesPresent | lib/decode/decode.go:70-77 | when a present canonical key is itself deprecated and is visited first, it moves on and the deprecated key then moves into its place |
| Scenarios.ChainedCanonicalOverwritten | lib/decode/decode.go:20-21 | with a mapping where "One" is itself deprecated for "Z", "OldOne" is moved onto "One" even though "One" was present, so the doc comment's promise can fail under a chain |
| Scenarios.ReceiverDispatch | lib/decode/decode_test.go:33-66 | TypeStruct's value receiver and TypePtrToStruct's pointer receiver both supply their mapping for map data, and a pointer destination gets no rules |
| Scenarios.StructReceiverHook | lib/decode/decode_test.go:16-31 | running the hook on a fresh map of the struct-receiver test case leaves exactly "None", "One" and "two" with their values |
| Scenarios.CollidingKeysDependOnOrder | lib/decode/decode_test.go:162-168 | "old_four" and "oldfour" both map to "four", and the two visiting orders give different results |

## Left out

- Strings.ToLower: lower-cases only the ASCII letters A-Z. Go's `strings.ToLower` also maps non-ASCII letters, so keys that differ only in non-ASCII case are not matched here.
- Go reflection (`reflect.Type.Kind`, `Implements`, `reflect.Zero`, `reflect.New`, `PtrTo`) is replaced by a type descriptor. It holds the kind and whether `DecodeKeyMapping` is declared with a value or a pointer receiver, together with the mapping it returns. The mapping is fixed per type, so the zero value and the new instance give the same one.
- A destination of interface kind that embeds `KeyTranslator` makes `reflect.Zero(to).Interface().(KeyTranslator)` panic in the source. The descriptor cannot express interface kinds, so this case is not modelled.
- Go's `range` may or may not produce entries inserted during the loop. The model visits a snapshot of the original keys only. So a canonical key that is itself a deprecated key is never translated a second time in the same call.
- Go's map iteration order is not modelled as a particular order. The method picks each next key nondeterministically and records its choice in a ghost sequence.
- The error text built by `fmt.Errorf` is reduced to an error value carrying the offending data.
- The mapstructure decoder, including its case-insensitive matching of map keys to struct fields, is an external library and is not part of this model. The test cases are therefore stated on the map the hook leaves behind, not on the struct the decoder fills in.
- The unused source-type parameter of `HookTranslateKeys` is kept in the signature for symmetry and plays no role.
