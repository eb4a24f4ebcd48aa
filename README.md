# DoubleKeyDictionary in Dafny

A model of `DoubleKeyDictionary<TKey1, TKey2, TValue>` from Useurmind.DataStructures: a
container that stores a value under a pair of keys. It keeps its state twice:

- `dictionary`, a nested map from the first key to a second-level map from the second key to the value;
- `items`, the append-only list of `DoubleKeyDictionaryItem` triples, one per successful `Add`, in call order.

Files:

- `DictionaryItem.dfy` — module `DictionaryItem`: the immutable entry triple as a datatype whose
  destructors `Key1`, `Key2`, `Value` are the read-only properties.
- `DoubleKeyDictionary.dfy` — module `DoubleKeyDictionaries`: the class `DoubleKeyDictionary` with the
  two fields, and the value-level definitions and lemmas its contracts are stated with.
- `Examples.dfy` — module `DoubleKeyDictionaryExamples`: client methods that replay the unit-test
  scenarios and prove their outcomes from the class contracts alone.

The class invariant `Valid()` says that `dictionary` is what recording `items` one after the other
produces (`Build`) and that every entry's key pair was absent when it was recorded (`AddedFresh`).
`BuiltIsConsistent` proves, by induction over the list, the entry-by-entry agreement this implies:
no key pair occurs twice in `items`, every item is reachable in `dictionary` with its value, every
entry of `dictionary` and every first key was recorded in `items`. `EntryCount` then gives that the
number of items equals the number of entries of all second levels together.

`Add` follows the code's order: get or create the second level, insert into it, then append the
item. A duplicate pair is refused by the second level's own add; because the pair is present, its
first key already had a second level, so nothing was created, and the append is never reached. The
model returns `Failure(DuplicateKey)` with both fields unchanged.

`GetAll(key1)` (here `GetAllByKey1`) projects the second level of `key1` without checking that it
exists, so for an unknown `key1` the code fails instead of returning an empty sequence. The model
returns `Err(UnknownFirstKey)` there. Likewise, a duplicate pair is detected by the second level's
own add, not by a separate check beforehand.

## Model

| member | source | states |
|---|---|---|
| `DictionaryItem.ItemGetters` | Useurmind.DataStructures/DoubleKeyDictionaryItem.cs:17-46 | `Key1`, `Key2` and `Value` return what the constructor was given, and an item equals the item rebuilt from its three parts. |
| `DoubleKeyDictionaries.LookupInsert` | Useurmind.DataStructures/DoubleKeyDictionary.cs:45-52 | After inserting `(key1, key2) -> value`, that pair maps to `value` and every other pair maps to what it mapped to before. |
| `DoubleKeyDictionaries.InsertThroughSecondLevel` | Useurmind.DataStructures/DoubleKeyDictionary.cs:47-49 | Getting or creating the second level, inserting into it and storing it back gives the same nested map as one insertion into the map from before. |
| `DoubleKeyDictionaries.BuildAppend` | Useurmind.DataStructures/DoubleKeyDictionary.cs:49-51 | Appending an item extends the built map by one insertion; the list stays duplicate-free exactly when the pair was absent. |
| `DoubleKeyDictionaries.InsertKeepsConsistent` | Useurmind.DataStructures/DoubleKeyDictionary.cs:45-52 | Inserting an absent pair into the map and appending its item keeps the two representations in agreement. |
| `DoubleKeyDictionaries.BuiltIsConsistent` | Useurmind.DataStructures/DoubleKeyDictionary.cs:15-17 | The class invariant entry by entry: key pairs in `items` are distinct, each item is reachable with its value, each map entry and each first key has an item. |
| `DoubleKeyDictionaries.ItemIsStored` | Useurmind.DataStructures/DoubleKeyDictionary.cs:49-51 | Every recorded item can be looked up in the nested map with its own value. |
| `DoubleKeyDictionaries.FirstKeyIsRecorded` | Useurmind.DataStructures/DoubleKeyDictionary.cs:154-168 | A first key has a second level exactly when some item was recorded under it, and that second level is never empty. |
| `DoubleKeyDictionaries.DistinctPairsCount` | Useurmind.DataStructures/DoubleKeyDictionary.cs:35 | A list without repeated key pairs holds as many distinct pairs as items. |
| `DoubleKeyDictionaries.PairsAgree` | Useurmind.DataStructures/DoubleKeyDictionary.cs:15-17 | In a consistent state the key pairs of `items` are exactly the key pairs of `dictionary`. |
| `DoubleKeyDictionaries.EntryCount` | Useurmind.DataStructures/DoubleKeyDictionary.cs:35 | In a consistent state the number of items equals the number of entries of all second levels together. |
| `DoubleKeyDictionaries.Values` | Useurmind.DataStructures/DoubleKeyDictionary.cs:70-83 | The values of the items, one per item, in list order (the reference for what `GetAll` returns). |
| `DoubleKeyDictionaries.Under` | Useurmind.DataStructures/DoubleKeyDictionary.cs:90-94 | The items recorded under one first key: every one of them and nothing else (the reference for `GetAll(key1)`). |
| `DoubleKeyDictionaries.VisitEntry` | Useurmind.DataStructures/DoubleKeyDictionary.cs:74-80 | Visiting one map entry during the walk adds exactly that entry's value to the values collected so far. |
| `DoubleKeyDictionaries.DoubleKeyDictionary.constructor` | Useurmind.DataStructures/DoubleKeyDictionary.cs:22-26 | A new dictionary is valid, with an empty nested map and no items. |
| `DoubleKeyDictionaries.DoubleKeyDictionary.Count` | Useurmind.DataStructures/DoubleKeyDictionary.cs:31-37 | The item count equals the number of key pairs stored in the nested map. |
| `DoubleKeyDictionaries.DoubleKeyDictionary.SecondLevel` | Useurmind.DataStructures/DoubleKeyDictionary.cs:154-168 | Returns the second level of `key1` without creating one, and `None` when `key1` is unknown; there is one exactly when some item was added under `key1`, it is never empty, and each of its entries is what a lookup of that pair finds. |
| `DoubleKeyDictionaries.DoubleKeyDictionary.GetOrCreateSecondLevel` | Useurmind.DataStructures/DoubleKeyDictionary.cs:154-168 | Returns the existing second level and changes nothing, or stores and returns a new empty one when the first key is unknown. |
| `DoubleKeyDictionaries.DoubleKeyDictionary.Add` | Useurmind.DataStructures/DoubleKeyDictionary.cs:45-52 | Succeeds exactly when the pair was not contained; on success appends exactly the item `(key1, key2, value)`, inserts into the map, raises `Count` by one, makes the pair map to `value` and leaves all other pairs; on failure reports `DuplicateKey` and leaves both fields unchanged; keeps the invariant. |
| `DoubleKeyDictionaries.DoubleKeyDictionary.Contains` | Useurmind.DataStructures/DoubleKeyDictionary.cs:60-64 | Equals the found flag of `TryGetValue`, and holds exactly when some item carries the pair. |
| `DoubleKeyDictionaries.DoubleKeyDictionary.TryGetValue` | Useurmind.DataStructures/DoubleKeyDictionary.cs:129-141 | Not found when the first key has no second level or the second key is missing from it; found exactly when some item carries the pair, and then with that item's value. |
| `DoubleKeyDictionaries.DoubleKeyDictionary.GetAllDict` | Useurmind.DataStructures/DoubleKeyDictionary.cs:101-109 | Empty for an unknown first key; otherwise its keys are exactly the second keys of the items under `key1`, each mapped to its item's value. |
| `DoubleKeyDictionaries.DoubleKeyDictionary.Enumerate` | Useurmind.DataStructures/DoubleKeyDictionary.cs:117-120 | Yields `Count` entries with pairwise distinct key pairs, each found by `TryGetValue` with its own value, covering exactly the pairs stored in the map. |
| `DoubleKeyDictionaries.DoubleKeyDictionary.GetAll` | Useurmind.DataStructures/DoubleKeyDictionary.cs:70-83 | The nested walk returns, as a multiset, exactly the values of all items, and `Count` of them. |
| `DoubleKeyDictionaries.DoubleKeyDictionary.GetAllByKey1` | Useurmind.DataStructures/DoubleKeyDictionary.cs:90-94 | Fails with `UnknownFirstKey` exactly when `key1` has no second level (no item under it); otherwise returns, as a multiset, the values of the items under `key1`, as many as the second level has entries. |
| `DoubleKeyDictionaryExamples.EmptyStringKeyIsFound` | Useurmind.DataStructures.Test/DoubleKeyDictionaryTest.cs:28-42 | An empty string is an ordinary second key: the add succeeds and the value is found. |
| `DoubleKeyDictionaryExamples.MissingItemIsNotFound` | Useurmind.DataStructures.Test/DoubleKeyDictionaryTest.cs:223-251 | A fresh dictionary finds nothing, contains nothing and counts zero. |
| `DoubleKeyDictionaryExamples.AddingTwiceFails` | Useurmind.DataStructures.Test/DoubleKeyDictionaryTest.cs:108-121 | The second add of the same pair, with a different value, fails with `DuplicateKey`; the first value, not the second, is still found and the count stays one. |
| `DoubleKeyDictionaryExamples.EnumerationFollowsInsertionOrder` | Useurmind.DataStructures.Test/DoubleKeyDictionaryTest.cs:127-146 | Enumeration after two adds yields exactly the two items, in the order they were added. |
| `DoubleKeyDictionaryExamples.GetAllReturnsEveryValue` | Useurmind.DataStructures.Test/DoubleKeyDictionaryTest.cs:152-168 | After three adds, `GetAll` returns the three values, order aside. |
| `DoubleKeyDictionaryExamples.GetAllByKey1Projects` | Useurmind.DataStructures/DoubleKeyDictionary.cs:90-94 | The values under a known first key are the two added under it; an unknown first key is an error. |
| `DoubleKeyDictionaryExamples.GetAllDictProjects` | Useurmind.DataStructures.Test/DoubleKeyDictionaryTest.cs:174-217 | The copy for a known first key maps its two second keys to their values; the copy for an unknown first key is empty. |

## Left out

- Null keys: Dafny values have no null. The argument check of the inner dictionary, and the empty second level a null second key would leave behind, are not modelled.
- .NET exception types: a duplicate pair and an unknown first key in `GetAll(key1)` become the error values `DuplicateKey` and `UnknownFirstKey`.
- Enumerator objects: the generic and the non-generic `GetEnumerator` (lines 117-120 and 149-152) are modelled once, as `Enumerate` returning the sequence of items. The deferred evaluation of LINQ's `Select` is not modelled; the projection is computed when `GetAllByKey1` is called.
- Hash-table iteration order: `GetAll` and `GetAllByKey1` pick the next key with `:|`, and their results are stated as multisets.
- Reference identity and aliasing: the second levels are .NET objects updated in place; here they are map values that `Add` stores back. `GetAllDict` returns a value, which is always an independent copy.
- The `default(TValue)` that `TryGetValue` writes to its out parameter on a miss: the model returns `None` and carries no value.
- 32-bit `int` for `Count`: the model uses `nat`; a .NET list cannot hold more than `int.MaxValue` items, so no wrap-around can occur.
- `DoubleKeyDictionaries.DoubleKeyDictionary.Enumerate`: its contract does not repeat that the result is the `items` field itself; the insertion order is stated by `Add`'s postcondition on `items` and shown by `EnumerationFollowsInsertionOrder`.
- Removal, update and concurrency: the source has none of them.
