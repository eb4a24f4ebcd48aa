/** A two-level dictionary: values are stored under a pair of keys. The state is kept
    twice, as a nested map (first key to second key to value) and as the list of
    entries in the order they were added. The class invariant says that the nested
    map is what recording the list in order produces and that no entry repeated a
    key combination; `BuiltIsConsistent` turns that into the entry-by-entry agreement
    of the two representations. */
module DoubleKeyDictionaries {
  import opened DictionaryItem

  datatype Option<T> = None | Some(value: T)

  datatype Error =
    | DuplicateKey      // the inner dictionary's add refuses a key it already holds
    | UnknownFirstKey   // the value projection is handed a missing second level

  datatype Status = Success | Failure(error: Error)

  datatype Result<T> = Ok(value: T) | Err(error: Error)

  type Item<K1, K2, V> = DoubleKeyDictionaryItem<K1, K2, V>

  // ---------------------------------------------------------------------------
  // The nested map as a value
  // ---------------------------------------------------------------------------

  /** The value the nested map holds for a key combination, read in one step. */
  function Lookup<K1, K2, V>(d: map<K1, map<K2, V>>, key1: K1, key2: K2): Option<V>
  {
    if key1 in d && key2 in d[key1] then Some(d[key1][key2]) else None
  }

  /** The nested map after `key2 -> value` was put into the second level of `key1`,
      creating that second level when it is missing. */
  function Insert<K1, K2, V>(d: map<K1, map<K2, V>>, key1: K1, key2: K2, value: V): map<K1, map<K2, V>>
  {
    d[key1 := (if key1 in d then d[key1] else map[])[key2 := value]]
  }

  /** Inserting a combination makes it map to the new value and leaves every other combination alone. */
  lemma LookupInsert<K1, K2, V>(d: map<K1, map<K2, V>>, key1: K1, key2: K2, value: V, a: K1, b: K2)
    ensures Lookup(Insert(d, key1, key2, value), a, b) == if (a, b) == (key1, key2) then Some(value) else Lookup(d, a, b)
  {
  }

  /** Putting the entry into the second level handed out by a get-or-create step, and
      storing that second level back, is the same as `Insert` on the map from before the step. */
  lemma InsertThroughSecondLevel<K1, K2, V>(d0: map<K1, map<K2, V>>, d1: map<K1, map<K2, V>>, secondLevel: map<K2, V>, key1: K1, key2: K2, value: V)
    requires key1 in d0 ==> d1 == d0 && secondLevel == d0[key1]
    requires key1 !in d0 ==> d1 == d0[key1 := map[]] && secondLevel == map[]
    ensures d1[key1 := secondLevel[key2 := value]] == Insert(d0, key1, key2, value)
  {
  }

  /** The nested map that recording `items` one after the other produces. */
  ghost function Build<K1, K2, V>(items: seq<Item<K1, K2, V>>): map<K1, map<K2, V>>
    decreases |items|
  {
    if items == [] then map[]
    else
      var last := items[|items| - 1];
      Insert(Build(items[..|items| - 1]), last.Key1, last.Key2, last.Value)
  }

  /** Every entry's key combination was absent when the entry was recorded. */
  ghost predicate AddedFresh<K1, K2, V>(items: seq<Item<K1, K2, V>>)
    decreases |items|
  {
    items == [] ||
    var prefix, last := items[..|items| - 1], items[|items| - 1];
    AddedFresh(prefix) && Lookup(Build(prefix), last.Key1, last.Key2) == None
  }

  /** Recording one more entry extends `Build` by one `Insert`, and keeps `AddedFresh`
      exactly when the combination was absent. */
  lemma BuildAppend<K1, K2, V>(items: seq<Item<K1, K2, V>>, item: Item<K1, K2, V>)
    ensures Build(items + [item]) == Insert(Build(items), item.Key1, item.Key2, item.Value)
    ensures AddedFresh(items + [item]) <==> AddedFresh(items) && Lookup(Build(items), item.Key1, item.Key2) == None
  {
    assert (items + [item])[..|items|] == items;
  }

  // ---------------------------------------------------------------------------
  // The agreement of the two representations, entry by entry
  // ---------------------------------------------------------------------------

  /** No key combination occurs twice in the entry list. */
  ghost predicate DistinctPairs<K1, K2, V>(items: seq<Item<K1, K2, V>>)
  {
    forall i, j :: 0 <= i < j < |items| ==> KeyPair(items[i]) != KeyPair(items[j])
  }

  /** Every entry of the list can be looked up in the nested map, with its own value. */
  ghost predicate ItemsReachable<K1, K2, V>(d: map<K1, map<K2, V>>, items: seq<Item<K1, K2, V>>)
  {
    forall i :: 0 <= i < |items| ==>
      items[i].Key1 in d && items[i].Key2 in d[items[i].Key1] && d[items[i].Key1][items[i].Key2] == items[i].Value
  }

  /** Every entry of the nested map was recorded in the list. */
  ghost predicate EntriesRecorded<K1, K2, V>(d: map<K1, map<K2, V>>, items: seq<Item<K1, K2, V>>)
  {
    forall a, b :: a in d && b in d[a] ==> exists i :: 0 <= i < |items| && KeyPair(items[i]) == (a, b)
  }

  /** Every first key was recorded with some entry. */
  ghost predicate FirstKeysRecorded<K1, K2, V>(d: map<K1, map<K2, V>>, items: seq<Item<K1, K2, V>>)
  {
    forall a :: a in d ==> exists i :: 0 <= i < |items| && items[i].Key1 == a
  }

  ghost predicate Consistent<K1, K2, V>(d: map<K1, map<K2, V>>, items: seq<Item<K1, K2, V>>)
  {
    DistinctPairs(items) && ItemsReachable(d, items) && EntriesRecorded(d, items) && FirstKeysRecorded(d, items)
  }

  /** Recording a key combination that is not yet present in both representations keeps them consistent. */
  lemma InsertKeepsConsistent<K1, K2, V>(d: map<K1, map<K2, V>>, items: seq<Item<K1, K2, V>>, key1: K1, key2: K2, value: V)
    requires Consistent(d, items)
    requires Lookup(d, key1, key2) == None
    ensures Consistent(Insert(d, key1, key2, value), items + [DoubleKeyDictionaryItem(key1, key2, value)])
  {
    var d', items' := Insert(d, key1, key2, value), items + [DoubleKeyDictionaryItem(key1, key2, value)];
    forall i, j | 0 <= i < j < |items'| ensures KeyPair(items'[i]) != KeyPair(items'[j]) {
      if j == |items| {
        assert items[i].Key1 in d && items[i].Key2 in d[items[i].Key1];
      }
    }
    forall i | 0 <= i < |items'|
      ensures items'[i].Key1 in d' && items'[i].Key2 in d'[items'[i].Key1]
      ensures d'[items'[i].Key1][items'[i].Key2] == items'[i].Value
    {
      if i < |items| {
        assert items[i].Key1 in d && items[i].Key2 in d[items[i].Key1];
      }
    }
    forall a, b | a in d' && b in d'[a] ensures exists i :: 0 <= i < |items'| && KeyPair(items'[i]) == (a, b) {
      if (a, b) == (key1, key2) {
        assert KeyPair(items'[|items|]) == (a, b);
      } else {
        assert a in d && b in d[a];
        var i :| 0 <= i < |items| && KeyPair(items[i]) == (a, b);
        assert KeyPair(items'[i]) == (a, b);
      }
    }
    forall a | a in d' ensures exists i :: 0 <= i < |items'| && items'[i].Key1 == a {
      if a == key1 {
        assert items'[|items|].Key1 == a;
      } else {
        var i :| 0 <= i < |items| && items[i].Key1 == a;
        assert items'[i].Key1 == a;
      }
    }
  }

  /** The class invariant seen entry by entry: when every entry was added fresh, the list
      has no repeated combination, each entry is reachable in the built map with its value,
      and each entry of the built map (and each first key) was recorded in the list. */
  lemma {:induction false} BuiltIsConsistent<K1, K2, V>(items: seq<Item<K1, K2, V>>)
    requires AddedFresh(items)
    ensures Consistent(Build(items), items)
    decreases |items|
  {
    if items != [] {
      var prefix, last := items[..|items| - 1], items[|items| - 1];
      assert prefix + [last] == items;
      BuildAppend(prefix, last);
      BuiltIsConsistent(prefix);
      InsertKeepsConsistent(Build(prefix), prefix, last.Key1, last.Key2, last.Value);
    }
  }

  /** Each recorded entry can be looked up in the built map with its own value. */
  lemma ItemIsStored<K1, K2, V>(items: seq<Item<K1, K2, V>>, i: nat)
    requires AddedFresh(items) && i < |items|
    ensures Lookup(Build(items), items[i].Key1, items[i].Key2) == Some(items[i].Value)
  {
    BuiltIsConsistent(items);
  }

  /** A first key has a second level in the built map exactly when some entry was recorded under it,
      and that second level is never empty. */
  lemma FirstKeyIsRecorded<K1, K2, V>(items: seq<Item<K1, K2, V>>, key1: K1)
    requires AddedFresh(items)
    ensures key1 in Build(items) <==> exists i :: 0 <= i < |items| && items[i].Key1 == key1
    ensures key1 in Build(items) ==> Build(items)[key1] != map[]
  {
    BuiltIsConsistent(items);
    if i :| 0 <= i < |items| && items[i].Key1 == key1 {
      ItemIsStored(items, i);
      assert items[i].Key2 in Build(items)[key1];
    }
  }

  /** Visiting an entry of the built map adds exactly its value to `ValuesAt`. */
  lemma VisitEntry<K1, K2, V>(items: seq<Item<K1, K2, V>>, visited: set<(K1, K2)>, key1: K1, key2: K2)
    requires AddedFresh(items)
    requires key1 in Build(items) && key2 in Build(items)[key1] && (key1, key2) !in visited
    ensures ValuesAt(items, visited + {(key1, key2)}) == ValuesAt(items, visited) + multiset{Build(items)[key1][key2]}
  {
    BuiltIsConsistent(items);
    var k :| 0 <= k < |items| && KeyPair(items[k]) == (key1, key2);
    ValuesAtVisit(items, visited, k);
  }

  // ---------------------------------------------------------------------------
  // Counting: the list length is the number of entries of the nested map
  // ---------------------------------------------------------------------------

  /** All key combinations stored in the nested map. */
  ghost function Pairs<K1, K2, V>(d: map<K1, map<K2, V>>): set<(K1, K2)>
  {
    set a, b | a in d && b in d[a] :: (a, b)
  }

  /** All key combinations recorded in the entry list. */
  ghost function ItemPairs<K1, K2, V>(items: seq<Item<K1, K2, V>>): set<(K1, K2)>
  {
    set i | 0 <= i < |items| :: KeyPair(items[i])
  }

  /** A list without repeated key combinations has as many combinations as entries. */
  lemma {:induction false} DistinctPairsCount<K1, K2, V>(items: seq<Item<K1, K2, V>>)
    requires DistinctPairs(items)
    ensures |ItemPairs(items)| == |items|
  {
    if items != [] {
      var rest := items[1..];
      assert DistinctPairs(rest) by {
        forall i, j | 0 <= i < j < |rest| ensures KeyPair(rest[i]) != KeyPair(rest[j]) {
          assert rest[i] == items[i + 1] && rest[j] == items[j + 1];
        }
      }
      DistinctPairsCount(rest);
      assert ItemPairs(items) == {KeyPair(items[0])} + ItemPairs(rest) by {
        forall p | p in ItemPairs(items) ensures p in {KeyPair(items[0])} + ItemPairs(rest) {
          var i :| 0 <= i < |items| && KeyPair(items[i]) == p;
          if i > 0 { assert KeyPair(rest[i - 1]) == p; }
        }
        forall p | p in ItemPairs(rest) ensures p in ItemPairs(items) {
          var i :| 0 <= i < |rest| && KeyPair(rest[i]) == p;
          assert KeyPair(items[i + 1]) == p;
        }
      }
      assert KeyPair(items[0]) !in ItemPairs(rest) by {
        forall i | 0 <= i < |rest| ensures KeyPair(rest[i]) != KeyPair(items[0]) {
          assert rest[i] == items[i + 1];
        }
      }
    }
  }

  /** In a consistent state both representations hold the same key combinations. */
  lemma PairsAgree<K1, K2, V>(d: map<K1, map<K2, V>>, items: seq<Item<K1, K2, V>>)
    requires Consistent(d, items)
    ensures ItemPairs(items) == Pairs(d)
  {
    forall p | p in Pairs(d) ensures p in ItemPairs(items) {
      var a, b :| a in d && b in d[a] && p == (a, b);
      var i :| 0 <= i < |items| && KeyPair(items[i]) == (a, b);
    }
    forall p | p in ItemPairs(items) ensures p in Pairs(d) {
      var i :| 0 <= i < |items| && KeyPair(items[i]) == p;
      assert items[i].Key1 in d && items[i].Key2 in d[items[i].Key1];
    }
  }

  /** In a consistent state the entry list is exactly as long as the nested map has entries. */
  lemma EntryCount<K1, K2, V>(d: map<K1, map<K2, V>>, items: seq<Item<K1, K2, V>>)
    requires Consistent(d, items)
    ensures |items| == |Pairs(d)|
  {
    PairsAgree(d, items);
    DistinctPairsCount(items);
  }

  // ---------------------------------------------------------------------------
  // Values of the entry list, used to state what the value projections return
  // ---------------------------------------------------------------------------

  /** The values of the entries, in list order. */
  function Values<K1, K2, V>(items: seq<Item<K1, K2, V>>): (r: seq<V>)
    ensures |r| == |items|
    ensures forall i :: 0 <= i < |items| ==> r[i] == items[i].Value
  {
    if items == [] then [] else [items[0].Value] + Values(items[1..])
  }

  /** `Values` distributes over concatenation. */
  lemma ValuesConcat<K1, K2, V>(xs: seq<Item<K1, K2, V>>, ys: seq<Item<K1, K2, V>>)
    ensures Values(xs + ys) == Values(xs) + Values(ys)
  {
    var l, r := Values(xs + ys), Values(xs) + Values(ys);
    forall i | 0 <= i < |l| ensures l[i] == r[i] {
      if i < |xs| {
        assert (xs + ys)[i] == xs[i];
      } else {
        assert (xs + ys)[i] == ys[i - |xs|];
      }
    }
  }

  /** The entries added under first key `key1`, in list order. */
  function Under<K1(==), K2, V>(items: seq<Item<K1, K2, V>>, key1: K1): (r: seq<Item<K1, K2, V>>)
    ensures forall i :: 0 <= i < |r| ==> r[i] in items && r[i].Key1 == key1
    ensures forall i :: 0 <= i < |items| && items[i].Key1 == key1 ==> items[i] in r
  {
    if items == [] then []
    else (if items[0].Key1 == key1 then [items[0]] else []) + Under(items[1..], key1)
  }

  /** The values of the entries whose key combination lies in `visited`, as a multiset. */
  ghost function ValuesAt<K1, K2, V>(items: seq<Item<K1, K2, V>>, visited: set<(K1, K2)>): multiset<V>
  {
    if items == [] then multiset{}
    else (if KeyPair(items[0]) in visited then multiset{items[0].Value} else multiset{}) + ValuesAt(items[1..], visited)
  }

  /** Before anything is visited, `ValuesAt` is empty. */
  lemma {:induction false} ValuesAtNone<K1, K2, V>(items: seq<Item<K1, K2, V>>)
    ensures ValuesAt(items, {}) == multiset{}
  {
    if items != [] {
      ValuesAtNone(items[1..]);
    }
  }

  /** Combinations that no entry carries do not change `ValuesAt`. */
  lemma {:induction false} ValuesAtIgnores<K1, K2, V>(items: seq<Item<K1, K2, V>>, visited: set<(K1, K2)>, p: (K1, K2))
    requires forall i :: 0 <= i < |items| ==> KeyPair(items[i]) != p
    ensures ValuesAt(items, visited + {p}) == ValuesAt(items, visited)
  {
    if items != [] {
      assert KeyPair(items[0]) != p;
      ValuesAtIgnores(items[1..], visited, p);
    }
  }

  /** Visiting one more combination adds the value of the one entry that carries it. */
  lemma {:induction false} ValuesAtVisit<K1, K2, V>(items: seq<Item<K1, K2, V>>, visited: set<(K1, K2)>, k: nat)
    requires DistinctPairs(items)
    requires k < |items| && KeyPair(items[k]) !in visited
    ensures ValuesAt(items, visited + {KeyPair(items[k])}) == ValuesAt(items, visited) + multiset{items[k].Value}
  {
    var p, rest := KeyPair(items[k]), items[1..];
    if k == 0 {
      assert forall i :: 0 <= i < |rest| ==> KeyPair(rest[i]) != p by {
        forall i | 0 <= i < |rest| ensures KeyPair(rest[i]) != p {
          assert rest[i] == items[i + 1];
        }
      }
      ValuesAtIgnores(rest, visited, p);
    } else {
      assert DistinctPairs(rest) by {
        forall i, j | 0 <= i < j < |rest| ensures KeyPair(rest[i]) != KeyPair(rest[j]) {
          assert rest[i] == items[i + 1] && rest[j] == items[j + 1];
        }
      }
      assert rest[k - 1] == items[k];
      assert KeyPair(items[0]) != p;
      ValuesAtVisit(rest, visited, k - 1);
    }
  }

  /** Once every combination has been visited, `ValuesAt` holds every value. */
  lemma {:induction false} ValuesAtAll<K1, K2, V>(items: seq<Item<K1, K2, V>>, visited: set<(K1, K2)>)
    requires forall i :: 0 <= i < |items| ==> KeyPair(items[i]) in visited
    ensures ValuesAt(items, visited) == multiset(Values(items))
  {
    if items != [] {
      assert KeyPair(items[0]) in visited;
      assert forall i :: 0 <= i < |items[1..]| ==> items[1..][i] == items[i + 1];
      ValuesAtAll(items[1..], visited);
      assert Values(items) == [items[0].Value] + Values(items[1..]);
    }
  }

  /** When exactly the combinations under `key1` have been visited, `ValuesAt` holds
      the values added under `key1`. */
  lemma {:induction false} ValuesAtUnder<K1, K2, V>(items: seq<Item<K1, K2, V>>, visited: set<(K1, K2)>, key1: K1)
    requires forall i :: 0 <= i < |items| ==> (KeyPair(items[i]) in visited <==> items[i].Key1 == key1)
    ensures ValuesAt(items, visited) == multiset(Values(Under(items, key1)))
  {
    if items != [] {
      assert KeyPair(items[0]) in visited <==> items[0].Key1 == key1;
      assert forall i :: 0 <= i < |items[1..]| ==> items[1..][i] == items[i + 1];
      ValuesAtUnder(items[1..], visited, key1);
      var head := if items[0].Key1 == key1 then [items[0]] else [];
      assert Under(items, key1) == head + Under(items[1..], key1);
      ValuesConcat(head, Under(items[1..], key1));
    }
  }

  // ---------------------------------------------------------------------------
  // The container
  // ---------------------------------------------------------------------------

  class DoubleKeyDictionary<K1(==), K2(==), V> {
    /** First key to second level; a second level maps the second key to the value. */
    var dictionary: map<K1, map<K2, V>>
    /** Every successful add, in call order. */
    var items: seq<Item<K1, K2, V>>

    ghost predicate Valid()
      reads this
    {
      AddedFresh(items) && dictionary == Build(items)
    }

    constructor ()
      ensures Valid()
      ensures dictionary == map[] && items == []
    {
      dictionary := map[];
      items := [];
    }

    /** The overall number of stored values: the number of recorded entries, which
        is also the number of entries of all second levels together. */
    function Count(): (r: nat)
      reads this
      requires Valid()
      ensures r == |Pairs(dictionary)|
    {
      BuiltIsConsistent(items);
      EntryCount(dictionary, items);
      |items|
    }

    /** Looks up the second level of `key1` without creating it: there is one exactly when
        some entry was added under `key1`, and it is never empty. */
    function SecondLevel(key1: K1): (r: Option<map<K2, V>>)
      requires Valid()
      reads this
      ensures r.Some? <==> exists i :: 0 <= i < |items| && items[i].Key1 == key1
      ensures r.Some? ==> r.value != map[]
      ensures r.Some? ==> forall key2 :: key2 in r.value ==> Lookup(dictionary, key1, key2) == Some(r.value[key2])
    {
      FirstKeyIsRecorded(items, key1);
      if key1 in dictionary then Some(dictionary[key1]) else None
    }

    /** Returns the second level of `key1`, creating an empty one first when there is none. */
    method GetOrCreateSecondLevel(key1: K1) returns (secondLevel: map<K2, V>)
      requires Valid()
      modifies this`dictionary
      ensures key1 in old(dictionary) ==> dictionary == old(dictionary) && secondLevel == dictionary[key1]
      ensures key1 !in old(dictionary) ==> dictionary == old(dictionary)[key1 := map[]] && secondLevel == map[]
    {
      var found := SecondLevel(key1);
      if found.None? {
        secondLevel := map[];
        dictionary := dictionary[key1 := secondLevel];
      } else {
        secondLevel := found.value;
      }
    }

    /** Adds `value` under `key1`/`key2`. A combination that is already stored makes
        the second level's own add fail before anything is recorded, so a failed add
        leaves both representations as they were. */
    method Add(key1: K1, key2: K2, value: V) returns (r: Status)
      requires Valid()
      modifies this
      ensures Valid()
      ensures r.Success? <==> !old(Contains(key1, key2))
      ensures r.Failure? ==> r.error == DuplicateKey && dictionary == old(dictionary) && items == old(items)
      ensures r.Success? ==> items == old(items) + [DoubleKeyDictionaryItem(key1, key2, value)]
      ensures r.Success? ==> dictionary == Insert(old(dictionary), key1, key2, value)
      ensures r.Success? ==> Count() == old(Count()) + 1
      ensures r.Success? ==> TryGetValue(key1, key2) == Some(value)
      ensures forall a, b :: (a, b) != (key1, key2) ==> Lookup(dictionary, a, b) == Lookup(old(dictionary), a, b)
    {
      ghost var d0, items0 := dictionary, items;
      var secondLevel := GetOrCreateSecondLevel(key1);
      if key2 in secondLevel {
        return Failure(DuplicateKey);
      }
      InsertThroughSecondLevel(d0, dictionary, secondLevel, key1, key2, value);
      dictionary := dictionary[key1 := secondLevel[key2 := value]];
      items := items + [DoubleKeyDictionaryItem(key1, key2, value)];
      BuildAppend(items0, DoubleKeyDictionaryItem(key1, key2, value));
      r := Success;
    }

    /** True when a value is stored under `key1`/`key2`; the found flag of `TryGetValue`. */
    function Contains(key1: K1, key2: K2): (r: bool)
      reads this
      requires Valid()
      ensures r == TryGetValue(key1, key2).Some?
      ensures r <==> exists i :: 0 <= i < |items| && KeyPair(items[i]) == (key1, key2)
    {
      TryGetValue(key1, key2).Some?
    }

    /** The value stored under `key1`/`key2`; `None` both when `key1` has no second
        level and when `key2` is missing from it. */
    function TryGetValue(key1: K1, key2: K2): (r: Option<V>)
      reads this
      requires Valid()
      ensures r == Lookup(dictionary, key1, key2)
      ensures key1 !in dictionary ==> r == None
      ensures r.Some? <==> exists i :: 0 <= i < |items| && KeyPair(items[i]) == (key1, key2)
      ensures forall i :: 0 <= i < |items| && KeyPair(items[i]) == (key1, key2) ==> r == Some(items[i].Value)
    {
      BuiltIsConsistent(items);
      match SecondLevel(key1)
      case None => None
      case Some(secondLevel) =>
        if key2 in secondLevel then Some(secondLevel[key2]) else None
    }

    /** A copy of the second level of `key1`, or an empty map when `key1` is unknown. */
    function GetAllDict(key1: K1): (r: map<K2, V>)
      reads this
      requires Valid()
      ensures key1 !in dictionary ==> r == map[]
      ensures r.Keys == set i | 0 <= i < |items| && items[i].Key1 == key1 :: items[i].Key2
      ensures forall i :: 0 <= i < |items| && items[i].Key1 == key1 ==> r[items[i].Key2] == items[i].Value
    {
      BuiltIsConsistent(items);
      match SecondLevel(key1)
      case None => map[]
      case Some(secondLevel) => secondLevel
    }

    /** The entries in the order they were added. */
    function Enumerate(): (r: seq<Item<K1, K2, V>>)
      reads this
      requires Valid()
      ensures |r| == Count()
      ensures DistinctPairs(r)
      ensures forall i :: 0 <= i < |r| ==> TryGetValue(r[i].Key1, r[i].Key2) == Some(r[i].Value)
      ensures ItemPairs(r) == Pairs(dictionary)
    {
      BuiltIsConsistent(items);
      PairsAgree(dictionary, items);
      items
    }

    /** All stored values, collected by walking every second level of every first key. */
    method GetAll() returns (values: seq<V>)
      requires Valid()
      ensures multiset(values) == multiset(Values(items))
      ensures |values| == Count()
    {
      values := [];
      ghost var visited: set<(K1, K2)> := {};
      ValuesAtNone(items);
      var firstKeys := dictionary.Keys;
      while firstKeys != {}
        invariant firstKeys <= dictionary.Keys
        invariant forall a, b :: a in dictionary && b in dictionary[a] ==> ((a, b) in visited <==> a !in firstKeys)
        invariant multiset(values) == ValuesAt(items, visited)
        decreases firstKeys
      {
        var key1 :| key1 in firstKeys;
        var secondLevel := dictionary[key1];
        var secondKeys := secondLevel.Keys;
        while secondKeys != {}
          invariant secondKeys <= secondLevel.Keys
          invariant forall a, b :: a in dictionary && b in dictionary[a] ==>
            ((a, b) in visited <==> a !in firstKeys || (a == key1 && b !in secondKeys))
          invariant multiset(values) == ValuesAt(items, visited)
          decreases secondKeys
        {
          var key2 :| key2 in secondKeys;
          VisitEntry(items, visited, key1, key2);
          values := values + [secondLevel[key2]];
          visited := visited + {(key1, key2)};
          secondKeys := secondKeys - {key2};
        }
        firstKeys := firstKeys - {key1};
      }
      forall i | 0 <= i < |items| ensures KeyPair(items[i]) in visited {
        ItemIsStored(items, i);
      }
      ValuesAtAll(items, visited);
      BuiltIsConsistent(items);
      EntryCount(dictionary, items);
      assert |multiset(values)| == |values|;
      assert |multiset(Values(items))| == |Values(items)|;
    }

    /** The values of the second level of `key1`. Projecting a missing second level fails,
        so an unknown `key1` is an error rather than an empty result. */
    method GetAllByKey1(key1: K1) returns (r: Result<seq<V>>)
      requires Valid()
      ensures r.Ok? <==> key1 in dictionary
      ensures r.Ok? <==> exists i :: 0 <= i < |items| && items[i].Key1 == key1
      ensures r.Err? ==> r.error == UnknownFirstKey
      ensures r.Ok? ==> multiset(r.value) == multiset(Values(Under(items, key1)))
      ensures r.Ok? ==> |r.value| == |dictionary[key1]|
    {
      FirstKeyIsRecorded(items, key1);
      var found := SecondLevel(key1);
      if found.None? {
        return Err(UnknownFirstKey);
      }
      var secondLevel := found.value;
      var values: seq<V> := [];
      ghost var visited: set<(K1, K2)> := {};
      ValuesAtNone(items);
      var secondKeys := secondLevel.Keys;
      while secondKeys != {}
        invariant secondKeys <= secondLevel.Keys
        invariant forall p :: p in visited ==> p.0 == key1
        invariant forall b :: b in secondLevel ==> ((key1, b) in visited <==> b !in secondKeys)
        invariant multiset(values) == ValuesAt(items, visited)
        invariant |values| + |secondKeys| == |secondLevel.Keys|
        decreases secondKeys
      {
        var key2 :| key2 in secondKeys;
        VisitEntry(items, visited, key1, key2);
        values := values + [secondLevel[key2]];
        visited := visited + {(key1, key2)};
        secondKeys := secondKeys - {key2};
      }
      forall i | 0 <= i < |items| ensures KeyPair(items[i]) in visited <==> items[i].Key1 == key1 {
        ItemIsStored(items, i);
      }
      ValuesAtUnder(items, visited, key1);
      r := Ok(values);
    }
  }
}
