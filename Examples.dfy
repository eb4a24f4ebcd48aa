/** Clients of the double-key dictionary that replay the scenarios of its unit tests
    and prove their outcomes from the contracts alone. */
module DoubleKeyDictionaryExamples {
  import opened DictionaryItem
  import opened DoubleKeyDictionaries

  /** An empty string is an ordinary second key. */
  method EmptyStringKeyIsFound() returns (status: Status, found: Option<int>)
    ensures status == Success && found == Some(6)
  {
    var d := new DoubleKeyDictionary<int, string, int>();
    status := d.Add(2, "", 6);
    found := d.TryGetValue(2, "");
  }

  /** Nothing is found in a fresh dictionary. */
  method MissingItemIsNotFound() returns (found: Option<string>, contained: bool, count: nat)
    ensures found == None && !contained && count == 0
  {
    var d := new DoubleKeyDictionary<int, string, string>();
    found := d.TryGetValue(5, "key2");
    contained := d.Contains(5, "key2");
    count := d.Count();
  }

  /** Adding the same combination twice fails the second time and keeps the first value. */
  method AddingTwiceFails() returns (first: Status, second: Status, found: Option<string>, count: nat)
    ensures first == Success && second == Failure(DuplicateKey)
    ensures found == Some("a") && count == 1
  {
    var d := new DoubleKeyDictionary<int, string, string>();
    first := d.Add(5, "key2", "a");
    second := d.Add(5, "key2", "b");
    found := d.TryGetValue(5, "key2");
    count := d.Count();
  }

  /** Enumeration hands back the entries in the order they were added. */
  method EnumerationFollowsInsertionOrder() returns (seen: seq<DoubleKeyDictionaryItem<int, string, int>>)
    ensures seen == [DoubleKeyDictionaryItem(1, "dsg", 34), DoubleKeyDictionaryItem(45, "sdf", 98)]
  {
    var d := new DoubleKeyDictionary<int, string, int>();
    var _ := d.Add(1, "dsg", 34);
    var _ := d.Add(45, "sdf", 98);
    seen := d.Enumerate();
  }

  /** Builds a dictionary holding two entries under first key 34. */
  method TwoEntries() returns (d: DoubleKeyDictionary<int, string, int>)
    ensures fresh(d) && d.Valid()
    ensures d.items == [DoubleKeyDictionaryItem(34, "skdlfj", 45), DoubleKeyDictionaryItem(34, "sdfg", 56)]
    ensures d.dictionary == map[34 := map["skdlfj" := 45, "sdfg" := 56]]
  {
    d := new DoubleKeyDictionary<int, string, int>();
    var s1 := d.Add(34, "skdlfj", 45);
    assert s1 == Success;
    var s2 := d.Add(34, "sdfg", 56);
    assert Lookup(map[34 := map["skdlfj" := 45]], 34, "sdfg") == None;
    assert s2 == Success;
  }

  /** Builds the three-entry dictionary the projection scenarios start from. */
  method ThreeEntries() returns (d: DoubleKeyDictionary<int, string, int>)
    ensures fresh(d) && d.Valid()
    ensures d.items == [DoubleKeyDictionaryItem(34, "skdlfj", 45), DoubleKeyDictionaryItem(34, "sdfg", 56),
                        DoubleKeyDictionaryItem(56, "hfgh", 87)]
    ensures d.dictionary == map[34 := map["skdlfj" := 45, "sdfg" := 56], 56 := map["hfgh" := 87]]
  {
    d := TwoEntries();
    var s3 := d.Add(56, "hfgh", 87);
    assert s3 == Success;
  }

  /** All values come back, in some order. */
  method GetAllReturnsEveryValue() returns (all: seq<int>)
    ensures multiset(all) == multiset{45, 56, 87}
  {
    var d := ThreeEntries();
    assert Values(d.items) == [45, 56, 87];
    all := d.GetAll();
  }

  /** The values under a known first key come back; an unknown first key is an error. */
  method GetAllByKey1Projects() returns (under34: Result<seq<int>>, under37: Result<seq<int>>)
    ensures under34.Ok? && multiset(under34.value) == multiset{45, 56}
    ensures under37 == Err(UnknownFirstKey)
  {
    var d := ThreeEntries();
    ghost var items := d.items;
    assert Under(items, 34) == items[..2] by {
      assert Under(items[2..], 34) == [];
    }
    assert Values(items[..2]) == [45, 56];
    under34 := d.GetAllByKey1(34);
    under37 := d.GetAllByKey1(37);
  }

  /** The entries under a known first key come back as a map; an unknown first key gives an empty map. */
  method GetAllDictProjects() returns (dict34: map<string, int>, dict37: map<string, int>)
    ensures dict34 == map["skdlfj" := 45, "sdfg" := 56]
    ensures dict37 == map[]
  {
    var d := ThreeEntries();
    dict34 := d.GetAllDict(34);
    dict37 := d.GetAllDict(37);
  }
}
