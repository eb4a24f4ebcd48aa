/** The entry triple stored by a double-key dictionary: the two keys and the value.
    An item is a value: its three parts are fixed when it is built and never change. */
module DictionaryItem {

  datatype DoubleKeyDictionaryItem<K1, K2, V> = DoubleKeyDictionaryItem(Key1: K1, Key2: K2, Value: V)

  /** The key combination an item is stored under. */
  function KeyPair<K1, K2, V>(item: DoubleKeyDictionaryItem<K1, K2, V>): (K1, K2)
  {
    (item.Key1, item.Key2)
  }

  /** The getters hand back exactly what the constructor was given, and two items
      are equal exactly when they were built from equal arguments. */
  lemma ItemGetters<K1, K2, V>(key1: K1, key2: K2, value: V, other: DoubleKeyDictionaryItem<K1, K2, V>)
    ensures DoubleKeyDictionaryItem(key1, key2, value).Key1 == key1
    ensures DoubleKeyDictionaryItem(key1, key2, value).Key2 == key2
    ensures DoubleKeyDictionaryItem(key1, key2, value).Value == value
    ensures other == DoubleKeyDictionaryItem(other.Key1, other.Key2, other.Value)
  {
  }
}
