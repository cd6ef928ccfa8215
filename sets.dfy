/** Small facts about finite sets, and the enumeration of a dictionary's keys, shared by the node models. */
module Sets {
  /** A non-empty set of keys has one to pick. */
  lemma NonEmptyHasKey<T>(s: set<T>)
    requires s != {}
    ensures exists x :: x in s
  {
    if forall x :: x !in s {
      assert false;
    }
  }

  /** Picks some element of a non-empty set; which one the model leaves open. */
  method Pick<T>(s: set<T>) returns (x: T)
    requires s != {}
    ensures x in s
  {
    NonEmptyHasKey(s);
    x :| x in s;
  }

  predicate Distinct<T(==)>(keys: seq<T>) {
    forall i, j :: 0 <= i < j < |keys| ==> keys[i] != keys[j]
  }

  /** `keys` lists every key of the dictionary once: one of its enumeration orders. */
  ghost predicate Enumerates<K(!new), V>(keys: seq<K>, m: map<K, V>) {
    Distinct(keys) && forall k :: k in keys <==> k in m
  }

  /**
   * The order in which `foreach` visits a dictionary's entries: every key
   * once, in an order the model leaves open.
   */
  method EnumerateKeys<K(==,!new), V>(m: map<K, V>) returns (keys: seq<K>)
    ensures Enumerates(keys, m)
  {
    keys := [];
    var remaining := m.Keys;
    while remaining != {}
      invariant remaining <= m.Keys
      invariant Distinct(keys)
      invariant forall k :: k in keys <==> k in m && k !in remaining
      decreases remaining
    {
      var k := Pick(remaining);
      keys := keys + [k];
      remaining := remaining - {k};
    }
  }
}
