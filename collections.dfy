/** Small facts about collections shared by the modules. */
module Collections {

  /** No element occurs twice. */
  ghost predicate Distinct<T>(s: seq<T>) {
    forall i, j :: 0 <= i < j < |s| ==> s[i] != s[j]
  }

  /**
    Any element of a non-empty set. Go ranges over a map in an unspecified
    order; a loop over a map's keys repeatedly picks a key not yet visited.
  */
  method Pick<T>(s: set<T>) returns (x: T)
    requires s != {}
    ensures x in s
  {
    x :| x in s;
  }

  /**
    The keys whose flag is true, in the order the map is ranged over: a loop
    over the keys that appends each key whose value is true.
  */
  method TrueKeys<K(==)>(m: map<K, bool>) returns (ks: seq<K>)
    ensures forall k :: k in ks <==> k in m && m[k]
    ensures Distinct(ks)
  {
    ks := [];
    var rest := m.Keys;
    while rest != {}
      invariant rest <= m.Keys
      invariant forall k :: k in ks <==> k in m && k !in rest && m[k]
      invariant Distinct(ks)
      decreases rest
    {
      var k := Pick(rest);
      if m[k] {
        assert k !in ks;
        ks := ks + [k];
      }
      rest := rest - {k};
    }
  }
}
