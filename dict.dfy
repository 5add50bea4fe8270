/** The store is a Python dictionary, and a Python dictionary remembers the
    order in which its keys were inserted: `values()` lists the values in
    that order, assigning to a present key keeps its place, and `pop`
    removes the key without disturbing the others. This module models that
    order as a sequence of keys kept beside the map. */
module Dict {

  /** No key appears twice in `s`. */
  ghost predicate Distinct<K>(s: seq<K>) {
    forall i, j :: 0 <= i < j < |s| ==> s[i] != s[j]
  }

  /** `order` lists every key of `m` exactly once: the dictionary's
      insertion order. */
  ghost predicate Coherent<K, V>(order: seq<K>, m: map<K, V>) {
    && Distinct(order)
    && (forall k :: k in order ==> k in m)
    && (forall k :: k in m ==> k in order)
  }

  /** The position of key `k` in `s`: its first occurrence. */
  function IndexOf<K(==)>(s: seq<K>, k: K): (i: nat)
    requires k in s
    ensures i < |s| && s[i] == k
    ensures forall j :: 0 <= j < i ==> s[j] != k
  {
    if s[0] == k then 0 else 1 + IndexOf(s[1..], k)
  }

  /** The values of `m`, listed in the order of `order`: what `values()`
      yields. */
  function ValuesOf<K, V>(order: seq<K>, m: map<K, V>): (vs: seq<V>)
    requires forall k :: k in order ==> k in m
    ensures |vs| == |order|
    ensures forall j :: 0 <= j < |order| ==> vs[j] == m[order[j]]
  {
    if order == [] then [] else [m[order[0]]] + ValuesOf(order[1..], m)
  }

  /** A sequence without repeats has as many distinct elements as entries. */
  lemma {:induction false} DistinctSize<K>(s: seq<K>)
    requires Distinct(s)
    ensures |set k | k in s| == |s|
  {
    if s != [] {
      var tail := s[1..];
      assert Distinct(tail);
      DistinctSize(tail);
      var all, rest := set k | k in s, set k | k in tail;
      assert all == rest + {s[0]};
      assert s[0] !in rest by {
        forall j | 0 <= j < |tail| ensures tail[j] != s[0] {
          assert s[j + 1] == tail[j];
        }
      }
    }
  }

  /** A coherent order has exactly one entry per key of the map. */
  lemma CoherentSize<K, V>(order: seq<K>, m: map<K, V>)
    requires Coherent(order, m)
    ensures |order| == |m|
  {
    DistinctSize(order);
    assert m.Keys == set k | k in order;
  }

  /** The listed values are exactly the stored values, one per key: the list
      is as long as the map, and a value is listed if and only if some key
      maps to it. */
  lemma ValuesAreStored<K, V>(order: seq<K>, m: map<K, V>)
    requires Coherent(order, m)
    ensures |ValuesOf(order, m)| == |m|
    ensures forall v :: v in ValuesOf(order, m) <==> exists k :: k in m && m[k] == v
  {
    CoherentSize(order, m);
    var vs := ValuesOf(order, m);
    forall v | v in vs ensures exists k :: k in m && m[k] == v {
      var j :| 0 <= j < |vs| && vs[j] == v;
      assert m[order[j]] == v;
    }
    forall v | exists k :: k in m && m[k] == v ensures v in vs {
      var k :| k in m && m[k] == v;
      var j := IndexOf(order, k);
      assert vs[j] == v;
    }
  }

  /** Inserting a new key appends it to the order and its value to the
      listed values. */
  lemma InsertKeepsOrder<K, V>(order: seq<K>, m: map<K, V>, k: K, v: V)
    requires Coherent(order, m) && k !in m
    ensures Coherent(order + [k], m[k := v])
    ensures ValuesOf(order + [k], m[k := v]) == ValuesOf(order, m) + [v]
  {
  }

  /** Assigning to a present key keeps the order and changes the listed
      value at that key's position only. A field write on a stored record
      is modelled as such an assignment of the updated record. */
  lemma AssignKeepsOrder<K, V>(order: seq<K>, m: map<K, V>, k: K, v: V)
    requires Coherent(order, m) && k in m
    ensures Coherent(order, m[k := v])
    ensures ValuesOf(order, m[k := v]) == ValuesOf(order, m)[IndexOf(order, k) := v]
  {
  }

  /** `s` without its entry at position `i`; the entries after it move up
      by one. */
  function Cut<T>(s: seq<T>, i: nat): (r: seq<T>)
    requires i < |s|
    ensures |r| == |s| - 1
    ensures forall j :: 0 <= j < |r| ==> r[j] == s[if j < i then j else j + 1]
  {
    s[..i] + s[i + 1..]
  }

  /** Removing a present key drops it from the order and drops its value
      from the listed values, keeping the others in place. */
  lemma RemoveKeepsOrder<K, V>(order: seq<K>, m: map<K, V>, k: K)
    requires Coherent(order, m) && k in m
    ensures var i := IndexOf(order, k);
      && Coherent(Cut(order, i), m - {k})
      && ValuesOf(Cut(order, i), m - {k}) == Cut(ValuesOf(order, m), i)
  {
  }
}
