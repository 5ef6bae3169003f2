/**
 * PHP arrays as the source uses them: ordered maps. Writing an existing key
 * keeps its position, writing a new key appends it, `unset` removes it, and
 * `reset` yields the first value.
 *
 * An array is kept as its key order and its key-to-value map. Every array
 * the model builds starts from `Empty()` and changes only by `Put` and
 * `Unset`, which keep the two in agreement (`Valid`, by `EmptyValid`,
 * `PutValid` and `UnsetValid`); the operations are defined on any shape so
 * that no proof has to carry that agreement where it does not use it.
 */
module PhpArrays {
  import opened Wrappers

  /** Every occurrence of `k` removed from `s`, the rest kept in order. */
  function Without<K(==,!new)>(s: seq<K>, k: K): (r: seq<K>)
    ensures forall x :: x in r <==> x in s && x != k
  {
    if s == [] then [] else (if s[0] == k then [] else [s[0]]) + Without(s[1..], k)
  }

  ghost predicate Distinct<K>(s: seq<K>) {
    forall i, j :: 0 <= i < j < |s| ==> s[i] != s[j]
  }

  /** A prefix one longer is the prefix and the next element; the whole is its longest prefix. */
  lemma PrefixGrows<T>(s: seq<T>, i: nat)
    requires i < |s|
    ensures s[..i + 1] == s[..i] + [s[i]] && s[..i + 1][..i] == s[..i]
    ensures s[..|s|] == s
  {
  }

  /** Dropping the last element of a duplicate-free sequence leaves it duplicate-free and without that element. */
  lemma DistinctSplit<K>(s: seq<K>)
    requires Distinct(s) && s != []
    ensures Distinct(s[..|s| - 1]) && s[|s| - 1] !in s[..|s| - 1]
    ensures s == s[..|s| - 1] + [s[|s| - 1]]
  {
    var init := s[..|s| - 1];
    forall i | 0 <= i < |init| ensures init[i] != s[|s| - 1] {
      assert init[i] == s[i];
    }
  }

  lemma {:induction false} WithoutKeepsDistinct<K(!new)>(s: seq<K>, k: K)
    requires Distinct(s)
    ensures Distinct(Without(s, k))
  {
    if s != [] {
      WithoutKeepsDistinct(s[1..], k);
      var head: seq<K> := if s[0] == k then [] else [s[0]];
      assert Without(s, k) == head + Without(s[1..], k);
      assert s[0] !in s[1..] by {
        forall j | 0 <= j < |s[1..]| ensures s[1..][j] != s[0] {
          assert s[1..][j] == s[j + 1];
        }
      }
    }
  }

  lemma {:induction false} WithoutAbsent<K(!new)>(s: seq<K>, k: K)
    requires k !in s
    ensures Without(s, k) == s
  {
    if s != [] {
      WithoutAbsent(s[1..], k);
      assert s == [s[0]] + s[1..];
    }
  }

  /** The values of the keys in `order` that `items` has, in that order. */
  function ValuesOf<K(==,!new), V>(order: seq<K>, items: map<K, V>): (vs: seq<V>)
    ensures |vs| <= |order|
    ensures forall v :: v in vs ==> exists k :: k in order && k in items && items[k] == v
  {
    if order == [] then []
    else (if order[0] in items then [items[order[0]]] else []) + ValuesOf(order[1..], items)
  }

  /** When every listed key has a value, the values line up with the keys one for one. */
  lemma {:induction false} ValuesOfListed<K(!new), V>(order: seq<K>, items: map<K, V>)
    requires forall i :: 0 <= i < |order| ==> order[i] in items
    ensures |ValuesOf(order, items)| == |order|
    ensures forall i :: 0 <= i < |order| ==> ValuesOf(order, items)[i] == items[order[i]]
  {
    if order != [] {
      ValuesOfListed(order[1..], items);
      assert forall i :: 1 <= i < |order| ==> order[1..][i - 1] == order[i];
    }
  }

  /** The keys of `order` that `items` has, each with its value, in that order. */
  function EntriesOf<K(==,!new), V>(order: seq<K>, items: map<K, V>): (es: seq<(K, V)>)
    ensures |es| <= |order|
    ensures forall e :: e in es ==> e.0 in order && e.0 in items && items[e.0] == e.1
  {
    if order == [] then []
    else (if order[0] in items then [(order[0], items[order[0]])] else []) + EntriesOf(order[1..], items)
  }

  /** When every listed key has a value, the entries line up with the keys one for one. */
  lemma {:induction false} EntriesOfListed<K(!new), V>(order: seq<K>, items: map<K, V>)
    requires forall i :: 0 <= i < |order| ==> order[i] in items
    ensures |EntriesOf(order, items)| == |order|
    ensures forall i :: 0 <= i < |order| ==> EntriesOf(order, items)[i] == (order[i], items[order[i]])
  {
    if order != [] {
      EntriesOfListed(order[1..], items);
      assert forall i :: 1 <= i < |order| ==> order[1..][i - 1] == order[i];
    }
  }

  /** The raw shape of a PHP array: its key order and its key-to-value map. */
  datatype PhpArray<K(==,!new), V> = PhpArray(order: seq<K>, items: map<K, V>) {

    /** Exactly the keys of `items` are listed, each once. */
    ghost predicate Valid() {
      && Distinct(order)
      && (forall i :: 0 <= i < |order| ==> order[i] in items)
      && (forall k :: k in items ==> k in order)
    }

    /** `$a[$k] ?? null` */
    function Get(k: K): (r: Option<V>)
      ensures r.Some? <==> k in items
      ensures r.Some? ==> r.value == items[k]
    {
      if k in items then Some(items[k]) else None
    }

    /** `count($a)` */
    function Count(): nat {
      |items|
    }

    /** `$a[$k] = $v` */
    function Put(k: K, v: V): PhpArray<K, V> {
      if k in items then PhpArray(order, items[k := v]) else PhpArray(order + [k], items[k := v])
    }

    /** `unset($a[$k])` */
    function Unset(k: K): PhpArray<K, V> {
      PhpArray(Without(order, k), items - {k})
    }

    /** The values in key order, as `foreach` visits them. */
    function Values(): seq<V> {
      ValuesOf(order, items)
    }

    /** The keys with their values in key order, as `foreach ($a as $k => $v)` visits them. */
    function Entries(): seq<(K, V)> {
      EntriesOf(order, items)
    }

    /** `reset($a)`: the first value, `None` standing for PHP's `false` on an empty array. */
    function First(): (r: Option<V>)
      ensures r.None? <==> Values() == []
      ensures r.Some? ==> r.value == Values()[0]
    {
      var vs := Values();
      if vs == [] then None else Some(vs[0])
    }
  }

  /** A PHP array as the model stores it. */
  type Arr<K(==,!new), V> = PhpArray<K, V>

  /** `[]` */
  function Empty<K(==,!new), V>(): (r: Arr<K, V>)
    ensures r.items == map[] && r.order == []
  {
    PhpArray([], map[])
  }

  lemma EmptyValid<K(!new), V>()
    ensures Empty<K, V>().Valid()
  {
  }

  /** Writing a key keeps the order and the map in agreement. */
  lemma PutValid<K(!new), V>(a: PhpArray<K, V>, k: K, v: V)
    requires a.Valid()
    ensures a.Put(k, v).Valid()
  {
    var r := a.Put(k, v);
    forall i | 0 <= i < |r.order| ensures r.order[i] in r.items {
      if i < |a.order| {
        assert r.order[i] == a.order[i];
      }
    }
    if k !in a.items {
      forall i, j | 0 <= i < j < |r.order| ensures r.order[i] != r.order[j] {
        if j < |a.order| {
          assert r.order[i] == a.order[i] && r.order[j] == a.order[j];
        } else {
          assert r.order[i] == a.order[i] && r.order[j] == k;
        }
      }
    }
  }

  /** Removing a key keeps the order and the map in agreement. */
  lemma UnsetValid<K(!new), V>(a: PhpArray<K, V>, k: K)
    requires a.Valid()
    ensures a.Unset(k).Valid()
  {
    var r := a.Unset(k);
    WithoutKeepsDistinct(a.order, k);
    forall i | 0 <= i < |r.order| ensures r.order[i] in r.items {
      assert r.order[i] in Without(a.order, k);
    }
  }

  /** Of a well-formed array, `foreach` visits one value per key, in key order. */
  lemma ValuesListed<K(!new), V>(a: PhpArray<K, V>)
    requires a.Valid()
    ensures |a.Values()| == |a.order|
    ensures forall i :: 0 <= i < |a.order| ==> a.Values()[i] == a.items[a.order[i]]
  {
    ValuesOfListed(a.order, a.items);
  }

  /** `reset` of a well-formed array is `false` exactly when the array is empty, else the value of its first key. */
  lemma FirstOfValid<K(!new), V>(a: PhpArray<K, V>)
    requires a.Valid()
    ensures a.First().None? <==> a.items == map[]
    ensures a.First().Some? ==> a.order != [] && a.First().value == a.items[a.order[0]]
  {
    ValuesListed(a);
    if a.items != map[] {
      var k :| k in a.items;
      assert k in a.order;
    }
  }

  /** `unset` of a key the array does not have changes nothing. */
  lemma UnsetAbsent<K(!new), V>(a: PhpArray<K, V>, k: K)
    requires a.Valid() && k !in a.items
    ensures a.Unset(k) == a
  {
    WithoutAbsent(a.order, k);
  }

  /**
   * The key order of an array into which `keys` were written in turn, from
   * empty: each key where it was first written.
   */
  function KeyOrder<K(==)>(keys: seq<K>): seq<K>
    decreases |keys|
  {
    if keys == [] then []
    else
      var before := KeyOrder(keys[..|keys| - 1]);
      if keys[|keys| - 1] in before then before else before + [keys[|keys| - 1]]
  }

  /** The key order lists each written key exactly once, and nothing else. */
  lemma {:induction false} KeyOrderListed<K(!new)>(keys: seq<K>)
    ensures Distinct(KeyOrder(keys))
    ensures forall k :: k in KeyOrder(keys) <==> k in keys
    decreases |keys|
  {
    if keys != [] {
      var init := keys[..|keys| - 1];
      KeyOrderListed(init);
      assert keys == init + [keys[|keys| - 1]];
    }
  }

  /** `a` is what writing `keys` in turn into an empty array leaves, as far as its keys go. */
  ghost predicate WrittenInTurn<K(!new), V>(a: PhpArray<K, V>, keys: seq<K>) {
    a.order == KeyOrder(keys) && a.items.Keys == set k | k in keys
  }

  lemma EmptyWrittenInTurn<K(!new), V>()
    ensures WrittenInTurn(Empty<K, V>(), [])
  {
  }

  /** Writing one more key extends the keys written. */
  lemma PutWrittenInTurn<K(!new), V>(a: PhpArray<K, V>, keys: seq<K>, k: K, v: V)
    requires WrittenInTurn(a, keys)
    ensures WrittenInTurn(a.Put(k, v), keys + [k])
  {
    KeyOrderListed(keys);
    assert (keys + [k])[..|keys|] == keys;
  }

  /** Writing a key and reading it back gives the value written; other keys read as before. */
  lemma PutThenGet<K(!new), V>(a: PhpArray<K, V>, k: K, v: V, other: K)
    requires other != k
    ensures a.Put(k, v).Get(k) == Some(v)
    ensures a.Put(k, v).Get(other) == a.Get(other)
  {
  }

  /** Writing a key twice leaves it where the first write put it, with the second value. */
  lemma PutAgain<K(!new), V>(a: PhpArray<K, V>, k: K, first: V, second: V)
    ensures a.Put(k, first).Put(k, second) == a.Put(k, second)
  {
  }

  /** `$a[$k1][$k2] = $v`: a missing inner array starts empty. */
  function PutIn<K1(==,!new), K2(==,!new), V>(a: PhpArray<K1, PhpArray<K2, V>>, k1: K1, k2: K2, v: V): PhpArray<K1, PhpArray<K2, V>> {
    a.Put(k1, a.Get(k1).GetOr(Empty()).Put(k2, v))
  }

  /** `$a[$k1][$k2] ?? null` */
  function GetIn<K1(==,!new), K2(==,!new), V>(a: PhpArray<K1, PhpArray<K2, V>>, k1: K1, k2: K2): (r: Option<V>)
    ensures r.Some? <==> k1 in a.items && k2 in a.items[k1].items
    ensures r.Some? ==> r.value == a.items[k1].items[k2]
  {
    if k1 in a.items then a.items[k1].Get(k2) else None
  }

  /** `unset($a[$k1][$k2])`: the inner array stays, possibly empty. */
  function UnsetIn<K1(==,!new), K2(==,!new), V>(a: PhpArray<K1, PhpArray<K2, V>>, k1: K1, k2: K2): PhpArray<K1, PhpArray<K2, V>>
    requires k1 in a.items
  {
    a.Put(k1, a.items[k1].Unset(k2))
  }

  /** A nested write reads back as written and leaves every other pair of keys as it was. */
  lemma PutInThenGetIn<K1(!new), K2(!new), V>(a: PhpArray<K1, PhpArray<K2, V>>, k1: K1, k2: K2, v: V, o1: K1, o2: K2)
    ensures GetIn(PutIn(a, k1, k2, v), k1, k2) == Some(v)
    ensures o1 != k1 || o2 != k2 ==> GetIn(PutIn(a, k1, k2, v), o1, o2) == GetIn(a, o1, o2)
  {
  }

  /** A nested removal leaves nothing under its pair of keys and every other pair as it was. */
  lemma UnsetInThenGetIn<K1(!new), K2(!new), V>(a: PhpArray<K1, PhpArray<K2, V>>, k1: K1, k2: K2, o1: K1, o2: K2)
    requires k1 in a.items
    ensures GetIn(UnsetIn(a, k1, k2), k1, k2) == None
    ensures o1 != k1 || o2 != k2 ==> GetIn(UnsetIn(a, k1, k2), o1, o2) == GetIn(a, o1, o2)
  {
  }
}
