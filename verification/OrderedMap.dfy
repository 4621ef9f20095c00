/** A `Map` whose iteration order matters: keys in insertion order, each once.  Setting a known
    key keeps its place. */
module OrderedMap {
  import opened Wrappers

  datatype Pair<V> = Pair(key: string, value: V)

  type Ordered<V> = seq<Pair<V>>

  ghost predicate Keyed<V>(m: Ordered<V>) {
    forall i, j :: 0 <= i < j < |m| ==> m[i].key != m[j].key
  }

  predicate Has<V>(m: Ordered<V>, key: string) {
    exists i :: 0 <= i < |m| && m[i].key == key
  }

  function Get<V>(m: Ordered<V>, key: string): Option<V> {
    if m == [] then None else if m[0].key == key then Some(m[0].value) else Get(m[1..], key)
  }

  function Put<V>(m: Ordered<V>, key: string, value: V): Ordered<V> {
    if m == [] then [Pair(key, value)]
    else if m[0].key == key then [Pair(key, value)] + m[1..]
    else [m[0]] + Put(m[1..], key, value)
  }

  function Remove<V>(m: Ordered<V>, key: string): Ordered<V> {
    if m == [] then []
    else if m[0].key == key then Remove(m[1..], key)
    else [m[0]] + Remove(m[1..], key)
  }

  lemma {:induction false} GetIsHas<V>(m: Ordered<V>, key: string)
    ensures Get(m, key).Some? <==> Has(m, key)
  {
    if m != [] {
      GetIsHas(m[1..], key);
      if i :| 0 <= i < |m| && m[i].key == key && m[0].key != key {
        assert m[1..][i - 1].key == key;
      }
      if i :| 0 <= i < |m[1..]| && m[1..][i].key == key {
        assert m[i + 1].key == key;
      }
    }
  }

  lemma {:induction false} GetAt<V>(m: Ordered<V>, i: nat)
    requires Keyed(m) && i < |m|
    ensures Get(m, m[i].key) == Some(m[i].value)
  {
    if i > 0 {
      assert m[1..][i - 1] == m[i];
      KeyedTail(m);
      GetAt(m[1..], i - 1);
    }
  }

  lemma KeyedTail<V>(m: Ordered<V>)
    requires Keyed(m) && m != []
    ensures Keyed(m[1..])
  {
    assert forall i :: 0 <= i < |m[1..]| ==> m[1..][i] == m[i + 1];
  }

  lemma {:induction false} GetPut<V>(m: Ordered<V>, key: string, value: V, other: string)
    ensures Get(Put(m, key, value), other) == if other == key then Some(value) else Get(m, other)
  {
    if m != [] && m[0].key != key {
      GetPut(m[1..], key, value, other);
    }
  }

  lemma {:induction false} GetRemove<V>(m: Ordered<V>, key: string, other: string)
    ensures Get(Remove(m, key), other) == if other == key then None else Get(m, other)
  {
    if m != [] {
      GetRemove(m[1..], key, other);
    }
  }

  lemma HeadKeyed<V>(x: Pair<V>, m: Ordered<V>)
    requires Keyed(m) && !Has(m, x.key)
    ensures Keyed([x] + m)
  {
    var r := [x] + m;
    forall i, j | 0 <= i < j < |r| ensures r[i].key != r[j].key {
      assert r[j] == m[j - 1];
      if i > 0 { assert r[i] == m[i - 1]; }
    }
  }

  lemma {:induction false} PutKeyed<V>(m: Ordered<V>, key: string, value: V)
    requires Keyed(m)
    ensures Keyed(Put(m, key, value))
  {
    if m == [] {
    } else {
      KeyedTail(m);
      if m[0].key == key {
        var r := Put(m, key, value);
        assert forall i :: 0 < i < |r| ==> r[i] == m[i];
      } else {
        PutKeyed(m[1..], key, value);
        GetPut(m[1..], key, value, m[0].key);
        GetIsHas(Put(m[1..], key, value), m[0].key);
        HeadNotInTail(m);
        HeadKeyed(m[0], Put(m[1..], key, value));
      }
    }
  }

  lemma HeadNotInTail<V>(m: Ordered<V>)
    requires Keyed(m) && m != []
    ensures Get(m[1..], m[0].key) == None
  {
    GetIsHas(m[1..], m[0].key);
    assert forall i :: 0 <= i < |m[1..]| ==> m[1..][i] == m[i + 1];
  }

  lemma {:induction false} RemoveKeyed<V>(m: Ordered<V>, key: string)
    requires Keyed(m)
    ensures Keyed(Remove(m, key))
  {
    if m != [] {
      KeyedTail(m);
      RemoveKeyed(m[1..], key);
      if m[0].key != key {
        GetRemove(m[1..], key, m[0].key);
        GetIsHas(Remove(m[1..], key), m[0].key);
        HeadNotInTail(m);
        HeadKeyed(m[0], Remove(m[1..], key));
      }
    }
  }
}
