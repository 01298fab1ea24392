/** JavaScript `Map`: lookups by key, iteration in first-insertion order. */
module JsMaps {
  import opened Wrappers

  datatype JsMap<K(==,!new), V> = JsMap(order: seq<K>, values: map<K, V>) {
    /** The keys in insertion order are exactly the keys of the map, each once. */
    ghost predicate Valid() {
      (forall k :: k in values <==> k in order)
      && (forall i, j :: 0 <= i < j < |order| ==> order[i] != order[j])
    }

    /** `map.get(k)`. */
    function Get(k: K): Option<V> {
      if k in values then Some(values[k]) else None
    }

    /** `map.set(k, v)`: a new key goes last, an existing key keeps its place. */
    function Set(k: K, v: V): (m: JsMap<K, V>)
      requires Valid()
      ensures m.Valid()
      ensures m.values == values[k := v]
      ensures k in values ==> m.order == order
      ensures k !in values ==> m.order == order + [k]
    {
      if k in values then JsMap(order, values[k := v]) else JsMap(order + [k], values[k := v])
    }

    /** `Array.from(map.values())`. */
    function Values(): (vs: seq<V>)
      requires Valid()
      ensures |vs| == |order|
      ensures forall i :: 0 <= i < |order| ==> vs[i] == values[order[i]]
    {
      seq(|order|, i requires 0 <= i < |order| => values[order[i]])
    }
  }

  function Empty<K(==,!new), V>(): (m: JsMap<K, V>)
    ensures m.Valid() && m.order == [] && m.values == map[]
  {
    JsMap([], map[])
  }

  /** `src.forEach((v, k) => m.set(k, v))` over the keys `keys` of `src`, in order. */
  function SetEach<K(==,!new), V>(m: JsMap<K, V>, keys: seq<K>, vals: map<K, V>): (r: JsMap<K, V>)
    requires m.Valid()
    requires forall i :: 0 <= i < |keys| ==> keys[i] in vals
    ensures r.Valid()
    decreases |keys|
  {
    if keys == [] then m
    else SetEach(m, keys[..|keys| - 1], vals).Set(keys[|keys| - 1], vals[keys[|keys| - 1]])
  }

  /** Copying entries keeps every other key and gives each copied key the value it has in the source. */
  lemma {:induction false} SetEachValues<K(!new), V>(m: JsMap<K, V>, keys: seq<K>, vals: map<K, V>)
    requires m.Valid()
    requires forall i :: 0 <= i < |keys| ==> keys[i] in vals
    ensures var r := SetEach(m, keys, vals).values;
      (forall k :: k in r <==> k in m.values || k in keys)
      && (forall k :: k in keys ==> r[k] == vals[k])
      && (forall k :: k in m.values && k !in keys ==> r[k] == m.values[k])
    decreases |keys|
  {
    if keys != [] {
      var init := keys[..|keys| - 1];
      var last := keys[|keys| - 1];
      SetEachValues(m, init, vals);
      assert forall k :: k in keys <==> k in init || k == last;
    }
  }

  /** A `Map` object shared by reference between the stages that read and fill it. */
  class MapObject<K(==,!new), V> {
    var contents: JsMap<K, V>

    constructor(m: JsMap<K, V>)
      ensures contents == m
    {
      contents := m;
    }

    /** `map.set(k, v)`, in place. */
    method Set(k: K, v: V)
      requires contents.Valid()
      modifies this
      ensures contents == old(contents).Set(k, v)
    {
      contents := contents.Set(k, v);
    }

    /** `src.forEach((v, k) => map.set(k, v))`, in place. */
    method SetAll(src: JsMap<K, V>)
      requires contents.Valid() && src.Valid()
      modifies this
      ensures contents == SetEach(old(contents), src.order, src.values)
    {
      var i := 0;
      while i < |src.order|
        invariant 0 <= i <= |src.order|
        invariant contents == SetEach(old(contents), src.order[..i], src.values)
      {
        var key := src.order[i];
        assert src.order[..i + 1][..i] == src.order[..i];
        Set(key, src.values[key]);
        i := i + 1;
      }
      assert src.order[..i] == src.order;
    }
  }
}
