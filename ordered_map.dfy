/** A Python dictionary keyed by stock code: a map together with the order in
    which its keys were first inserted, which is the order `items()` visits. */
module OrderedMap {

  datatype Dict<V> = Dict(keys: seq<string>, values: map<string, V>)
  {
    /** The keys are distinct and are exactly the keys of the map. */
    ghost predicate Valid()
    {
      Distinct() && Indexed()
    }

    /** No key is listed twice. */
    ghost predicate Distinct()
    {
      forall i, j :: 0 <= i < j < |keys| ==> keys[i] != keys[j]
    }

    /** The listed keys are exactly the keys of the map. */
    ghost predicate Indexed()
    {
      forall k :: k in values <==> k in keys
    }

    /** `d[k] = v`: a new key goes to the end, an existing key keeps its
        place and only its value changes. */
    function Put(k: string, v: V): (d: Dict<V>)
      requires Valid()
      ensures d.Valid()
      ensures d.values == values[k := v]
      ensures k in values ==> d.keys == keys
      ensures k !in values ==> d.keys == keys + [k]
    {
      if k in values then Dict(keys, values[k := v]) else Dict(keys + [k], values[k := v])
    }
  }

  function Empty<V>(): (d: Dict<V>)
    ensures d.Valid() && d.keys == [] && d.values == map[]
  {
    Dict([], map[])
  }
}
