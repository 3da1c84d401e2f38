// A Python dict: keys in the order they were first inserted.
module Dicts {
  datatype Dict<K(==), V> = Dict(order: seq<K>, at: map<K, V>)

  ghost predicate WellFormed<K, V>(d: Dict<K, V>) {
    (set k | k in d.order) == d.at.Keys &&
    (forall i, j :: 0 <= i < j < |d.order| ==> d.order[i] != d.order[j])
  }

  function Empty<K(==), V>(): (d: Dict<K, V>)
    ensures WellFormed(d)
  {
    Dict([], map[])
  }

  function Put<K(==), V>(d: Dict<K, V>, k: K, v: V): (r: Dict<K, V>)
    ensures WellFormed(d) ==> WellFormed(r)
  {
    if k in d.at then Dict(d.order, d.at[k := v]) else Dict(d.order + [k], d.at[k := v])
  }

  function Get<K(==), V>(d: Dict<K, V>, k: K, default: V): V {
    if k in d.at then d.at[k] else default
  }
}
