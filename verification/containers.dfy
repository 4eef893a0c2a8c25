/** `getOrPut`-style helpers on a mutable map and a mutable list, as pure
    functions returning the value and the updated container. */
module Containers {
  import opened Wrappers

  /** `MutableMap.getOrPut(key) { empty }`: the stored value when the key is
      present, else `empty`, stored under the key. */
  function GetOrPut<K, V>(m: map<K, V>, key: K, empty: V): (r: (V, map<K, V>))
    ensures key in r.1 && r.1[key] == r.0
    ensures key in m ==> r == (m[key], m)
    ensures key !in m ==> r.0 == empty && |r.1| == |m| + 1
    ensures r.1.Keys == m.Keys + {key}
    ensures forall k :: k in m && k != key ==> r.1[k] == m[k]
  {
    if key in m then (m[key], m) else (empty, m[key := empty])
  }

  /** A second call with the same key finds the value the first one left and
      changes nothing. */
  lemma {:induction false} GetOrPutIdempotent<K, V>(m: map<K, V>, key: K, empty: V)
    ensures var (v, m1) := GetOrPut(m, key, empty);
      GetOrPut(m1, key, empty) == (v, m1)
  {
  }

  /** The three `getOrCreate` variants: a fresh empty list, map or set. */
  function GetOrCreateList<K, E>(m: map<K, seq<E>>, key: K): (r: (seq<E>, map<K, seq<E>>))
    ensures key !in m ==> r.0 == [] && r.1 == m[key := []]
    ensures key in m ==> r == (m[key], m)
  {
    GetOrPut(m, key, [])
  }

  function GetOrCreateMap<K, K2, V2>(m: map<K, map<K2, V2>>, key: K): (r: (map<K2, V2>, map<K, map<K2, V2>>))
    ensures key !in m ==> r.0 == map[] && r.1 == m[key := map[]]
    ensures key in m ==> r == (m[key], m)
  {
    GetOrPut(m, key, map[])
  }

  function GetOrCreateSet<K, E>(m: map<K, set<E>>, key: K): (r: (set<E>, map<K, set<E>>))
    ensures key !in m ==> r.0 == {} && r.1 == m[key := {}]
    ensures key in m ==> r == (m[key], m)
  {
    GetOrPut(m, key, {})
  }

  /** `MutableList.getOrPut(index) { default }` on a list of nullable
      elements: an index out of bounds throws; a present element is returned;
      a `null` one is replaced by `default`, which is returned. */
  function ListGetOrPut<E>(s: seq<Option<E>>, index: int, default: E): (r: Result<(E, seq<Option<E>>)>)
    ensures r.Err? <==> !(0 <= index < |s|)
    ensures r.Ok? ==> |r.value.1| == |s| && r.value.1[index] == Some(r.value.0)
    ensures r.Ok? ==> forall i :: 0 <= i < |s| && i != index ==> r.value.1[i] == s[i]
    ensures r.Ok? && s[index].Some? ==> r.value == (s[index].value, s)
    ensures r.Ok? && s[index].None? ==> r.value.0 == default
  {
    if !(0 <= index < |s|) then Err("IndexOutOfBoundsException")
    else match s[index]
      case Some(v) => Ok((v, s))
      case None => Ok((default, s[index := Some(default)]))
  }

  /** Once filled, the slot keeps its value on later calls. */
  lemma {:induction false} ListGetOrPutIdempotent<E>(s: seq<Option<E>>, index: int, default: E, other: E)
    requires 0 <= index < |s|
    ensures var (v, s1) := ListGetOrPut(s, index, default).value;
      ListGetOrPut(s1, index, other) == Ok((v, s1))
  {
  }

  function ListGetOrCreateList<E>(s: seq<Option<seq<E>>>, index: int): (r: Result<(seq<E>, seq<Option<seq<E>>>)>)
    ensures r.Err? <==> !(0 <= index < |s|)
    ensures r.Ok? && s[index].None? ==> r.value == ([], s[index := Some([])])
  {
    ListGetOrPut(s, index, [])
  }

  function ListGetOrCreateMap<K, V>(s: seq<Option<map<K, V>>>, index: int): (r: Result<(map<K, V>, seq<Option<map<K, V>>>)>)
    ensures r.Err? <==> !(0 <= index < |s|)
    ensures r.Ok? && s[index].None? ==> r.value == (map[], s[index := Some(map[])])
  {
    ListGetOrPut(s, index, map[])
  }

  function ListGetOrCreateSet<E>(s: seq<Option<set<E>>>, index: int): (r: Result<(set<E>, seq<Option<set<E>>>)>)
    ensures r.Err? <==> !(0 <= index < |s|)
    ensures r.Ok? && s[index].None? ==> r.value == ({}, s[index := Some({})])
  {
    ListGetOrPut(s, index, {})
  }
}
