/** Python dictionaries with string keys. Iteration follows insertion order, and
    storing under a key that is already present replaces the value in place,
    leaving the order alone. The order matters in this system: it decides which of
    two equally near corridors wins and how sorts break ties. */
module Dicts {
  import opened Common

  datatype Dict<V> = Dict(keys: seq<string>, entries: map<string, V>) {

    ghost predicate Valid() {
      NoDup(keys) && (forall k :: k in entries <==> k in keys)
    }

    /** d[k] = v */
    function Put(k: string, v: V): (d: Dict<V>)
      requires Valid()
      ensures d.Valid()
      ensures d.entries == entries[k := v]
      ensures k in entries ==> d.keys == keys
      ensures k !in entries ==> d.keys == keys + [k]
    {
      if k in entries then Dict(keys, entries[k := v]) else Dict(keys + [k], entries[k := v])
    }

    /** list(d.values()) */
    function Values(): (vs: seq<V>)
      requires Valid()
      ensures |vs| == |keys|
      ensures forall i | 0 <= i < |keys| :: vs[i] == entries[keys[i]]
    {
      seq(|keys|, i requires 0 <= i < |keys| => entries[keys[i]])
    }

    /** The number of entries. */
    function Len(): nat {
      |keys|
    }
  }

  function EmptyDict<V>(): (d: Dict<V>)
    ensures d.Valid() && d.keys == [] && d.entries == map[]
  {
    Dict([], map[])
  }

  /** The position of a key in the iteration order. */
  lemma {:induction false} KeyIndex<V>(d: Dict<V>, k: string) returns (i: nat)
    requires d.Valid() && k in d.entries
    ensures i < |d.keys| && d.keys[i] == k
  {
    i :| 0 <= i < |d.keys| && d.keys[i] == k;
  }
}
