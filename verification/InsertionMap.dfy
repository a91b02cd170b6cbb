/** A JavaScript `Map` with string keys: a map that remembers the order its keys came in. */
module InsertionMap {

  datatype JsMap<V> = JsMap(keys: seq<string>, entries: map<string, V>) {

    ghost predicate Valid() {
      && (forall k :: k in entries <==> k in keys)
      && (forall i, j :: 0 <= i < j < |keys| ==> keys[i] != keys[j])
    }

    predicate Has(k: string) {
      k in entries
    }

    /** `set`: a new key goes last, a known key keeps its place. */
    function Put(k: string, v: V): (r: JsMap<V>)
      ensures Valid() ==> r.Valid()
    {
      JsMap(if k in entries then keys else keys + [k], entries[k := v])
    }

    /** `[...map.values()]`. */
    function Values(): (r: seq<V>)
      requires Valid()
      ensures |r| == |keys| && forall i :: 0 <= i < |keys| ==> r[i] == entries[keys[i]]
    {
      seq(|keys|, i requires 0 <= i < |keys| => entries[keys[i]])
    }
  }

  function Empty<V>(): (r: JsMap<V>)
    ensures r.Valid()
  {
    JsMap([], map[])
  }
}
