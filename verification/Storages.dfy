/** The storages, as in-memory dictionaries. Loading returns a copy, so a stored value never changes by itself. */
module Storages {
  import opened Types

  class Storage<K(==), V> {
    var content: map<K, V>

    constructor ()
      ensures content == map[]
    {
      content := map[];
    }

    method Exists(key: K) returns (r: bool)
      ensures r <==> key in content
    {
      r := key in content;
    }

    method Load(key: K) returns (r: Option<V>)
      ensures r == if key in content then Some(content[key]) else None
    {
      r := if key in content then Some(content[key]) else None;
    }

    method Save(key: K, value: V)
      modifies this
      ensures content == old(content)[key := value]
    {
      content := content[key := value];
    }
  }
}
