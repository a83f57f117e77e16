// The edge map (data/edge_map.go): a Go map from the key of an edge's label to the edge list
// of that label. `add` creates a label's list on demand; `remove` deletes a label whose list
// becomes empty, so a map built by these operations never holds an empty list.

module EdgeMaps {
  import opened Conversion
  import Labels
  import opened Edges
  import opened EdgeLists

  type Lists = map<Bytes, map<u32, Edge>>

  /** No label maps to an empty list. */
  ghost predicate NoEmptyList(m: Lists) {
    forall k :: k in m ==> m[k] != map[]
  }

  /** The map after `add` of `e`, whose label's key is `key`: `e` goes into that key's list,
      which is created when missing. */
  function Insert(m: Lists, key: Bytes, e: Edge): Lists {
    if key in m then m[key := With(m[key], e)] else m[key := With(map[], e)]
  }

  /** The map after `remove` of `e`: `e` leaves its key's list and a list left empty takes its
      key with it; nothing changes when the key is absent. */
  function Delete(m: Lists, key: Bytes, e: Edge): Lists {
    if key !in m then m
    else if Without(m[key], e) == map[] then m - {key}
    else m[key := Without(m[key], e)]
  }

  /** `add` files `e` under its key and its id and touches no other entry. */
  lemma {:induction false} InsertFinds(m: Lists, key: Bytes, e: Edge, k: Bytes, id: u32)
    ensures var r := Insert(m, key, e);
      && r.Keys == m.Keys + {key}
      && e.Id in r[key] && r[key][e.Id] == e
      && (k in m && id in m[k] && (k != key || id != e.Id) ==> id in r[k] && r[k][id] == m[k][id])
      && (k in r && id in r[k] && (k != key || id != e.Id) ==> k in m && id in m[k])
  {
  }

  /** `remove` takes away exactly `e`'s entry under its key, and drops the key when its list
      empties; every other entry stays. */
  lemma {:induction false} DeleteForgets(m: Lists, key: Bytes, e: Edge, k: Bytes, id: u32)
    ensures var r := Delete(m, key, e);
      && (key in r ==> e.Id !in r[key])
      && (k in r && id in r[k] ==> k in m && id in m[k] && r[k][id] == m[k][id])
      && (k in m && id in m[k] && (k != key || id != e.Id) ==> k in r && id in r[k])
  {
    if k == key && k in m && id in m[k] && id != e.Id {
      assert id in Without(m[key], e);
    }
  }

  /** Neither operation leaves an empty list behind. */
  lemma {:induction false} NoEmptyListKept(m: Lists, key: Bytes, e: Edge)
    requires NoEmptyList(m)
    ensures NoEmptyList(Insert(m, key, e)) && NoEmptyList(Delete(m, key, e))
  {
    var i := Insert(m, key, e);
    forall k | k in i
      ensures i[k] != map[]
    {
      if k == key {
        assert e.Id in i[k];
      }
    }
    var r := Delete(m, key, e);
    forall k | k in r
      ensures r[k] != map[]
    {
      if k == key {
        assert r[k] == Without(m[key], e);
      }
    }
  }

  /** `remove` undoes an `add` of an edge whose id was not filed under its key. */
  lemma {:induction false} DeleteUndoesInsert(m: Lists, key: Bytes, e: Edge)
    requires NoEmptyList(m)
    requires key in m ==> e.Id !in m[key]
    ensures Delete(Insert(m, key, e), key, e) == m
  {
    if key in m {
      assert Without(With(m[key], e), e) == m[key];
    }
  }

  class EdgeMap {
    var lists: Lists

    /** `make(edgeMap)`. */
    constructor ()
      ensures lists == map[]
    {
      lists := map[];
    }

    /** `add`: files `e` under the key of its label. The Go code calls `Value` on the label
        `find` returned, which faults when the label cannot be found. */
    method Add(e: Edge, names: Labels.Names)
      requires names(e.labelId).Some?
      modifies this
      ensures lists == Insert(old(lists), Key(e, names), e)
    {
      var key := Key(e, names);
      var l: map<u32, Edge> := if key in lists then lists[key] else map[];
      lists := lists[key := l[e.Id := e]];
    }

    /** `remove`: takes `e` out of its key's list and deletes the key when that list is left
        empty. */
    method Remove(e: Edge, names: Labels.Names)
      requires names(e.labelId).Some?
      modifies this
      ensures lists == Delete(old(lists), Key(e, names), e)
    {
      var key := Key(e, names);
      if key in lists {
        var l: map<u32, Edge> := lists[key] - {e.Id};
        if |l| == 0 {
          lists := lists - {key};
        } else {
          lists := lists[key := l];
        }
      }
    }

    /** `has`. */
    method Has(key: Bytes) returns (b: bool)
      ensures b <==> key in lists
    {
      b := key in lists;
    }

    /** `get`: the list of the key; a missing key gives Go's nil map, which reads as empty. */
    method Get(key: Bytes) returns (l: map<u32, Edge>)
      ensures key in lists ==> l == lists[key]
      ensures key !in lists ==> l == map[]
      ensures NoEmptyList(lists) ==> (l == map[] <==> key !in lists)
    {
      l := if key in lists then lists[key] else map[];
    }
  }
}
