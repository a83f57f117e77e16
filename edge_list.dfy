// The edge list (data/edge_list.go): a Go map from edge id to edge, changed in place. It is the
// per-label bucket of an edge map.

module EdgeLists {
  import opened Conversion
  import opened Edges

  /** The list after `add`: the edge under its id, replacing what was there. */
  function With(l: map<u32, Edge>, e: Edge): map<u32, Edge> {
    l[e.Id := e]
  }

  /** The list after `remove`: the edge's id gone, if it was there. */
  function Without(l: map<u32, Edge>, e: Edge): map<u32, Edge> {
    l - {e.Id}
  }

  /** `add` makes `e` the edge under its id and keeps every other id as it was; `remove`
      drops exactly `e`'s id, and is a no-op when that id is absent. */
  lemma {:induction false} WithWithout(l: map<u32, Edge>, e: Edge, id: u32)
    ensures With(l, e).Keys == l.Keys + {e.Id} && With(l, e)[e.Id] == e
    ensures Without(l, e).Keys == l.Keys - {e.Id}
    ensures id != e.Id && id in l ==> With(l, e)[id] == l[id] && Without(l, e)[id] == l[id]
    ensures e.Id !in l ==> Without(l, e) == l
  {
  }

  /** Removal goes by id: any edge with the same id removes the entry, and `remove` undoes an
      `add` of an id that was absent. */
  lemma {:induction false} WithoutUndoesWith(l: map<u32, Edge>, e: Edge, f: Edge)
    requires e.Id !in l && f.Id == e.Id
    ensures Without(With(l, e), f) == l
  {
  }

  class EdgeList {
    var edges: map<u32, Edge>

    /** `make(edgeList)`. */
    constructor ()
      ensures edges == map[]
    {
      edges := map[];
    }

    /** `add`. */
    method Add(e: Edge)
      modifies this
      ensures edges == With(old(edges), e)
    {
      edges := edges[e.Id := e];
    }

    /** `remove`. */
    method Remove(e: Edge)
      modifies this
      ensures edges == Without(old(edges), e)
    {
      edges := edges - {e.Id};
    }
  }
}
