// The per-owner attribute cache (data/attribute_map.go): a Go map from an attribute's key (the
// string of its label) to the attribute, changed in place by `add` and `remove`.

module AttributeMaps {
  import opened Conversion
  import Labels
  import opened Attributes

  /** The map after `add`: the attribute under its key, replacing what was there; unchanged
      when the key cannot be found. */
  function Put(m: map<Bytes, Attribute>, a: Attribute, names: Labels.Names): map<Bytes, Attribute> {
    match Key(a, names)
    case Some(k) => m[k := a]
    case None => m
  }

  /** The map after `remove`: the attribute's key gone; unchanged when the key cannot be found. */
  function Drop(m: map<Bytes, Attribute>, a: Attribute, names: Labels.Names): map<Bytes, Attribute> {
    match Key(a, names)
    case Some(k) => m - {k}
    case None => m
  }

  /** `add` makes the attribute the one found under its key and touches no other key. */
  lemma {:induction false} PutFinds(m: map<Bytes, Attribute>, a: Attribute, names: Labels.Names, k: Bytes)
    requires Key(a, names).Some?
    ensures var r := Put(m, a, names);
      && r.Keys == m.Keys + {KeyOrEmpty(a, names)}
      && r[KeyOrEmpty(a, names)] == a
      && (k != KeyOrEmpty(a, names) && k in m ==> r[k] == m[k])
  {
  }

  /** `remove` takes away exactly the attribute's key and touches no other key. */
  lemma {:induction false} DropForgets(m: map<Bytes, Attribute>, a: Attribute, names: Labels.Names, k: Bytes)
    requires Key(a, names).Some?
    ensures var r := Drop(m, a, names);
      && r.Keys == m.Keys - {KeyOrEmpty(a, names)}
      && (k in r ==> r[k] == m[k])
  {
  }

  /** `remove` undoes an `add` of a key that was absent. */
  lemma {:induction false} DropPut(m: map<Bytes, Attribute>, a: Attribute, names: Labels.Names)
    requires Key(a, names).Some? ==> Key(a, names).value !in m
    ensures Drop(Put(m, a, names), a, names) == m
  {
  }

  /** Membership is by key, not identity: any two attributes with the same label get the same
      answer from `has`, whatever their ids, tags or values. */
  lemma {:induction false} HasByKey(m: map<Bytes, Attribute>, a: Attribute, b: Attribute, names: Labels.Names)
    requires a.labelId == b.labelId
    ensures KeyOrEmpty(a, names) in m <==> KeyOrEmpty(b, names) in m
  {
  }

  class AttributeMap {
    var entries: map<Bytes, Attribute>

    /** `make(attributeMap)`. */
    constructor ()
      ensures entries == map[]
    {
      entries := map[];
    }

    /** `add`: reports the key lookup's failure, in which case nothing changes. */
    method Add(a: Attribute, names: Labels.Names) returns (ok: bool)
      modifies this
      ensures ok <==> Key(a, names).Some?
      ensures entries == Put(old(entries), a, names)
    {
      var key := Key(a, names);
      ok := key.Some?;
      if ok {
        entries := entries[key.value := a];
      }
    }

    /** `remove`: reports the key lookup's failure, in which case nothing changes. */
    method Remove(a: Attribute, names: Labels.Names) returns (ok: bool)
      modifies this
      ensures ok <==> Key(a, names).Some?
      ensures entries == Drop(old(entries), a, names)
    {
      var key := Key(a, names);
      ok := key.Some?;
      if ok {
        entries := entries - {key.value};
      }
    }

    /** `has`: the lookup's error is dropped, so a key that cannot be found is looked up as
        the empty string. */
    method Has(a: Attribute, names: Labels.Names) returns (b: bool)
      ensures b <==> KeyOrEmpty(a, names) in entries
      ensures Key(a, names).Some? ==> (b <==> Key(a, names).value in entries)
    {
      b := HasKey(KeyOrEmpty(a, names));
    }

    method HasKey(key: Bytes) returns (b: bool)
      ensures b <==> key in entries
    {
      b := key in entries;
    }

    /** `get`: the attribute under the key, if any. */
    method Get(key: Bytes) returns (r: Option<Attribute>)
      ensures r.Some? <==> key in entries
      ensures r.Some? ==> r.value == entries[key]
    {
      r := if key in entries then Some(entries[key]) else None;
    }
  }
}
