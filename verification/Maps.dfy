/** clifmt's ordered map, and the test that decides whether a list of maps is a table
    (pkg/clifmt/map.go). */
module Maps {
  import opened Base
  import opened Derive

  /** A string-keyed map that keeps insertion order. */
  class OrderedMap<V(==)> {
    var keys: seq<string>
    var vals: map<string, V>

    ghost predicate Valid()
      reads this
    {
      && (forall k :: k in keys <==> k in vals)
      && (forall i, j | 0 <= i < j < |keys| :: keys[i] != keys[j])
    }

    /** The entries, in insertion order. */
    ghost function Contents(): (entries: seq<(string, V)>)
      requires Valid()
      reads this
    {
      seq(|keys|, i requires 0 <= i < |keys| && keys[i] in vals reads this => (keys[i], vals[keys[i]]))
    }

    constructor ()
      ensures Valid() && Contents() == []
    {
      keys, vals := [], map[];
    }

    /** A new key goes last; a key set again keeps its position. */
    method Set(key: string, v: V)
      requires Valid()
      modifies this
      ensures Valid()
      ensures key !in old(vals) ==> Contents() == old(Contents()) + [(key, v)]
      ensures forall i | 0 <= i < |old(keys)| && old(keys)[i] == key :: Contents() == old(Contents())[i := (key, v)]
    {
      if key !in vals {
        keys := keys + [key];
      }
      vals := vals[key := v];
      assert old(keys) <= keys && forall k | k in vals && k != key :: k in old(vals) && vals[k] == old(vals)[k];
    }

    method Get(key: string) returns (r: Option<V>)
      requires Valid()
      ensures r.Some? <==> exists i :: 0 <= i < |Contents()| && Contents()[i].0 == key
      ensures r.Some? ==> (key, r.value) in Contents()
    {
      if key in vals {
        ghost var i :| 0 <= i < |keys| && keys[i] == key;
        assert Contents()[i] == (key, vals[key]);
        return Some(vals[key]);
      }
      return None;
    }
  }

  /** The shape of a list of maps: its columns, when every element can be one of its rows. */
  datatype Shape = NoMapList | Mixed | Uniform(columns: seq<string>)

  /** One pass over the elements; one that is no map ends it. */
  method MapListShape(decls: Decls, dv: Value) returns (shape: Shape)
    requires dv.List?
    ensures shape.NoMapList? <==> !IsMapList(dv)
    ensures IsMapList(dv) ==> (shape.Uniform? <==> IsUniform(decls, dv))
    ensures shape.Uniform? ==> shape.columns == Keys(EntriesOf(Deref(dv.elems[0])))
  {
    if |dv.elems| == 0 {
      return NoMapList;
    }
    var first := EntriesOf(Deref(dv.elems[0]));
    var uniform := true;
    for i := 0 to |dv.elems|
      invariant forall j | 0 <= j < i :: IsMapLike(Deref(dv.elems[j]))
      invariant uniform <==> forall j | 0 <= j < i :: FitsRow(decls, first, EntriesOf(Deref(dv.elems[j])))
    {
      var ev := Deref(dv.elems[i]);
      if !IsMapLike(ev) {
        return NoMapList;
      }
      var es := EntriesOf(ev);
      uniform := uniform && FitsRow(decls, first, es);
    }
    if !uniform {
      return Mixed;
    }
    return Uniform(Keys(first));
  }

  predicate DistinctKeys(es: seq<Entry>) {
    forall i, j | 0 <= i < j < |es| :: es[i].key != es[j].key
  }

  function KeySet(es: seq<Entry>): set<string> {
    set i | 0 <= i < |es| :: es[i].key
  }

  lemma {:induction false} KeySetSize(es: seq<Entry>)
    requires DistinctKeys(es)
    ensures |KeySet(es)| == |es|
  {
    if es != [] {
      var k := |es| - 1;
      KeySetSize(es[..k]);
      assert KeySet(es) == KeySet(es[..k]) + {es[k].key};
    }
  }

  lemma SubsetOfSameSize<T>(a: set<T>, b: set<T>)
    requires a <= b && |a| == |b|
    ensures a == b
  {
    assert |b - a| == |b| - |a|;
  }

  /** Counting the keys one way is enough: two maps of one size, the second's keys all the first's,
      have the same keys. */
  lemma SameKeysBothWays(a: seq<Entry>, b: seq<Entry>)
    requires DistinctKeys(a) && DistinctKeys(b)
    ensures SameKeys(a, b) <==> KeySet(a) == KeySet(b)
  {
    KeySetSize(a);
    KeySetSize(b);
    if SameKeys(a, b) {
      forall k | k in KeySet(b) ensures k in KeySet(a) {
        var i :| 0 <= i < |b| && b[i].key == k;
        var j :| 0 <= j < |a| && a[j].key == b[i].key;
      }
      SubsetOfSameSize(KeySet(b), KeySet(a));
    } else if KeySet(a) == KeySet(b) {
      forall i | 0 <= i < |b| ensures exists j :: 0 <= j < |a| && a[j].key == b[i].key {
        assert b[i].key in KeySet(a);
      }
    }
  }
}
