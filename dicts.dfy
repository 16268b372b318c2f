/** Python's `dict` with string keys: a mapping that remembers the order in
    which its keys were first inserted. */
module Dicts {
  import opened Text

  datatype Dict<V> = Dict(keys: seq<string>, vals: map<string, V>)

  /** The keys in insertion order are exactly the keys of the mapping, each once. */
  ghost predicate Valid<V>(d: Dict<V>)
  {
    Distinct(d.keys) && Elems(d.keys) == d.vals.Keys
  }

  function Empty<V>(): (r: Dict<V>)
    ensures Valid(r) && r.keys == []
  {
    Dict([], map[])
  }

  /** `d[k] = v`: an existing key keeps its position, a new key goes last. */
  function Put<V>(d: Dict<V>, k: string, v: V): Dict<V>
  {
    if k in d.vals then Dict(d.keys, d.vals[k := v]) else Dict(d.keys + [k], d.vals[k := v])
  }

  /** Puts the entries of `e` named by `ks`, in the order of `ks`. */
  function PutAll<V>(d: Dict<V>, ks: seq<string>, e: map<string, V>): Dict<V>
    requires Elems(ks) <= e.Keys
  {
    if |ks| == 0 then d
    else
      assert Elems(ks[..|ks| - 1]) <= Elems(ks);
      Put(PutAll(d, ks[..|ks| - 1], e), ks[|ks| - 1], e[ks[|ks| - 1]])
  }

  lemma PutSpec<V>(d: Dict<V>, k: string, v: V)
    requires Valid(d)
    ensures Valid(Put(d, k, v))
    ensures Put(d, k, v).keys == d.keys + (if k in d.vals then [] else [k])
    ensures Put(d, k, v).vals == d.vals[k := v]
  {
    if k !in d.vals {
      DistinctAppend(d.keys, k);
    }
  }

  /** The entries of `e` named by `ks`. */
  function Restrict<V>(e: map<string, V>, ks: seq<string>): map<string, V>
    requires Elems(ks) <= e.Keys
  {
    map k | k in Elems(ks) :: e[k]
  }

  lemma {:induction false} PutAllKeys<V>(d: Dict<V>, ks: seq<string>, e: map<string, V>)
    requires Valid(d) && Distinct(ks) && Elems(ks) <= e.Keys
    ensures Valid(PutAll(d, ks, e))
    ensures PutAll(d, ks, e).keys == d.keys + Absent(ks, d.vals.Keys)
  {
    if |ks| > 0 {
      var init, last := ks[..|ks| - 1], ks[|ks| - 1];
      assert ks == init + [last];
      assert Elems(init) <= Elems(ks);
      assert Distinct(init);
      PutAllKeys(d, init, e);
      var prev := PutAll(d, init, e);
      assert PutAll(d, ks, e) == Put(prev, last, e[last]);
      PutSpec(prev, last, e[last]);
      assert last !in init;
      assert Elems(prev.keys) == d.vals.Keys + Elems(init) by {
        AbsentElems(init, d.vals.Keys);
        assert Elems(prev.keys) == Elems(d.keys) + Elems(Absent(init, d.vals.Keys));
      }
      assert last in prev.vals <==> last in d.vals;
    }
  }

  lemma {:induction false} PutAllVals<V>(d: Dict<V>, ks: seq<string>, e: map<string, V>)
    requires Elems(ks) <= e.Keys
    ensures PutAll(d, ks, e).vals == d.vals + Restrict(e, ks)
  {
    if |ks| == 0 {
      assert Restrict(e, ks) == map[];
    } else {
      var init, last := ks[..|ks| - 1], ks[|ks| - 1];
      assert ks == init + [last];
      PutAllVals(d, init, e);
      RestrictSnoc(e, init, last);
      UnionUpdate(d.vals, Restrict(e, init), last, e[last]);
    }
  }

  lemma RestrictSnoc<V>(e: map<string, V>, init: seq<string>, last: string)
    requires Elems(init + [last]) <= e.Keys
    ensures Elems(init) <= e.Keys
    ensures Restrict(e, init + [last]) == Restrict(e, init)[last := e[last]]
  {
    assert Elems(init + [last]) == Elems(init) + {last};
  }

  lemma UnionUpdate<V>(a: map<string, V>, b: map<string, V>, k: string, v: V)
    ensures (a + b)[k := v] == a + b[k := v]
  {
  }

  /** `d.update(e)`: every entry of `e` is put into `d`, in the order of `e`. */
  function Update<V>(d: Dict<V>, e: Dict<V>): (r: Dict<V>)
    requires Valid(d) && Valid(e)
    ensures Valid(r)
    ensures r.keys == d.keys + Absent(e.keys, d.vals.Keys)
    ensures r.vals == d.vals + e.vals
  {
    PutAllKeys(d, e.keys, e.vals);
    PutAllVals(d, e.keys, e.vals);
    assert Restrict(e.vals, e.keys) == e.vals;
    PutAll(d, e.keys, e.vals)
  }
}
