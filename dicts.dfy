/** Python's dict with string keys: a finite map whose keys remember their
    insertion order. */
module Dicts {

  /** The keys in insertion order and the values by key. */
  datatype Dict<V> = Dict(keys: seq<string>, values: map<string, V>)

  /** No key occurs twice. */
  ghost predicate Distinct(ks: seq<string>) {
    forall i, j :: 0 <= i < j < |ks| ==> ks[i] != ks[j]
  }

  /** The keys are distinct and are exactly the keys of the map. */
  ghost predicate Valid<V>(d: Dict<V>) {
    Distinct(d.keys)
    && (forall k :: k in d.values <==> k in d.keys)
  }

  /** {} */
  function Empty<V>(): (d: Dict<V>)
    ensures Valid(d) && d.keys == []
  {
    Dict([], map[])
  }

  /** d[k] = v: a new key goes last, an existing key keeps its place. */
  function Put<V>(d: Dict<V>, k: string, v: V): (r: Dict<V>)
    requires Valid(d)
    ensures Valid(r)
    ensures r.values == d.values[k := v]
    ensures r.keys == if k in d.values then d.keys else d.keys + [k]
  {
    Dict(if k in d.values then d.keys else d.keys + [k], d.values[k := v])
  }

  /** The values of d, in key order. */
  function Values<V>(d: Dict<V>): (vs: seq<V>)
    requires Valid(d)
    ensures |vs| == |d.keys|
    ensures forall i :: 0 <= i < |d.keys| ==> vs[i] == d.values[d.keys[i]]
  {
    seq(|d.keys|, i requires 0 <= i < |d.keys| => d.values[d.keys[i]])
  }

  /** The keys of ks whose values satisfy keep, in order. */
  function KeysWhere<V>(ks: seq<string>, values: map<string, V>, keep: V -> bool): (r: seq<string>)
    requires forall k :: k in ks ==> k in values
    ensures forall x :: x in r <==> x in ks && keep(values[x])
  {
    if ks == [] then []
    else (if keep(values[ks[0]]) then [ks[0]] else []) + KeysWhere(ks[1..], values, keep)
  }

  /** A key in front of distinct keys it is not among. */
  lemma DistinctCons(k: string, ks: seq<string>)
    requires k !in ks && Distinct(ks)
    ensures Distinct([k] + ks)
  {
    var r := [k] + ks;
    forall i, j | 0 <= i < j < |r| ensures r[i] != r[j] {
      assert r[j] == ks[j - 1];
      if i > 0 {
        assert r[i] == ks[i - 1];
      }
    }
  }

  lemma {:induction false} KeysWhereDistinct<V>(ks: seq<string>, values: map<string, V>, keep: V -> bool)
    requires forall k :: k in ks ==> k in values
    requires Distinct(ks)
    ensures Distinct(KeysWhere(ks, values, keep))
  {
    if ks != [] {
      var rest := ks[1..];
      assert Distinct(rest) by {
        forall i, j | 0 <= i < j < |rest| ensures rest[i] != rest[j] {
          assert rest[i] == ks[i + 1] && rest[j] == ks[j + 1];
        }
      }
      KeysWhereDistinct(rest, values, keep);
      var t := KeysWhere(rest, values, keep);
      if keep(values[ks[0]]) {
        assert ks[0] !in rest by {
          forall n | 0 <= n < |rest| ensures rest[n] != ks[0] {
            assert rest[n] == ks[n + 1];
          }
        }
        DistinctCons(ks[0], t);
      }
    }
  }

  /** The entries of d whose values satisfy keep, in their order. */
  function Filtered<V>(d: Dict<V>, keep: V -> bool): (r: Dict<V>)
    requires Valid(d)
    ensures Valid(r)
    ensures forall k :: k in r.values <==> k in d.values && keep(d.values[k])
    ensures forall k :: k in r.values ==> r.values[k] == d.values[k]
    ensures r.keys == KeysWhere(d.keys, d.values, keep)
  {
    KeysWhereDistinct(d.keys, d.values, keep);
    var kept := KeysWhere(d.keys, d.values, keep);
    Dict(kept, map k | k in d.values && keep(d.values[k]) :: d.values[k])
  }

  /** KeysWhere of a prefix extended by one key. */
  lemma {:induction false} KeysWhereSnoc<V>(ks: seq<string>, k: string, values: map<string, V>, keep: V -> bool)
    requires forall x :: x in ks + [k] ==> x in values
    ensures KeysWhere(ks + [k], values, keep)
      == KeysWhere(ks, values, keep) + (if keep(values[k]) then [k] else [])
  {
    if ks == [] {
      assert [k][1..] == [];
    } else {
      assert (ks + [k])[1..] == ks[1..] + [k];
      KeysWhereSnoc(ks[1..], k, values, keep);
    }
  }

  /** A valid dict with Filtered's keys and d's values is Filtered itself. */
  lemma FilteredUnique<V>(d: Dict<V>, keep: V -> bool, r: Dict<V>)
    requires Valid(d) && Valid(r)
    requires r.keys == KeysWhere(d.keys, d.values, keep)
    requires forall k :: k in r.values ==> k in d.values && r.values[k] == d.values[k]
    ensures r == Filtered(d, keep)
  {
    var f := Filtered(d, keep);
    forall k ensures k in r.values <==> k in f.values {
      assert k in r.values <==> k in r.keys;
      assert k in f.values <==> k in d.values && keep(d.values[k]);
    }
    SameEntries(r.values, f.values);
  }

  /** Two maps with the same keys and the same value at each are equal. */
  lemma SameEntries<V>(a: map<string, V>, b: map<string, V>)
    requires forall k :: k in a <==> k in b
    requires forall k :: k in a ==> a[k] == b[k]
    ensures a == b
  {
  }

  /** The i-th key of a valid dict is not among those KeysWhere keeps of the
      keys before it. */
  lemma NotYetKept<V>(d: Dict<V>, keep: V -> bool, i: nat)
    requires Valid(d) && i < |d.keys|
    ensures forall x :: x in d.keys[..i] ==> x in d.values
    ensures d.keys[i] !in KeysWhere(d.keys[..i], d.values, keep)
  {
    var pre := d.keys[..i];
    forall x | x in pre ensures x in d.values {
      var n :| 0 <= n < |pre| && pre[n] == x;
      assert d.keys[n] == x;
    }
    forall n | 0 <= n < |pre| ensures pre[n] != d.keys[i] {
      assert pre[n] == d.keys[n];
    }
  }

  /** for k in d.keys(): if not keep(d[k]): del d[k] -- the removal that
      loop means (deleting while iterating is refused by Python 3), written as
      the dict of the entries it keeps, in their order. */
  method RemoveUnless<V>(d: Dict<V>, keep: V -> bool) returns (r: Dict<V>)
    requires Valid(d)
    ensures r == Filtered(d, keep)
  {
    r := Empty();
    var i := 0;
    while i < |d.keys|
      invariant i <= |d.keys| && Valid(r)
      invariant r.keys == KeysWhere(d.keys[..i], d.values, keep)
      invariant forall k :: k in r.values ==> k in d.values && r.values[k] == d.values[k]
    {
      var k := d.keys[i];
      assert d.keys[..i + 1] == d.keys[..i] + [k];
      NotYetKept(d, keep, i);
      KeysWhereSnoc(d.keys[..i], k, d.values, keep);
      if keep(d.values[k]) {
        r := Put(r, k, d.values[k]);
      }
      i := i + 1;
    }
    assert d.keys[..i] == d.keys;
    FilteredUnique(d, keep, r);
  }
}
