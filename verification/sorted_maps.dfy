/**
 Ordered maps keyed by exact decimals, in the shape of Rust's `BTreeMap<Decimal, V>`.

 A map is represented by its entries in strictly ascending key order, which is the
 order in which a `BTreeMap` iterates. Its meaning is `ToMap`, the map that a sequence
 of key/value pairs denotes when a later pair overwrites an earlier one with the same
 key; `Collect` plays the part of `Iterator::collect` into a `BTreeMap`.
 */
module SortedMaps {
  import opened Wrappers

  /** Keys strictly increase along `es`. */
  predicate StrictlyAscending<V>(es: seq<(real, V)>) {
    forall i, j :: 0 <= i < j < |es| ==> es[i].0 < es[j].0
  }

  /** The entries of an ordered map, smallest key first. */
  type SortedMap<V> = es: seq<(real, V)> | StrictlyAscending(es) witness []

  /** The map denoted by a sequence of pairs in which later pairs overwrite earlier ones. */
  ghost function ToMap<V>(pairs: seq<(real, V)>): map<real, V> {
    if pairs == [] then map[]
    else ToMap(pairs[..|pairs| - 1])[pairs[|pairs| - 1].0 := pairs[|pairs| - 1].1]
  }

  /** `j` is the last position of `pairs` that carries key `pairs[j].0`. */
  ghost predicate IsLastWithKey<V>(pairs: seq<(real, V)>, j: int) {
    && 0 <= j < |pairs|
    && forall i :: j < i < |pairs| ==> pairs[i].0 != pairs[j].0
  }

  /** A key is bound exactly when some pair carries it. */
  lemma {:induction false} ToMapKeys<V>(pairs: seq<(real, V)>, k: real)
    ensures k in ToMap(pairs) <==> exists i :: 0 <= i < |pairs| && pairs[i].0 == k
    decreases |pairs|
  {
    if pairs != [] {
      var init := pairs[..|pairs| - 1];
      ToMapKeys(init, k);
      if k in ToMap(init) {
        var i :| 0 <= i < |init| && init[i].0 == k;
        assert pairs[i].0 == k;
      }
      if exists i :: 0 <= i < |pairs| && pairs[i].0 == k {
        var i :| 0 <= i < |pairs| && pairs[i].0 == k;
        if i < |pairs| - 1 {
          assert init[i].0 == k;
        }
      }
    }
  }

  /** The value bound to a key is the one carried by the last pair with that key. */
  lemma {:induction false} ToMapLastWins<V>(pairs: seq<(real, V)>, j: int)
    requires IsLastWithKey(pairs, j)
    ensures pairs[j].0 in ToMap(pairs) && ToMap(pairs)[pairs[j].0] == pairs[j].1
    decreases |pairs|
  {
    if j < |pairs| - 1 {
      var init := pairs[..|pairs| - 1];
      assert IsLastWithKey(init, j) by {
        forall i | j < i < |init|
          ensures init[i].0 != init[j].0
        {
          assert init[i] == pairs[i];
        }
      }
      ToMapLastWins(init, j);
    }
  }

  /** Reading a concatenation: bindings of the right part win over the left part. */
  lemma {:induction false} ToMapAppend<V>(a: seq<(real, V)>, b: seq<(real, V)>)
    ensures ToMap(a + b) == ToMap(a) + ToMap(b)
    decreases |b|
  {
    if b == [] {
      assert a + b == a;
    } else {
      var x := b[|b| - 1];
      var b' := b[..|b| - 1];
      assert (a + b)[..|a + b| - 1] == a + b';
      ToMapAppend(a, b');
    }
  }

  /** In a sorted map each entry is found under its own key. */
  lemma SortedLookup<V>(m: SortedMap<V>, i: int)
    requires 0 <= i < |m|
    ensures m[i].0 in ToMap(m) && ToMap(m)[m[i].0] == m[i].1
  {
    ToMapLastWins(m, i);
  }

  /** The key of the first entry of a sorted map is below every other key. */
  lemma SortedFirstIsLeast<V>(m: SortedMap<V>)
    requires |m| > 0
    ensures m[0].0 in ToMap(m)
    ensures forall k :: k in ToMap(m) ==> m[0].0 <= k
  {
    SortedLookup(m, 0);
    forall k | k in ToMap(m)
      ensures m[0].0 <= k
    {
      ToMapKeys(m, k);
    }
  }

  /** The key of the last entry of a sorted map is above every other key. */
  lemma SortedLastIsGreatest<V>(m: SortedMap<V>)
    requires |m| > 0
    ensures m[|m| - 1].0 in ToMap(m)
    ensures forall k :: k in ToMap(m) ==> k <= m[|m| - 1].0
  {
    SortedLookup(m, |m| - 1);
    forall k | k in ToMap(m)
      ensures k <= m[|m| - 1].0
    {
      ToMapKeys(m, k);
    }
  }

  /** Reading a pair followed by more pairs: the later pairs win. */
  lemma ToMapCons<V>(e: (real, V), s: seq<(real, V)>)
    ensures ToMap([e] + s) == map[e.0 := e.1] + ToMap(s)
  {
    ToMapAppend([e], s);
    assert ToMap([e]) == ToMap([] + [e]);
  }

  /** Every key of a sorted map is at least the key of its first entry. */
  lemma SortedKeysFromFirst<V>(m: SortedMap<V>, k: real)
    requires |m| > 0 && k in ToMap(m[1..])
    ensures m[0].0 < k
  {
    ToMapKeys(m[1..], k);
    var i :| 0 <= i < |m[1..]| && m[1..][i].0 == k;
    assert m[i + 1].0 == k;
  }

  /**
   Inserts `k |-> v` into a sorted map, replacing the entry with key `k` if there is one,
   as `BTreeMap::insert` does.
   */
  function Insert<V>(m: SortedMap<V>, k: real, v: V): (r: SortedMap<V>)
    ensures ToMap(r) == ToMap(m)[k := v]
    ensures |r| <= |m| + 1
    ensures forall i :: 0 <= i < |r| ==> r[i] == (k, v) || r[i] in m
    decreases |m|
  {
    if m == [] then
      ToMapCons((k, v), []);
      [(k, v)]
    else if k < m[0].0 then
      InsertBefore(m, k, v);
      [(k, v)] + m
    else if k == m[0].0 then
      InsertReplace(m, k, v);
      [(k, v)] + m[1..]
    else
      var rest := Insert(m[1..], k, v);
      InsertAfter(m, k, v, rest);
      [m[0]] + rest
  }

  /** A key below every key of the map goes in front. */
  lemma InsertBefore<V>(m: SortedMap<V>, k: real, v: V)
    requires |m| > 0 && k < m[0].0
    ensures StrictlyAscending([(k, v)] + m)
    ensures ToMap([(k, v)] + m) == ToMap(m)[k := v]
    ensures forall i :: 0 <= i < |m| + 1 ==> ([(k, v)] + m)[i] == (k, v) || ([(k, v)] + m)[i] in m
  {
    var r := [(k, v)] + m;
    forall i | 1 <= i < |r|
      ensures r[i] in m && k < r[i].0
    {
      assert r[i] == m[i - 1];
    }
    InsertBeforeMap(m, k, v);
  }

  /** The map of a sorted sequence with a smaller key put in front of it. */
  lemma InsertBeforeMap<V>(m: SortedMap<V>, k: real, v: V)
    requires |m| > 0 && k < m[0].0
    ensures ToMap([(k, v)] + m) == ToMap(m)[k := v]
  {
    SortedFirstIsLeast(m);
    ToMapCons((k, v), m);
    MapOverrideAbsent(k, v, ToMap(m));
  }

  /** Overriding with a binding for a key the map lacks is updating the map. */
  lemma MapOverrideAbsent<V>(k: real, v: V, M: map<real, V>)
    requires k !in M
    ensures map[k := v] + M == M[k := v]
  {
  }

  /** A key equal to the first key replaces the first entry. */
  lemma InsertReplace<V>(m: SortedMap<V>, k: real, v: V)
    requires |m| > 0 && k == m[0].0
    ensures StrictlyAscending([(k, v)] + m[1..])
    ensures ToMap([(k, v)] + m[1..]) == ToMap(m)[k := v]
    ensures forall i :: 0 <= i < |m| ==> ([(k, v)] + m[1..])[i] == (k, v) || ([(k, v)] + m[1..])[i] in m
  {
    var tail := m[1..];
    var r := [(k, v)] + tail;
    forall i | 1 <= i < |r|
      ensures r[i] in m && k < r[i].0
    {
      assert r[i] == m[i];
    }
    ReplaceFirstMap(m, k, v);
  }

  lemma ReplaceFirstMap<V>(m: SortedMap<V>, k: real, v: V)
    requires |m| > 0 && k == m[0].0
    ensures ToMap([(k, v)] + m[1..]) == ToMap(m)[k := v]
  {
    var tail := m[1..];
    var M1 := ToMap(tail);
    assert k !in M1 by {
      if k in M1 {
        SortedKeysFromFirst(m, k);
      }
    }
    ToMapCons((k, v), tail);
    ToMapCons(m[0], tail);
    assert [m[0]] + tail == m;
    MapOverrideFresh(k, m[0].1, v, M1);
  }

  /** Overriding a fresh key and then updating it is the same as overriding with the new value. */
  lemma MapOverrideFresh<V>(k: real, old_v: V, v: V, M: map<real, V>)
    requires k !in M
    ensures map[k := v] + M == (map[k := old_v] + M)[k := v]
  {
  }

  /** A key above the first key goes into the rest of the map. */
  lemma InsertAfter<V>(m: SortedMap<V>, k: real, v: V, rest: SortedMap<V>)
    requires |m| > 0 && m[0].0 < k
    requires ToMap(rest) == ToMap(m[1..])[k := v]
    requires forall i :: 0 <= i < |rest| ==> rest[i] == (k, v) || rest[i] in m[1..]
    ensures StrictlyAscending([m[0]] + rest)
    ensures ToMap([m[0]] + rest) == ToMap(m)[k := v]
    ensures forall i :: 0 <= i < |rest| + 1 ==> ([m[0]] + rest)[i] == (k, v) || ([m[0]] + rest)[i] in m
  {
    var r := [m[0]] + rest;
    forall i | 1 <= i < |r|
      ensures m[0].0 < r[i].0 && (r[i] == (k, v) || r[i] in m)
    {
      assert r[i] == rest[i - 1];
      if r[i] != (k, v) {
        var t :| 0 <= t < |m[1..]| && m[1..][t] == r[i];
        assert r[i] == m[t + 1];
      }
    }
    ConsFirstMap(m, k, v, rest);
  }

  lemma ConsFirstMap<V>(m: SortedMap<V>, k: real, v: V, rest: seq<(real, V)>)
    requires |m| > 0 && m[0].0 != k
    requires ToMap(rest) == ToMap(m[1..])[k := v]
    ensures ToMap([m[0]] + rest) == ToMap(m)[k := v]
  {
    var tail := m[1..];
    ToMapCons(m[0], rest);
    ToMapCons(m[0], tail);
    assert [m[0]] + tail == m;
    MapOverrideOther(m[0].0, m[0].1, k, v, ToMap(tail));
  }

  /** Updating a key other than the overridden one commutes with the override. */
  lemma MapOverrideOther<V>(k0: real, v0: V, k: real, v: V, M: map<real, V>)
    requires k0 != k
    ensures map[k0 := v0] + M[k := v] == (map[k0 := v0] + M)[k := v]
  {
  }

  /**
   Builds a sorted map from pairs in the given order, a later pair replacing an earlier
   one with the same key: `Iterator::collect` into a `BTreeMap`.
   */
  function Collect<V>(pairs: seq<(real, V)>): (r: SortedMap<V>)
    ensures ToMap(r) == ToMap(pairs)
    ensures |r| <= |pairs|
    ensures forall i :: 0 <= i < |r| ==> r[i] in pairs
    decreases |pairs|
  {
    if pairs == [] then []
    else
      var init := pairs[..|pairs| - 1];
      var last := pairs[|pairs| - 1];
      var r := Insert(Collect(init), last.0, last.1);
      assert forall i :: 0 <= i < |r| ==> r[i] in pairs by {
        forall i | 0 <= i < |r|
          ensures r[i] in pairs
        {
          if r[i] != (last.0, last.1) {
            var t :| 0 <= t < |init| && init[t] == r[i];
            assert pairs[t] == r[i];
          }
        }
      }
      r
  }

  /**
   The pairs `(k, vals[i])` for the positions `i` where `keys[i] == Some(k)`, in input
   order: `Iterator::filter_map` producing key/value pairs.
   */
  function PresentPairs<V>(keys: seq<Option<real>>, vals: seq<V>): (pairs: seq<(real, V)>)
    requires |keys| == |vals|
    ensures |pairs| <= |keys|
    decreases |keys|
  {
    if keys == [] then []
    else
      var n := |keys| - 1;
      PresentPairs(keys[..n], vals[..n]) +
        match keys[n]
        case Some(k) => [(k, vals[n])]
        case None => []
  }

  /** Some position of `keys` holds `Some(k)`. */
  ghost predicate KeyPresent(keys: seq<Option<real>>, k: real) {
    exists i :: 0 <= i < |keys| && keys[i] == Some(k)
  }

  /** `j` is the last position of `keys` holding the present key `keys[j]`. */
  ghost predicate IsLastPresent(keys: seq<Option<real>>, j: int) {
    && 0 <= j < |keys|
    && keys[j].Some?
    && forall i :: j < i < |keys| ==> keys[i] != keys[j]
  }

  /** Filtering one more position adds its binding, if it has a key, on top of the earlier ones. */
  lemma PresentPairsStep<V>(keys: seq<Option<real>>, vals: seq<V>)
    requires |keys| == |vals| > 0
    ensures var n := |keys| - 1;
            ToMap(PresentPairs(keys, vals)) ==
              match keys[n]
              case Some(k) => ToMap(PresentPairs(keys[..n], vals[..n]))[k := vals[n]]
              case None => ToMap(PresentPairs(keys[..n], vals[..n]))
  {
    var n := |keys| - 1;
    var init := PresentPairs(keys[..n], vals[..n]);
    if keys[n].Some? {
      var x := (keys[n].value, vals[n]);
      assert PresentPairs(keys, vals) == init + [x];
      assert (init + [x])[..|init|] == init;
    } else {
      assert PresentPairs(keys, vals) == init + [];
      assert init + [] == init;
    }
  }

  /** The keys the filtered pairs bind are exactly the present ones. */
  lemma {:induction false} PresentPairsKeys<V>(keys: seq<Option<real>>, vals: seq<V>, k: real)
    requires |keys| == |vals|
    ensures k in ToMap(PresentPairs(keys, vals)) <==> KeyPresent(keys, k)
    decreases |keys|
  {
    if keys != [] {
      var n := |keys| - 1;
      var keys', vals' := keys[..n], vals[..n];
      PresentPairsStep(keys, vals);
      PresentPairsKeys(keys', vals', k);
      if KeyPresent(keys', k) {
        var i :| 0 <= i < |keys'| && keys'[i] == Some(k);
        assert keys[i] == Some(k);
      }
      if KeyPresent(keys, k) {
        var i :| 0 <= i < |keys| && keys[i] == Some(k);
        if i < n {
          assert keys'[i] == Some(k);
        }
      }
    }
  }

  /** Each present key is bound to the value at its last position. */
  lemma {:induction false} PresentPairsLastWins<V>(keys: seq<Option<real>>, vals: seq<V>, j: int)
    requires |keys| == |vals|
    requires IsLastPresent(keys, j)
    ensures keys[j].value in ToMap(PresentPairs(keys, vals))
    ensures ToMap(PresentPairs(keys, vals))[keys[j].value] == vals[j]
    decreases |keys|
  {
    var n := |keys| - 1;
    PresentPairsStep(keys, vals);
    if j < n {
      var keys', vals' := keys[..n], vals[..n];
      assert IsLastPresent(keys', j) by {
        forall i | j < i < |keys'|
          ensures keys'[i] != keys'[j]
        {
          assert keys'[i] == keys[i];
        }
      }
      PresentPairsLastWins(keys', vals', j);
      assert vals'[j] == vals[j];
    }
  }

  /** The map the filtered pairs denote: the present keys, each bound to the value at its last position. */
  lemma PresentPairsMeaning<V>(keys: seq<Option<real>>, vals: seq<V>)
    requires |keys| == |vals|
    ensures forall k :: k in ToMap(PresentPairs(keys, vals)) <==> KeyPresent(keys, k)
    ensures forall j :: IsLastPresent(keys, j) ==>
              keys[j].value in ToMap(PresentPairs(keys, vals)) && ToMap(PresentPairs(keys, vals))[keys[j].value] == vals[j]
  {
    forall k
      ensures k in ToMap(PresentPairs(keys, vals)) <==> KeyPresent(keys, k)
    {
      PresentPairsKeys(keys, vals, k);
    }
    forall j | IsLastPresent(keys, j)
      ensures keys[j].value in ToMap(PresentPairs(keys, vals))
      ensures ToMap(PresentPairs(keys, vals))[keys[j].value] == vals[j]
    {
      PresentPairsLastWins(keys, vals, j);
    }
  }

  /** The last position holding `Some(k)`, when there is one. */
  lemma LastPresent(keys: seq<Option<real>>, k: real) returns (j: int)
    requires KeyPresent(keys, k)
    ensures IsLastPresent(keys, j) && keys[j] == Some(k)
  {
    j := |keys| - 1;
    while keys[j] != Some(k)
      invariant 0 <= j < |keys|
      invariant forall i :: j < i < |keys| ==> keys[i] != Some(k)
      invariant exists i :: 0 <= i <= j && keys[i] == Some(k)
      decreases j
    {
      j := j - 1;
    }
  }

  /** A sorted map binds as many keys as it has entries. */
  lemma {:induction false} SortedSize<V>(m: SortedMap<V>)
    ensures |ToMap(m)| == |m|
    decreases |m|
  {
    if m != [] {
      var init := m[..|m| - 1];
      SortedSize(init);
      var k := m[|m| - 1].0;
      assert forall i :: 0 <= i < |init| ==> init[i].0 < k;
      ToMapKeys(init, k);
      assert ToMap(m).Keys == ToMap(init).Keys + {k};
    }
  }

  /** Every key a sorted map binds is the key of one of its entries. */
  lemma SortedKeys<V>(m: SortedMap<V>, k: real)
    requires k in ToMap(m)
    ensures exists i :: 0 <= i < |m| && m[i].0 == k && ToMap(m)[k] == m[i].1
  {
    ToMapKeys(m, k);
    var i :| 0 <= i < |m| && m[i].0 == k;
    SortedLookup(m, i);
  }

  /** The values of a sorted map, in ascending key order: `BTreeMap::values`. */
  function Values<V>(m: SortedMap<V>): (vs: seq<V>)
    ensures |vs| == |m|
    ensures forall i :: 0 <= i < |vs| ==> m[i].0 in ToMap(m) && ToMap(m)[m[i].0] == vs[i]
  {
    var vs := seq(|m|, i requires 0 <= i < |m| => m[i].1);
    assert forall i :: 0 <= i < |vs| ==> m[i].0 in ToMap(m) && ToMap(m)[m[i].0] == vs[i] by {
      forall i | 0 <= i < |vs|
        ensures m[i].0 in ToMap(m) && ToMap(m)[m[i].0] == vs[i]
      {
        SortedLookup(m, i);
      }
    }
    vs
  }

  /** The elements of `s` back to front: `DoubleEndedIterator::rev`. */
  function Reverse<T>(s: seq<T>): seq<T> {
    seq(|s|, i requires 0 <= i < |s| => s[|s| - 1 - i])
  }
}
