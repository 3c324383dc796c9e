/**
 * A Python `dict`, modelled as its list of items. Iteration order is the order in which
 * keys were first inserted; assigning to a key that is already present keeps its place
 * and replaces its value.
 */
module PyDict {
  import opened Wrappers
  import opened Sequences

  type Dict<K, V> = seq<(K, V)>

  /** `list(d.keys())` */
  function Keys<K, V>(d: Dict<K, V>): (ks: seq<K>)
    ensures |ks| == |d|
    ensures forall i :: 0 <= i < |d| ==> ks[i] == d[i].0
  {
    if d == [] then [] else [d[0].0] + Keys(d[1..])
  }

  /** Keys are never repeated, which every dict built by Assign satisfies. */
  ghost predicate WellFormed<K, V>(d: Dict<K, V>) {
    Distinct(Keys(d))
  }

  /** `d.get(k)` */
  function Lookup<K(==), V>(d: Dict<K, V>, k: K): (r: Option<V>)
    ensures r.None? <==> k !in Keys(d)
  {
    if d == [] then None
    else if d[0].0 == k then Some(d[0].1)
    else
      assert Keys(d) == [d[0].0] + Keys(d[1..]);
      Lookup(d[1..], k)
  }

  /**
   * `d[k] = v`. At most one entry is added; AssignKeys, AssignLookup and AssignWellFormed
   * state where the key goes and what every key maps to afterwards.
   */
  function Assign<K(==), V>(d: Dict<K, V>, k: K, v: V): (r: Dict<K, V>)
    ensures |d| <= |r| <= |d| + 1
  {
    if d == [] then [(k, v)]
    else if d[0].0 == k then [(k, v)] + d[1..]
    else [d[0]] + Assign(d[1..], k, v)
  }

  /** A new key is appended to the iteration order; an existing key keeps its place. */
  lemma {:induction false} AssignKeys<K, V>(d: Dict<K, V>, k: K, v: V)
    ensures Keys(Assign(d, k, v)) == if k in Keys(d) then Keys(d) else Keys(d) + [k]
  {
    if d != [] {
      assert Keys(d) == [d[0].0] + Keys(d[1..]);
      if d[0].0 != k {
        AssignKeys(d[1..], k, v);
        var r := Assign(d, k, v);
        assert r[1..] == Assign(d[1..], k, v);
        assert Keys(r) == [d[0].0] + Keys(r[1..]);
      }
    }
  }

  /** After `d[k] = v`, `k` maps to `v` and every other key to what it mapped to before. */
  lemma {:induction false} AssignLookup<K, V>(d: Dict<K, V>, k: K, v: V, k': K)
    ensures Lookup(Assign(d, k, v), k') == if k' == k then Some(v) else Lookup(d, k')
  {
    if d != [] && d[0].0 != k {
      AssignLookup(d[1..], k, v, k');
      var r := Assign(d, k, v);
      assert r[0] == d[0] && r[1..] == Assign(d[1..], k, v);
    }
  }

  /** Assignment never repeats a key. */
  lemma AssignWellFormed<K, V>(d: Dict<K, V>, k: K, v: V)
    requires WellFormed(d)
    ensures WellFormed(Assign(d, k, v))
  {
    AssignKeys(d, k, v);
    var ks := Keys(d);
    if k !in ks {
      forall i, j | 0 <= i < j < |ks + [k]| ensures (ks + [k])[i] != (ks + [k])[j] {
        if j == |ks| {
          assert (ks + [k])[i] == ks[i] && ks[i] in ks;
        }
      }
    }
  }

  /** In a well-formed dict, the item at position `i` is what looking up its key returns. */
  lemma {:induction false} LookupItem<K, V>(d: Dict<K, V>, i: nat)
    requires WellFormed(d) && i < |d|
    ensures Lookup(d, d[i].0) == Some(d[i].1)
  {
    if i > 0 {
      assert d[0].0 != d[i].0 by { assert Keys(d)[0] != Keys(d)[i]; }
      assert WellFormed(d[1..]) by {
        var ks := Keys(d[1..]);
        forall a, b | 0 <= a < b < |ks| ensures ks[a] != ks[b] {
          assert ks[a] == Keys(d)[a + 1] && ks[b] == Keys(d)[b + 1];
        }
      }
      LookupItem(d[1..], i - 1);
      assert d[1..][i - 1] == d[i];
    }
  }

  /**
   * The keys of `seen` followed by those elements of `s` not seen before, in the order of
   * their first occurrence: the key order a dict ends with after assigning `s` in turn.
   */
  function FirstOccurrences<T(==)>(seen: seq<T>, s: seq<T>): seq<T>
  {
    if s == [] then seen
    else
      var before := FirstOccurrences(seen, s[..|s| - 1]);
      if s[|s| - 1] in before then before else before + [s[|s| - 1]]
  }

  lemma {:induction false} FirstOccurrencesAppend<T>(seen: seq<T>, a: seq<T>, b: seq<T>)
    ensures FirstOccurrences(FirstOccurrences(seen, a), b) == FirstOccurrences(seen, a + b)
  {
    if b == [] {
      assert a + b == a;
    } else {
      FirstOccurrencesAppend(seen, a, b[..|b| - 1]);
      assert (a + b)[..|a + b| - 1] == a + b[..|b| - 1];
      assert (a + b)[|a + b| - 1] == b[|b| - 1];
    }
  }

  /** An element is kept exactly when it was seen or occurs in `s`; nothing is repeated. */
  lemma {:induction false} FirstOccurrencesMembers<T>(seen: seq<T>, s: seq<T>)
    requires Distinct(seen)
    ensures forall x :: x in FirstOccurrences(seen, s) <==> x in seen || x in s
    ensures Distinct(FirstOccurrences(seen, s))
  {
    if s != [] {
      var init := s[..|s| - 1];
      FirstOccurrencesMembers(seen, init);
      var before := FirstOccurrences(seen, init);
      assert s == init + [s[|s| - 1]];
      if s[|s| - 1] !in before {
        var r := before + [s[|s| - 1]];
        forall i, j | 0 <= i < j < |r| ensures r[i] != r[j] {
          if j == |before| {
            assert r[i] == before[i] && before[i] in before;
          }
        }
      }
    }
  }
}
