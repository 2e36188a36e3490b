/**
 * An insertion-ordered dictionary with string keys, as a Python `dict` is:
 * `keys` lists every key once, oldest first, and `entries` binds them.
 */
module OrderedMaps {
  import opened Wrappers

  datatype OrderedMap<V> = OrderedMap(keys: seq<string>, entries: map<string, V>)

  /**
   * `s[i]` under a name of its own: the quantifier in `Distinct` fires on
   * `At` terms only, so it is instantiated where a proof asks for it rather
   * than on every pair of positions of every key list in scope.
   */
  function At(s: seq<string>, i: int): string
    requires 0 <= i < |s|
  {
    s[i]
  }

  /** Every key is listed once. */
  predicate Distinct(s: seq<string>) {
    forall i, j | 0 <= i < j < |s| :: At(s, i) != At(s, j)
  }

  lemma {:induction false} DistinctAt(s: seq<string>, i: int, j: int)
    requires Distinct(s) && 0 <= i < j < |s|
    ensures s[i] != s[j]
  {
    assert At(s, i) != At(s, j);
  }

  /** A list is distinct iff its front is, and its last key is not in the front. */
  lemma {:induction false} DistinctSnoc(s: seq<string>, k: string)
    ensures Distinct(s + [k]) <==> Distinct(s) && k !in s
  {
    var t := s + [k];
    if Distinct(t) {
      forall i, j | 0 <= i < j < |s|
        ensures At(s, i) != At(s, j)
      {
        assert At(t, i) != At(t, j);
      }
      forall i | 0 <= i < |s|
        ensures s[i] != k
      {
        assert At(t, i) != At(t, |s|);
      }
    }
    if Distinct(s) && k !in s {
      forall i, j | 0 <= i < j < |t|
        ensures At(t, i) != At(t, j)
      {
        if j < |s| {
          assert At(s, i) != At(s, j);
        }
      }
    }
  }

  /** In a distinct list a key occurs neither before nor after its own position. */
  lemma {:induction false} DistinctSplit(s: seq<string>, i: int)
    requires Distinct(s) && 0 <= i < |s|
    ensures s[i] !in s[..i] && s[i] !in s[i + 1..]
  {
    forall j | 0 <= j < i
      ensures s[..i][j] != s[i]
    {
      assert At(s, j) != At(s, i);
    }
    forall j | i < j < |s|
      ensures s[j] != s[i]
    {
      assert At(s, i) != At(s, j);
    }
  }

  /** The front of a distinct list is distinct and does not hold its last key. */
  lemma {:induction false} DistinctFront(s: seq<string>)
    requires Distinct(s) && s != []
    ensures Distinct(s[..|s| - 1]) && s[|s| - 1] !in s[..|s| - 1]
  {
    assert s == s[..|s| - 1] + [s[|s| - 1]];
    DistinctSnoc(s[..|s| - 1], s[|s| - 1]);
  }

  /** The key list and the bindings describe the same keys, each listed once. */
  ghost predicate Wf<V>(m: OrderedMap<V>) {
    && Distinct(m.keys)
    && forall k :: k in m.entries <==> k in m.keys
  }

  /** `m.get(k)` */
  function Get<V>(m: OrderedMap<V>, k: string): (r: Option<V>)
    ensures r.Some? <==> k in m.entries
    ensures r.Some? ==> r.value == m.entries[k]
  {
    if k in m.entries then Some(m.entries[k]) else None
  }

  /** `m[k] = v`: an existing key keeps its place, a new key goes last. */
  function Set<V>(m: OrderedMap<V>, k: string, v: V): (r: OrderedMap<V>)
    ensures Wf(m) ==> Wf(r)
    ensures Get(r, k) == Some(v)
    ensures forall j | j != k :: Get(r, j) == Get(m, j)
    ensures k in m.entries ==> r.keys == m.keys
    ensures k !in m.entries ==> r.keys == m.keys + [k]
  {
    DistinctSnoc(m.keys, k);
    var keys := if k in m.entries then m.keys else m.keys + [k];
    OrderedMap(keys, m.entries[k := v])
  }

  /** `ks` without `k`, the others in their order. */
  function Without(ks: seq<string>, k: string): seq<string> {
    if ks == [] then []
    else Without(ks[..|ks| - 1], k) + (if ks[|ks| - 1] == k then [] else [ks[|ks| - 1]])
  }

  /** `Without(ks, k)` holds exactly the keys of `ks` other than `k`. */
  lemma {:induction false} WithoutMembers(ks: seq<string>, k: string)
    ensures forall j :: j in Without(ks, k) <==> j in ks && j != k
  {
    if ks != [] {
      WithoutMembers(ks[..|ks| - 1], k);
      assert ks == ks[..|ks| - 1] + [ks[|ks| - 1]];
    }
  }

  lemma {:induction false} WithoutKeepsDistinct(ks: seq<string>, k: string)
    ensures Distinct(ks) ==> Distinct(Without(ks, k))
  {
    if ks != [] && Distinct(ks) {
      var init, last := ks[..|ks| - 1], ks[|ks| - 1];
      DistinctFront(ks);
      WithoutKeepsDistinct(init, k);
      WithoutMembers(init, k);
      if last == k {
        assert Without(init, k) + [] == Without(init, k);
      } else {
        DistinctSnoc(Without(init, k), last);
      }
    }
  }

  lemma {:induction false} WithoutAbsent(ks: seq<string>, k: string)
    requires k !in ks
    ensures Without(ks, k) == ks
  {
    if ks != [] {
      WithoutAbsent(ks[..|ks| - 1], k);
    }
  }

  lemma {:induction false} WithoutConcat(a: seq<string>, b: seq<string>, k: string)
    ensures Without(a + b, k) == Without(a, k) + Without(b, k)
    decreases |b|
  {
    if b == [] {
      assert a + b == a;
    } else {
      var init := b[..|b| - 1];
      WithoutConcat(a, init, k);
      assert (a + b)[..|a + b| - 1] == a + init;
    }
  }

  /** Removing a key that was appended once, to a list without it, gives back the list. */
  lemma {:induction false} WithoutLast(a: seq<string>, k: string)
    requires k !in a
    ensures Without(a + [k], k) == a
  {
    assert (a + [k])[..|a|] == a;
    WithoutAbsent(a, k);
    assert a + [] == a;
  }

  /** Removing the key at the head of a suffix, when it occurs nowhere else, drops just that position. */
  lemma {:induction false} WithoutAtSplit(a: seq<string>, b: seq<string>, k: string)
    requires k !in a && k !in b
    ensures Without(a + [k] + b, k) == a + b
  {
    WithoutConcat(a + [k], b, k);
    WithoutLast(a, k);
    WithoutAbsent(b, k);
  }

  /** `m.pop(k)` */
  function Remove<V>(m: OrderedMap<V>, k: string): (r: OrderedMap<V>)
    ensures Wf(m) ==> Wf(r)
    ensures Get(r, k) == None
    ensures forall j | j != k :: Get(r, j) == Get(m, j)
    ensures r.keys == Without(m.keys, k)
  {
    WithoutKeepsDistinct(m.keys, k);
    WithoutMembers(m.keys, k);
    OrderedMap(Without(m.keys, k), m.entries - {k})
  }

  /** `ks` back to front. */
  function Reversed(ks: seq<string>): (r: seq<string>)
    ensures |r| == |ks|
    ensures forall i | 0 <= i < |ks| :: r[i] == ks[|ks| - 1 - i]
    ensures forall k :: k in r <==> k in ks
  {
    if ks == [] then [] else [ks[|ks| - 1]] + Reversed(ks[..|ks| - 1])
  }

  lemma {:induction false} ReversedKeepsDistinct(ks: seq<string>)
    ensures Distinct(ks) ==> Distinct(Reversed(ks))
  {
    if Distinct(ks) {
      var r := Reversed(ks);
      forall i, j | 0 <= i < j < |r|
        ensures At(r, i) != At(r, j)
      {
        assert At(ks, |ks| - 1 - j) != At(ks, |ks| - 1 - i);
      }
    }
  }

  lemma {:induction false} ReversedTwice(ks: seq<string>)
    ensures Reversed(Reversed(ks)) == ks
  {
    var r := Reversed(Reversed(ks));
    assert forall i | 0 <= i < |ks| :: r[i] == ks[i];
  }
}
