/** Iteration over a `std::map<int, T>`: its entries come in increasing
    key order. A map is a Dafny `map`; the order is the sequence of its
    keys sorted. */
module OrderedMap {

  predicate Increasing(ks: seq<int>) {
    forall i, j :: 0 <= i < j < |ks| ==> ks[i] < ks[j]
  }

  predicate IsMin(k: int, s: set<int>) {
    k in s && forall j :: j in s ==> k <= j
  }

  /** A finite non-empty set of integers has a least element. */
  lemma {:induction false} MinExists(s: set<int>)
    requires s != {}
    ensures exists k :: IsMin(k, s)
    decreases |s|
  {
    if forall y :: y !in s {
      assert false;
    }
    var x :| x in s;
    if s != {x} {
      MinExists(s - {x});
      var m :| IsMin(m, s - {x});
      var k := if x < m then x else m;
      forall j | j in s
        ensures k <= j
      {
        if j != x {
          assert j in s - {x};
        }
      }
      assert IsMin(k, s);
    } else {
      assert IsMin(x, s);
    }
  }

  /** The keys of s in increasing order. */
  ghost function SortedKeys(s: set<int>): (ks: seq<int>)
    ensures Increasing(ks) && |ks| == |s|
    ensures forall i :: 0 <= i < |ks| ==> ks[i] in s
    decreases |s|
  {
    if s == {} then []
    else
      MinExists(s);
      var m :| IsMin(m, s);
      [m] + SortedKeys(s - {m})
  }

  /** Every key is listed. */
  lemma {:induction false} SortedKeysHas(s: set<int>, k: int)
    requires k in s
    ensures k in SortedKeys(s)
    decreases |s|
  {
    var ks := SortedKeys(s);
    if k != ks[0] {
      assert SortedKeys(s) == [ks[0]] + SortedKeys(s - {ks[0]});
      SortedKeysHas(s - {ks[0]}, k);
    }
  }

  /** The sorted keys start with the least one. */
  lemma SortedKeysMin(s: set<int>, k: int)
    requires IsMin(k, s)
    ensures SortedKeys(s) == [k] + SortedKeys(s - {k})
  {
    var ks := SortedKeys(s);
    assert ks[0] in s;
    assert ks[0] == k;
  }

  /** The values for keys ks, in that order. */
  ghost function ValuesAt<V>(m: map<int, V>, ks: seq<int>): (vs: seq<V>)
    requires forall i :: 0 <= i < |ks| ==> ks[i] in m
    ensures |vs| == |ks|
  {
    seq(|ks|, i requires 0 <= i < |ks| => m[ks[i]])
  }

  /** The values of m in key order. */
  ghost function InKeyOrder<V>(m: map<int, V>): (vs: seq<V>)
    ensures |vs| == |m|
  {
    var ks := SortedKeys(m.Keys);
    assert forall i :: 0 <= i < |ks| ==> ks[i] in m;
    ValuesAt(m, ks)
  }

  /** The iteration order of a map with keys s: each round takes the
      least key not yet visited. */
  method SortKeys(s: set<int>) returns (ks: seq<int>)
    ensures ks == SortedKeys(s)
  {
    var rest := s;
    ks := [];
    while rest != {}
      invariant rest <= s && SortedKeys(s) == ks + SortedKeys(rest)
      decreases |rest|
    {
      MinExists(rest);
      var k :| IsMin(k, rest);
      SortedKeysMin(rest, k);
      Regroup(ks, k, SortedKeys(rest - {k}));
      ks := ks + [k];
      rest := rest - {k};
    }
  }

  /** `for(const auto& pair: m) res.push_back(pair.second)`. */
  method Values<V>(m: map<int, V>) returns (vs: seq<V>)
    ensures vs == InKeyOrder(m)
  {
    var ks := SortKeys(m.Keys);
    vs := [];
    for i := 0 to |ks|
      invariant |vs| == i && forall j :: 0 <= j < i ==> vs[j] == m[ks[j]]
    {
      vs := vs + [m[ks[i]]];
    }
  }

  lemma Regroup(a: seq<int>, k: int, b: seq<int>)
    ensures a + ([k] + b) == (a + [k]) + b
  {
  }


  /** Every entry is enumerated, at the position of its key's rank, and
      a smaller key comes earlier. */
  lemma InKeyOrderAt<V>(m: map<int, V>, k: int)
    requires k in m
    ensures exists i :: 0 <= i < |m| && SortedKeys(m.Keys)[i] == k && InKeyOrder(m)[i] == m[k]
  {
    var ks := SortedKeys(m.Keys);
    SortedKeysHas(m.Keys, k);
    var i :| 0 <= i < |ks| && ks[i] == k;
    assert InKeyOrder(m)[i] == m[k];
  }

  lemma InKeyOrderFrom<V>(m: map<int, V>, i: int)
    requires 0 <= i < |m|
    ensures SortedKeys(m.Keys)[i] in m && InKeyOrder(m)[i] == m[SortedKeys(m.Keys)[i]]
  {
  }
}
