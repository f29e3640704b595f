/** Small facts about sequences that several modules rely on. */
module Sequences {
  lemma WithoutOne<T>(s: seq<T>, j: nat)
    requires j < |s|
    ensures multiset(s[..j] + s[j + 1..]) == multiset(s) - multiset{s[j]}
  {
    assert s == s[..j] + [s[j]] + s[j + 1..];
  }

  ghost predicate Distinct<T>(s: seq<T>) { forall i, j :: 0 <= i < j < |s| ==> s[i] != s[j] }

  ghost predicate Injective<K, V>(m: map<K, V>) { forall k, l :: k in m && l in m && m[k] == m[l] ==> k == l }

  /** A map has at most as many values as keys, and as many exactly when no two keys share one. */
  lemma {:induction false} ValuesCount<K, V>(m: map<K, V>)
    ensures |m.Values| <= |m|
    ensures |m.Values| == |m| <==> Injective(m)
    decreases |m|
  {
    if |m| == 0 { assert m.Values == {}; return; }
    var k :| k in m;
    var rest := m - {k};
    ValuesCount(rest);
    assert m.Keys == rest.Keys + {k};
    assert m.Values == rest.Values + {m[k]};
    if m[k] in rest.Values {
      var l :| l in rest && rest[l] == m[k];
      assert m.Values == rest.Values && !Injective(m);
    } else {
      assert |m.Values| == |rest.Values| + 1;
      assert Injective(rest) <==> Injective(m);
    }
  }

  function Below(n: nat): set<nat> { if n == 0 then {} else Below(n - 1) + {n - 1} }

  lemma {:induction false} BelowIs(n: nat)
    ensures |Below(n)| == n && forall x: nat :: x in Below(n) <==> x < n
  {
    if n > 0 { BelowIs(n - 1); }
  }

  lemma {:induction false} DistinctCount<T>(s: seq<T>)
    requires Distinct(s)
    ensures |set x | x in s| == |s|
  {
    if s == [] { assert (set x | x in s) == {}; return; }
    var n := |s| - 1;
    DistinctCount(s[..n]);
    assert s == s[..n] + [s[n]];
    assert (set x | x in s) == (set x | x in s[..n]) + {s[n]};
    assert s[n] !in s[..n];
  }

  lemma SubsetCard<T>(a: set<T>, b: set<T>)
    requires a <= b
    ensures |a| <= |b| && (|a| == |b| <==> a == b)
  {
    assert b == a + (b - a);
  }

  /** n distinct numbers below n include each of them. */
  lemma Pigeonhole(s: seq<nat>, k: nat) returns (i: nat)
    requires Distinct(s) && k < |s| && forall j :: 0 <= j < |s| ==> s[j] < |s|
    ensures i < |s| && s[i] == k
  {
    var seen := set x | x in s;
    DistinctCount(s);
    BelowIs(|s|);
    SubsetCard(seen, Below(|s|));
    assert k in seen;
    i :| 0 <= i < |s| && s[i] == k;
  }

  lemma SplitLast<T>(s: seq<T>)
    requires s != []
    ensures s[..|s| - 1] + [s[|s| - 1]] == s
  {}

  lemma WholeMultiples(d: int, n: int)
    requires n > 0
    ensures d >= 1 ==> d * n >= n
    ensures d <= -1 ==> d * n <= -n
  {
    if d >= 1 { assert (d - 1) * n >= 0; }
    if d <= -1 { assert (d + 1) * n <= 0; }
  }
}
