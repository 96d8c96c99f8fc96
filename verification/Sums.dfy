/** Finite sums: over a map's values, over a sequence, over an interval. The store
    iterators and Go's map ranges visit entries in an order no result may depend on. */
module Sums {

  /** The sum of f over the values of a map. */
  ghost function TotalBy<K, V>(m: map<K, V>, f: V -> int): int
    decreases |m|
  {
    if m == map[] then 0
    else
      var k :| k in m;
      f(m[k]) + TotalBy(m - {k}, f)
  }

  /** Any key may be summed first. */
  lemma {:induction false} TotalByPick<K, V>(m: map<K, V>, f: V -> int, k: K)
    requires k in m
    ensures TotalBy(m, f) == f(m[k]) + TotalBy(m - {k}, f)
    decreases |m|
  {
    var j :| j in m && TotalBy(m, f) == f(m[j]) + TotalBy(m - {j}, f);
    if j != k {
      TotalByPick(m - {j}, f, k);
      TotalByPick(m - {k}, f, j);
      assert m - {j} - {k} == m - {k} - {j};
    }
  }

  lemma TotalByInsert<K, V>(m: map<K, V>, f: V -> int, k: K, v: V)
    requires k !in m
    ensures TotalBy(m[k := v], f) == TotalBy(m, f) + f(v)
  {
    TotalByPick(m[k := v], f, k);
    assert m[k := v] - {k} == m;
  }

  /** Overwriting one entry moves the total by exactly the difference. */
  lemma TotalByUpdate<K, V>(m: map<K, V>, f: V -> int, k: K, v: V)
    requires k in m
    ensures TotalBy(m[k := v], f) == TotalBy(m, f) - f(m[k]) + f(v)
  {
    TotalByPick(m[k := v], f, k);
    TotalByPick(m, f, k);
    assert m[k := v] - {k} == m - {k};
  }

  lemma {:induction false} TotalByNonNegative<K, V>(m: map<K, V>, f: V -> int)
    requires forall k :: k in m ==> f(m[k]) >= 0
    ensures TotalBy(m, f) >= 0
    decreases |m|
  {
    if m != map[] {
      var k :| k in m;
      TotalByPick(m, f, k);
      TotalByNonNegative(m - {k}, f);
    }
  }

  /** A non-negative sum is at least each of its terms. */
  lemma TotalByAtLeast<K, V>(m: map<K, V>, f: V -> int, k: K)
    requires k in m
    requires forall j :: j in m ==> f(m[j]) >= 0
    ensures TotalBy(m, f) >= f(m[k])
  {
    TotalByPick(m, f, k);
    TotalByNonNegative(m - {k}, f);
  }

  lemma {:induction false} TotalByZero<K, V>(m: map<K, V>, f: V -> int)
    requires forall k :: k in m ==> f(m[k]) == 0
    ensures TotalBy(m, f) == 0
    decreases |m|
  {
    if m != map[] {
      var k :| k in m;
      TotalByPick(m, f, k);
      TotalByZero(m - {k}, f);
    }
  }

  function Sum(s: seq<int>): int {
    if s == [] then 0 else Sum(s[..|s| - 1]) + s[|s| - 1]
  }

  lemma {:induction false} SumConcat(a: seq<int>, b: seq<int>)
    ensures Sum(a + b) == Sum(a) + Sum(b)
  {
    if b == [] {
      assert a + b == a;
    } else {
      SumConcat(a, b[..|b| - 1]);
      assert (a + b)[..|a + b| - 1] == a + b[..|b| - 1];
    }
  }

  lemma SumHead(s: seq<int>)
    requires s != []
    ensures Sum(s) == s[0] + Sum(s[1..])
  {
    SumConcat([s[0]], s[1..]);
    assert s == [s[0]] + s[1..];
    assert [s[0]][..0] == [];
  }

  lemma {:induction false} SumMonotone(a: seq<int>, b: seq<int>)
    requires |a| == |b|
    requires forall i :: 0 <= i < |a| ==> a[i] <= b[i]
    ensures Sum(a) <= Sum(b)
  {
    if a != [] {
      SumMonotone(a[..|a| - 1], b[..|b| - 1]);
    }
  }

  lemma {:induction false} SumNonNegative(a: seq<int>)
    requires forall i :: 0 <= i < |a| ==> a[i] >= 0
    ensures Sum(a) >= 0
  {
    if a != [] {
      SumNonNegative(a[..|a| - 1]);
    }
  }

  /** Prefix sums of non-negative terms grow. */
  lemma {:induction false} SumPrefix(a: seq<int>, i: nat, j: nat)
    requires i <= j <= |a|
    requires forall k :: 0 <= k < |a| ==> a[k] >= 0
    ensures Sum(a[..i]) <= Sum(a[..j])
  {
    if i < j {
      SumPrefix(a, i, j - 1);
      assert a[..j][..j - 1] == a[..j - 1];
    }
  }
}
