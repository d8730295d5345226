/** Word-count maps merged by addition: `result[k] += v` for every pair of another map,
    where a missing key of a `std::map<string,int>` reads as 0. */
module CountMaps {

  import opened Words

  type CountMap = map<string, int>

  /** `m[k]` of a `std::map<string,int>` read as a value: 0 when absent. */
  function Get(m: CountMap, k: string): int
  {
    if k in m then m[k] else 0
  }

  /** The sum-merge of two count maps. */
  function Add(a: CountMap, b: CountMap): CountMap
  {
    map k | k in a.Keys + b.Keys :: Get(a, k) + Get(b, k)
  }

  lemma AddCommutative(a: CountMap, b: CountMap)
    ensures Add(a, b) == Add(b, a)
  {
  }

  lemma AddAssociative(a: CountMap, b: CountMap, c: CountMap)
    ensures Add(Add(a, b), c) == Add(a, Add(b, c))
  {
  }

  lemma AddIdentity(a: CountMap)
    ensures Add(a, map[]) == a && Add(map[], a) == a
  {
  }

  /** Merging `temp` into `result` only touches the keys of `temp`. */
  lemma AddKeepsOtherKeys(result: CountMap, temp: CountMap, k: string)
    requires k !in temp
    ensures (k in Add(result, temp) <==> k in result)
    ensures k in result ==> Add(result, temp)[k] == result[k]
  {
  }

  /** Adds every count of `temp` into the entry of the same key of `result`. */
  method MergeInto(result: CountMap, temp: CountMap) returns (merged: CountMap)
    ensures merged == Add(result, temp)
  {
    merged := result;
    var rest := temp.Keys;
    while rest != {}
      invariant rest <= temp.Keys
      invariant merged.Keys == result.Keys + (temp.Keys - rest)
      invariant forall k :: k in merged ==> merged[k] == Get(result, k) + (if k in rest then 0 else Get(temp, k))
      decreases rest
    {
      var k :| k in rest;
      merged := merged[k := Get(merged, k) + temp[k]];
      rest := rest - {k};
    }
  }

  /** Left-to-right sum-merge of a sequence of maps, as a receiver adds them one by one. */
  function Sum(ms: seq<CountMap>): CountMap
  {
    if ms == [] then map[] else Add(Sum(ms[..|ms| - 1]), ms[|ms| - 1])
  }

  lemma {:induction false} SumAppend(a: seq<CountMap>, b: seq<CountMap>)
    ensures Sum(a + b) == Add(Sum(a), Sum(b))
    decreases |b|
  {
    if b == [] {
      assert a + b == a;
      AddIdentity(Sum(a));
    } else {
      var n := |b| - 1;
      assert (a + b)[..|a + b| - 1] == a + b[..n];
      SumAppend(a, b[..n]);
      AddAssociative(Sum(a), Sum(b[..n]), b[n]);
    }
  }

  lemma SumSingleton(m: CountMap)
    ensures Sum([m]) == m
  {
    assert [m][..0] == [];
    AddIdentity(m);
  }

  /** The merged result does not depend on the order in which the maps arrive. */
  lemma {:induction false} SumPermutation(a: seq<CountMap>, b: seq<CountMap>)
    requires multiset(a) == multiset(b)
    ensures Sum(a) == Sum(b)
    decreases |a|
  {
    if a != [] {
      var n := |a| - 1;
      var x := a[n];
      assert x in multiset(b) by { assert x in multiset(a); }
      var i :| 0 <= i < |b| && b[i] == x;
      var b' := b[..i] + b[i + 1..];
      assert b == b[..i] + [x] + b[i + 1..];
      assert a == a[..n] + [x];
      assert multiset(a) == multiset(a[..n]) + multiset{x};
      assert multiset(b) == multiset(b[..i]) + multiset{x} + multiset(b[i + 1..]);
      assert multiset(b') == multiset(b[..i]) + multiset(b[i + 1..]);
      assert multiset(a[..n]) == multiset(a) - multiset{x};
      assert multiset(b') == multiset(b) - multiset{x};
      SumPermutation(a[..n], b');
      calc {
        Sum(b);
        { SumAppend(b[..i] + [x], b[i + 1..]); }
        Add(Sum(b[..i] + [x]), Sum(b[i + 1..]));
        { SumAppend(b[..i], [x]); SumSingleton(x); }
        Add(Add(Sum(b[..i]), x), Sum(b[i + 1..]));
        { AddAssociative(Sum(b[..i]), x, Sum(b[i + 1..]));
          AddCommutative(x, Sum(b[i + 1..]));
          AddAssociative(Sum(b[..i]), Sum(b[i + 1..]), x); }
        Add(Add(Sum(b[..i]), Sum(b[i + 1..])), x);
        { SumAppend(b[..i], b[i + 1..]); }
        Add(Sum(b'), x);
        Add(Sum(a[..n]), x);
        Sum(a);
      }
    }
  }

  /** The count map of each element of `xs`, in order. */
  function MapEach<T>(f: T -> CountMap, xs: seq<T>): (ms: seq<CountMap>)
    ensures |ms| == |xs|
  {
    seq(|xs|, i requires 0 <= i < |xs| => f(xs[i]))
  }

  lemma MapEachAppend<T>(f: T -> CountMap, a: seq<T>, b: seq<T>)
    ensures MapEach(f, a + b) == MapEach(f, a) + MapEach(f, b)
  {
  }

  /** Reordering the elements reorders their count maps the same way. */
  lemma {:induction false} MapEachPermutation<T>(f: T -> CountMap, a: seq<T>, b: seq<T>)
    requires multiset(a) == multiset(b)
    ensures multiset(MapEach(f, a)) == multiset(MapEach(f, b))
    decreases |a|
  {
    if a != [] {
      var n := |a| - 1;
      var x := a[n];
      assert x in multiset(b) by { assert x in multiset(a); }
      var i :| 0 <= i < |b| && b[i] == x;
      var b' := b[..i] + b[i + 1..];
      assert b == b[..i] + [x] + b[i + 1..];
      assert a == a[..n] + [x];
      assert multiset(a[..n]) == multiset(a) - multiset{x};
      assert multiset(b') == multiset(b) - multiset{x};
      MapEachPermutation(f, a[..n], b');
      MapEachAppend(f, a[..n], [x]);
      MapEachAppend(f, b[..i] + [x], b[i + 1..]);
      MapEachAppend(f, b[..i], [x]);
      MapEachAppend(f, b[..i], b[i + 1..]);
    }
  }

  /** Adding up the counts of the elements does not depend on their order. */
  lemma SumEachPermutation<T>(f: T -> CountMap, a: seq<T>, b: seq<T>)
    requires multiset(a) == multiset(b)
    ensures Sum(MapEach(f, a)) == Sum(MapEach(f, b))
  {
    MapEachPermutation(f, a, b);
    SumPermutation(MapEach(f, a), MapEach(f, b));
  }

  /** Counting two texts separately and merging the maps counts their concatenation. */
  lemma CountsAppend(a: seq<string>, b: seq<string>)
    ensures Tally(a + b) == Add(Tally(a), Tally(b))
  {
    var l, r := Tally(a + b), Add(Tally(a), Tally(b));
    assert multiset(a + b) == multiset(a) + multiset(b);
    forall w | w in l
      ensures w in r && l[w] == r[w]
    {
    }
    assert l.Keys == r.Keys;
  }
}
