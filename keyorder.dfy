/** The order of `std::string` keys (`operator<`, character by character, a proper
    prefix first) and iteration over a `std::map` in that order. */
module KeyOrder {

  predicate Less(a: string, b: string)
  {
    |b| > 0 && (|a| == 0 || a[0] < b[0] || (a[0] == b[0] && Less(a[1..], b[1..])))
  }

  lemma {:induction false} LessIrreflexive(a: string)
    ensures !Less(a, a)
  {
    if |a| > 0 {
      LessIrreflexive(a[1..]);
    }
  }

  lemma {:induction false} LessTransitive(a: string, b: string, c: string)
    requires Less(a, b) && Less(b, c)
    ensures Less(a, c)
  {
    if |a| > 0 && a[0] == b[0] && b[0] == c[0] {
      LessTransitive(a[1..], b[1..], c[1..]);
    }
  }

  lemma {:induction false} LessTotal(a: string, b: string)
    requires a != b
    ensures Less(a, b) || Less(b, a)
  {
    if |a| > 0 && |b| > 0 && a[0] == b[0] {
      assert a == [a[0]] + a[1..] && b == [b[0]] + b[1..];
      LessTotal(a[1..], b[1..]);
    }
  }

  predicate StrictlyAscending(ks: seq<string>)
  {
    forall i, j :: 0 <= i < j < |ks| ==> Less(ks[i], ks[j])
  }

  predicate IsLeast(m: string, s: set<string>)
  {
    m in s && forall x :: x in s && x != m ==> Less(m, x)
  }

  lemma {:induction false} LeastExists(s: set<string>)
    requires s != {}
    ensures exists m :: IsLeast(m, s)
    decreases |s|
  {
    var x :| x in s;
    if s - {x} == {} {
      assert s == {x};
      assert IsLeast(x, s);
    } else {
      LeastExists(s - {x});
      var m :| IsLeast(m, s - {x});
      if Less(m, x) {
        assert IsLeast(m, s);
      } else {
        LessTotal(m, x);
        forall y | y in s && y != x
          ensures Less(x, y)
        {
          if y != m {
            LessTransitive(x, m, y);
          }
        }
        assert IsLeast(x, s);
      }
    }
  }

  /** The keys of a `std::map` in the order its iterator visits them. */
  method AscendingKeys(keys: set<string>) returns (ks: seq<string>)
    ensures StrictlyAscending(ks) && |ks| == |keys|
    ensures forall k :: k in ks <==> k in keys
  {
    ks := [];
    var rest := keys;
    while rest != {}
      invariant rest <= keys && |ks| + |rest| == |keys|
      invariant forall k :: k in ks <==> k in keys - rest
      invariant StrictlyAscending(ks)
      invariant forall i, r :: 0 <= i < |ks| && r in rest ==> Less(ks[i], r)
      decreases |rest|
    {
      LeastExists(rest);
      var m :| IsLeast(m, rest);
      ks := ks + [m];
      rest := rest - {m};
    }
  }

  lemma LeastUnique(m1: string, m2: string, s: set<string>)
    requires IsLeast(m1, s) && IsLeast(m2, s)
    ensures m1 == m2
  {
    if m1 != m2 {
      LessTransitive(m1, m2, m1);
      LessIrreflexive(m1);
    }
  }

  lemma HeadIsLeast(a: seq<string>)
    requires StrictlyAscending(a) && a != []
    ensures IsLeast(a[0], set k | k in a)
  {
    forall x | x in a && x != a[0]
      ensures Less(a[0], x)
    {
      var i :| 0 <= i < |a| && a[i] == x;
    }
  }

  /** Two strictly ascending sequences with the same elements are the same sequence,
      so the order of iteration depends only on the set of keys. */
  lemma {:induction false} AscendingUnique(a: seq<string>, b: seq<string>)
    requires StrictlyAscending(a) && StrictlyAscending(b)
    requires forall k :: k in a <==> k in b
    ensures a == b
  {
    if a != [] {
      assert b != [] by { assert a[0] in b; }
      var s := set k | k in a;
      assert s == set k | k in b;
      HeadIsLeast(a);
      HeadIsLeast(b);
      LeastUnique(a[0], b[0], s);
      forall k
        ensures k in a[1..] <==> k in b[1..]
      {
        if k in a[1..] {
          var i :| 1 <= i < |a| && a[i] == k;
          LessIrreflexive(k);
          assert k in a && k in b;
          var j :| 0 <= j < |b| && b[j] == k;
          assert j != 0;
          assert b[1..][j - 1] == k;
        }
        if k in b[1..] {
          var i :| 1 <= i < |b| && b[i] == k;
          LessIrreflexive(k);
          assert k in b && k in a;
          var j :| 0 <= j < |a| && a[j] == k;
          assert j != 0;
          assert a[1..][j - 1] == k;
        }
      }
      AscendingUnique(a[1..], b[1..]);
      assert a == [a[0]] + a[1..] && b == [b[0]] + b[1..];
    } else {
      forall k
        ensures multiset(b)[k] == 0
      {
        assert k !in a;
      }
      assert multiset(b) == multiset{};
      assert |b| == |multiset(b)|;
    }
  }
}
