/** The word count written against the `MapReduce` interface: the mapper emits
    `(word, 1)` for every token of a regular file, the values are collated per key,
    and the reducer emits each key once with the sum of its values. */
module WordCountMain {

  import opened Common
  import opened Words
  import opened CountMaps
  import opened FileTree
  import opened KeyOrder

  /** The sum of a vector of values; 0 for an empty one. */
  function SumInts(v: seq<int>): int
  {
    if v == [] then 0 else SumInts(v[..|v| - 1]) + v[|v| - 1]
  }

  /** `sum_vector`: adds the elements up in order. */
  method SumVector(v: seq<int>) returns (result: int)
    ensures result == SumInts(v)
  {
    result := 0;
    var i := 0;
    while i < |v|
      invariant 0 <= i <= |v|
      invariant result == SumInts(v[..i])
    {
      assert v[..i + 1][..i] == v[..i];
      result := result + v[i];
      i := i + 1;
    }
    assert v[..i] == v;
  }

  lemma {:induction false} SumIntsAppend(a: seq<int>, b: seq<int>)
    ensures SumInts(a + b) == SumInts(a) + SumInts(b)
    decreases |b|
  {
    if b == [] {
      assert a + b == a;
    } else {
      var n := |b| - 1;
      assert (a + b)[..|a + b| - 1] == a + b[..n];
      SumIntsAppend(a, b[..n]);
    }
  }

  /** How the mapper `wordcount` handles a path. */
  datatype Dispatch =
    | SkippedDirectory   // "is a dir! Skipping..."
    | Counted            // a regular file, read to the end
    | Unopened           // a regular file `ifstream::open` rejects: return, nothing emitted
    | Aborted            // neither: `MPI_Abort(MPI_COMM_WORLD, 1)`

  /** The pairs emitted for the tokens `ws`: `(word, 1)` each, in order. */
  function Emits(ws: seq<string>): (es: seq<(string, int)>)
    ensures |es| == |ws|
  {
    seq(|ws|, i requires 0 <= i < |ws| => (ws[i], 1))
  }

  /** The mapper `wordcount`: `node` is what `stat` reports for the path. */
  method MapPath(node: Node) returns (outcome: Dispatch, emits: seq<(string, int)>)
    ensures node.Directory? ==> outcome == SkippedDirectory
    ensures node.Regular? ==> outcome == (if node.text.None? then Unopened else Counted)
    ensures (node.Special? || node.Missing?) ==> outcome == Aborted
    ensures outcome == Counted ==> emits == Emits(Tokens(node.text.value))
    ensures outcome != Counted ==> emits == []
  {
    emits := [];
    match node {
      case Directory(_, _) =>
        outcome := SkippedDirectory;
      case Regular(text) =>
        if text.None? {
          return Unopened, emits;
        }
        var ws := Tokens(text.value);
        var i := 0;
        while i < |ws|
          invariant 0 <= i <= |ws|
          invariant emits == Emits(ws[..i])
        {
          emits := emits + [(ws[i], 1)];
          i := i + 1;
        }
        assert ws[..i] == ws;
        outcome := Counted;
      case Special =>
        outcome := Aborted;
      case Missing =>
        outcome := Aborted;
    }
  }

  /** Every emitted value collected under its key, in emission order. */
  function Collate(emits: seq<(string, int)>): map<string, seq<int>>
  {
    if emits == [] then map[]
    else
      var c := Collate(emits[..|emits| - 1]);
      var e := emits[|emits| - 1];
      c[e.0 := (if e.0 in c then c[e.0] else []) + [e.1]]
  }

  /** The reducer `output`: `emit_final(key, sum_vector(values))` once per collated
      key, in key order. */
  method Output(collated: map<string, seq<int>>) returns (finals: seq<(string, int)>, ghost order: seq<string>)
    ensures StrictlyAscending(order) && forall k :: k in order <==> k in collated
    ensures |finals| == |order|
    ensures forall i :: 0 <= i < |order| ==> finals[i] == (order[i], SumInts(collated[order[i]]))
  {
    var ks := AscendingKeys(collated.Keys);
    order := ks;
    finals := [];
    var i := 0;
    while i < |ks|
      invariant 0 <= i <= |ks| && |finals| == i
      invariant forall j :: 0 <= j < i ==> finals[j] == (ks[j], SumInts(collated[ks[j]]))
    {
      var s := SumVector(collated[ks[i]]);
      finals := finals + [(ks[i], s)];
      i := i + 1;
    }
  }

  /** Emitting one more token adds a 1 to the values of that token only. */
  lemma CollateLast(prev: seq<string>, x: string)
    ensures Emits(prev + [x]) == Emits(prev) + [(x, 1)]
    ensures var c := Collate(Emits(prev));
      Collate(Emits(prev + [x])) == c[x := (if x in c then c[x] else []) + [1]]
  {
    assert Emits(prev + [x]) == Emits(prev) + [(x, 1)];
    assert (Emits(prev) + [(x, 1)])[..|prev|] == Emits(prev);
  }

  /** The reduced value of `w` after one more token `x`. */
  lemma ReducedStep(prev: seq<string>, x: string, w: string)
    requires Collate(Emits(prev)).Keys == Tally(prev).Keys
    requires w in Tally(prev) ==> SumInts(Collate(Emits(prev))[w]) == Tally(prev)[w]
    requires w in prev + [x]
    ensures w in Collate(Emits(prev + [x]))
    ensures SumInts(Collate(Emits(prev + [x]))[w]) == Tally(prev + [x])[w]
  {
    CollateLast(prev, x);
    var c := Collate(Emits(prev));
    assert multiset(prev + [x]) == multiset(prev) + multiset{x};
    if w == x {
      var before := if x in c then c[x] else [];
      SumIntsAppend(before, [1]);
      assert [1][..0] == [];
      if x !in c {
        assert multiset(prev)[x] == 0;
      }
    } else {
      assert w in prev;
    }
  }

  /** Emitting `(word, 1)` per token and summing per key gives, for every word, its
      number of occurrences: the same map the direct counting builds. */
  lemma {:induction false} ReducedIsCount(ws: seq<string>)
    ensures Collate(Emits(ws)).Keys == Tally(ws).Keys
    ensures forall w :: w in Tally(ws) ==> SumInts(Collate(Emits(ws))[w]) == Tally(ws)[w]
    decreases |ws|
  {
    if ws != [] {
      var n := |ws| - 1;
      var prev, x := ws[..n], ws[n];
      ReducedIsCount(prev);
      assert ws == prev + [x];
      CollateLast(prev, x);
      forall w | w in Tally(ws)
        ensures SumInts(Collate(Emits(ws))[w]) == Tally(ws)[w]
      {
        ReducedStep(prev, x, w);
      }
    }
  }
}
