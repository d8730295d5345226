/** The rank-local map phase of the threaded MPI word count: `wordcount` of one path,
    the `engine` threads that drain the rank's `workqueue`, and the accounting that
    makes the reduction count every distributed path exactly once. */
module MpiThreaded {

  import opened Common
  import opened Words
  import opened CountMaps
  import opened FileTree
  import opened Distribution

  /** At most this many `engine` threads drain one rank's queue. */
  const MAXTHREADS: nat := 5

  /** What `stat` finds at a path: a path not in `fs` does not exist. */
  function Lookup(fs: map<string, Node>, p: string): Node
  {
    if p in fs then fs[p] else Missing
  }

  /** What `wordcount(path)` adds to `result`: the counts of a regular file that opens,
      nothing for anything else (directories are skipped, an unopenable file returns
      early). */
  function PathCounts(n: Node): CountMap
  {
    if n.Regular? then FileCounts(n.text) else map[]
  }

  /** `wordcount(path)`: counts the words of a regular file into `temp`, then adds
      `temp` into `result` under the lock. */
  method WordCountPath(result: CountMap, n: Node) returns (result': CountMap)
    ensures result' == Add(result, PathCounts(n))
  {
    if n.Regular? {
      if n.text.None? {
        AddIdentity(result);
        return result;
      }
      var temp := WordCount(n.text);
      result' := MergeInto(result, temp);
    } else {
      AddIdentity(result);
      result' := result;
    }
  }

  /** `numthreads = worksize < MAXTHREADS ? worksize : MAXTHREADS`. */
  function Threads(worksize: nat): (n: nat)
    ensures n <= MAXTHREADS && n <= worksize
    ensures worksize > 0 ==> n > 0
    ensures worksize >= MAXTHREADS ==> n == MAXTHREADS
  {
    if worksize < MAXTHREADS then worksize else MAXTHREADS
  }

  /** The counts the paths of a queue contribute. */
  function QueuedCounts(fs: map<string, Node>, q: seq<string>): CountMap
  {
    Sum(MapEach(p => PathCounts(Lookup(fs, p)), q))
  }

  lemma QueuedCountsStep(fs: map<string, Node>, q: seq<string>, i: nat)
    requires i < |q|
    ensures QueuedCounts(fs, q[..i + 1]) == Add(QueuedCounts(fs, q[..i]), PathCounts(Lookup(fs, q[i])))
  {
    var f := p => PathCounts(Lookup(fs, p));
    assert MapEach(f, q[..i + 1])[..i] == MapEach(f, q[..i]);
  }

  /** `slaveMap`: `Threads(|workqueue|)` engines pop the front of the queue and count
      it until the queue is empty. The threads interleave, so the order the paths are
      counted in is any order; the loop takes them front to back and
      `DrainOrderIrrelevant` shows every other order gives the same map. */
  method SlaveMap(result: CountMap, fs: map<string, Node>, workqueue: seq<string>)
    returns (result': CountMap, numthreads: nat)
    ensures numthreads == Threads(|workqueue|)
    ensures result' == Add(result, QueuedCounts(fs, workqueue))
  {
    numthreads := Threads(|workqueue|);
    result' := result;
    var queue := workqueue;
    ghost var i := 0;
    assert workqueue[..0] == [];
    AddIdentity(result);
    while queue != []
      invariant 0 <= i <= |workqueue| && queue == workqueue[i..]
      invariant result' == Add(result, QueuedCounts(fs, workqueue[..i]))
      decreases |queue|
    {
      var temp := queue[0];
      queue := queue[1..];
      QueuedCountsStep(fs, workqueue, i);
      AddAssociative(result, QueuedCounts(fs, workqueue[..i]), PathCounts(Lookup(fs, temp)));
      result' := WordCountPath(result', Lookup(fs, temp));
      i := i + 1;
    }
    assert workqueue[..i] == workqueue;
  }

  /** The counts of a queue do not depend on the order its paths are taken in. */
  lemma DrainOrderIrrelevant(fs: map<string, Node>, a: seq<string>, b: seq<string>)
    requires multiset(a) == multiset(b)
    ensures QueuedCounts(fs, a) == QueuedCounts(fs, b)
  {
    SumEachPermutation(p => PathCounts(Lookup(fs, p)), a, b);
  }

  /** The shares of ranks 0 .. n - 1, one after the other. */
  function Shares(ws: seq<string>, g: nat, n: nat): seq<string>
    requires g > 0
  {
    if n == 0 then [] else Shares(ws, g, n - 1) + Share(ws, g, n - 1)
  }

  /** The shares of ranks 0 .. n - 1 after one more item, from those of 0 .. n - 2. */
  lemma SharesExtendStep(ws: seq<string>, x: string, g: nat, n: nat)
    requires g > 0 && n > 0
    requires multiset(Shares(ws + [x], g, n - 1)) ==
      multiset(Shares(ws, g, n - 1)) + (if |ws| % g < n - 1 then multiset{x} else multiset{})
    ensures multiset(Shares(ws + [x], g, n)) ==
      multiset(Shares(ws, g, n)) + (if |ws| % g < n then multiset{x} else multiset{})
  {
    ShareStep(ws, x, g, n - 1);
    assert Shares(ws + [x], g, n) == Shares(ws + [x], g, n - 1) + Share(ws + [x], g, n - 1);
    assert Shares(ws, g, n) == Shares(ws, g, n - 1) + Share(ws, g, n - 1);
  }

  lemma {:induction false} SharesExtend(ws: seq<string>, x: string, g: nat, n: nat)
    requires g > 0
    ensures multiset(Shares(ws + [x], g, n)) ==
      multiset(Shares(ws, g, n)) + (if |ws| % g < n then multiset{x} else multiset{})
  {
    if n > 0 {
      SharesExtend(ws, x, g, n - 1);
      SharesExtendStep(ws, x, g, n);
    }
  }

  /** Every path is in exactly one rank's share: together the shares are a
      permutation of the listing. */
  lemma {:induction false} SharesPermute(ws: seq<string>, g: nat)
    requires g > 0
    ensures multiset(Shares(ws, g, g)) == multiset(ws)
    decreases |ws|
  {
    if ws == [] {
      SharesOfNothing(g, g);
    } else {
      var n := |ws| - 1;
      SharesPermute(ws[..n], g);
      SharesExtend(ws[..n], ws[n], g, g);
      assert ws[..n] + [ws[n]] == ws;
    }
  }

  lemma {:induction false} SharesOfNothing(g: nat, n: nat)
    requires g > 0
    ensures Shares([], g, n) == []
  {
    if n > 0 {
      SharesOfNothing(g, n - 1);
    }
  }

  /** What ranks 0 .. n - 1 count of their shares, added up in rank order. */
  function RankTotals(fs: map<string, Node>, ws: seq<string>, g: nat, n: nat): CountMap
    requires g > 0
  {
    if n == 0 then map[] else Add(RankTotals(fs, ws, g, n - 1), QueuedCounts(fs, Share(ws, g, n - 1)))
  }

  lemma QueuedCountsAppend(fs: map<string, Node>, a: seq<string>, b: seq<string>)
    ensures QueuedCounts(fs, a + b) == Add(QueuedCounts(fs, a), QueuedCounts(fs, b))
  {
    var f := p => PathCounts(Lookup(fs, p));
    MapEachAppend(f, a, b);
    SumAppend(MapEach(f, a), MapEach(f, b));
  }

  lemma {:induction false} RankTotalsShares(fs: map<string, Node>, ws: seq<string>, g: nat, n: nat)
    requires g > 0
    ensures RankTotals(fs, ws, g, n) == QueuedCounts(fs, Shares(ws, g, n))
  {
    if n == 0 {
      assert MapEach(p => PathCounts(Lookup(fs, p)), []) == [];
    } else {
      RankTotalsShares(fs, ws, g, n - 1);
      QueuedCountsAppend(fs, Shares(ws, g, n - 1), Share(ws, g, n - 1));
    }
  }

  /** Each rank counts its own share; added up over all ranks, every path of the
      listing is counted exactly once. */
  lemma EveryPathCountedOnce(fs: map<string, Node>, ws: seq<string>, g: nat)
    requires g > 0
    ensures RankTotals(fs, ws, g, g) == QueuedCounts(fs, ws)
  {
    RankTotalsShares(fs, ws, g, g);
    SharesPermute(ws, g);
    DrainOrderIrrelevant(fs, Shares(ws, g, g), ws);
  }

  /** The totals of ranks 1 .. n as rank 0 receives them, in rank order. */
  function WorkerTotals(fs: map<string, Node>, ws: seq<string>, g: nat, n: nat): (ms: seq<CountMap>)
    requires g > 0
    ensures |ms| == n
  {
    seq(n, i requires 0 <= i < n => QueuedCounts(fs, Share(ws, g, i + 1)))
  }

  lemma {:induction false} RankTotalsFromRoot(fs: map<string, Node>, ws: seq<string>, g: nat, n: nat)
    requires g > 0 && n > 0
    ensures RankTotals(fs, ws, g, n) == Add(QueuedCounts(fs, Share(ws, g, 0)), Sum(WorkerTotals(fs, ws, g, n - 1)))
  {
    var r0 := QueuedCounts(fs, Share(ws, g, 0));
    if n == 1 {
      assert RankTotals(fs, ws, g, 0) == map[];
      AddIdentity(r0);
    } else {
      RankTotalsFromRoot(fs, ws, g, n - 1);
      var prev := WorkerTotals(fs, ws, g, n - 2);
      assert WorkerTotals(fs, ws, g, n - 1)[..n - 2] == prev;
      AddAssociative(r0, Sum(prev), QueuedCounts(fs, Share(ws, g, n - 1)));
    }
  }

  /** Rank 0 adds what ranks 1 .. g - 1 counted into what it counted itself; in any
      order of arrival the outcome is the count of every path of the listing. */
  lemma RootTotal(fs: map<string, Node>, ws: seq<string>, g: nat, arrived: seq<CountMap>)
    requires g > 0
    requires multiset(arrived) == multiset(WorkerTotals(fs, ws, g, g - 1))
    ensures Add(QueuedCounts(fs, Share(ws, g, 0)), Sum(arrived)) == QueuedCounts(fs, ws)
  {
    SumPermutation(arrived, WorkerTotals(fs, ws, g, g - 1));
    RankTotalsFromRoot(fs, ws, g, g);
    EveryPathCountedOnce(fs, ws, g);
  }
}
