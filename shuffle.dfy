/** The reduction of `wordcountmpithreaded.cpp`: every rank but 0 packs its count map
    into fixed-width `kv` records (`char key[128]` then an `int`) in key order and sends
    them to rank 0, which adds every received record into its own map. */
module Shuffle {

  import opened Words
  import opened CountMaps
  import opened CStrings
  import opened KeyOrder
  import FileTree
  import MpiThreaded
  import Distribution

  /** Width of the key buffer of a `kv` record. */
  const MAX_WORD_LEN: nat := 128

  /** A `kv` record: the raw key buffer and the count. */
  datatype Record = Record(key: seq<char>, value: int)

  /** The characters `strcpy(package[i].key, word.c_str())` writes: the word and its
      NUL, however long the word is. */
  function KeyCopyAsWritten(w: string): (bytes: seq<char>)
    ensures |bytes| == |w| + 1
  {
    w + [NUL]
  }

  /** A key copy that cannot leave the buffer: at most `MAX_WORD_LEN - 1` characters of
      the word followed by NUL, as `strncpy` with an explicit terminator gives. */
  function KeyField(w: string): (buf: seq<char>)
    ensures |buf| == MAX_WORD_LEN
    ensures |w| < MAX_WORD_LEN ==> buf == StrcpyInto(w, MAX_WORD_LEN)
  {
    if |w| < MAX_WORD_LEN then StrcpyInto(w, MAX_WORD_LEN)
    else StrcpyInto(w[..MAX_WORD_LEN - 1], MAX_WORD_LEN)
  }

  /** Keys the record format carries unchanged. */
  predicate Storable(w: string)
  {
    |w| < MAX_WORD_LEN && NulFree(w)
  }

  /** The key `result[temp.key]` turns a received record into. */
  function KeyOf(r: Record): string
  {
    CStr(r.key)
  }

  /** A short, NUL-free key survives the record unchanged. */
  lemma KeyFieldRoundTrip(w: string)
    requires Storable(w)
    ensures CStr(KeyField(w)) == w
  {
    StrcpyRoundTrip(w, MAX_WORD_LEN);
  }

  /** A word of exactly `MAX_WORD_LEN` characters is one token of a file, and copying
      it as written stores 129 characters into the 128 of `kv.key`. */
  lemma LongWordOverflowsAsWritten()
    ensures var w := seq(MAX_WORD_LEN, _ => 'a');
      Tokens(w + " ") == [w] && |KeyCopyAsWritten(w)| > MAX_WORD_LEN
  {
    var w := seq(MAX_WORD_LEN, _ => 'a');
    assert IsWord(w);
    TokensOfUnwords([w]);
    assert Unwords([w]) == w + " " + Unwords([]);
    assert w + " " + "" == w + " ";
  }

  /** The counts a sequence of records stands for, added up key by key. */
  function RecordsCounts(rs: seq<Record>): CountMap
  {
    if rs == [] then map[]
    else
      var r := rs[|rs| - 1];
      Add(RecordsCounts(rs[..|rs| - 1]), map[KeyOf(r) := r.value])
  }

  /** The records of `m` for the keys `ks`, one per key, in the order of `ks`. */
  function Records(ks: seq<string>, m: CountMap): (rs: seq<Record>)
    requires forall i :: 0 <= i < |ks| ==> ks[i] in m
    ensures |rs| == |ks|
  {
    seq(|ks|, i requires 0 <= i < |ks| => Record(KeyField(ks[i]), m[ks[i]]))
  }

  /** `result[key] += value`: a missing key starts from 0. */
  function Bump(m: CountMap, k: string, v: int): CountMap
  {
    m[k := Get(m, k) + v]
  }

  /** `result[key] += value` is adding a one-key map. */
  lemma BumpIsAdd(m: CountMap, k: string, v: int)
    ensures Bump(m, k, v) == Add(m, map[k := v])
  {
  }

  /** The part of `m` whose keys are listed in `ks`. */
  function Restrict(m: CountMap, ks: seq<string>): CountMap
  {
    map k | k in ks && k in m :: m[k]
  }

  lemma {:induction false} RecordsOfDistinctKeys(ks: seq<string>, m: CountMap)
    requires forall i :: 0 <= i < |ks| ==> ks[i] in m && Storable(ks[i])
    requires forall i, j :: 0 <= i < j < |ks| ==> ks[i] != ks[j]
    ensures RecordsCounts(Records(ks, m)) == Restrict(m, ks)
    decreases |ks|
  {
    if ks != [] {
      var n := |ks| - 1;
      var k := ks[n];
      assert Records(ks, m)[..n] == Records(ks[..n], m);
      RecordsOfDistinctKeys(ks[..n], m);
      KeyFieldRoundTrip(k);
      assert k !in ks[..n];
      var l, r := Restrict(m, ks), Add(Restrict(m, ks[..n]), map[k := m[k]]);
      forall x | x in l
        ensures x in r && l[x] == r[x]
      {
        if x != k {
          assert x in ks[..n];
        }
      }
      forall x | x in r
        ensures x in l
      {
        if x != k {
          assert x in ks[..n];
        }
      }
    }
  }

  /** Unpacking a package gives back the map it was packed from, when every key is
      short enough and NUL-free. */
  lemma PackRoundTrip(ks: seq<string>, m: CountMap)
    requires StrictlyAscending(ks) && forall k :: k in ks <==> k in m
    requires forall k :: k in m ==> Storable(k)
    ensures RecordsCounts(Records(ks, m)) == m
  {
    forall i, j | 0 <= i < j < |ks|
      ensures ks[i] != ks[j]
    {
      LessIrreflexive(ks[i]);
    }
    RecordsOfDistinctKeys(ks, m);
  }

  /** The sending side of `reduce`: one record per entry of `result`, in ascending key
      order, written to `package[i++]`. */
  method Pack(result: CountMap) returns (package: array<Record>, order: seq<string>)
    ensures fresh(package) && package.Length == |result|
    ensures StrictlyAscending(order) && forall k :: k in order <==> k in result
    ensures package[..] == Records(order, result)
  {
    var ks := AscendingKeys(result.Keys);
    order := ks;
    package := new Record[|ks|](_ => Record([], 0));
    var i := 0;
    while i < |ks|
      invariant 0 <= i <= |ks|
      invariant forall j :: 0 <= j < i ==> package[j] == Record(KeyField(ks[j]), result[ks[j]])
    {
      package[i] := Record(KeyField(ks[i]), result[ks[i]]);
      i := i + 1;
    }
  }

  /** `result[temp.key] += temp.value` for record `j` extends the merge by one record. */
  lemma MergeStep(result: CountMap, rs: seq<Record>, j: nat, merged: CountMap)
    requires j < |rs| && merged == Add(result, RecordsCounts(rs[..j]))
    ensures Bump(merged, KeyOf(rs[j]), rs[j].value) == Add(result, RecordsCounts(rs[..j + 1]))
  {
    var r := rs[j];
    BumpIsAdd(merged, KeyOf(r), r.value);
    assert rs[..j + 1][..j] == rs[..j];
    AddAssociative(result, RecordsCounts(rs[..j]), map[KeyOf(r) := r.value]);
  }

  /** The inner loop of the receiving side: every record of one package is added into
      `result[temp.key]`. */
  method MergePackage(result: CountMap, package: array<Record>) returns (merged: CountMap)
    ensures merged == Add(result, RecordsCounts(package[..]))
  {
    merged := result;
    ghost var rs := package[..];
    var j := 0;
    while j < package.Length
      invariant 0 <= j <= package.Length
      invariant merged == Add(result, RecordsCounts(rs[..j]))
    {
      var temp := package[j];
      MergeStep(result, rs, j, merged);
      merged := Bump(merged, KeyOf(temp), temp.value);
      j := j + 1;
    }
    assert rs[..j] == rs;
  }

  /** The records held by the received arrays `collect[0 .. world_size-2]`. */
  function Contents(collect: seq<array<Record>>): (ps: seq<seq<Record>>)
    reads collect
    ensures |ps| == |collect|
    ensures forall i :: 0 <= i < |collect| ==> ps[i] == collect[i][..]
  {
    if collect == [] then [] else Contents(collect[..|collect| - 1]) + [collect[|collect| - 1][..]]
  }

  /** Adding package `i` into the merge of the packages before it. */
  lemma PackagesStep(result: CountMap, ps: seq<seq<Record>>, i: nat, merged: CountMap)
    requires i < |ps| && merged == Add(result, Sum(MapEach(RecordsCounts, ps[..i])))
    ensures Add(merged, RecordsCounts(ps[i])) == Add(result, Sum(MapEach(RecordsCounts, ps[..i + 1])))
  {
    var cs := MapEach(RecordsCounts, ps[..i + 1]);
    assert cs[..i] == MapEach(RecordsCounts, ps[..i]);
    assert cs[i] == RecordsCounts(ps[i]);
    AddAssociative(result, Sum(MapEach(RecordsCounts, ps[..i])), RecordsCounts(ps[i]));
  }

  /** The receiving side of `reduce` once the packages are in: every package is added
      into rank 0's own `result`. */
  method MergePackages(result: CountMap, collect: seq<array<Record>>) returns (merged: CountMap)
    ensures merged == Add(result, Sum(MapEach(RecordsCounts, Contents(collect))))
  {
    ghost var ps := Contents(collect);
    merged := result;
    var i := 0;
    while i < |collect|
      invariant 0 <= i <= |collect|
      invariant merged == Add(result, Sum(MapEach(RecordsCounts, ps[..i])))
    {
      ghost var before := merged;
      merged := MergePackage(merged, collect[i]);
      PackagesStep(result, ps, i, before);
      i := i + 1;
    }
    assert ps[..i] == ps;
  }

  /** Rank 0 probes `MPI_ANY_SOURCE`, so the packages arrive in any order; the merged
      result is the same for every order. */
  lemma ArrivalOrderIrrelevant(result: CountMap, a: seq<seq<Record>>, b: seq<seq<Record>>)
    requires multiset(a) == multiset(b)
    ensures Add(result, Sum(MapEach(RecordsCounts, a))) == Add(result, Sum(MapEach(RecordsCounts, b)))
  {
    SumEachPermutation(RecordsCounts, a, b);
  }

  /** `p` is the package `reduce` builds from the map `m` on a worker: `Pack`'s records
      over the keys of `m` in ascending order, every key storable. */
  ghost predicate PackageOf(p: seq<Record>, m: CountMap, ks: seq<string>)
  {
    StrictlyAscending(ks) && (forall k :: k in ks <==> k in m) &&
    (forall k :: k in m ==> Storable(k)) &&
    (forall i :: 0 <= i < |ks| ==> ks[i] in m) && p == Records(ks, m)
  }

  /** Unpacking every worker's package gives back the worker maps, in order. */
  lemma PackagesCarryMaps(ps: seq<seq<Record>>, ms: seq<CountMap>, orders: seq<seq<string>>)
    requires |ps| == |ms| == |orders|
    requires forall i :: 0 <= i < |ps| ==> PackageOf(ps[i], ms[i], orders[i])
    ensures MapEach(RecordsCounts, ps) == ms
  {
    forall i | 0 <= i < |ps|
      ensures RecordsCounts(ps[i]) == ms[i]
    {
      PackRoundTrip(orders[i], ms[i]);
    }
  }

  /** End to end: each worker packs what it counted of its share (every word storable),
      the packages arrive at rank 0 in any order, and rank 0 adds them into its own
      count; the result is the count of every path of the listing. */
  lemma ReduceTotal(fs: map<string, FileTree.Node>, ws: seq<string>, g: nat,
                    packages: seq<seq<Record>>, orders: seq<seq<string>>, arrived: seq<seq<Record>>)
    requires g > 0 && |packages| == |orders| == g - 1
    requires forall i :: 0 <= i < g - 1 ==>
      PackageOf(packages[i], MpiThreaded.WorkerTotals(fs, ws, g, g - 1)[i], orders[i])
    requires multiset(arrived) == multiset(packages)
    ensures Add(MpiThreaded.QueuedCounts(fs, Distribution.Share(ws, g, 0)), Sum(MapEach(RecordsCounts, arrived))) ==
            MpiThreaded.QueuedCounts(fs, ws)
  {
    var totals := MpiThreaded.WorkerTotals(fs, ws, g, g - 1);
    PackagesCarryMaps(packages, totals, orders);
    MapEachPermutation(RecordsCounts, arrived, packages);
    MpiThreaded.RootTotal(fs, ws, g, MapEach(RecordsCounts, arrived));
  }

  /** Rank 0's side of `reduce` on the received arrays: starting from its own count, it
      ends with the count of every path of the listing. */
  method RootReduce(fs: map<string, FileTree.Node>, ws: seq<string>, g: nat, result: CountMap,
                    collect: seq<array<Record>>, ghost packages: seq<seq<Record>>, ghost orders: seq<seq<string>>)
    returns (merged: CountMap)
    requires g > 0 && |packages| == |orders| == g - 1
    requires result == MpiThreaded.QueuedCounts(fs, Distribution.Share(ws, g, 0))
    requires forall i :: 0 <= i < g - 1 ==>
      PackageOf(packages[i], MpiThreaded.WorkerTotals(fs, ws, g, g - 1)[i], orders[i])
    requires multiset(Contents(collect)) == multiset(packages)
    ensures merged == MpiThreaded.QueuedCounts(fs, ws)
  {
    merged := MergePackages(result, collect);
    ReduceTotal(fs, ws, g, packages, orders, Contents(collect));
  }
}
