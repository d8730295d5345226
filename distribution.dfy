/** How rank 0 hands out work in the threaded MPI word count and in the `MapReduce`
    class, whose `distributeTask`, `masterSendPath` and `receiveWork` are the same
    code: an even partition of a file count over the ranks, and a round-robin of the
    entries of the input directory over ranks 0 .. worldSize - 1, rank 0 keeping its
    share in its own queue. */
module Distribution {

  import opened Common
  import opened CStrings
  import opened FileTree
  import opened Messages

  // ----- the `sendcounts` / `displacement` partition -----

  /** Files for rank `i`: the quotient, plus one for each of the first `n % g` ranks. */
  function SendCount(n: nat, g: nat, i: nat): nat
    requires g > 0
  {
    n / g + (if i < n % g then 1 else 0)
  }

  function PrefixSum(xs: seq<int>): int
  {
    if xs == [] then 0 else PrefixSum(xs[..|xs| - 1]) + xs[|xs| - 1]
  }

  /** Every rank gets the quotient or one more, and exactly the first `n % g` ranks
      get one more. */
  lemma SendCountFair(n: nat, g: nat, i: nat)
    requires g > 0 && i < g
    ensures SendCount(n, g, i) == n / g || SendCount(n, g, i) == n / g + 1
    ensures SendCount(n, g, i) == n / g + 1 <==> i < n % g
  {
  }

  /** The first `k` counts add up to `k * (n / g) + min(k, n % g)`. */
  lemma {:induction false} PrefixOfCounts(xs: seq<int>, n: nat, g: nat)
    requires g > 0 && |xs| <= g
    requires forall j :: 0 <= j < |xs| ==> xs[j] == SendCount(n, g, j)
    ensures PrefixSum(xs) == |xs| * (n / g) + (if |xs| < n % g then |xs| else n % g)
    decreases |xs|
  {
    if xs != [] {
      var k := |xs| - 1;
      PrefixOfCounts(xs[..k], n, g);
      assert (k + 1) * (n / g) == k * (n / g) + n / g;
    }
  }

  /** The counts of all ranks add up to `n`: every file goes to some rank. */
  lemma CountsTotal(xs: seq<int>, n: nat, g: nat)
    requires g > 0 && |xs| == g
    requires forall j :: 0 <= j < |xs| ==> xs[j] == SendCount(n, g, j)
    ensures PrefixSum(xs) == n
  {
    PrefixOfCounts(xs, n, g);
  }

  /** The partition loop of `distributeTask`: `sendcounts[i]` starts at the quotient
      and takes one of the `remainder` extra files while any are left;
      `displacement[i]` is the running sum before it. */
  method Partition(numFiles: nat, worldSize: nat) returns (sendcounts: array<int>, displacement: array<int>)
    requires worldSize > 0
    ensures fresh(sendcounts) && fresh(displacement)
    ensures sendcounts.Length == worldSize && displacement.Length == worldSize
    ensures forall i :: 0 <= i < worldSize ==> sendcounts[i] == SendCount(numFiles, worldSize, i)
    ensures forall i :: 0 <= i < worldSize ==> displacement[i] == PrefixSum(sendcounts[..i])
    ensures PrefixSum(sendcounts[..]) == numFiles
  {
    var filesPerTask := numFiles / worldSize;
    var remainder := numFiles % worldSize;
    var sum := 0;
    sendcounts := new int[worldSize];
    displacement := new int[worldSize];
    var i := 0;
    while i < worldSize
      invariant 0 <= i <= worldSize
      invariant remainder == if i < numFiles % worldSize then numFiles % worldSize - i else 0
      invariant sum == PrefixSum(sendcounts[..i])
      invariant forall j :: 0 <= j < i ==> sendcounts[j] == SendCount(numFiles, worldSize, j)
      invariant forall j :: 0 <= j < i ==> displacement[j] == PrefixSum(sendcounts[..j])
    {
      sendcounts[i] := filesPerTask;
      if remainder > 0 {
        sendcounts[i] := sendcounts[i] + 1;
        remainder := remainder - 1;
      }
      displacement[i] := sum;
      assert sendcounts[..i + 1] == sendcounts[..i] + [sendcounts[i]];
      sum := sum + sendcounts[i];
      i := i + 1;
    }
    assert sendcounts[..] == sendcounts[..worldSize];
    CountsTotal(sendcounts[..], numFiles, worldSize);
  }

  // ----- the file list of `distributeTask` -----

  /** `dir + "/" + name` for every entry `readdir` reports as `DT_REG`, other than
      "." and "..", in listing order. */
  function RegularFiles(dir: string, es: seq<Entry>): (ws: seq<string>)
    ensures |ws| <= |es|
  {
    if es == [] then []
    else
      var e := es[|es| - 1];
      RegularFiles(dir, es[..|es| - 1]) + (if e.dtype == DtReg && !IsDotName(e.name) then [JoinPath(dir, e.name)] else [])
  }

  /** Whether entry `i` of `es` is a regular, non-dot entry whose path is `p`. */
  predicate ListedAt(dir: string, es: seq<Entry>, p: string, i: int)
  {
    0 <= i < |es| && es[i].dtype == DtReg && !IsDotName(es[i].name) && p == JoinPath(dir, es[i].name)
  }

  lemma {:induction false} RegularFilesSound(dir: string, es: seq<Entry>, p: string)
    requires p in RegularFiles(dir, es)
    ensures exists i :: ListedAt(dir, es, p, i)
    decreases |es|
  {
    var n := |es| - 1;
    if p in RegularFiles(dir, es[..n]) {
      RegularFilesSound(dir, es[..n], p);
      var i :| ListedAt(dir, es[..n], p, i);
      assert ListedAt(dir, es, p, i);
    } else {
      assert ListedAt(dir, es, p, n);
    }
  }

  lemma {:induction false} RegularFilesComplete(dir: string, es: seq<Entry>, p: string, i: int)
    requires ListedAt(dir, es, p, i)
    ensures p in RegularFiles(dir, es)
    decreases |es|
  {
    var n := |es| - 1;
    if i < n {
      assert ListedAt(dir, es[..n], p, i);
      RegularFilesComplete(dir, es[..n], p, i);
    }
  }

  /** A path is listed exactly when it is the path of a regular, non-dot entry. */
  lemma RegularFilesMembers(dir: string, es: seq<Entry>, p: string)
    ensures p in RegularFiles(dir, es) <==> exists i :: ListedAt(dir, es, p, i)
  {
    if p in RegularFiles(dir, es) {
      RegularFilesSound(dir, es, p);
    }
    if exists i :: ListedAt(dir, es, p, i) {
      var i :| ListedAt(dir, es, p, i);
      RegularFilesComplete(dir, es, p, i);
    }
  }

  /** A run of `distributeTask` on rank 0 ends with the file list and the partition,
      or with `MPI_Abort(code)`. */
  datatype Scan = Scanned(files: seq<string>) | Aborted(code: int)

  /** `distributeTask` on rank 0: `node` is what `stat` reports for `dirPath` and
      `errno` the error of a failing `opendir`. A non-directory aborts with -1, an
      unreadable one with `errno`; otherwise the regular files are collected and
      their number partitioned over the ranks (no partition when aborting). */
  method DistributeTask(dirPath: string, node: Node, worldSize: nat, errno: int)
    returns (scan: Scan, sendcounts: array<int>, displacement: array<int>)
    requires worldSize > 0
    ensures !node.Directory? ==> scan == Aborted(-1)
    ensures node.Directory? && !node.readable ==> scan == Aborted(errno)
    ensures scan.Aborted? ==> sendcounts.Length == 0 && displacement.Length == 0
    ensures node.Directory? && node.readable ==>
      scan == Scanned(RegularFiles(dirPath, node.entries)) &&
      sendcounts.Length == worldSize && displacement.Length == worldSize &&
      (forall i :: 0 <= i < worldSize ==> sendcounts[i] == SendCount(|scan.files|, worldSize, i)) &&
      (forall i :: 0 <= i < worldSize ==> displacement[i] == PrefixSum(sendcounts[..i])) &&
      PrefixSum(sendcounts[..]) == |scan.files|
  {
    if !node.Directory? || !node.readable {
      scan := if node.Directory? then Aborted(errno) else Aborted(-1);
      sendcounts := new int[0];
      displacement := new int[0];
      return;
    }
    var es := node.entries;
    var files := [];
    var i := 0;
    while i < |es|
      invariant 0 <= i <= |es|
      invariant files == RegularFiles(dirPath, es[..i])
    {
      var e := es[i];
      assert es[..i + 1][..i] == es[..i];
      if e.dtype == DtReg && !IsDotName(e.name) {
        files := files + [JoinPath(dirPath, e.name)];
      }
      i := i + 1;
    }
    assert es[..i] == es;
    scan := Scanned(files);
    sendcounts, displacement := Partition(|files|, worldSize);
  }

  // ----- the round-robin of `masterSendPath` -----

  /** The items whose position `k` in `ws` has `k % g == r`, in order. */
  function Share(ws: seq<string>, g: nat, r: int): seq<string>
    requires g > 0
  {
    if ws == [] then []
    else
      var k := |ws| - 1;
      Share(ws[..k], g, r) + (if k % g == r then [ws[k]] else [])
  }

  predicate Fit(ws: seq<string>, pathMax: nat)
  {
    forall i :: 0 <= i < |ws| ==> |ws[i]| < pathMax
  }

  /** The work messages for the ranks other than 0: the buffer `char newpath[path_max]`
      holding item `k`, sent whole to rank `k % g` with tag 0. */
  function WorkSends(ws: seq<string>, g: nat, pathMax: nat): seq<Message>
    requires g > 0 && Fit(ws, pathMax)
  {
    if ws == [] then []
    else
      var k := |ws| - 1;
      WorkSends(ws[..k], g, pathMax) + (if k % g == 0 then [] else [Message(k % g, WORK_TAG, StrcpyInto(ws[k], pathMax))])
  }

  /** Euclidean division has one quotient and one remainder. */
  lemma DivModUnique(a: nat, g: nat, q: int, m: int)
    requires g > 0 && 0 <= m < g && a == q * g + m
    ensures a / g == q && a % g == m
  {
    var q', m' := a / g, a % g;
    assert a == q' * g + m';
    assert (q - q') * g == m' - m;
    if q > q' {
      assert (q - q') * g >= g by { MulAtLeast(q - q', g); }
    } else if q < q' {
      assert (q' - q) * g >= g by { MulAtLeast(q' - q, g); }
    }
  }

  lemma MulAtLeast(x: int, g: nat)
    requires x >= 1
    ensures x * g >= g
  {
    assert x * g == (x - 1) * g + g;
    assert (x - 1) * g >= 0;
  }

  lemma DivModNext(k: nat, g: nat)
    requires g > 0
    ensures k % g == g - 1 ==> (k + 1) / g == k / g + 1 && (k + 1) % g == 0
    ensures k % g < g - 1 ==> (k + 1) / g == k / g && (k + 1) % g == k % g + 1
  {
    var q, m := k / g, k % g;
    assert k == q * g + m;
    if m == g - 1 {
      assert k + 1 == (q + 1) * g + 0;
      DivModUnique(k + 1, g, q + 1, 0);
    } else {
      DivModUnique(k + 1, g, q, m + 1);
    }
  }

  /** Round-robin is fair: rank `r` is handed exactly `SendCount(|ws|, g, r)` items,
      the share the partition of `distributeTask` would give it. */
  lemma {:induction false} ShareSize(ws: seq<string>, g: nat, r: nat)
    requires 0 <= r < g
    ensures |Share(ws, g, r)| == SendCount(|ws|, g, r)
    decreases |ws|
  {
    if ws != [] {
      var k := |ws| - 1;
      ShareSize(ws[..k], g, r);
      DivModNext(k, g);
    }
  }

  /** Every item goes to exactly one rank: a path in `ws` at position `k` is in the
      share of `k % g`. */
  lemma {:induction false} ShareOfItem(ws: seq<string>, g: nat, k: nat)
    requires g > 0 && k < |ws|
    ensures ws[k] in Share(ws, g, k % g)
    decreases |ws|
  {
    var n := |ws| - 1;
    if k < n {
      ShareOfItem(ws[..n], g, k);
    }
  }

  /** One more item extends the share of rank `|ws| % g` only. */
  lemma ShareStep(ws: seq<string>, x: string, g: nat, r: int)
    requires g > 0
    ensures Share(ws + [x], g, r) == Share(ws, g, r) + (if |ws| % g == r then [x] else [])
  {
    assert (ws + [x])[..|ws|] == ws;
  }

  /** No work message is addressed to rank 0 or to a rank outside the world, and all
      carry tag 0. */
  lemma {:induction false} WorkSendsRanks(ws: seq<string>, g: nat, pathMax: nat)
    requires g > 0 && Fit(ws, pathMax)
    ensures forall m :: m in WorkSends(ws, g, pathMax) ==> 1 <= m.dest < g && m.tag == WORK_TAG
    decreases |ws|
  {
    if ws != [] {
      WorkSendsRanks(ws[..|ws| - 1], g, pathMax);
    }
  }

  /** The message item `k` produces, if any. */
  function SendOf(w: string, k: nat, g: nat, pathMax: nat): seq<Message>
    requires g > 0 && |w| < pathMax
  {
    if k % g == 0 then [] else [Message(k % g, WORK_TAG, StrcpyInto(w, pathMax))]
  }

  lemma SendOfInbox(w: string, k: nat, g: nat, pathMax: nat, r: nat)
    requires 1 <= r < g && |w| < pathMax && NulFree(w)
    ensures Payloads(Inbox(SendOf(w, k, g, pathMax), r)) == (if k % g == r then [w] else [])
    ensures forall i :: 0 <= i < |Inbox(SendOf(w, k, g, pathMax), r)| ==> Inbox(SendOf(w, k, g, pathMax), r)[i].tag == WORK_TAG
  {
    var m := SendOf(w, k, g, pathMax);
    if m != [] {
      assert m[..0] == [];
      StrcpyRoundTrip(w, pathMax);
    }
  }

  lemma PayloadsAppend(a: seq<Message>, b: seq<Message>)
    ensures Payloads(a + b) == Payloads(a) + Payloads(b)
  {
  }

  /** What rank `r` receives of the work messages is its share, in order. */
  lemma {:induction false} WorkSendsInbox(ws: seq<string>, g: nat, pathMax: nat, r: nat)
    requires 1 <= r < g && Fit(ws, pathMax)
    requires forall i :: 0 <= i < |ws| ==> NulFree(ws[i])
    ensures Payloads(Inbox(WorkSends(ws, g, pathMax), r)) == Share(ws, g, r)
    ensures forall i :: 0 <= i < |Inbox(WorkSends(ws, g, pathMax), r)| ==> Inbox(WorkSends(ws, g, pathMax), r)[i].tag == WORK_TAG
    decreases |ws|
  {
    if ws != [] {
      var k := |ws| - 1;
      var prev := ws[..k];
      assert Fit(prev, pathMax);
      WorkSendsInbox(prev, g, pathMax, r);
      var last := SendOf(ws[k], k, g, pathMax);
      assert WorkSends(ws, g, pathMax) == WorkSends(prev, g, pathMax) + last;
      InboxAppend(WorkSends(prev, g, pathMax), last, r);
      SendOfInbox(ws[k], k, g, pathMax, r);
      PayloadsAppend(Inbox(WorkSends(prev, g, pathMax), r), Inbox(last, r));
    }
  }

  /** How `masterSendPath` ends: after sending every end message, returning early
      because `opendir` failed, or calling `exit(1)` because the input is not a
      directory. */
  datatype SendOutcome = Distributed | OpenFailed | NotADirectory

  /** The work paths of a readable directory: its non-dot entries joined to `path`. */
  function WorkPaths(path: string, es: seq<Entry>): (ws: seq<string>)
    ensures |ws| <= |es|
  {
    if es == [] then []
    else (if IsDotName(es[0].name) then [] else [JoinPath(path, es[0].name)]) + WorkPaths(path, es[1..])
  }

  /** One more item extends rank 0's share or the messages, by the `k % g` rule. */
  lemma ShareSendsStep(done: seq<string>, x: string, g: nat, pathMax: nat)
    requires g > 0 && Fit(done, pathMax) && |x| < pathMax
    ensures Fit(done + [x], pathMax)
    ensures Share(done + [x], g, 0) == Share(done, g, 0) + (if |done| % g == 0 then [x] else [])
    ensures WorkSends(done + [x], g, pathMax) == WorkSends(done, g, pathMax) + SendOf(x, |done|, g, pathMax)
  {
    assert (done + [x])[..|done|] == done;
  }

  lemma EntryStep(path: string, es: seq<Entry>, i: nat)
    requires i < |es|
    ensures WorkPaths(path, es[i..]) ==
      (if IsDotName(es[i].name) then [] else [JoinPath(path, es[i].name)]) + WorkPaths(path, es[i + 1..])
  {
    assert es[i..][1..] == es[i + 1..];
  }

  /** The loop invariant of a `readdir` loop: the work paths of the entries seen so
      far, then those of the rest. */
  lemma WorkPathsStep(path: string, es: seq<Entry>, i: nat, done: seq<string>)
    requires i < |es| && WorkPaths(path, es) == done + WorkPaths(path, es[i..])
    ensures WorkPaths(path, es) ==
      (done + if IsDotName(es[i].name) then [] else [JoinPath(path, es[i].name)]) + WorkPaths(path, es[i + 1..])
  {
    EntryStep(path, es, i);
  }

  lemma WorkPathsDone(path: string, es: seq<Entry>, done: seq<string>)
    requires WorkPaths(path, es) == done + WorkPaths(path, es[|es|..])
    ensures done == WorkPaths(path, es)
  {
    assert es[|es|..] == [];
  }

  /** Every non-dot entry's joined path fits `char newpath[path_max]` with its NUL. */
  predicate EntriesFit(path: string, es: seq<Entry>, pathMax: nat)
  {
    forall i :: 0 <= i < |es| && !IsDotName(es[i].name) ==> |JoinPath(path, es[i].name)| < pathMax
  }

  lemma {:induction false} EntriesFitPaths(path: string, es: seq<Entry>, pathMax: nat)
    requires EntriesFit(path, es, pathMax)
    ensures Fit(WorkPaths(path, es), pathMax)
    decreases |es|
  {
    if es != [] {
      assert EntriesFit(path, es[1..], pathMax) by {
        forall i | 0 <= i < |es| - 1 && !IsDotName(es[1..][i].name)
          ensures |JoinPath(path, es[1..][i].name)| < pathMax
        {
          assert es[1..][i] == es[i + 1];
        }
      }
      EntriesFitPaths(path, es[1..], pathMax);
    }
  }

  /** `dest = (dest + 1) % worldSize` keeps `dest` the rank of the next position. */
  lemma NextRank(k: nat, g: nat)
    requires g > 0
    ensures (k + 1) % g == (k % g + 1) % g
  {
    DivModNext(k, g);
    if k % g + 1 < g {
      DivModUnique(k % g + 1, g, 0, k % g + 1);
    } else {
      DivModUnique(k % g + 1, g, 1, 0);
    }
  }

  /** The state after handing out `newpath`, in both cases of `dest`. */
  lemma HandOutStep(newpath: string, dest: nat, worldSize: nat, pathMax: nat, done: seq<string>,
                    queue0: seq<string>, queue: seq<string>, sends: seq<Message>)
    requires worldSize > 0 && Fit(done, pathMax) && |newpath| < pathMax
    requires dest == |done| % worldSize
    requires queue == queue0 + Share(done, worldSize, 0)
    requires sends == WorkSends(done, worldSize, pathMax)
    ensures Fit(done + [newpath], pathMax)
    ensures (dest + 1) % worldSize == |done + [newpath]| % worldSize
    ensures dest == 0 ==> queue + [newpath] == queue0 + Share(done + [newpath], worldSize, 0)
    ensures dest == 0 ==> sends == WorkSends(done + [newpath], worldSize, pathMax)
    ensures dest != 0 ==> queue == queue0 + Share(done + [newpath], worldSize, 0)
    ensures dest != 0 ==>
      sends + [Message(dest, WORK_TAG, StrcpyInto(newpath, pathMax))] == WorkSends(done + [newpath], worldSize, pathMax)
  {
    ShareSendsStep(done, newpath, worldSize, pathMax);
    var share := Share(done, worldSize, 0);
    if dest == 0 {
      assert queue + [newpath] == queue0 + (share + [newpath]);
    } else {
      assert share + [] == share;
    }
    NextRank(|done|, worldSize);
  }

  /** One non-dot entry of the `readdir` loop: rank 0 keeps `newpath` in its own work
      queue, any other `dest` is sent the buffer holding it; then `dest` moves on. */
  method HandOut(newpath: string, dest: nat, worldSize: nat, pathMax: nat, ghost done: seq<string>,
                 ghost queue0: seq<string>, queue: seq<string>, sends: seq<Message>)
    returns (dest': nat, queue': seq<string>, sends': seq<Message>)
    requires worldSize > 0 && Fit(done, pathMax) && |newpath| < pathMax
    requires dest == |done| % worldSize
    requires queue == queue0 + Share(done, worldSize, 0)
    requires sends == WorkSends(done, worldSize, pathMax)
    ensures Fit(done + [newpath], pathMax)
    ensures dest' == |done + [newpath]| % worldSize
    ensures queue' == queue0 + Share(done + [newpath], worldSize, 0)
    ensures sends' == WorkSends(done + [newpath], worldSize, pathMax)
  {
    HandOutStep(newpath, dest, worldSize, pathMax, done, queue0, queue, sends);
    queue', sends' := queue, sends;
    if dest == 0 {
      queue' := queue' + [newpath];
    } else {
      sends' := sends' + [Message(dest, WORK_TAG, StrcpyInto(newpath, pathMax))];
    }
    dest' := (dest + 1) % worldSize;
  }

  /** One pass of the `readdir` loop: "." and ".." are skipped, any other entry's
      joined path is handed out. */
  method Visit(path: string, es: seq<Entry>, i: nat, pathMax: nat, worldSize: nat, ghost done: seq<string>,
               dest: nat, ghost queue0: seq<string>, queue: seq<string>, sends: seq<Message>)
    returns (ghost done': seq<string>, dest': nat, queue': seq<string>, sends': seq<Message>)
    requires worldSize > 0 && i < |es| && EntriesFit(path, es, pathMax)
    requires WorkPaths(path, es) == done + WorkPaths(path, es[i..])
    requires Fit(done, pathMax) && dest == |done| % worldSize
    requires queue == queue0 + Share(done, worldSize, 0)
    requires sends == WorkSends(done, worldSize, pathMax)
    ensures WorkPaths(path, es) == done' + WorkPaths(path, es[i + 1..])
    ensures Fit(done', pathMax) && dest' == |done'| % worldSize
    ensures queue' == queue0 + Share(done', worldSize, 0)
    ensures sends' == WorkSends(done', worldSize, pathMax)
  {
    var e := es[i];
    WorkPathsStep(path, es, i, done);
    done', dest', queue', sends' := done, dest, queue, sends;
    if !IsDotName(e.name) {
      var newpath := JoinPath(path, e.name);
      dest', queue', sends' := HandOut(newpath, dest, worldSize, pathMax, done, queue0, queue, sends);
      done' := done + [newpath];
    }
  }

  /** The `readdir` loop of `masterSendPath`: `dest` runs through 0 .. worldSize - 1
      as the non-dot entries are handed out. */
  method SendEntries(path: string, es: seq<Entry>, pathMax: nat, worldSize: nat, queue: seq<string>)
    returns (sends: seq<Message>, queue': seq<string>)
    requires worldSize > 0 && EntriesFit(path, es, pathMax)
    ensures Fit(WorkPaths(path, es), pathMax)
    ensures queue' == queue + Share(WorkPaths(path, es), worldSize, 0)
    ensures sends == WorkSends(WorkPaths(path, es), worldSize, pathMax)
  {
    sends, queue' := [], queue;
    ghost var done: seq<string> := [];
    var dest: nat := 0;
    var i := 0;
    assert es[0..] == es;
    while i < |es|
      invariant 0 <= i <= |es|
      invariant WorkPaths(path, es) == done + WorkPaths(path, es[i..])
      invariant Fit(done, pathMax) && dest == |done| % worldSize
      invariant queue' == queue + Share(done, worldSize, 0)
      invariant sends == WorkSends(done, worldSize, pathMax)
    {
      done, dest, queue', sends := Visit(path, es, i, pathMax, worldSize, done, dest, queue, queue', sends);
      i := i + 1;
    }
    WorkPathsDone(path, es, done);
  }

  /** The closing loop of `masterSendPath`: one end message to each rank 1 .. worldSize - 1. */
  method SendEnds(worldSize: nat, sends: seq<Message>) returns (sends': seq<Message>)
    requires worldSize > 0
    ensures sends' == sends + EndMessages(worldSize)
  {
    sends' := sends;
    var i := 1;
    while i < worldSize
      invariant 1 <= i <= worldSize
      invariant sends' == sends + EndMessages(i)
    {
      sends' := sends' + [EndMessage(i)];
      i := i + 1;
    }
  }

  /** `masterSendPath`: `node` is what `stat` reports for `path`, `queue` the local
      work queue of rank 0. The `k`-th non-dot entry goes to rank `k % worldSize`:
      onto `queue` for rank 0, in a tag-0 message otherwise; then every other rank
      gets one end message. `strcpy` into `char newpath[path_max]` demands that every
      joined path fit with its NUL. */
  method MasterSendPath(path: string, node: Node, pathMax: nat, worldSize: nat, queue: seq<string>)
    returns (outcome: SendOutcome, sends: seq<Message>, queue': seq<string>)
    requires worldSize > 0
    requires node.Directory? && node.readable ==> EntriesFit(path, node.entries, pathMax)
    ensures outcome == (if !node.Directory? then NotADirectory else if !node.readable then OpenFailed else Distributed)
    ensures outcome != Distributed ==> sends == [] && queue' == queue
    ensures outcome == Distributed ==>
      Fit(WorkPaths(path, node.entries), pathMax) &&
      queue' == queue + Share(WorkPaths(path, node.entries), worldSize, 0) &&
      sends == WorkSends(WorkPaths(path, node.entries), worldSize, pathMax) + EndMessages(worldSize)
  {
    sends, queue' := [], queue;
    if !node.Directory? {
      return NotADirectory, sends, queue';
    }
    if !node.readable {
      return OpenFailed, sends, queue';
    }
    sends, queue' := SendEntries(path, node.entries, pathMax, worldSize, queue);
    sends := SendEnds(worldSize, sends);
    outcome := Distributed;
  }

  lemma {:induction false} InboxNone(sends: seq<Message>, r: int)
    requires forall m :: m in sends ==> m.dest != r
    ensures Inbox(sends, r) == []
    decreases |sends|
  {
    if sends != [] {
      var n := |sends| - 1;
      assert forall m :: m in sends[..n] ==> m in sends;
      InboxNone(sends[..n], r);
    }
  }

  /** End to end: after `masterSendPath` sent everything, `receiveWork` on rank `r > 0`
      queues exactly the paths of its share, in order, and stops at its end message;
      no message goes to rank 0. */
  lemma DistributedWork(ws: seq<string>, g: nat, pathMax: nat, r: nat)
    requires g > 0 && r < g && Fit(ws, pathMax)
    requires forall i :: 0 <= i < |ws| ==> NulFree(ws[i])
    ensures r == 0 ==> Inbox(WorkSends(ws, g, pathMax) + EndMessages(g), r) == []
    ensures r > 0 ==> WorkBeforeEnd(Inbox(WorkSends(ws, g, pathMax) + EndMessages(g), r)) == Share(ws, g, r)
    ensures r > 0 ==> HasEnd(Inbox(WorkSends(ws, g, pathMax) + EndMessages(g), r))
  {
    var w := WorkSends(ws, g, pathMax);
    InboxAppend(w, EndMessages(g), r);
    EndMessagesInbox(g, r);
    WorkSendsRanks(ws, g, pathMax);
    if r == 0 {
      InboxNone(w, 0);
    } else {
      WorkSendsInbox(ws, g, pathMax, r);
      var a := Inbox(w, r);
      WorkBeforeEndAppend(a, [EndMessage(r)]);
      assert [EndMessage(r)][0].tag == END_TAG;
    }
  }
}
