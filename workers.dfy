/** The message-passing prototype in which rank 0 only hands out work: the `k`-th
    non-dot entry of the input directory goes to worker `1 + k % (worldSize - 1)`,
    then every worker gets one tag-1 end message; a worker receives until that end
    message. Path limits are configured on every rank (`start` before the role split),
    as `Limits.Configure` models. */
module WorkersOnly {

  import opened Common
  import opened CStrings
  import opened FileTree
  import opened Messages
  import opened Distribution
  import MpiThreaded

  /** The worker that item `k` goes to: `slave + 1` with `slave` cycling through
      0 .. worldSize - 2. */
  function WorkerOf(k: nat, g: nat): (r: nat)
    requires g >= 2
    ensures 1 <= r < g
    ensures r - 1 == k % (g - 1)
  {
    1 + k % (g - 1)
  }

  /** The work messages: the buffer holding item `k`, sent whole to `WorkerOf(k, g)`
      with tag 0. With a single rank there is no worker, so only an empty list has
      messages defined. */
  function WorkerSends(ws: seq<string>, g: nat, pathMax: nat): seq<Message>
    requires (g >= 2 || ws == []) && Fit(ws, pathMax)
  {
    if ws == [] then []
    else
      var k := |ws| - 1;
      WorkerSends(ws[..k], g, pathMax) + [Message(WorkerOf(k, g), WORK_TAG, StrcpyInto(ws[k], pathMax))]
  }

  /** How `masterSendPath` ends: with every end message sent; returning early because
      `opendir` failed; or failing on its first send because the world has no rank
      besides 0 (the send to rank 1 and `% (world_size - 1)` cannot succeed). */
  datatype MasterOutcome = Finished | Unreadable | NoWorkers

  /** One pass of the `readdir` loop with at least one worker: "." and ".." are
      skipped; any other entry's buffer goes to `dest = slave + 1`, then
      `slave = (slave + 1) % (world_size - 1)`. */
  method Visit(path: string, es: seq<Entry>, i: nat, pathMax: nat, worldSize: nat,
               ghost done: seq<string>, slave: nat, sends: seq<Message>)
    returns (ghost done': seq<string>, slave': nat, sends': seq<Message>)
    requires worldSize >= 2 && i < |es| && EntriesFit(path, es, pathMax)
    requires WorkPaths(path, es) == done + WorkPaths(path, es[i..])
    requires Fit(done, pathMax) && slave == |done| % (worldSize - 1)
    requires sends == WorkerSends(done, worldSize, pathMax)
    ensures WorkPaths(path, es) == done' + WorkPaths(path, es[i + 1..])
    ensures Fit(done', pathMax) && slave' == |done'| % (worldSize - 1)
    ensures sends' == WorkerSends(done', worldSize, pathMax)
  {
    var e := es[i];
    WorkPathsStep(path, es, i, done);
    done', slave', sends' := done, slave, sends;
    if !IsDotName(e.name) {
      var newpath := JoinPath(path, e.name);
      assert (done + [newpath])[..|done|] == done;
      var dest := slave + 1;
      sends' := sends + [Message(dest, WORK_TAG, StrcpyInto(newpath, pathMax))];
      slave' := (slave + 1) % (worldSize - 1);
      NextRank(|done|, worldSize - 1);
      done' := done + [newpath];
    }
  }

  /** With a single rank the first non-dot entry is sent to rank 1, which does not
      exist: the run fails exactly when there is such an entry. */
  method FirstWork(path: string, es: seq<Entry>) returns (found: bool)
    ensures found <==> WorkPaths(path, es) != []
  {
    var i := 0;
    assert es[0..] == es;
    while i < |es|
      invariant 0 <= i <= |es|
      invariant WorkPaths(path, es) == WorkPaths(path, es[i..])
    {
      EntryStep(path, es, i);
      if !IsDotName(es[i].name) {
        return true;
      }
      i := i + 1;
    }
    assert es[i..] == [];
    found := false;
  }

  /** The `readdir` loop: each non-dot entry is handed to the next worker; with no
      worker the first one fails the run. */
  method SendToWorkers(path: string, es: seq<Entry>, pathMax: nat, worldSize: nat)
    returns (noWorkers: bool, sends: seq<Message>)
    requires worldSize >= 1 && EntriesFit(path, es, pathMax)
    ensures Fit(WorkPaths(path, es), pathMax)
    ensures noWorkers <==> worldSize == 1 && WorkPaths(path, es) != []
    ensures noWorkers ==> sends == []
    ensures !noWorkers ==> sends == WorkerSends(WorkPaths(path, es), worldSize, pathMax)
  {
    EntriesFitPaths(path, es, pathMax);
    sends := [];
    if worldSize == 1 {
      noWorkers := FirstWork(path, es);
      return;
    }
    noWorkers := false;
    ghost var done: seq<string> := [];
    var slave: nat := 0;
    var i := 0;
    assert es[0..] == es;
    while i < |es|
      invariant 0 <= i <= |es|
      invariant WorkPaths(path, es) == done + WorkPaths(path, es[i..])
      invariant Fit(done, pathMax) && slave == |done| % (worldSize - 1)
      invariant sends == WorkerSends(done, worldSize, pathMax)
    {
      done, slave, sends := Visit(path, es, i, pathMax, worldSize, done, slave, sends);
      i := i + 1;
    }
    WorkPathsDone(path, es, done);
  }

  /** `masterSendPath`: `node` is what `stat` reports for `path`. A readable directory
      has its non-dot entries handed to the workers in turn; a path that is not a
      directory only gets the end messages; an unreadable directory gets none. */
  method MasterSendPath(path: string, node: Node, pathMax: nat, worldSize: nat)
    returns (outcome: MasterOutcome, sends: seq<Message>)
    requires worldSize >= 1
    requires node.Directory? && node.readable ==> EntriesFit(path, node.entries, pathMax)
    ensures !node.Directory? ==> outcome == Finished && sends == EndMessages(worldSize)
    ensures node.Directory? && !node.readable ==> outcome == Unreadable && sends == []
    ensures node.Directory? && node.readable ==>
      Fit(WorkPaths(path, node.entries), pathMax) &&
      (outcome == NoWorkers <==> worldSize == 1 && WorkPaths(path, node.entries) != []) &&
      (outcome == NoWorkers ==> sends == []) &&
      (outcome != NoWorkers ==>
         outcome == Finished && sends == WorkerSends(WorkPaths(path, node.entries), worldSize, pathMax) + EndMessages(worldSize))
  {
    sends := [];
    if node.Directory? {
      if !node.readable {
        return Unreadable, sends;
      }
      var noWorkers;
      noWorkers, sends := SendToWorkers(path, node.entries, pathMax, worldSize);
      if noWorkers {
        return NoWorkers, sends;
      }
    }
    sends := SendEnds(worldSize, sends);
    outcome := Finished;
  }

  /** `engine`: receive from rank 0 with any tag into `char buf[path_max]` until a
      tag-1 message arrives. `ended` is false when the inbox runs out first. */
  method Engine(inbox: seq<Message>) returns (received: seq<string>, ended: bool)
    ensures ended <==> HasEnd(inbox)
    ensures received == WorkBeforeEnd(inbox)
  {
    received, ended := ReceiveWork(inbox, []);
  }

  /** Every work message goes to a worker, carries tag 0 and is the whole
      `path_max`-character buffer. */
  lemma {:induction false} WorkerSendsRanks(ws: seq<string>, g: nat, pathMax: nat)
    requires g >= 2 && Fit(ws, pathMax)
    ensures forall m :: m in WorkerSends(ws, g, pathMax) ==> 1 <= m.dest < g && m.tag == WORK_TAG && |m.payload| == pathMax
    decreases |ws|
  {
    if ws != [] {
      WorkerSendsRanks(ws[..|ws| - 1], g, pathMax);
    }
  }

  /** The message of item `k` as seen by worker `r`. */
  lemma WorkerSendInbox(w: string, k: nat, g: nat, pathMax: nat, r: nat)
    requires 1 <= r < g && |w| < pathMax && NulFree(w)
    ensures var m := [Message(WorkerOf(k, g), WORK_TAG, StrcpyInto(w, pathMax))];
      Payloads(Inbox(m, r)) == (if k % (g - 1) == r - 1 then [w] else []) &&
      forall i :: 0 <= i < |Inbox(m, r)| ==> Inbox(m, r)[i].tag == WORK_TAG
  {
    var m := [Message(WorkerOf(k, g), WORK_TAG, StrcpyInto(w, pathMax))];
    assert m[..0] == [];
    StrcpyRoundTrip(w, pathMax);
  }

  /** What worker `r` receives of the work messages is the share of `slave == r - 1`
      in the cycle over `worldSize - 1` workers, in order. */
  lemma {:induction false} WorkerSendsInbox(ws: seq<string>, g: nat, pathMax: nat, r: nat)
    requires 1 <= r < g && Fit(ws, pathMax)
    requires forall i :: 0 <= i < |ws| ==> NulFree(ws[i])
    ensures Payloads(Inbox(WorkerSends(ws, g, pathMax), r)) == Share(ws, g - 1, r - 1)
    ensures forall i :: 0 <= i < |Inbox(WorkerSends(ws, g, pathMax), r)| ==> Inbox(WorkerSends(ws, g, pathMax), r)[i].tag == WORK_TAG
    decreases |ws|
  {
    if ws != [] {
      var k := |ws| - 1;
      var prev := ws[..k];
      assert Fit(prev, pathMax);
      WorkerSendsInbox(prev, g, pathMax, r);
      var m := [Message(WorkerOf(k, g), WORK_TAG, StrcpyInto(ws[k], pathMax))];
      assert WorkerSends(ws, g, pathMax) == WorkerSends(prev, g, pathMax) + m;
      InboxAppend(WorkerSends(prev, g, pathMax), m, r);
      WorkerSendInbox(ws[k], k, g, pathMax, r);
      PayloadsAppend(Inbox(WorkerSends(prev, g, pathMax), r), Inbox(m, r));
    }
  }

  /** End to end: rank 0 receives nothing; worker `r` receives exactly its share of
      the work paths, in listing order, and then its end message. */
  lemma WorkersReceive(ws: seq<string>, g: nat, pathMax: nat, r: nat)
    requires 2 <= g && r < g && Fit(ws, pathMax)
    requires forall i :: 0 <= i < |ws| ==> NulFree(ws[i])
    ensures r == 0 ==> Inbox(WorkerSends(ws, g, pathMax) + EndMessages(g), r) == []
    ensures r > 0 ==> WorkBeforeEnd(Inbox(WorkerSends(ws, g, pathMax) + EndMessages(g), r)) == Share(ws, g - 1, r - 1)
    ensures r > 0 ==> HasEnd(Inbox(WorkerSends(ws, g, pathMax) + EndMessages(g), r))
  {
    var w := WorkerSends(ws, g, pathMax);
    InboxAppend(w, EndMessages(g), r);
    EndMessagesInbox(g, r);
    WorkerSendsRanks(ws, g, pathMax);
    if r == 0 {
      InboxNone(w, 0);
    } else {
      WorkerSendsInbox(ws, g, pathMax, r);
      WorkBeforeEndAppend(Inbox(w, r), [EndMessage(r)]);
      assert [EndMessage(r)][0].tag == END_TAG;
    }
  }

  /** The workers' shares together are the work list rearranged: every path reaches
      exactly one worker, as often as it was listed. */
  lemma EveryPathToOneWorker(ws: seq<string>, g: nat)
    requires g >= 2
    ensures multiset(MpiThreaded.Shares(ws, g - 1, g - 1)) == multiset(ws)
    ensures forall k :: 0 <= k < |ws| ==> ws[k] in Share(ws, g - 1, WorkerOf(k, g) - 1)
  {
    MpiThreaded.SharesPermute(ws, g - 1);
    forall k | 0 <= k < |ws|
      ensures ws[k] in Share(ws, g - 1, WorkerOf(k, g) - 1)
    {
      ShareOfItem(ws, g - 1, k);
    }
  }
}
