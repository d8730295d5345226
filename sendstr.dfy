/** The first message-passing prototype: only rank 0 configures the path limits and
    walks the input directory; it sends the `k`-th non-dot entry to rank
    `1 + k % worldSize` and ends with the five-character marker "done". Every other
    rank receives into `char buf[path_max]` until it reads "done". */
module SendStr {

  import opened Common
  import opened CStrings
  import opened FileTree
  import opened Messages
  import opened Distribution
  import opened Limits
  import WorkersOnly

  /** The marker that ends the work. */
  const DONE: string := "done"

  /** The marker's buffer: "done" and its NUL, for rank `i`. */
  function DoneMessage(i: int): (m: Message)
    ensures m.dest == i && m.tag == WORK_TAG && |m.payload| == |DONE| + 1
  {
    Message(i, WORK_TAG, DONE + [NUL])
  }

  /** The marker reads back as "done". */
  lemma DoneMessageReadsDone(i: int)
    ensures CStr(DoneMessage(i).payload) == DONE
  {
    CStrUnique(DoneMessage(i).payload, DONE);
  }

  /** The marker delivered to each of ranks 1 .. worldSize - 1, in rank order. */
  function DoneMessages(worldSize: int): (ms: seq<Message>)
    ensures forall i :: 0 <= i < |ms| ==> ms[i] == DoneMessage(i + 1)
    ensures |ms| == if worldSize <= 1 then 0 else worldSize - 1
    decreases worldSize
  {
    if worldSize <= 1 then [] else DoneMessages(worldSize - 1) + [DoneMessage(worldSize - 1)]
  }

  lemma {:induction false} DoneMessagesInbox(worldSize: int, r: int)
    ensures Inbox(DoneMessages(worldSize), r) == if 1 <= r < worldSize then [DoneMessage(r)] else []
    decreases worldSize
  {
    if worldSize > 1 {
      var prev, last := DoneMessages(worldSize - 1), DoneMessage(worldSize - 1);
      assert DoneMessages(worldSize) == prev + [last];
      DoneMessagesInbox(worldSize - 1, r);
      InboxAppend(prev, [last], r);
      InboxOne(last, r);
    }
  }

  // ----- rank 0 as written -----

  /** The destination of item `k` as written: `slave + 1`, with `slave` cycling through
      0 .. worldSize - 1. */
  function SlotAsWritten(k: nat, g: nat): (dest: nat)
    requires g > 0
    ensures 1 <= dest <= g
  {
    1 + k % g
  }

  /** The work messages as written: the buffer of item `k` goes to `SlotAsWritten(k)`. */
  function SendsAsWritten(ws: seq<string>, g: nat, pathMax: nat): (ms: seq<Message>)
    requires g > 0 && Fit(ws, pathMax)
    ensures |ms| == |ws|
  {
    if ws == [] then []
    else
      var k := |ws| - 1;
      SendsAsWritten(ws[..k], g, pathMax) + [Message(SlotAsWritten(k, g), WORK_TAG, StrcpyInto(ws[k], pathMax))]
  }

  /** Item `k` is sent, whole, to `SlotAsWritten(k)`. */
  lemma {:induction false} SendsAsWrittenAt(ws: seq<string>, g: nat, pathMax: nat, k: nat)
    requires g > 0 && Fit(ws, pathMax) && k < |ws|
    ensures SendsAsWritten(ws, g, pathMax)[k] == Message(SlotAsWritten(k, g), WORK_TAG, StrcpyInto(ws[k], pathMax))
    decreases |ws|
  {
    var n := |ws| - 1;
    if k < n {
      assert Fit(ws[..n], pathMax);
      SendsAsWrittenAt(ws[..n], g, pathMax, k);
    }
  }

  /** One pass of the `readdir` loop as written: a non-dot entry's joined path goes
      to `dest = slave + 1`, then `slave = (slave + 1) % world_size`; "." and ".."
      are skipped. */
  method VisitAsWritten(path: string, es: seq<Entry>, i: nat, pathMax: nat, worldSize: nat,
                        ghost done: seq<string>, slave: nat, sends: seq<Message>)
    returns (ghost done': seq<string>, slave': nat, sends': seq<Message>)
    requires worldSize > 0 && i < |es| && EntriesFit(path, es, pathMax)
    requires WorkPaths(path, es) == done + WorkPaths(path, es[i..])
    requires Fit(done, pathMax) && slave == |done| % worldSize
    requires sends == SendsAsWritten(done, worldSize, pathMax)
    ensures WorkPaths(path, es) == done' + WorkPaths(path, es[i + 1..])
    ensures Fit(done', pathMax) && slave' == |done'| % worldSize
    ensures sends' == SendsAsWritten(done', worldSize, pathMax)
  {
    var e := es[i];
    WorkPathsStep(path, es, i, done);
    done', slave', sends' := done, slave, sends;
    if !IsDotName(e.name) {
      var newpath := JoinPath(path, e.name);
      assert (done + [newpath])[..|done|] == done;
      var dest := slave + 1;
      sends' := sends + [Message(dest, WORK_TAG, StrcpyInto(newpath, pathMax))];
      slave' := (slave + 1) % worldSize;
      NextRank(|done|, worldSize);
      done' := done + [newpath];
    }
  }

  /** The `readdir` loop of `masterSendPath` as written. */
  method SendEntriesAsWritten(path: string, es: seq<Entry>, pathMax: nat, worldSize: nat) returns (sends: seq<Message>)
    requires worldSize > 0 && EntriesFit(path, es, pathMax)
    ensures Fit(WorkPaths(path, es), pathMax)
    ensures sends == SendsAsWritten(WorkPaths(path, es), worldSize, pathMax)
  {
    sends := [];
    ghost var done: seq<string> := [];
    var slave: nat := 0;
    var i := 0;
    assert es[0..] == es;
    while i < |es|
      invariant 0 <= i <= |es|
      invariant WorkPaths(path, es) == done + WorkPaths(path, es[i..])
      invariant Fit(done, pathMax) && slave == |done| % worldSize
      invariant sends == SendsAsWritten(done, worldSize, pathMax)
    {
      done, slave, sends := VisitAsWritten(path, es, i, pathMax, worldSize, done, slave, sends);
      i := i + 1;
    }
    WorkPathsDone(path, es, done);
  }

  /** `masterSendPath` as written: `finished` is false when `opendir` failed, and then
      not even the marker is sent; a path that is not a directory only gets the marker. */
  method MasterSendPathAsWritten(path: string, node: Node, pathMax: nat, worldSize: nat)
    returns (finished: bool, sends: seq<Message>)
    requires worldSize > 0
    requires node.Directory? && node.readable ==> EntriesFit(path, node.entries, pathMax)
    ensures finished <==> !node.Directory? || node.readable
    ensures !node.Directory? ==> sends == DoneMessages(worldSize)
    ensures !finished ==> sends == []
    ensures node.Directory? && node.readable ==>
      Fit(WorkPaths(path, node.entries), pathMax) &&
      sends == SendsAsWritten(WorkPaths(path, node.entries), worldSize, pathMax) + DoneMessages(worldSize)
  {
    sends := [];
    if node.Directory? {
      if !node.readable {
        return false, sends;
      }
      sends := SendEntriesAsWritten(path, node.entries, pathMax, worldSize);
    }
    sends := sends + DoneMessages(worldSize);
    finished := true;
  }

  /** The position-`worldSize - 1` item is sent to rank `worldSize`, which does not exist. */
  lemma {:induction false} OutOfWorldAsWritten(ws: seq<string>, g: nat, pathMax: nat)
    requires g > 0 && Fit(ws, pathMax) && |ws| >= g
    ensures SendsAsWritten(ws, g, pathMax)[g - 1].dest == g
  {
    var k: nat := g - 1;
    DivModUnique(k, g, 0, k);
    SendsAsWrittenAt(ws, g, pathMax, k);
  }

  /** A directory "d" with entries "a" and "b" hands out "d/a" and "d/b". */
  lemma TwoEntryPaths()
    ensures WorkPaths("d", [Entry("a", DtReg, Regular(None)), Entry("b", DtReg, Regular(None))]) == ["d/a", "d/b"]
  {
    var es := [Entry("a", DtReg, Regular(None)), Entry("b", DtReg, Regular(None))];
    assert es[1..][1..] == [];
    assert !IsDotName("a") && !IsDotName("b");
    assert JoinPath("d", "a") == "d/a" && JoinPath("d", "b") == "d/b";
    assert WorkPaths("d", es[1..]) == ["d/b"] + WorkPaths("d", []);
    assert WorkPaths("d", es) == ["d/a"] + WorkPaths("d", es[1..]);
  }

  /** Two ranks and those two paths: the second is sent to rank 2, which does not exist. */
  lemma TwoRanksAsWritten()
    ensures SendsAsWritten(["d/a", "d/b"], 2, 8)[1].dest == 2
  {
    assert Fit(["d/a", "d/b"], 8);
    OutOfWorldAsWritten(["d/a", "d/b"], 2, 8);
  }

  // ----- the receiving ranks -----

  /** How the receive loop of `engine` ends: at the marker; with a message longer than
      its buffer, which MPI reports as a truncation error and aborts; or waiting for
      ever because no more messages come. */
  datatype EngineEnd = Done | Truncated | Starved

  /** What `engine` does with `inbox` when `buf` has `capacity` characters: the paths it
      received before it stopped, and why it stopped. */
  function Consume(inbox: seq<Message>, capacity: nat): (seq<string>, EngineEnd)
  {
    if inbox == [] then ([], Starved)
    else if |inbox[0].payload| > capacity then ([], Truncated)
    else if CStr(inbox[0].payload) == DONE then ([], Done)
    else
      var rest := Consume(inbox[1..], capacity);
      ([CStr(inbox[0].payload)] + rest.0, rest.1)
  }

  /** `engine`: receive into `char buf[path_max]` until the buffer reads "done". */
  method Engine(inbox: seq<Message>, capacity: nat) returns (received: seq<string>, end: EngineEnd)
    ensures received == Consume(inbox, capacity).0
    ensures end == Consume(inbox, capacity).1
  {
    received := [];
    var i := 0;
    assert inbox[0..] == inbox;
    while i < |inbox|
      invariant 0 <= i <= |inbox|
      invariant Consume(inbox, capacity).0 == received + Consume(inbox[i..], capacity).0
      invariant Consume(inbox, capacity).1 == Consume(inbox[i..], capacity).1
    {
      var m := inbox[i];
      assert inbox[i..][0] == m && inbox[i..][1..] == inbox[i + 1..];
      if |m.payload| > capacity {
        assert Consume(inbox[i..], capacity) == ([], Truncated);
        assert received + [] == received;
        return received, Truncated;
      }
      var buf := CStr(m.payload);
      if buf == DONE {
        assert Consume(inbox[i..], capacity) == ([], Done);
        assert received + [] == received;
        return received, Done;
      }
      received := received + [buf];
      i := i + 1;
    }
    assert inbox[i..] == [];
    assert received + [] == received;
    end := Starved;
  }

  /** `path_max` as written: only rank 0 runs `start`, every other rank keeps the zero
      a global starts with. */
  function PathMaxAsWritten(rank: nat, root: Config): (n: nat)
    ensures rank == 0 ==> n == root.pathMax
    ensures rank > 0 ==> n == 0
  {
    if rank == 0 then root.pathMax else 0
  }

  lemma {:induction false} PayloadsNonEmpty(ws: seq<string>, g: nat, pathMax: nat)
    requires g > 0 && Fit(ws, pathMax)
    ensures forall m :: m in SendsAsWritten(ws, g, pathMax) + DoneMessages(g) ==> |m.payload| > 0
  {
    forall m | m in SendsAsWritten(ws, g, pathMax) + DoneMessages(g)
      ensures |m.payload| > 0
    {
      if m in SendsAsWritten(ws, g, pathMax) {
        var k :| 0 <= k < |ws| && SendsAsWritten(ws, g, pathMax)[k] == m;
        SendsAsWrittenAt(ws, g, pathMax, k);
      } else {
        var k :| 0 <= k < |DoneMessages(g)| && DoneMessages(g)[k] == m;
      }
    }
  }

  /** As written, every receiving rank fails on its first message: nothing fits a
      zero-character buffer, and no rank ever sees the marker. A rank that is sent no
      path gets only the marker here because the marker's `MPI_Bcast` is modelled as a
      point-to-point message; in the program that rank's `MPI_Recv` matches nothing
      and waits for ever. */
  lemma WorkersTruncateAsWritten(ws: seq<string>, g: nat, pathMax: nat, r: nat, root: Config)
    requires 1 <= r < g && Fit(ws, pathMax)
    ensures Consume(Inbox(SendsAsWritten(ws, g, pathMax) + DoneMessages(g), r), PathMaxAsWritten(r, root)) == ([], Truncated)
  {
    var sends := SendsAsWritten(ws, g, pathMax) + DoneMessages(g);
    InboxAppend(SendsAsWritten(ws, g, pathMax), DoneMessages(g), r);
    DoneMessagesInbox(g, r);
    PayloadsNonEmpty(ws, g, pathMax);
    var inbox := Inbox(sends, r);
    assert inbox != [];
    assert inbox[0] in sends;
  }

  /** A work path always holds a slash, so it is never taken for the marker. */
  lemma {:induction false} WorkPathsNotDone(path: string, es: seq<Entry>)
    ensures forall i :: 0 <= i < |WorkPaths(path, es)| ==> WorkPaths(path, es)[i] != DONE
    decreases |es|
  {
    if es != [] {
      WorkPathsNotDone(path, es[1..]);
      if !IsDotName(es[0].name) {
        JoinPathHasSlash(path, es[0].name);
        assert '/' !in DONE;
      }
    }
  }

  lemma {:induction false} ShareMembers(ws: seq<string>, g: nat, r: int)
    requires g > 0
    ensures forall x :: x in Share(ws, g, r) ==> x in ws
    decreases |ws|
  {
    if ws != [] {
      ShareMembers(ws[..|ws| - 1], g, r);
    }
  }

  /** A message that fits the receive buffer and does not read as the marker. */
  predicate Receivable(m: Message, capacity: nat)
  {
    |m.payload| <= capacity && CStr(m.payload) != DONE
  }

  /** A message that fits and is not the marker is received and consumption goes on. */
  lemma ConsumeStep(m: Message, rest: seq<Message>, capacity: nat)
    requires Receivable(m, capacity)
    ensures Consume([m] + rest, capacity).0 == [CStr(m.payload)] + Consume(rest, capacity).0
    ensures Consume([m] + rest, capacity).1 == Consume(rest, capacity).1
  {
    assert ([m] + rest)[0] == m && ([m] + rest)[1..] == rest;
  }

  lemma PayloadsFirst(a: seq<Message>)
    requires a != []
    ensures Payloads(a) == [CStr(a[0].payload)] + Payloads(a[1..])
  {
  }

  /** Receiving a run of work messages that fit and are not the marker. */
  lemma {:induction false} ConsumeWork(a: seq<Message>, b: seq<Message>, capacity: nat)
    requires forall i :: 0 <= i < |a| ==> Receivable(a[i], capacity)
    ensures Consume(a + b, capacity).0 == Payloads(a) + Consume(b, capacity).0
    ensures Consume(a + b, capacity).1 == Consume(b, capacity).1
    decreases |a|
  {
    if a == [] {
      assert a + b == b;
    } else {
      assert a + b == [a[0]] + (a[1..] + b);
      assert Receivable(a[0], capacity);
      ConsumeStep(a[0], a[1..] + b, capacity);
      assert forall i :: 0 <= i < |a| - 1 ==> a[1..][i] == a[i + 1];
      ConsumeWork(a[1..], b, capacity);
      PayloadsFirst(a);
    }
  }

  /** The work messages worker `r` receives fit a `path_max` buffer, none reads as
      the marker, and together they carry the worker's share. */
  lemma WorkerInboxFits(ws: seq<string>, g: nat, pathMax: nat, r: nat)
    requires 2 <= g && 1 <= r < g && Fit(ws, pathMax)
    requires forall i :: 0 <= i < |ws| ==> NulFree(ws[i]) && ws[i] != DONE
    ensures var a := Inbox(WorkersOnly.WorkerSends(ws, g, pathMax), r);
      Payloads(a) == Share(ws, g - 1, r - 1) &&
      forall i :: 0 <= i < |a| ==> Receivable(a[i], pathMax)
  {
    var w := WorkersOnly.WorkerSends(ws, g, pathMax);
    WorkersOnly.WorkerSendsRanks(ws, g, pathMax);
    WorkersOnly.WorkerSendsInbox(ws, g, pathMax, r);
    ShareMembers(ws, g - 1, r - 1);
    var a := Inbox(w, r);
    forall i | 0 <= i < |a|
      ensures Receivable(a[i], pathMax)
    {
      assert a[i] in w;
      assert Payloads(a)[i] in Share(ws, g - 1, r - 1);
    }
  }

  /** Corrected: with the marker sent to workers only (one per worker after the work,
      as the later prototype does) and `path_max` configured on every rank, worker `r`
      receives exactly its share of the work paths and then stops at the marker. */
  lemma EngineReceivesShare(ws: seq<string>, g: nat, pathMax: nat, r: nat)
    requires 2 <= g && 1 <= r < g && Fit(ws, pathMax) && pathMax > |DONE|
    requires forall i :: 0 <= i < |ws| ==> NulFree(ws[i]) && ws[i] != DONE
    ensures Consume(Inbox(WorkersOnly.WorkerSends(ws, g, pathMax) + DoneMessages(g), r), pathMax).0 == Share(ws, g - 1, r - 1)
    ensures Consume(Inbox(WorkersOnly.WorkerSends(ws, g, pathMax) + DoneMessages(g), r), pathMax).1 == Done
  {
    var w := WorkersOnly.WorkerSends(ws, g, pathMax);
    InboxAppend(w, DoneMessages(g), r);
    DoneMessagesInbox(g, r);
    WorkerInboxFits(ws, g, pathMax, r);
    var a := Inbox(w, r);
    assert Inbox(w + DoneMessages(g), r) == a + [DoneMessage(r)];
    ConsumeWork(a, [DoneMessage(r)], pathMax);
    DoneMessageReadsDone(r);
    assert Consume([DoneMessage(r)], pathMax) == ([], Done);
    assert Payloads(a) + [] == Share(ws, g - 1, r - 1);
  }

  /** `start` on rank 0: configure the limits, aborting when `pathconf` fails, then run
      `masterSendPath` with the configured `path_max`. */
  method Start(path: string, node: Node, pathReported: int, pathErrno: int, nameReported: int, nameErrno: int, worldSize: nat)
    returns (config: Option<Config>, finished: bool, sends: seq<Message>)
    requires worldSize > 0 && pathReported >= -1 && nameReported >= -1
    requires var c := Configure(pathReported, pathErrno, nameReported, nameErrno);
      c.Some? && node.Directory? && node.readable ==> EntriesFit(path, node.entries, c.value.pathMax)
    ensures config == Configure(pathReported, pathErrno, nameReported, nameErrno)
    ensures config.None? ==> !finished && sends == []
    ensures config.Some? && node.Directory? && node.readable ==>
      finished && Fit(WorkPaths(path, node.entries), config.value.pathMax) &&
      sends == SendsAsWritten(WorkPaths(path, node.entries), worldSize, config.value.pathMax) + DoneMessages(worldSize)
    ensures config.Some? && !node.Directory? ==> finished && sends == DoneMessages(worldSize)
    ensures config.Some? && node.Directory? && !node.readable ==> !finished && sends == []
  {
    config := Configure(pathReported, pathErrno, nameReported, nameErrno);
    if config.None? {
      return config, false, [];
    }
    finished, sends := MasterSendPathAsWritten(path, node, config.value.pathMax, worldSize);
  }
}
