/** Point-to-point messages from rank 0: `MPI_Send(buf, count, MPI_CHAR, dest, tag, ...)`
    with `payload` the `count` characters sent. */
module Messages {

  import opened CStrings

  datatype Message = Message(dest: int, tag: int, payload: seq<char>)

  /** Tag 0 carries a work path, tag 1 says that no more work follows. */
  const WORK_TAG: int := 0
  const END_TAG: int := 1

  /** The messages rank `r` receives from rank 0, in the order they were sent (MPI
      does not let messages between one pair of ranks overtake each other). */
  function Inbox(sends: seq<Message>, r: int): (inbox: seq<Message>)
    ensures forall i :: 0 <= i < |inbox| ==> inbox[i].dest == r && inbox[i] in sends
  {
    if sends == [] then []
    else
      var m := sends[|sends| - 1];
      Inbox(sends[..|sends| - 1], r) + (if m.dest == r then [m] else [])
  }

  lemma {:induction false} InboxAppend(a: seq<Message>, b: seq<Message>, r: int)
    ensures Inbox(a + b, r) == Inbox(a, r) + Inbox(b, r)
    decreases |b|
  {
    if b == [] {
      assert a + b == a;
    } else {
      var n := |b| - 1;
      assert (a + b)[..|a + b| - 1] == a + b[..n];
      InboxAppend(a, b[..n], r);
    }
  }

  lemma InboxOne(m: Message, r: int)
    ensures Inbox([m], r) == if m.dest == r then [m] else []
  {
    assert [m][..0] == [];
  }

  /** The end message `MPI_Send("", 1, MPI_CHAR, i, 1, ...)`: one NUL character. */
  function EndMessage(i: int): Message
  {
    Message(i, END_TAG, [NUL])
  }

  /** One end message to each rank 1 .. worldSize - 1, in rank order. */
  function EndMessages(worldSize: int): (ms: seq<Message>)
    ensures forall i :: 0 <= i < |ms| ==> ms[i] == EndMessage(i + 1)
    ensures |ms| == if worldSize <= 1 then 0 else worldSize - 1
    decreases worldSize
  {
    if worldSize <= 1 then [] else EndMessages(worldSize - 1) + [EndMessage(worldSize - 1)]
  }

  /** Every rank but 0 gets exactly one end message, and rank 0 none. */
  lemma {:induction false} EndMessagesInbox(worldSize: int, r: int)
    ensures Inbox(EndMessages(worldSize), r) == if 1 <= r < worldSize then [EndMessage(r)] else []
    decreases worldSize
  {
    if worldSize > 1 {
      var prev, last := EndMessages(worldSize - 1), EndMessage(worldSize - 1);
      assert EndMessages(worldSize) == prev + [last];
      EndMessagesInbox(worldSize - 1, r);
      InboxAppend(prev, [last], r);
      InboxOne(last, r);
    }
  }

  /** `std::string(buf)` of every received buffer. */
  function Payloads(ms: seq<Message>): (ps: seq<string>)
    ensures |ps| == |ms|
  {
    seq(|ms|, i requires 0 <= i < |ms| => CStr(ms[i].payload))
  }

  predicate HasEnd(inbox: seq<Message>)
  {
    exists i :: 0 <= i < |inbox| && inbox[i].tag == END_TAG
  }

  /** What a receive loop that stops at the first end message pushes: the paths of
      the messages before it, in arrival order. */
  function WorkBeforeEnd(inbox: seq<Message>): seq<string>
  {
    if inbox == [] || inbox[0].tag == END_TAG then [] else [CStr(inbox[0].payload)] + WorkBeforeEnd(inbox[1..])
  }

  /** An end message after work messages is the first one. */
  lemma HasEndAppend(a: seq<Message>, b: seq<Message>)
    requires forall i :: 0 <= i < |a| ==> a[i].tag != END_TAG
    ensures HasEnd(a + b) <==> HasEnd(b)
  {
    if HasEnd(a + b) {
      var i :| 0 <= i < |a + b| && (a + b)[i].tag == END_TAG;
      assert i >= |a| && b[i - |a|] == (a + b)[i];
    }
    if HasEnd(b) {
      var i :| 0 <= i < |b| && b[i].tag == END_TAG;
      assert (a + b)[|a| + i] == b[i];
    }
  }

  /** Work messages followed by anything: their paths come first. */
  lemma {:induction false} WorkBeforeEndAppend(a: seq<Message>, b: seq<Message>)
    requires forall i :: 0 <= i < |a| ==> a[i].tag != END_TAG
    ensures WorkBeforeEnd(a + b) == Payloads(a) + WorkBeforeEnd(b)
    ensures HasEnd(a + b) <==> HasEnd(b)
    decreases |a|
  {
    HasEndAppend(a, b);
    if a == [] {
      assert a + b == b;
    } else {
      assert (a + b)[0] == a[0];
      assert (a + b)[1..] == a[1..] + b;
      WorkBeforeEndAppend(a[1..], b);
      assert Payloads(a) == [CStr(a[0].payload)] + Payloads(a[1..]);
    }
  }

  /** `receiveWork`: receive from rank 0 until a message with tag 1 arrives, pushing
      `std::string(buf)` of every other message onto `queue`. `ended` is false when
      the inbox runs out first: the real loop then blocks for ever. */
  method ReceiveWork(inbox: seq<Message>, queue: seq<string>) returns (queue': seq<string>, ended: bool)
    ensures ended <==> HasEnd(inbox)
    ensures queue' == queue + WorkBeforeEnd(inbox)
  {
    queue' := queue;
    var i := 0;
    ended := false;
    while i < |inbox|
      invariant 0 <= i <= |inbox|
      invariant queue' + WorkBeforeEnd(inbox[i..]) == queue + WorkBeforeEnd(inbox)
      invariant forall j :: 0 <= j < i ==> inbox[j].tag != END_TAG
      invariant HasEnd(inbox) <==> HasEnd(inbox[i..])
    {
      var m := inbox[i];
      assert inbox[i..] == [m] + inbox[i + 1..];
      if m.tag == END_TAG {
        assert inbox[i..][0] == m;
        ended := true;
        return;
      }
      queue' := queue' + [CStr(m.payload)];
      i := i + 1;
      assert HasEnd(inbox[i - 1..]) <==> HasEnd(inbox[i..]) by {
        WorkBeforeEndAppend([m], inbox[i..]);
      }
    }
    assert inbox[i..] == [];
  }
}
