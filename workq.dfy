/** The work-queue manager: a FIFO of requests kept as a singly linked list, served by
    at most `parallelism` detached worker threads that it starts on demand. Every
    section the queue's mutex protects is one method of `WorkQ`; waiting on the
    condition variable becomes a parameter that says how the wait ended. */
module WorkQueue {

  import opened Common

  /** The tag a live queue carries in `valid`. */
  const WORKQ_VALID: int := 0x090997
  /** `EINVAL` and `ENOMEM` of Linux `errno.h`. */
  const EINVAL: int := 22
  const ENOMEM: int := 12

  /** One queued request: `workq_ele_t`. */
  class Element<T> {
    var next: Element?<T>
    const data: T

    constructor (x: T)
      ensures data == x && next == null
    {
      data := x;
      next := null;
    }
  }

  /** `workq_t` without its mutex, condition variable and thread attributes. */
  class WorkQ<T> {
    var first: Element?<T>
    var last: Element?<T>
    var valid: int
    var quit: bool
    var parallelism: int
    var counter: int
    var idle: int

    /** The elements from `first` to `last`, and the requests they hold. */
    ghost var nodes: seq<Element<T>>
    ghost var Contents: seq<T>
    ghost var Repr: set<object>

    /** The linked list runs from `first` through `next` to `last` and holds
        `Contents`; no thread is ever idle; the number of server threads never
        exceeds the configured parallelism. */
    ghost predicate Wellformed()
      reads this, Repr
    {
      this in Repr &&
      (forall i :: 0 <= i < |nodes| ==> nodes[i] in Repr) &&
      |nodes| == |Contents| &&
      (forall i, j :: 0 <= i < j < |nodes| ==> nodes[i] != nodes[j]) &&
      (forall i :: 0 <= i < |nodes| ==> nodes[i].data == Contents[i]) &&
      (forall i :: 0 <= i < |nodes| - 1 ==> nodes[i].next == nodes[i + 1]) &&
      (nodes == [] ==> first == null && last == null) &&
      (nodes != [] ==> first == nodes[0] && last == nodes[|nodes| - 1] && last.next == null) &&
      idle == 0 &&
      0 <= counter && (counter == 0 || counter <= parallelism)
    }

    /** A `workq_t` before `workq_init`: every field zero. */
    constructor ()
      ensures Wellformed() && fresh(Repr)
      ensures Contents == [] && valid == 0 && !quit && parallelism == 0 && counter == 0
    {
      first, last := null, null;
      valid, quit, parallelism, counter, idle := 0, false, 0, 0, 0;
      nodes, Contents := [], [];
      Repr := {this};
    }

    /** `workq_init`: the four statuses stand for the results of initialising the
        thread attributes, making them detached, and initialising the condition
        variable and the mutex; the first failure is returned and nothing is set. */
    method Init(threads: int, attrStatus: int, detachStatus: int, condStatus: int, mutexStatus: int)
      returns (status: int)
      requires Wellformed()
      modifies this
      ensures Wellformed() && Repr == old(Repr)
      ensures status == (if attrStatus != 0 then attrStatus
                         else if detachStatus != 0 then detachStatus
                         else if condStatus != 0 then condStatus
                         else mutexStatus)
      ensures status != 0 ==> unchanged(this)
      ensures status == 0 ==>
        valid == WORKQ_VALID && !quit && Contents == [] && first == null && last == null &&
        parallelism == threads && idle == 0 && counter == 0
    {
      if attrStatus != 0 {
        return attrStatus;
      }
      if detachStatus != 0 {
        return detachStatus;
      }
      if condStatus != 0 {
        return condStatus;
      }
      if mutexStatus != 0 {
        return mutexStatus;
      }
      valid := WORKQ_VALID;
      quit := false;
      first, last := null, null;
      nodes, Contents := [], [];
      parallelism := threads;
      idle := 0;
      counter := 0;
      status := 0;
    }

    /** `workq_add`: `allocOk` says whether `malloc` succeeded, `lockStatus` and
        `createStatus` are the results of locking the mutex and of `pthread_create`.
        The request goes to the tail; a new server thread is counted only while fewer
        than `parallelism` run. */
    method Add(x: T, allocOk: bool, lockStatus: int, createStatus: int) returns (status: int)
      requires Wellformed()
      modifies Repr
      ensures Wellformed() && fresh(Repr - old(Repr))
      ensures valid == old(valid) && quit == old(quit) && parallelism == old(parallelism)
      ensures old(valid) != WORKQ_VALID ==> status == EINVAL
      ensures old(valid) == WORKQ_VALID && !allocOk ==> status == ENOMEM
      ensures old(valid) == WORKQ_VALID && allocOk && lockStatus != 0 ==> status == lockStatus
      ensures (old(valid) != WORKQ_VALID || !allocOk || lockStatus != 0) ==>
        Contents == old(Contents) && counter == old(counter)
      ensures old(valid) == WORKQ_VALID && allocOk && lockStatus == 0 ==>
        Contents == old(Contents) + [x] &&
        (old(counter) < parallelism && createStatus != 0 ==> status == createStatus && counter == old(counter)) &&
        (old(counter) < parallelism && createStatus == 0 ==> status == 0 && counter == old(counter) + 1) &&
        (old(counter) >= parallelism ==> status == 0 && counter == old(counter))
    {
      if valid != WORKQ_VALID {
        return EINVAL;
      }
      if !allocOk {
        return ENOMEM;
      }
      var item := new Element(x);
      if lockStatus != 0 {
        return lockStatus;
      }
      Link(item);
      if idle > 0 {
        assert false;
      } else if counter < parallelism {
        if createStatus != 0 {
          return createStatus;
        }
        counter := counter + 1;
      }
      status := 0;
    }

    /** The locked part of `workq_add` that links a new element after `last`, or
        makes it `first` when the queue is empty. */
    method Link(item: Element<T>)
      requires Wellformed() && item !in Repr && item.next == null
      modifies this, Repr
      ensures Wellformed() && Repr == old(Repr) + {item}
      ensures Contents == old(Contents) + [item.data]
      ensures valid == old(valid) && quit == old(quit) && parallelism == old(parallelism)
      ensures counter == old(counter) && idle == old(idle)
    {
      if first == null {
        first := item;
      } else {
        last.next := item;
      }
      last := item;
      nodes, Contents := nodes + [item], Contents + [item.data];
      Repr := Repr + {item};
    }

    /** Whether the queue holds no request (`first == NULL`). */
    method IsEmpty() returns (empty: bool)
      requires Wellformed()
      ensures empty <==> Contents == []
    {
      empty := first == null;
    }

    /** A server takes the request at the head, if there is one. */
    method Dequeue() returns (item: Option<T>)
      requires Wellformed()
      modifies this
      ensures Wellformed() && Repr == old(Repr)
      ensures old(Contents) == [] ==> item == None && Contents == []
      ensures old(Contents) != [] ==> item == Some(old(Contents)[0]) && Contents == old(Contents)[1..]
      ensures valid == old(valid) && quit == old(quit) && parallelism == old(parallelism) && counter == old(counter)
    {
      var we := first;
      if we == null {
        return None;
      }
      first := we.next;
      if last == we {
        last := null;
      }
      nodes, Contents := nodes[1..], Contents[1..];
      item := Some(we.data);
    }

    /** A server that finds no work while `quit` is set leaves; the one that brings
        `counter` to 0 broadcasts so that `workq_destroy` can return. */
    method RetireOnQuit() returns (retired: bool, broadcast: bool)
      requires Wellformed() && counter > 0
      modifies this
      ensures Wellformed() && Repr == old(Repr) && Contents == old(Contents)
      ensures retired <==> old(Contents) == [] && quit
      ensures counter == if retired then old(counter) - 1 else old(counter)
      ensures broadcast <==> retired && counter == 0
      ensures valid == old(valid) && quit == old(quit) && parallelism == old(parallelism)
    {
      retired, broadcast := false, false;
      if first == null && quit {
        counter := counter - 1;
        retired := true;
        broadcast := counter == 0;
      }
    }

    /** A server whose timed wait expired leaves, unless work arrived meanwhile. */
    method RetireOnTimeout(timedOut: bool) returns (retired: bool)
      requires Wellformed() && counter > 0
      modifies this
      ensures Wellformed() && Repr == old(Repr) && Contents == old(Contents)
      ensures retired <==> old(Contents) == [] && timedOut
      ensures counter == if retired then old(counter) - 1 else old(counter)
      ensures valid == old(valid) && quit == old(quit) && parallelism == old(parallelism)
    {
      retired := false;
      if first == null && timedOut {
        counter := counter - 1;
        retired := true;
      }
    }

    /** A server whose wait fails for another reason leaves at once. */
    method RetireOnWaitError()
      requires Wellformed() && counter > 0
      modifies this
      ensures Wellformed() && Repr == old(Repr) && Contents == old(Contents)
      ensures counter == old(counter) - 1
      ensures valid == old(valid) && quit == old(quit) && parallelism == old(parallelism)
    {
      counter := counter - 1;
    }

    /** One pass of the server loop of `workq_server` while no other thread touches
        the queue: wait for work unless there is some or `quit` is set (nobody can
        signal, so the wait ends by timing out, or fails when `waitFails`), take the
        head, and leave if there is no work left and `quit` is set or the wait timed out. */
    method ServeStep(waitFails: bool) returns (item: Option<T>, left: bool)
      requires Wellformed() && counter > 0
      modifies this
      ensures Wellformed() && Repr == old(Repr)
      ensures valid == old(valid) && quit == old(quit) && parallelism == old(parallelism)
      ensures old(Contents) == [] ==> item == None && left && Contents == [] && counter == old(counter) - 1
      ensures old(Contents) != [] ==>
        item == Some(old(Contents)[0]) && Contents == old(Contents)[1..] &&
        (left <==> Contents == [] && quit) &&
        counter == (if left then old(counter) - 1 else old(counter))
    {
      var timedOut := false;
      var empty := IsEmpty();
      if empty && !quit {
        if waitFails {
          RetireOnWaitError();
          return None, true;
        }
        timedOut := true;
      }
      item := Dequeue();
      var retired, _ := RetireOnQuit();
      if !retired {
        retired := RetireOnTimeout(timedOut);
      }
      left := retired;
    }

    /** `workq_server` for a server that runs while no other thread touches the
        queue: `lockStatus` is the result of its first `pthread_mutex_lock`. It serves
        every queued request in FIFO order and then leaves, decrementing `counter`
        exactly once. */
    method Serve(lockStatus: int, waitFails: bool) returns (served: seq<T>)
      requires Wellformed() && counter > 0
      modifies this
      ensures Wellformed() && Repr == old(Repr)
      ensures lockStatus != 0 ==> served == [] && Contents == old(Contents) && counter == old(counter)
      ensures lockStatus == 0 ==> served == old(Contents) && Contents == [] && counter == old(counter) - 1
      ensures valid == old(valid) && quit == old(quit) && parallelism == old(parallelism)
    {
      served := [];
      if lockStatus != 0 {
        return;
      }
      var left := false;
      while !left
        invariant Wellformed() && Repr == old(Repr)
        invariant old(Contents) == served + Contents
        invariant counter == if left then old(counter) - 1 else old(counter)
        invariant left ==> Contents == []
        invariant valid == old(valid) && quit == old(quit) && parallelism == old(parallelism)
        decreases |Contents| + (if left then 0 else 1)
      {
        var item;
        item, left := ServeStep(waitFails);
        if item.Some? {
          served := served + [item.value];
        }
      }
    }

    /** The wait loop of `workq_destroy` once `quit` is set: every wait (`waitStatus`
        is their result) lets the counted servers run, and they take the remaining
        requests in order and then leave one by one, until `counter` is 0. */
    method AwaitServers(waitStatus: int) returns (status: int, served: seq<T>)
      requires Wellformed() && quit
      modifies this
      ensures Wellformed() && Repr == old(Repr)
      ensures valid == old(valid) && quit && parallelism == old(parallelism)
      ensures old(counter) > 0 && waitStatus != 0 ==>
        status == waitStatus && served == [] && Contents == old(Contents) && counter == old(counter)
      ensures old(counter) == 0 || waitStatus == 0 ==>
        status == 0 && counter == 0 &&
        (old(counter) > 0 ==> served == old(Contents) && Contents == []) &&
        (old(counter) == 0 ==> served == [] && Contents == old(Contents))
    {
      served := [];
      if counter > 0 && waitStatus != 0 {
        // the first wait already fails
        return waitStatus, served;
      }
      ghost var queued, servers := Contents, counter;
      while counter > 0
        invariant Wellformed() && Repr == old(Repr) && quit
        invariant valid == old(valid) && parallelism == old(parallelism)
        invariant queued == served + Contents
        invariant servers > 0 && counter == 0 ==> Contents == []
        invariant servers == 0 ==> counter == 0 && served == []
        decreases |Contents|, counter
      {
        ghost var before := Contents;
        var item, left := ServeStep(false);
        if item.Some? {
          assert before == [item.value] + Contents;
          served := served + [item.value];
        } else {
          assert Contents == [] && before == [];
        }
      }
      status := 0;
    }

    /** `workq_destroy`. The statuses stand for locking the mutex, the waits on the
        condition variable (one status for all of them), unlocking, and destroying the
        mutex, the condition variable and the attributes. While it waits, the server
        threads still counted finish every queued request and leave one by one; the
        last returns `served`, the requests they dequeued, in order. */
    method Destroy(lockStatus: int, waitStatus: int, unlockStatus: int,
                   mutexStatus: int, condStatus: int, attrStatus: int)
      returns (status: int, served: seq<T>)
      requires Wellformed()
      modifies this
      ensures Wellformed() && Repr == old(Repr)
      ensures old(valid) != WORKQ_VALID ==> status == EINVAL && unchanged(this) && served == []
      ensures old(valid) == WORKQ_VALID && lockStatus != 0 ==> status == lockStatus && unchanged(this) && served == []
      ensures old(valid) == WORKQ_VALID && lockStatus == 0 ==>
        valid == 0 && quit == (old(counter) > 0 || old(quit)) && parallelism == old(parallelism)
      ensures old(valid) == WORKQ_VALID && lockStatus == 0 && old(counter) == 0 ==>
        served == [] && Contents == old(Contents) && counter == 0 &&
        status == (if unlockStatus != 0 then unlockStatus
                   else if mutexStatus != 0 then mutexStatus
                   else if condStatus != 0 then condStatus
                   else attrStatus)
      ensures old(valid) == WORKQ_VALID && lockStatus == 0 && old(counter) > 0 && waitStatus != 0 ==>
        status == waitStatus && served == [] && Contents == old(Contents) && counter == old(counter)
      ensures old(valid) == WORKQ_VALID && lockStatus == 0 && old(counter) > 0 && waitStatus == 0 ==>
        served == old(Contents) && Contents == [] && counter == 0 &&
        status == (if unlockStatus != 0 then unlockStatus
                   else if mutexStatus != 0 then mutexStatus
                   else if condStatus != 0 then condStatus
                   else attrStatus)
    {
      served := [];
      if valid != WORKQ_VALID {
        return EINVAL, [];
      }
      if lockStatus != 0 {
        return lockStatus, [];
      }
      valid := 0;
      if counter > 0 {
        quit := true;
        if idle > 0 {
          assert false;
        }
        var waitResult;
        waitResult, served := AwaitServers(waitStatus);
        if waitResult != 0 {
          return waitResult, served;
        }
      }
      if unlockStatus != 0 {
        return unlockStatus, served;
      }
      status := if mutexStatus != 0 then mutexStatus
                else if condStatus != 0 then condStatus
                else attrStatus;
    }
  }
}
