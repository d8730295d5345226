/** The thread-pool walk of `main.cpp`: every path is a work-queue request handled by
    `engine`, which counts a regular file into the global `output`, queues the entries
    of a directory and keeps `work_count`, the number of requests queued or running;
    the engine that brings it to 0 broadcasts `done`, on which `start` stops waiting. */
module ThreadedWalk {

  import opened Common
  import opened Words
  import opened CountMaps
  import opened FileTree

  /** The shared state: `output`, `work_count`, the requests queued or running, and
      whether `done` was broadcast. */
  datatype Walk = Walk(output: CountMap, workCount: int, pending: seq<Item>, done: bool)

  function Remove(q: seq<Item>, j: nat): (r: seq<Item>)
    requires j < |q|
    ensures |r| == |q| - 1
  {
    q[..j] + q[j + 1..]
  }

  /** The requests a handled request adds: the entries of a readable directory. */
  function Expand(x: Item): seq<Item>
  {
    if x.node.Directory? && x.node.readable then Children(x.path, x.node.entries) else []
  }

  /** One `engine` call on request `j`, handled as intended: every call, including
      one whose `opendir` fails, ends by decrementing `work_count`. */
  function EngineStep(s: Walk, j: nat): Walk
    requires j < |s.pending|
  {
    var x := s.pending[j];
    var output := if x.node.Regular? then Add(s.output, FileCounts(x.node.text)) else s.output;
    var count := s.workCount + |Expand(x)| - 1;
    Walk(output, count, Remove(s.pending, j) + Expand(x), s.done || count <= 0)
  }

  /** One `engine` call as written: a directory that cannot be opened returns before
      the decrement. */
  function EngineStepAsWritten(s: Walk, j: nat): Walk
    requires j < |s.pending|
  {
    var x := s.pending[j];
    if x.node.Directory? && !x.node.readable then Walk(s.output, s.workCount, Remove(s.pending, j), s.done)
    else EngineStep(s, j)
  }

  /** What `start` establishes and every engine call keeps: `work_count` counts the
      outstanding requests, `output` plus what they still owe is the tree's count, and
      `done` is broadcast exactly when nothing is outstanding. */
  ghost predicate Inv(s: Walk, root: Node)
  {
    s.workCount == |s.pending| &&
    Add(s.output, QueueCounts(s.pending)) == TreeCounts(root) &&
    (s.done <==> s.pending == [])
  }

  lemma {:induction false} QueueRemove(q: seq<Item>, j: nat)
    requires j < |q|
    ensures QueueCounts(q) == Add(TreeCounts(q[j].node), QueueCounts(Remove(q, j)))
    ensures QueueSize(q) == Size(q[j].node) + QueueSize(Remove(q, j))
  {
    var a, x, b := q[..j], q[j], q[j + 1..];
    assert q == a + [x] + b;
    assert [x][..0] == [];
    QueueCountsAppend(a + [x], b);
    QueueCountsAppend(a, [x]);
    QueueCountsAppend(a, b);
    QueueSizeAppend(a + [x], b);
    QueueSizeAppend(a, [x]);
    QueueSizeAppend(a, b);
    var ca, cx, cb := QueueCounts(a), TreeCounts(x.node), QueueCounts(b);
    AddIdentity(cx);
    AddAssociative(ca, cx, cb);
    AddCommutative(ca, cx);
    AddAssociative(cx, ca, cb);
  }

  /** The start state: `work_count` 1 and the root request queued. */
  lemma StartInv(path: string, root: Node)
    ensures Inv(Walk(map[], 1, [Item(path, root)], false), root)
  {
    var q := [Item(path, root)];
    assert q[..0] == [];
    AddIdentity(TreeCounts(root));
  }

  /** Each engine call keeps the invariant and leaves less of the tree outstanding, so
      with any scheduling the walk ends with `done` and the whole count. */
  lemma EngineKeepsInv(s: Walk, j: nat, root: Node)
    requires Inv(s, root) && j < |s.pending|
    ensures Inv(EngineStep(s, j), root)
    ensures QueueSize(EngineStep(s, j).pending) < QueueSize(s.pending)
  {
    var x, rest := s.pending[j], Remove(s.pending, j);
    var ch := Expand(x);
    QueueRemove(s.pending, j);
    QueueCountsAppend(rest, ch);
    QueueSizeAppend(rest, ch);
    AddAssociative(s.output, TreeCounts(x.node), QueueCounts(rest));
    if x.node.Directory? && x.node.readable {
      ChildrenCounts(x.path, x.node.entries);
      ChildrenSize(x.path, x.node.entries);
      AddCommutative(QueueCounts(rest), QueueCounts(ch));
    } else {
      assert QueueCounts(ch) == map[];
      AddIdentity(QueueCounts(rest));
      if x.node.Regular? {
        assert TreeCounts(x.node) == FileCounts(x.node.text);
      } else {
        assert TreeCounts(x.node) == map[];
        AddIdentity(s.output);
      }
    }
  }

  /** As written, an input directory that cannot be opened leaves no request
      outstanding while `work_count` stays 1, so `done` is never broadcast and `start`
      waits for ever. */
  lemma UnreadableRootHangsAsWritten(path: string)
    ensures var root := Directory(false, []);
      var s := EngineStepAsWritten(Walk(map[], 1, [Item(path, root)], false), 0);
      s.pending == [] && s.workCount == 1 && !s.done && !Inv(s, root)
  {
  }

  /** Under the as-written step, every unreadable directory leaves `work_count` one
      above the number of outstanding requests. */
  lemma UnreadableOverCountsAsWritten(s: Walk, j: nat)
    requires j < |s.pending| && s.workCount == |s.pending|
    requires s.pending[j].node.Directory? && !s.pending[j].node.readable
    ensures EngineStepAsWritten(s, j).workCount == |EngineStepAsWritten(s, j).pending| + 1
  {
  }

  /** On a queue with no unopenable directory ahead, the as-written engine call is the
      intended one, and it leaves no unopenable directory ahead. */
  lemma AsWrittenUnblocked(s: Walk, j: nat)
    requires j < |s.pending| && !QueueBlocked(s.pending)
    ensures EngineStepAsWritten(s, j) == EngineStep(s, j)
    ensures !QueueBlocked(EngineStep(s, j).pending)
  {
    var x, rest := s.pending[j], Remove(s.pending, j);
    assert !Blocked(s.pending[j].node);
    forall i | 0 <= i < |rest|
      ensures !Blocked(rest[i].node)
    {
      var k := if i < j then i else i + 1;
      assert rest[i] == s.pending[k];
    }
    QueueBlockedAppend(rest, Expand(x));
    if x.node.Directory? && x.node.readable {
      ChildrenBlocked(x.path, x.node.entries);
    }
  }

  class ThreadedWalk {
    var output: CountMap
    var workCount: int
    var pending: seq<Item>
    var done: bool

    function State(): Walk
      reads this
    {
      Walk(output, workCount, pending, done)
    }

    /** The globals before `start`: all zero or empty. */
    constructor()
      ensures State() == Walk(map[], 0, [], false)
    {
      output, workCount, pending, done := map[], 0, [], false;
    }

    /** `start`: `work_count++`, then the input path becomes the first request. */
    method Start(path: string, root: Node)
      modifies this
      ensures State() == Walk(old(output), old(workCount) + 1, old(pending) + [Item(path, root)], old(done))
    {
      workCount := workCount + 1;
      pending := pending + [Item(path, root)];
    }

    /** The `readdir` loop: each entry but "." and ".." becomes a request and
        increments `work_count`. */
    method QueueEntries(path: string, es: seq<Entry>)
      modifies this
      ensures output == old(output) && done == old(done)
      ensures pending == old(pending) + Children(path, es)
      ensures workCount == old(workCount) + |Children(path, es)|
    {
      var i := 0;
      while i < |es|
        invariant 0 <= i <= |es|
        invariant output == old(output) && done == old(done)
        invariant pending == old(pending) + Children(path, es[..i])
        invariant workCount == old(workCount) + |Children(path, es[..i])|
      {
        assert es[..i + 1][..i] == es[..i];
        if !IsDotName(es[i].name) {
          var newpath := JoinPath(path, es[i].name);
          pending := pending + [Item(newpath, es[i].node)];
          workCount := workCount + 1;
        }
        i := i + 1;
      }
      assert es[..i] == es;
    }

    /** The common end of `engine`: `work_count--`, and `done` once it is at most 0. */
    method Finish()
      modifies this
      ensures State() == Walk(old(output), old(workCount) - 1, old(pending), old(done) || old(workCount) - 1 <= 0)
    {
      workCount := workCount - 1;
      if workCount <= 0 {
        done := true;
      }
    }

    /** `engine` on request `j`, as intended. */
    method Engine(j: nat)
      requires j < |pending|
      modifies this
      ensures State() == EngineStep(old(State()), j)
    {
      var x := pending[j];
      pending := Remove(pending, j);
      match x.node {
        case Regular(text) =>
          var temp := WordCount(text);
          output := MergeInto(output, temp);
        case Directory(readable, es) =>
          if readable {
            QueueEntries(x.path, es);
          }
        case Special =>
        case Missing =>
      }
      Finish();
    }

    /** `engine` on request `j`, as written. */
    method EngineAsWritten(j: nat)
      requires j < |pending|
      modifies this
      ensures State() == EngineStepAsWritten(old(State()), j)
    {
      var x := pending[j];
      if x.node.Directory? && !x.node.readable {
        pending := Remove(pending, j);
        return;
      }
      Engine(j);
    }

    /** `start` and the pool: requests are handled in whatever order the threads take
        them until `done` is broadcast; then `output` holds the count of every file
        of the tree. */
    method Run(path: string, root: Node)
      requires State() == Walk(map[], 0, [], false)
      modifies this
      ensures done && pending == [] && workCount == 0
      ensures output == TreeCounts(root)
    {
      Start(path, root);
      StartInv(path, root);
      while !done
        invariant Inv(State(), root)
        decreases QueueSize(pending)
      {
        var j :| 0 <= j < |pending|;
        EngineKeepsInv(State(), j, root);
        Engine(j);
      }
      AddIdentity(output);
    }

    /** `start` and the pool with the engine as written, on a tree whose directories
        all open: every schedule ends with `done` and the count of every file. (On a
        tree with an unopenable directory the program waits for ever; see
        `UnreadableRootHangsAsWritten`.) */
    method RunAsWritten(path: string, root: Node)
      requires State() == Walk(map[], 0, [], false)
      requires !Blocked(root)
      modifies this
      ensures done && pending == [] && workCount == 0
      ensures output == TreeCounts(root)
    {
      Start(path, root);
      StartInv(path, root);
      assert !QueueBlocked(pending) by {
        assert pending == [Item(path, root)];
      }
      while !done
        invariant Inv(State(), root) && !QueueBlocked(pending)
        decreases QueueSize(pending)
      {
        var j :| 0 <= j < |pending|;
        EngineKeepsInv(State(), j, root);
        AsWrittenUnblocked(State(), j);
        EngineAsWritten(j);
      }
      AddIdentity(output);
    }
  }
}
