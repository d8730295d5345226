/** The single-threaded walk of `wordcountone.cpp`: a FIFO of paths starting with the
    input, each popped path counted if it is a regular file and expanded into its
    entries if it is a directory, all counts added into one `output` map. */
module SequentialWalk {

  import opened Common
  import opened Words
  import opened CountMaps
  import opened FileTree

  /** `processFile`: pops the front of `workq` and handles it. An unreadable directory
      calls `exit(1)` (`exited`); a path that is neither a file nor a directory is
      reported and dropped. */
  method ProcessFile(output: CountMap, workq: seq<Item>) returns (output': CountMap, workq': seq<Item>, exited: bool)
    requires workq != []
    ensures exited <==> workq[0].node.Directory? && !workq[0].node.readable
    ensures workq[0].node.Regular? ==> output' == Add(output, FileCounts(workq[0].node.text)) && workq' == workq[1..]
    ensures workq[0].node.Directory? && workq[0].node.readable ==>
      output' == output && workq' == workq[1..] + Children(workq[0].path, workq[0].node.entries)
    ensures workq[0].node.Special? || workq[0].node.Missing? ==> output' == output && workq' == workq[1..]
  {
    var a := workq[0];
    workq' := workq[1..];
    output', exited := output, false;
    match a.node
    case Regular(text) =>
      var temp := WordCount(text);
      output' := MergeInto(output, temp);
    case Directory(readable, es) =>
      if !readable {
        exited := true;
        return;
      }
      var i := 0;
      ghost var rest := workq';
      while i < |es|
        invariant 0 <= i <= |es|
        invariant workq' == rest + Children(a.path, es[..i])
      {
        assert es[..i + 1][..i] == es[..i];
        if !IsDotName(es[i].name) {
          var toPush := JoinPath(a.path, es[i].name);
          workq' := workq' + [Item(toPush, es[i].node)];
        }
        i := i + 1;
      }
      assert es[..i] == es;
    case Special =>
    case Missing =>
  }

  /** The queue splits into its front item and the rest for every measure the walk
      keeps. */
  lemma QueueFront(q: seq<Item>)
    requires q != []
    ensures QueueCounts(q) == Add(TreeCounts(q[0].node), QueueCounts(q[1..]))
    ensures QueueSize(q) == Size(q[0].node) + QueueSize(q[1..])
    ensures QueueBlocked(q) <==> Blocked(q[0].node) || QueueBlocked(q[1..])
  {
    assert q == [q[0]] + q[1..];
    assert [q[0]][..0] == [];
    QueueCountsAppend([q[0]], q[1..]);
    QueueSizeAppend([q[0]], q[1..]);
    QueueBlockedAppend([q[0]], q[1..]);
    AddIdentity(TreeCounts(q[0].node));
  }

  /** One call of `processFile` that does not exit keeps what the output and the queue
      still owe to the tree, and makes the queue stand for less of the tree. */
  lemma ProcessFileProgress(output: CountMap, workq: seq<Item>, output': CountMap, workq': seq<Item>)
    requires workq != [] && !(workq[0].node.Directory? && !workq[0].node.readable)
    requires workq[0].node.Regular? ==> output' == Add(output, FileCounts(workq[0].node.text)) && workq' == workq[1..]
    requires workq[0].node.Directory? ==>
      output' == output && workq' == workq[1..] + Children(workq[0].path, workq[0].node.entries)
    requires workq[0].node.Special? || workq[0].node.Missing? ==> output' == output && workq' == workq[1..]
    ensures Add(output', QueueCounts(workq')) == Add(output, QueueCounts(workq))
    ensures QueueBlocked(workq') <==> QueueBlocked(workq)
    ensures QueueSize(workq') < QueueSize(workq)
  {
    var x, rest := workq[0], workq[1..];
    QueueFront(workq);
    AddAssociative(output, TreeCounts(x.node), QueueCounts(rest));
    match x.node
    case Regular(_) =>
    case Directory(_, es) =>
      var ch := Children(x.path, es);
      QueueCountsAppend(rest, ch);
      ChildrenCounts(x.path, es);
      AddCommutative(QueueCounts(rest), QueueCounts(ch));
      QueueBlockedAppend(rest, ch);
      ChildrenBlocked(x.path, es);
      QueueSizeAppend(rest, ch);
      ChildrenSize(x.path, es);
    case Special =>
      AddIdentity(QueueCounts(rest));
    case Missing =>
      AddIdentity(QueueCounts(rest));
  }

  /** `main`: starts the queue with the input path and calls `processFile` until the
      queue is empty. The result is the count of every file of the tree, or `None`
      when the walk meets a directory it cannot open and exits. */
  method Run(start: string, root: Node) returns (result: Option<CountMap>)
    ensures result.None? <==> Blocked(root)
    ensures result.Some? ==> result.value == TreeCounts(root)
  {
    var output: CountMap := map[];
    var workq := [Item(start, root)];
    QueueFront(workq);
    assert workq[1..] == [];
    AddIdentity(TreeCounts(root));
    while workq != []
      invariant Add(output, QueueCounts(workq)) == TreeCounts(root)
      invariant QueueBlocked(workq) <==> Blocked(root)
      decreases QueueSize(workq)
    {
      var output', workq', exited := ProcessFile(output, workq);
      if exited {
        QueueFront(workq);
        return None;
      }
      ProcessFileProgress(output, workq, output', workq');
      output, workq := output', workq';
    }
    AddIdentity(output);
    return Some(output);
  }
}
