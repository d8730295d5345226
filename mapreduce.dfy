/** The `MapReduce` class: the machine limits, the work queue and the partition of
    one rank, set up by `setup_machine_specifics` and filled by `masterSendPath`
    (rank 0) or `receiveWork` (every other rank). */
module MapReduce {

  import opened Common
  import opened FileTree
  import opened Messages
  import opened Limits
  import opened Distribution

  class MapReduce {
    var pathMax: nat
    var nameMax: nat
    const worldSize: nat
    const nrank: nat
    var workqueue: seq<string>

    /** Set when `errno_abort` ended the process during set-up; nothing runs after it. */
    var aborted: bool

    /** The constructor records the communicator's size and this process's rank and
        runs `setup_machine_specifics` on the two `pathconf` answers for the input
        path; an abort there leaves the limits 0 and sets `aborted`. */
    constructor(worldSize: nat, nrank: nat, pathReported: int, pathErrno: int, nameReported: int, nameErrno: int)
      requires nrank < worldSize
      requires pathReported >= -1 && nameReported >= -1
      ensures this.worldSize == worldSize && this.nrank == nrank && workqueue == []
      ensures aborted <==> Configure(pathReported, pathErrno, nameReported, nameErrno).None?
      ensures !aborted ==> pathMax == Configure(pathReported, pathErrno, nameReported, nameErrno).value.pathMax &&
                           nameMax == Configure(pathReported, pathErrno, nameReported, nameErrno).value.nameMax
      ensures aborted ==> pathMax == 0 && nameMax == 0
    {
      this.worldSize := worldSize;
      this.nrank := nrank;
      workqueue := [];
      var c := Configure(pathReported, pathErrno, nameReported, nameErrno);
      if c.None? {
        pathMax, nameMax, aborted := 0, 0, true;
      } else {
        pathMax, nameMax, aborted := c.value.pathMax, c.value.nameMax, false;
      }
    }

    /** `setup_machine_specifics`: the two `pathconf` queries; `false` stands for
        `errno_abort`, which leaves the limits as they were. */
    method SetupMachineSpecifics(pathReported: int, pathErrno: int, nameReported: int, nameErrno: int)
      returns (ok: bool)
      requires pathReported >= -1 && nameReported >= -1
      modifies this
      ensures ok <==> Configure(pathReported, pathErrno, nameReported, nameErrno).Some?
      ensures ok ==> pathMax == Configure(pathReported, pathErrno, nameReported, nameErrno).value.pathMax &&
                     nameMax == Configure(pathReported, pathErrno, nameReported, nameErrno).value.nameMax
      ensures !ok ==> pathMax == old(pathMax) && nameMax == old(nameMax)
      ensures aborted == !ok
      ensures workqueue == old(workqueue)
    {
      var c := Configure(pathReported, pathErrno, nameReported, nameErrno);
      if c.None? {
        aborted := true;
        return false;
      }
      aborted := false;
      pathMax, nameMax := c.value.pathMax, c.value.nameMax;
      ok := true;
    }

    /** `distributeTask` on rank 0: the regular files of the input directory and
        their even partition over the ranks. */
    method DistributeTask(dirPath: string, node: Node, errno: int)
      returns (scan: Scan, sendcounts: array<int>, displacement: array<int>)
      requires nrank == 0 && worldSize > 0
      ensures !node.Directory? ==> scan == Aborted(-1)
      ensures node.Directory? && !node.readable ==> scan == Aborted(errno)
      ensures node.Directory? && node.readable ==>
        scan == Scanned(RegularFiles(dirPath, node.entries)) &&
        sendcounts.Length == worldSize && displacement.Length == worldSize &&
        (forall i :: 0 <= i < worldSize ==> sendcounts[i] == SendCount(|scan.files|, worldSize, i)) &&
        (forall i :: 0 <= i < worldSize ==> displacement[i] == PrefixSum(sendcounts[..i])) &&
        PrefixSum(sendcounts[..]) == |scan.files|
    {
      scan, sendcounts, displacement := Distribution.DistributeTask(dirPath, node, worldSize, errno);
    }

    /** `masterSendPath` on rank 0: rank 0's share of the entries joins `workqueue`,
        the other shares are sent, then the end messages. */
    method MasterSendPath(path: string, node: Node) returns (outcome: SendOutcome, sends: seq<Message>)
      requires worldSize > 0
      requires node.Directory? && node.readable ==> EntriesFit(path, node.entries, pathMax)
      modifies this
      ensures pathMax == old(pathMax) && nameMax == old(nameMax) && aborted == old(aborted)
      ensures outcome == (if !node.Directory? then NotADirectory else if !node.readable then OpenFailed else Distributed)
      ensures outcome != Distributed ==> sends == [] && workqueue == old(workqueue)
      ensures outcome == Distributed ==>
        Fit(WorkPaths(path, node.entries), pathMax) &&
        workqueue == old(workqueue) + Share(WorkPaths(path, node.entries), worldSize, 0) &&
        sends == WorkSends(WorkPaths(path, node.entries), worldSize, pathMax) + EndMessages(worldSize)
    {
      outcome, sends, workqueue := Distribution.MasterSendPath(path, node, pathMax, worldSize, workqueue);
    }

    /** `receiveWork` on any other rank: the paths before the end message join
        `workqueue` in arrival order. */
    method ReceiveWork(inbox: seq<Message>) returns (ended: bool)
      modifies this
      ensures pathMax == old(pathMax) && nameMax == old(nameMax) && aborted == old(aborted)
      ensures ended <==> HasEnd(inbox)
      ensures workqueue == old(workqueue) + WorkBeforeEnd(inbox)
    {
      workqueue, ended := Messages.ReceiveWork(inbox, workqueue);
    }
  }
}
