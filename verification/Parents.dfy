/** The clients of a cluster node that wait for answers to their commands. */
module ParentsProgram {
  import opened EntryLog

  class Parents {
    var parentsQueue: seq<int>               // the connected clients
    var dealingIndexParentsMap: map<int, int>

    /** No client is queued twice. */
    ghost predicate Valid()
      reads this`parentsQueue
    {
      forall i, j :: 0 <= i < j < |parentsQueue| ==> parentsQueue[i] != parentsQueue[j]
    }

    constructor ()
      ensures Valid() && parentsQueue == [] && dealingIndexParentsMap == map[]
    {
      parentsQueue, dealingIndexParentsMap := [], map[];
    }

    method AddParents(parents: int) returns (ok: bool)
      requires Valid()
      modifies this`parentsQueue
      ensures Valid() && ok == (parents !in old(parentsQueue))
      ensures parentsQueue == if ok then old(parentsQueue) + [parents] else old(parentsQueue)
    {
      if parents in parentsQueue { return false; }
      parentsQueue := parentsQueue + [parents];
      return true;
    }

    /** The client leaves the queue; what it is still waiting for stays recorded. */
    method DeleteParents(parents: int) returns (ok: bool)
      requires Valid()
      modifies this`parentsQueue
      ensures Valid() && ok == (parents in old(parentsQueue))
      ensures parents !in parentsQueue
      ensures forall p :: p != parents ==> (p in parentsQueue <==> p in old(parentsQueue))
    {
      if parents !in parentsQueue { return false; }
      var findResult := 0;
      while parentsQueue[findResult] != parents
        invariant findResult < |parentsQueue| && parents !in parentsQueue[..findResult]
        decreases |parentsQueue| - findResult
      {
        findResult := findResult + 1;
      }
      ghost var was := parentsQueue;
      parentsQueue := parentsQueue[..findResult] + parentsQueue[findResult + 1..];
      assert was == was[..findResult] + [parents] + was[findResult + 1..];
      return true;
    }

    method SetDealingIndex(dealingIndex: int, parent: int) returns (ok: bool)
      modifies this`dealingIndexParentsMap
      ensures ok == (parent in parentsQueue)
      ensures dealingIndexParentsMap == if ok then old(dealingIndexParentsMap)[dealingIndex := parent]
                                        else old(dealingIndexParentsMap)
    {
      if parent !in parentsQueue { return false; }
      dealingIndexParentsMap := dealingIndexParentsMap[dealingIndex := parent];
      return true;
    }

    /** The client that waits for the index, which from now on waits no more. */
    method GetParentsByDealingIndex(dealingIndex: int) returns (parent: Option<int>)
      modifies this`dealingIndexParentsMap
      ensures parent == if dealingIndex in old(dealingIndexParentsMap)
                        then Some(old(dealingIndexParentsMap)[dealingIndex]) else None
      ensures dealingIndexParentsMap == old(dealingIndexParentsMap) - {dealingIndex}
    {
      if dealingIndex !in dealingIndexParentsMap { return None; }
      parent := Some(dealingIndexParentsMap[dealingIndex]);
      dealingIndexParentsMap := dealingIndexParentsMap - {dealingIndex};
    }

    method ClearDealingIndex()
      modifies this`dealingIndexParentsMap
      ensures dealingIndexParentsMap == map[]
    {
      dealingIndexParentsMap := map[];
    }
  }
}
