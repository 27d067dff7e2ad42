/** One queue per worker; the flow hash chooses the queue. */
module LoadBalancing {
  import opened BitMask
  import opened SpscRing
  import opened LockFreeQueues

  /** Two workers' queues share nothing. */
  ghost predicate Apart<T>(queues: seq<LockFreeQueue<T>>, i: int, j: int)
    requires 0 <= i < |queues| && 0 <= j < |queues|
  {
    queues[i] != queues[j] && queues[i].buffer != queues[j].buffer
  }

  class LoadBalancer<T> {
    const numWorkers: nat
    const workerQueues: seq<LockFreeQueue<T>>

    ghost predicate Valid()
      reads set i | 0 <= i < |workerQueues| :: workerQueues[i]
      reads set i | 0 <= i < |workerQueues| :: workerQueues[i].buffer
    {
      && |workerQueues| == numWorkers > 0
      && (forall i {:trigger workerQueues[i]} :: 0 <= i < numWorkers ==> workerQueues[i].Valid())
      && (forall i, j {:trigger Apart(workerQueues, i, j)} :: 0 <= i < j < numWorkers ==> Apart(workerQueues, i, j))
    }

    /** What waits for worker i. */
    ghost function Waiting(i: nat): seq<T>
      requires i < |workerQueues| && workerQueues[i].Valid()
      reads workerQueues[i], workerQueues[i].buffer
    {
      Contents(workerQueues[i].Snapshot())
    }

    constructor (numWorkers: nat, queueCapacity: nat, blank: T)
      requires numWorkers > 0 && 2 <= queueCapacity < WORD && IsPowerOfTwo(queueCapacity)
      ensures Valid() && this.numWorkers == numWorkers
      ensures forall i :: 0 <= i < numWorkers ==>
                && fresh(workerQueues[i]) && fresh(workerQueues[i].buffer)
                && workerQueues[i].capacity == queueCapacity && Waiting(i) == []
    {
      var queues: seq<LockFreeQueue<T>> := [];
      for i := 0 to numWorkers
        invariant |queues| == i
        invariant forall k {:trigger queues[k]} :: 0 <= k < i ==>
                    && fresh(queues[k]) && fresh(queues[k].buffer) && queues[k].Valid()
                    && queues[k].capacity == queueCapacity && Contents(queues[k].Snapshot()) == []
        invariant forall j, k {:trigger Apart(queues, j, k)} :: 0 <= j < k < i ==> Apart(queues, j, k)
      {
        ghost var before := queues;
        var q := new LockFreeQueue<T>(queueCapacity, blank);
        queues := queues + [q];
        forall j, k | 0 <= j < k < i + 1 ensures Apart(queues, j, k) {
          assert queues[j] == before[j];
          if k < i {
            assert Apart(before, j, k);
          }
        }
      }
      this.numWorkers := numWorkers;
      workerQueues := queues;
    }

    /** Pushes to the queue the hash chooses, and to no other. */
    method Dispatch(packet: T, flowHash: nat) returns (ok: bool)
      requires Valid()
      modifies workerQueues[flowHash % numWorkers], workerQueues[flowHash % numWorkers].buffer
      ensures Valid()
      ensures ok <==> |old(Waiting(flowHash % numWorkers))| < workerQueues[flowHash % numWorkers].capacity
      ensures Waiting(flowHash % numWorkers)
              == if ok then old(Waiting(flowHash % numWorkers)) + [packet] else old(Waiting(flowHash % numWorkers))
      ensures forall i :: 0 <= i < numWorkers && i != flowHash % numWorkers ==> Waiting(i) == old(Waiting(i))
    {
      var workerId := flowHash % numWorkers;
      forall i | 0 <= i < numWorkers && i != workerId
        ensures workerQueues[i] != workerQueues[workerId] && workerQueues[i].buffer != workerQueues[workerId].buffer
      {
        assert if i < workerId then Apart(workerQueues, i, workerId) else Apart(workerQueues, workerId, i);
      }
      ok := workerQueues[workerId].Push(packet);
    }

    /** A worker's own queue; null for a number out of range. */
    method GetQueue(workerId: nat) returns (q: LockFreeQueue?<T>)
      requires Valid()
      ensures if workerId < numWorkers then q == workerQueues[workerId] else q == null
    {
      if workerId >= numWorkers {
        return null;
      }
      return workerQueues[workerId];
    }
  }

  /** No workers, or a capacity that the queues refuse, is an error; null stands for the exception. */
  method Create<T>(numWorkers: nat, queueCapacity: nat, blank: T) returns (lb: LoadBalancer?<T>)
    requires queueCapacity < WORD
    ensures lb != null <==> numWorkers > 0 && queueCapacity >= 2 && IsPowerOfTwo(queueCapacity)
    ensures lb != null ==> fresh(lb) && lb.Valid() && lb.numWorkers == numWorkers
  {
    if numWorkers == 0 || Rejected(queueCapacity) {
      return null;
    }
    lb := new LoadBalancer<T>(numWorkers, queueCapacity, blank);
  }
}
