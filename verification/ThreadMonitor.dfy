/** The per-worker record from which a crash is detected. */
module ThreadMonitor {
  import opened Word64

  const STATUS_IDLE: nat := 0
  const STATUS_PROCESSING: nat := 1

  class ThreadMonitor {
    var status: nat
    var processingSeq: u64
    var startTimestamp: u64
    var groupId: nat
    var workerIndex: nat

    constructor ()
      ensures !Processing() && processingSeq == 0
    {
      status, processingSeq, startTimestamp, groupId, workerIndex := STATUS_IDLE, 0, 0, 0, 0;
    }

    ghost predicate Processing()
      reads this
    {
      status == STATUS_PROCESSING
    }

    /** The clock reading is a parameter. */
    method BeginTransaction(seqId: u64, group: nat, index: nat, now: u64)
      modifies this
      ensures Processing() && processingSeq == seqId && startTimestamp == now
      ensures groupId == group && workerIndex == index
    {
      status := STATUS_PROCESSING;
      processingSeq := seqId;
      startTimestamp := now;
      groupId, workerIndex := group, index;
    }

    method EndTransaction()
      modifies this`status
      ensures !Processing()
    {
      status := STATUS_IDLE;
    }

    method IsProcessing() returns (yes: bool)
      ensures yes <==> Processing()
    {
      yes := status == STATUS_PROCESSING;
    }

    method Reset()
      modifies this
      ensures !Processing() && processingSeq == 0 && startTimestamp == 0 && groupId == 0 && workerIndex == 0
    {
      status, processingSeq, startTimestamp, groupId, workerIndex := STATUS_IDLE, 0, 0, 0, 0;
    }
  }
}
