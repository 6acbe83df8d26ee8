/** One turn of the worker loop that no crash interrupts. */
module Worker {
  import opened Word64
  import Layout = PhoenixShmLayout

  class Worker {
    const layout: Layout.PhoenixShmLayout
    const index: nat

    constructor (layout: Layout.PhoenixShmLayout, index: nat)
      ensures this.layout == layout && this.index == index
    {
      this.layout, this.index := layout, index;
    }

    /** What the monitor keeps of the last transaction. */
    ghost predicate Shows(seqId: u64, now: u64)
      requires index < |layout.monitors|
      reads layout.monitors[index]
    {
      var monitor := layout.monitors[index];
      && monitor.processingSeq == seqId && monitor.startTimestamp == now
      && monitor.groupId == (if index < 4 then 0 else 1) && monitor.workerIndex == if index < 4 then index else index - 4
    }

    /** The transaction around the work. */
    method Transact(seqId: u64, now: u64)
      requires layout.Parts() && index < Layout.WORKERS && !layout.Processing()[index]
      modifies layout.monitors[index]
      ensures layout.Processing() == old(layout.Processing())
      ensures Shows(seqId, now)
    {
      var group := if index < Layout.NORMAL_WORKERS then 0 else 1;
      layout.monitors[index].BeginTransaction(seqId, group, index - group * Layout.NORMAL_WORKERS, now);
      layout.monitors[index].EndTransaction();
    }

    /**
     * A request is processed exactly when there is one and the monitor is idle; then just it leaves the
     * queue, the monitor is idle again, and what it still shows is that request's number.
     */
    method Turn(now: u64) returns (processed: bool)
      requires layout.Valid() && index < Layout.WORKERS
      modifies layout.queues[2 * index], layout.monitors[index]
      ensures layout.Valid()
      ensures processed <==> old(layout.Held())[2 * index] != [] && !old(layout.Processing())[index]
      ensures layout.Held() == if processed then old(layout.Held())[2 * index := old(layout.Held())[2 * index][1..]]
                               else old(layout.Held())
      ensures layout.Processing() == old(layout.Processing())
      ensures processed ==> Shows(old(layout.Held())[2 * index][0].seqId, now)
    {
      assert layout.Shaped();
      hide Layout.PhoenixShmLayout.Valid, Layout.PhoenixShmLayout.Held;
      var request := layout.PeekOn(2 * index);
      var busy := layout.monitors[index].IsProcessing();
      if request.None? || busy {
        return false;
      }
      Transact(request.value.seqId, now);
      hide Layout.PhoenixShmLayout.Processing, Layout.PhoenixShmLayout.Shaped, Layout.PhoenixShmLayout.Parts;
      processed := layout.PopOn(2 * index);
    }
  }
}
