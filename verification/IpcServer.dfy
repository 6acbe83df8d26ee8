/** The parent process: dispatch to the least-loaded worker, and the supervisor's crash branch. */
module IpcServer {
  import opened Messages
  import Layout = PhoenixShmLayout

  class IpcServer {
    const layout: Layout.PhoenixShmLayout
    var crashesDetected: nat
    var poisonPillsSkipped: nat

    constructor (layout: Layout.PhoenixShmLayout)
      ensures this.layout == layout && crashesDetected == 0 && poisonPillsSkipped == 0
    {
      this.layout, crashesDetected, poisonPillsSkipped := layout, 0, 0;
    }

    method SelectBestWorker(priority: Priority) returns (worker: nat)
      requires layout.Valid()
      ensures Layout.FirstOf(priority) + worker == Layout.Chosen(layout.Held(), priority)
    {
      if priority.High? {
        worker := layout.FindBestVipWorker();
      } else {
        worker := layout.FindBestNormalWorker();
      }
    }

    method DispatchMessage(header: MsgHeader, priority: Priority) returns (ok: bool)
      requires layout.Valid()
      modifies layout.queues, layout.memory
      ensures layout.Valid()
      ensures (ok, layout.Held()) == Layout.Dispatch(old(layout.Held()), header, priority)
    {
      assert layout.Shaped();
      hide *;
      var worker := SelectBestWorker(priority);
      var q := 2 * (Layout.FirstOf(priority) + worker);
      Layout.DispatchedWhere(layout.Held(), header, priority);
      var full := layout.FullOn(q);
      if full {
        return false;
      }
      ok := layout.PushOn(q, header);
    }

    method RecoverFromCrash() returns (skipped: nat)
      requires layout.Valid()
      modifies this`poisonPillsSkipped, layout.queues, layout.monitors
      ensures skipped == Layout.CountTrue(old(layout.Processing()))
      ensures poisonPillsSkipped == old(poisonPillsSkipped) + skipped
      ensures layout.Shaped() && layout.Processing() == seq(Layout.WORKERS, _ => false)
      ensures layout.Valid() <==> Layout.HeadsPresent(old(layout.Held()), old(layout.Processing()))
      ensures layout.Valid() ==> layout.Held() == Layout.Recovered(old(layout.Held()), old(layout.Processing()))
    {
      skipped := layout.RecoverCrashedWorkers();
      poisonPillsSkipped := poisonPillsSkipped + skipped;
    }

    /** The supervisor's crash branch up to the restart of the child. */
    method OnChildDeath() returns (skipped: nat)
      requires layout.Valid() && Layout.HeadsPresent(layout.Held(), layout.Processing())
      modifies this, layout.queues, layout.monitors
      ensures crashesDetected == old(crashesDetected) + 1
      ensures skipped == Layout.CountTrue(old(layout.Processing()))
      ensures poisonPillsSkipped == old(poisonPillsSkipped) + skipped
      ensures layout.Valid() && layout.Held() == Layout.Recovered(old(layout.Held()), old(layout.Processing()))
    {
      crashesDetected := crashesDetected + 1;
      skipped := RecoverFromCrash();
    }

    /**
     * Scan, recover, scan, recover: the first recovery skips what the scan counted, the second scan
     * finds nothing and the second recovery changes nothing.
     */
    method RecoverTwice() returns (scanned: nat, skipped: nat, scannedAgain: nat, skippedAgain: nat)
      requires layout.Valid() && Layout.HeadsPresent(layout.Held(), layout.Processing())
      modifies layout.queues, layout.monitors
      ensures layout.Valid() && layout.Held() == Layout.Recovered(old(layout.Held()), old(layout.Processing()))
      ensures skipped == scanned && scannedAgain == 0 && skippedAgain == 0
    {
      scanned := layout.ScanCrashedWorkers();
      skipped := layout.RecoverCrashedWorkers();
      Layout.RecoveredOnce(layout.Held());
      scannedAgain := layout.ScanCrashedWorkers();
      skippedAgain := layout.RecoverCrashedWorkers();
    }
  }
}
