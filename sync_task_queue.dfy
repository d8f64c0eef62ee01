/** Callbacks scheduled to run synchronously, flushed together. */
module SyncTaskQueue {
  import opened Wrappers
  import opened EarlyExit

  /** A scheduled callback, identified by the function object. */
  type Callback = nat

  class SyncQueue {
    var syncQueue: Option<seq<Callback>>
    var isFlushingSyncQueue: bool

    constructor ()
      ensures syncQueue.None? && !isFlushingSyncQueue
    {
      syncQueue := None;
      isFlushingSyncQueue := false;
    }

    /** `scheduleSyncCallback`: the first call creates a one-element queue, later ones append. */
    method ScheduleSyncCallback(callback: Callback)
      modifies this`syncQueue
      ensures old(syncQueue).None? ==> syncQueue == Some([callback])
      ensures old(syncQueue).Some? ==> syncQueue == Some(old(syncQueue).value + [callback])
    {
      if syncQueue.None? {
        syncQueue := Some([callback]);
      } else {
        syncQueue := Some(syncQueue.value + [callback]);
      }
    }

    /**
     * `flushSyncCallbacks`: invokes the queued callbacks in order; `throws`
     * says which of them throw.  A throw ends the flush and is swallowed.
     * `invoked` is the sequence of calls made.
     */
    method FlushSyncCallbacks(throws: Callback -> bool) returns (invoked: seq<Callback>)
      modifies this`isFlushingSyncQueue
      ensures old(isFlushingSyncQueue) || syncQueue.None? ==> invoked == []
      ensures !old(isFlushingSyncQueue) && syncQueue.Some? ==> invoked == UpToFirst(syncQueue.value, throws)
      ensures isFlushingSyncQueue == old(isFlushingSyncQueue)
      ensures syncQueue == old(syncQueue)
    {
      invoked := [];
      if !isFlushingSyncQueue && syncQueue.Some? {
        isFlushingSyncQueue := true;
        var queue := syncQueue.value;
        var i := 0;
        var threw := false;
        while i < |queue| && !threw
          invariant 0 <= i <= |queue|
          invariant forall j | 0 <= j < i :: !throws(queue[j])
          invariant !threw ==> invoked == queue[..i]
          invariant threw ==> i < |queue| && throws(queue[i]) && invoked == queue[..i + 1]
          decreases |queue| - i, !threw
        {
          invoked := invoked + [queue[i]];
          assert queue[..i + 1] == queue[..i] + [queue[i]];
          if throws(queue[i]) {
            threw := true;
          } else {
            i := i + 1;
          }
        }
        if threw {
          UpToFirstStopsAt(queue, throws, i);
        } else {
          UpToFirstRunsAll(queue, throws);
        }
        isFlushingSyncQueue := false;
      }
    }
  }
}
