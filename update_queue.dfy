/** The host root's update queue: one pending update, shared by the current and work-in-progress fibers. */
module UpdateQueue {
  import opened Wrappers

  /** An action replaces the state with a value or computes it from the previous state. */
  datatype Action<!S> = State(value: S) | Updater(f: S -> S)

  datatype Update<!S> = Update(action: Action<S>)

  /** The `shared` record of the source is flattened into the queue object, which is what the fibers share. */
  class UpdateQueue<S> {
    var pending: Option<Update<S>>

    /** `createUpdateQueue` */
    constructor ()
      ensures pending == None
    {
      pending := None;
    }

    /** `enqueueUpdate`: the update replaces whatever was pending. */
    method EnqueueUpdate(update: Update<S>)
      modifies this
      ensures pending == Some(update)
    {
      pending := Some(update);
    }
  }

  function CreateUpdate<S>(action: Action<S>): (u: Update<S>)
    ensures u.action == action
  {
    Update(action)
  }

  /** The state after applying the pending update, if any, to `baseState`. */
  function ProcessUpdateQueue<S>(baseState: S, pendingUpdate: Option<Update<S>>): (memoizedState: S)
    ensures pendingUpdate.None? ==> memoizedState == baseState
    ensures pendingUpdate.Some? && pendingUpdate.value.action.Updater? ==>
              memoizedState == pendingUpdate.value.action.f(baseState)
    ensures pendingUpdate.Some? && pendingUpdate.value.action.State? ==>
              memoizedState == pendingUpdate.value.action.value
  {
    match pendingUpdate
    case None => baseState
    case Some(update) =>
      match update.action
      case Updater(f) => f(baseState)
      case State(value) => value
  }

  /** A value update ignores the base state: processing it gives the value whatever the state was. */
  lemma ValueUpdateIgnoresBaseState<S>(base1: S, base2: S, value: S)
    ensures ProcessUpdateQueue(base1, Some(CreateUpdate(State(value)))) == value
    ensures ProcessUpdateQueue(base1, Some(CreateUpdate(State(value))))
         == ProcessUpdateQueue(base2, Some(CreateUpdate(State(value))))
  {
  }

  /** Enqueueing twice keeps only the later update: processing sees the last write. */
  method EnqueueTwiceLastWins<S>(q: UpdateQueue<S>, first: Update<S>, second: Update<S>, base: S) returns (memoizedState: S)
    modifies q
    ensures q.pending == Some(second)
    ensures memoizedState == ProcessUpdateQueue(base, Some(second))
  {
    q.EnqueueUpdate(first);
    q.EnqueueUpdate(second);
    memoizedState := ProcessUpdateQueue(base, q.pending);
  }
}
