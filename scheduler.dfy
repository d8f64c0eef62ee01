/**
 * The five priority levels of the external `scheduler` package.  Its task
 * queue, `runWithPriority` and `getCurrentPriorityLevel` are
 * not part of this model; the current level is passed in where it is read.
 */
module Scheduler {

  /** A task handle returned by the scheduler. */
  type CallbackNode = nat

  datatype SchedulerPriority =
    | ImmediatePriority
    | UserBlockingPriority
    | NormalPriority
    | LowPriority
    | IdlePriority
}
