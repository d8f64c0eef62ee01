/** The stack of Suspense boundaries entered during rendering; the innermost one handles a suspension. */
module SuspenseContext {
  import opened Wrappers
  import opened Fiber

  class SuspenseHandlerStack {
    var handlers: seq<FiberId>

    constructor ()
      ensures handlers == []
    {
      handlers := [];
    }

    /** `getSuspenseHandler`: the last handler pushed and not yet popped, `undefined` when there is none. */
    function GetSuspenseHandler(): (h: Option<FiberId>)
      reads this
      ensures handlers == [] <==> h.None?
      ensures h.Some? ==> h.value == handlers[|handlers| - 1]
    {
      if |handlers| == 0 then None else Some(handlers[|handlers| - 1])
    }

    method PushSuspenseHandler(handler: FiberId)
      modifies this
      ensures handlers == old(handlers) + [handler]
      ensures GetSuspenseHandler() == Some(handler)
    {
      handlers := handlers + [handler];
    }

    /** `popSuspenseHandler`: drops the top handler and keeps the rest in order; popping nothing does nothing. */
    method PopSuspenseHandler()
      modifies this
      ensures old(handlers) == [] ==> handlers == []
      ensures old(handlers) != [] ==> handlers == old(handlers)[..|old(handlers)| - 1]
      ensures old(handlers) != [] ==> old(handlers) == handlers + [old(handlers)[|old(handlers)| - 1]]
    {
      if |handlers| > 0 {
        handlers := handlers[..|handlers| - 1];
      }
    }
  }

  /** A push followed by a pop leaves the stack exactly as it was. */
  method PushPopLeavesStack(s: SuspenseHandlerStack, handler: FiberId)
    modifies s
    ensures s.handlers == old(s.handlers)
  {
    s.PushSuspenseHandler(handler);
    s.PopSuspenseHandler();
    assert (old(s.handlers) + [handler])[..|old(s.handlers)|] == old(s.handlers);
  }
}
