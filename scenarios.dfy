/** Sequences of calls on one handler, as a program makes them. */
module Scenarios {
  import opened Common
  import opened Handler

  /** Disposing twice parses at most once: after a first disposal that
      completes, the handler is disposed and the second disposal neither
      throws nor (by the contract of Dispose) touches the trace. When the
      first disposal throws, the handler stays undisposed, so the second one
      parses again and throws the same exception. */
  method DisposeTwice(h: ParameterHandler) returns (first: Option<Exception>, second: Option<Exception>)
    requires h.Valid() && !h.disposed
    modifies h, h.arguments
    ensures first.None? ==> second.None? && h.disposed
    ensures first.Some? ==> second == first && !h.disposed
  {
    first := h.Dispose();
    second := h.Dispose();
  }
}
