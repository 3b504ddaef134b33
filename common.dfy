/** Values shared by every part of the command-line parameter model. */
module Common {

  datatype Option<+T> = None | Some(value: T)

  /** A callback registered by the caller of the handler (an `Action` or an
      `Action<string>` delegate). Callbacks are opaque: the model only records
      which one was invoked, and with what argument. A null delegate is `None`. */
  type ActionId = nat

  /** A delegate subscribed to the ParameterError event. Listeners are
      opaque: the model only tells them apart. */
  type ListenerId = nat

  /** The exceptions the model raises: registration calls and constructors
      reject null arguments, and invoking a null default callback throws. */
  datatype Exception = ArgumentNullException(paramName: string) | NullReferenceException

  /** What happens outside the handler while it parses, in order: a callback
      invoked, or a ParameterError event delivered to the subscribed listeners. */
  datatype Event =
    | SwitchInvoked(action: ActionId)
    | ArgumentInvoked(action: ActionId, value: string)
    | DefaultInvoked(action: ActionId, token: string)
    | ParameterError(message: string)

  /** The pair `Validate(out string message)` produces: its boolean result and
      its out-parameter. */
  datatype Validation = Validation(ok: bool, message: string)
}
