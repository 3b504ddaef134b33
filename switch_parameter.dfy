/** A boolean switch: a parameter with a callback taking no argument, fired
    whenever its name is seen on the command line. */
module Switches {
  import opened Common
  import opened Parameters

  /** The action is never null once constructed (the constructor refuses a
      null one), so it is stored as a plain callback. */
  datatype SwitchParameter = SwitchParameter(name: string, description: string, action: ActionId) {

    /** The base `Parameter` part of this switch. */
    function Base(): (p: Parameter)
    {
      Parameter(name, description)
    }

    /** Invokes the stored callback once; no parameter state changes. */
    function Execute(): (e: Event)
      ensures e.SwitchInvoked? && e.action == action
    {
      SwitchInvoked(action)
    }

    /** The switch does not override validation: it is that of `Parameter`. */
    function Validate(): (r: Validation)
    {
      Base().Validate()
    }
  }

  datatype Created = Constructed(switch: SwitchParameter) | Threw(exception: Exception)

  /** The constructor: throws ArgumentNullException("action") on a null
      callback and otherwise keeps the name and description it was given. */
  function NewSwitch(name: string, description: string, action: Option<ActionId>): (r: Created)
    ensures r.Threw? <==> action.None?
    ensures r.Threw? ==> r.exception == ArgumentNullException("action")
    ensures r.Constructed? ==>
      r.switch.name == name && r.switch.description == description && r.switch.action == action.value
  {
    match action
    case None => Threw(ArgumentNullException("action"))
    case Some(a) => Constructed(SwitchParameter(name, description, a))
  }

  /** Validating a switch always succeeds with an empty message, whatever its
      name, description or callback. */
  lemma SwitchAlwaysValid(s: SwitchParameter)
    ensures s.Validate() == Validation(true, "")
  {
  }
}
