/** A parameter that takes a value: `-name value` on the command line. It
    records whether it has been supplied, so that a mandatory one can be
    reported as missing after the scan. */
module Arguments {
  import opened Common
  import opened Parameters

  /** The message of a failed validation. */
  function MandatoryMessage(name: string): string
  {
    "Mandatory parameter " + name + " not specified"
  }

  class ArgumentParameter {
    const name: string
    const description: string
    /** Fixed at construction: the setter is private and only the constructor sets it. */
    const mandatory: bool
    const action: ActionId
    /** False until `Execute` runs; `Execute` is the only thing that sets it. */
    var used: bool

    constructor (name: string, description: string, mandatory: bool, action: ActionId)
      ensures this.name == name && this.description == description
      ensures this.mandatory == mandatory && this.action == action
      ensures !used
    {
      this.name := name;
      this.description := description;
      this.mandatory := mandatory;
      this.action := action;
      used := false;
    }

    /** The base `Parameter` part of this argument parameter. */
    function Base(): (p: Parameter)
    {
      Parameter(name, description)
    }

    /** Invokes the callback with exactly `argument`, then marks the parameter
        used. Every call invokes the callback again; `used` stays true. */
    method Execute(argument: string) returns (e: Event)
      modifies this
      ensures e == ArgumentInvoked(action, argument)
      ensures used
    {
      e := ArgumentInvoked(action, argument);
      used := true;
    }

    /** Invalid, naming the parameter, exactly when it is mandatory and was
        never supplied; otherwise valid with an empty message. */
    function Validate(): (r: Validation)
      reads this
      ensures !r.ok <==> mandatory && !used
      ensures !r.ok ==> r.message == MandatoryMessage(name)
      ensures r.ok ==> r.message == ""
    {
      if mandatory && !used then Validation(false, MandatoryMessage(name))
      else Validation(true, "")
    }
  }

  datatype Created = Constructed(parameter: ArgumentParameter) | Threw(exception: Exception)

  /** The constructor with its guard: a null callback throws
      ArgumentNullException("action"); otherwise a fresh, unused parameter
      that keeps the name, description and mandatory flag it was given. */
  method NewArgumentParameter(name: string, description: string, mandatory: bool, action: Option<ActionId>)
    returns (r: Created)
    ensures r.Threw? <==> action.None?
    ensures r.Threw? ==> r.exception == ArgumentNullException("action")
    ensures r.Constructed? ==> fresh(r.parameter) && !r.parameter.used
    ensures r.Constructed? ==>
      r.parameter.name == name && r.parameter.description == description &&
      r.parameter.mandatory == mandatory && r.parameter.action == action.value
  {
    if action.None? {
      return Threw(ArgumentNullException("action"));
    }
    var p := new ArgumentParameter(name, description, mandatory, action.value);
    r := Constructed(p);
  }
}
