/** The base entity of a command-line parameter: a name as expected on the
    command line (without the leading `-` or `/`) and a description for the
    help text. Both are fixed at construction: the source's setters are
    private and only the constructor calls them. */
module Parameters {
  import opened Common

  /** The constructor stores both strings as given; no constraint is placed
      on either, not even non-emptiness (that check lives in the handler's
      registration calls). */
  datatype Parameter = Parameter(name: string, description: string) {

    /** The default validation: always valid, with an empty message. */
    function Validate(): (r: Validation)
      ensures r.ok && r.message == ""
    {
      Validation(true, "")
    }
  }
}
