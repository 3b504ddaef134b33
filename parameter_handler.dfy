/** The command-line parameter handler: holds the command line, the
    registered switches and argument parameters and the default callback for
    positional tokens; parses the command line once, when it is disposed. */
module Handler {
  import opened Common
  import opened Text
  import opened Switches
  import opened Arguments
  import opened Scanning

  /** One line of help: a one-character marker, ` -`, the name left-aligned
      in 20 columns, a space and the description. */
  function HelpLine(marker: char, name: string, description: string): (line: string)
    ensures |line| == (if |name| < 20 then 24 else |name| + 4) + |description|
    ensures line[0] == marker && line[1..3] == " -"
    ensures line[3..3 + |name|] == name
    ensures forall i :: 3 + |name| <= i < 23 ==> line[i] == ' '
    ensures line[|line| - |description| - 1] == ' '
    ensures line[|line| - |description| ..] == description
  {
    [marker] + " -" + PadRight(name, 20) + " " + description
  }

  /** An argument parameter's help line is marked `*` when it is mandatory. */
  function ArgumentHelpLine(p: ArgumentParameter): string
  {
    HelpLine(if p.mandatory then '*' else ' ', p.name, p.description)
  }

  function SwitchHelpLine(s: SwitchParameter): string
  {
    HelpLine(' ', s.name, s.description)
  }

  /** The guard of `AddSwitch`: the first of its checks that fails. */
  function SwitchGuard(name: string, action: Option<ActionId>): (r: Option<Exception>)
    ensures r.None? <==> name != "" && action.Some?
    ensures name == "" ==> r == Some(ArgumentNullException("name"))
    ensures name != "" && action.None? ==> r == Some(ArgumentNullException("action"))
  {
    if name == "" then Some(ArgumentNullException("name"))
    else if action.None? then Some(ArgumentNullException("action"))
    else None
  }

  /** The guard of `AddParameter` and `AddMandatoryParameter`. */
  function ParameterGuard(name: string, description: string, action: Option<ActionId>): (r: Option<Exception>)
    ensures r.None? <==> name != "" && description != "" && action.Some?
    ensures name == "" ==> r == Some(ArgumentNullException("name"))
    ensures name != "" && description == "" ==> r == Some(ArgumentNullException("description"))
    ensures name != "" && description != "" && action.None? ==> r == Some(ArgumentNullException("action"))
  {
    if name == "" then Some(ArgumentNullException("name"))
    else if description == "" then Some(ArgumentNullException("description"))
    else if action.None? then Some(ArgumentNullException("action"))
    else None
  }

  class ParameterHandler {
    /** The command line as passed to the program. */
    const tokens: seq<string>
    /** The `Valid` property: its setter is never called, so it keeps its
        default value. Success is the absence of ParameterError events. */
    const reportedValid: bool
    /** The callback for positional tokens; null until `Default` is called. */
    var defaultAction: Option<ActionId>
    var switches: seq<SwitchParameter>
    var arguments: seq<ArgumentParameter>
    /** The delegates subscribed to the ParameterError event, each as often
        as it was added and not yet removed. */
    var listeners: multiset<ListenerId>
    var disposed: bool
    /** Set once `Dispose` has completed: the finaliser no longer runs. */
    var finalizerSuppressed: bool
    /** Everything the handler has made happen so far, in order. */
    var trace: seq<Event>

    /** Each registered argument parameter is a distinct object. */
    ghost predicate Valid()
      reads this
    {
      forall i, j :: 0 <= i < j < |arguments| ==> arguments[i] != arguments[j]
    }

    constructor (commandLine: seq<string>)
      ensures Valid()
      ensures tokens == commandLine && !reportedValid
      ensures defaultAction == None && switches == [] && arguments == []
      ensures listeners == multiset{} && !disposed && !finalizerSuppressed && trace == []
    {
      tokens := commandLine;
      reportedValid := false;
      defaultAction := None;
      switches := [];
      arguments := [];
      listeners := multiset{};
      disposed := false;
      finalizerSuppressed := false;
      trace := [];
    }

    /** Sets the callback for positional tokens, replacing any earlier one. */
    method Default(action: Option<ActionId>)
      modifies this`defaultAction
      ensures defaultAction == action
    {
      defaultAction := action;
    }

    /** Registers a switch, after the registered ones. */
    method AddSwitch(name: string, description: string, action: Option<ActionId>) returns (thrown: Option<Exception>)
      modifies this`switches
      ensures thrown == SwitchGuard(name, action)
      ensures thrown.Some? ==> switches == old(switches)
      ensures thrown.None? ==> switches == old(switches) + [SwitchParameter(name, description, action.value)]
    {
      if name == "" {
        return Some(ArgumentNullException("name"));
      }
      if action.None? {
        return Some(ArgumentNullException("action"));
      }
      var created := NewSwitch(name, description, action);
      switches := switches + [created.switch];
      thrown := None;
    }

    /** Appends a fresh, unused argument parameter after the registered ones. */
    method AddArgument(name: string, description: string, mandatory: bool, action: Option<ActionId>)
      returns (thrown: Option<Exception>)
      requires Valid()
      modifies this`arguments
      ensures Valid()
      ensures thrown == ParameterGuard(name, description, action)
      ensures thrown.Some? ==> arguments == old(arguments)
      ensures thrown.None? ==> Added(old(arguments), name, description, mandatory, action.value)
    {
      if name == "" {
        return Some(ArgumentNullException("name"));
      }
      if description == "" {
        return Some(ArgumentNullException("description"));
      }
      if action.None? {
        return Some(ArgumentNullException("action"));
      }
      var created := NewArgumentParameter(name, description, mandatory, action);
      arguments := arguments + [created.parameter];
      thrown := None;
    }

    /** The argument parameters are `before` followed by one fresh, unused
        parameter with the given name, description, flag and callback. */
    twostate predicate Added(before: seq<ArgumentParameter>, name: string, description: string, mandatory: bool, action: ActionId)
      reads this, arguments
    {
      |arguments| == |before| + 1 && arguments[..|before|] == before &&
      var p := arguments[|before|];
      fresh(p) && !p.used &&
      p.name == name && p.description == description && p.mandatory == mandatory && p.action == action
    }

    /** Registers an optional argument parameter. */
    method AddParameter(name: string, description: string, action: Option<ActionId>) returns (thrown: Option<Exception>)
      requires Valid()
      modifies this`arguments
      ensures Valid()
      ensures thrown == ParameterGuard(name, description, action)
      ensures thrown.Some? ==> arguments == old(arguments)
      ensures thrown.None? ==> Added(old(arguments), name, description, false, action.value)
    {
      thrown := AddArgument(name, description, false, action);
    }

    /** Registers a mandatory argument parameter. */
    method AddMandatoryParameter(name: string, description: string, action: Option<ActionId>) returns (thrown: Option<Exception>)
      requires Valid()
      modifies this`arguments
      ensures Valid()
      ensures thrown == ParameterGuard(name, description, action)
      ensures thrown.Some? ==> arguments == old(arguments)
      ensures thrown.None? ==> Added(old(arguments), name, description, true, action.value)
    {
      thrown := AddArgument(name, description, true, action);
    }

    /** The help text: one line per argument parameter, then one per switch,
        each in registration order. */
    method PrintHelp() returns (lines: seq<string>)
      ensures |lines| == |arguments| + |switches|
      ensures forall k :: 0 <= k < |arguments| ==> lines[k] == ArgumentHelpLine(arguments[k])
      ensures forall k :: 0 <= k < |switches| ==> lines[|arguments| + k] == SwitchHelpLine(switches[k])
    {
      lines := [];
      for k := 0 to |arguments|
        invariant |lines| == k
        invariant forall i :: 0 <= i < k ==> lines[i] == ArgumentHelpLine(arguments[i])
      {
        lines := lines + [ArgumentHelpLine(arguments[k])];
      }
      for k := 0 to |switches|
        invariant |lines| == |arguments| + k
        invariant forall i :: 0 <= i < |arguments| ==> lines[i] == ArgumentHelpLine(arguments[i])
        invariant forall i :: 0 <= i < k ==> lines[|arguments| + i] == SwitchHelpLine(switches[i])
      {
        lines := lines + [SwitchHelpLine(switches[k])];
      }
    }

    /** Adds a listener to the ParameterError event; adding the same
        delegate twice subscribes it twice. */
    method Subscribe(listener: ListenerId)
      modifies this`listeners
      ensures listeners == old(listeners) + multiset{listener}
      ensures |listeners| == |old(listeners)| + 1
    {
      listeners := listeners + multiset{listener};
    }

    /** Removes one subscription of a listener from the ParameterError
        event; removing a delegate that is not subscribed changes nothing,
        and the other listeners stay subscribed. */
    method Unsubscribe(listener: ListenerId)
      modifies this`listeners
      ensures listener !in old(listeners) ==> listeners == old(listeners)
      ensures listener in old(listeners) ==> |listeners| == |old(listeners)| - 1
      ensures forall l :: l != listener ==> listeners[l] == old(listeners)[l]
      ensures listeners[listener] == if old(listeners)[listener] > 0 then old(listeners)[listener] - 1 else 0
    {
      if listener in listeners {
        listeners := listeners - multiset{listener};
      }
    }

    /** Raises the ParameterError event: delivered when someone listens,
        dropped with no other effect otherwise. */
    method OnParameterError(message: string)
      modifies this`trace
      ensures trace == old(trace) + Raised(message, |listeners| > 0)
    {
      if |listeners| > 0 {
        trace := trace + [ParameterError(message)];
      }
    }

    /** The decisions a parse of the command line takes. */
    function Scan(): seq<Decision>
      reads this`switches, this`arguments
    {
      Decisions(tokens, switches, arguments)
    }

    /** The effect of one parse: the scan's outcome (its callbacks and
        errors, the used flags and the exception) and, unless the scan threw,
        one error per argument parameter that fails validation. */
    twostate predicate Parsed(new thrown: Option<Exception>)
      reads this`trace, this`switches, this`arguments, this`defaultAction, this`listeners, arguments
    {
      var run := Run(old(trace), old(UsedFlags(arguments)), Scan(), defaultAction, |listeners| > 0);
      && arguments == old(arguments)
      && thrown == run.thrown
      && UsedFlags(arguments) == run.used
      && trace == run.events + (if thrown.None? then ValidationErrors(ArgumentValidations(arguments), |listeners| > 0) else [])
    }

    /** Acts on the token at `index`: runs the callback it selects or raises
        the error it causes, and says how many tokens it consumed; a
        positional token with no default callback set throws. */
    method Step(index: nat) returns (width: nat, thrown: Option<Exception>)
      requires Valid() && index < |tokens|
      modifies this`trace, arguments
      ensures var d := Classify(tokens[index..], switches, arguments);
        && width == Width(d)
        && thrown == (if d.FireDefault? && defaultAction.None? then Some(NullReferenceException) else None)
        && trace == old(trace) + EventsOf(d, defaultAction, |listeners| > 0)
        && UsedFlags(arguments) == Mark(old(UsedFlags(arguments)), [d])
    {
      ghost var rest := tokens[index..];
      ghost var d := Classify(rest, switches, arguments);
      MarkOne(UsedFlags(arguments), d);
      assert rest[0] == tokens[index];
      var parameter := tokens[index];
      width, thrown := 1, None;
      if IsFlag(parameter) {
        var name := FlagName(parameter);
        var s := FirstMatch(SwitchNames(switches), name);
        if s.Some? {
          var e := switches[s.value].Execute();
          trace := trace + [e];
        } else if index < |tokens| - 1 {
          assert rest[1] == tokens[index + 1];
          var a := FirstMatch(ArgumentNames(arguments), name);
          if a.Some? {
            var e := arguments[a.value].Execute(tokens[index + 1]);
            trace := trace + [e];
            width := 2;
          } else {
            OnParameterError(NotRecognisedMessage(parameter));
          }
        } else {
          OnParameterError(AtEndMessage(parameter));
        }
      } else if defaultAction.None? {
        thrown := Some(NullReferenceException);
      } else {
        trace := trace + [DefaultInvoked(defaultAction.value, parameter)];
      }
    }

    /** The scan: walks the command line once, left to right, stopping early
        only when a null default callback throws. */
    method ScanAll() returns (thrown: Option<Exception>)
      requires Valid()
      modifies this`trace, arguments
      ensures Outcome(trace, UsedFlags(arguments), thrown)
        == Run(old(trace), old(UsedFlags(arguments)), Scan(), defaultAction, |listeners| > 0)
    {
      ghost var all := Scan();
      ghost var remaining := all;
      var index := 0;
      thrown := None;
      while index < |tokens|
        invariant 0 <= index <= |tokens| && thrown == None
        invariant remaining == Decisions(tokens[index..], switches, arguments)
        invariant Run(trace, UsedFlags(arguments), remaining, defaultAction, |listeners| > 0)
          == Run(old(trace), old(UsedFlags(arguments)), all, defaultAction, |listeners| > 0)
        decreases |tokens| - index
      {
        ghost var rest := tokens[index..];
        ghost var d := Classify(rest, switches, arguments);
        ghost var before := trace;
        ghost var usedBefore := UsedFlags(arguments);
        DecisionsStep(rest, switches, arguments);
        var width;
        width, thrown := Step(index);
        ghost var next := Decisions(rest[Width(d)..], switches, arguments);
        if thrown.Some? {
          RunStops(before, usedBefore, d, next, defaultAction, |listeners| > 0);
          return;
        }
        RunStep(before, usedBefore, d, next, defaultAction, |listeners| > 0);
        index := index + width;
        assert tokens[index..] == rest[Width(d)..];
        remaining := next;
      }
      assert tokens[index..] == [];
      RunEmpty(trace, UsedFlags(arguments), defaultAction, |listeners| > 0);
    }

    /** Raises the validation's message when it failed. */
    method ReportIfInvalid(v: Validation)
      modifies this`trace
      ensures trace == old(trace) + ValidationErrors([v], |listeners| > 0)
    {
      if !v.ok {
        OnParameterError(v.message);
      }
    }

    /** Validates every argument parameter, then every switch, in
        registration order, raising an error for each one that fails. */
    method ReportInvalid()
      modifies this`trace
      ensures trace == old(trace) + ValidationErrors(ArgumentValidations(arguments), |listeners| > 0)
    {
      ghost var vs := ArgumentValidations(arguments);
      ValidationsAt(arguments);
      for k := 0 to |arguments|
        invariant trace + ValidationErrors(vs[k..], |listeners| > 0) == old(trace) + ValidationErrors(vs, |listeners| > 0)
      {
        var v := arguments[k].Validate();
        ghost var before := trace;
        ReportIfInvalid(v);
        ValidationAdvance(before, trace, vs[k..], |listeners| > 0);
        assert vs[k..][1..] == vs[k + 1..];
      }
      assert vs[|arguments|..] == [];
      ghost var validated := trace;
      for k := 0 to |switches|
        invariant trace == validated
      {
        var v := switches[k].Validate();
        ReportIfInvalid(v);
      }
    }

    /** One scan of the command line, then, unless the scan threw, the
        validation of every parameter. */
    method Parse() returns (thrown: Option<Exception>)
      requires Valid()
      modifies this`trace, arguments
      ensures Parsed(thrown)
    {
      thrown := ScanAll();
      if thrown.None? {
        ReportInvalid();
      }
    }

    /** The managed-resource hook of the dispose pattern, which parses. */
    method DisposeManaged() returns (thrown: Option<Exception>)
      requires Valid()
      modifies this`trace, arguments
      ensures Parsed(thrown)
    {
      thrown := Parse();
    }

    /** Nothing happens to the trace or to any argument parameter. */
    twostate predicate Untouched()
      reads this`trace, this`arguments, arguments
    {
      && arguments == old(arguments)
      && trace == old(trace)
      && UsedFlags(arguments) == old(UsedFlags(arguments))
    }

    /** The dispose pattern: the first disposal with `disposing` set parses;
        a finaliser's disposal and any later one do not. An exception thrown
        while parsing escapes before the handler is marked disposed. */
    method DisposeWith(disposing: bool) returns (thrown: Option<Exception>)
      requires Valid()
      modifies this`trace, this`disposed, arguments
      ensures !old(disposed) && disposing ==> Parsed(thrown)
      ensures old(disposed) || !disposing ==> Untouched() && thrown == None
      ensures disposed == (old(disposed) || thrown.None?)
    {
      if !disposed {
        if disposing {
          thrown := DisposeManaged();
          if thrown.Some? {
            return;
          }
        } else {
          thrown := None;
        }
      } else {
        thrown := None;
      }
      disposed := true;
    }

    /** Disposes of the handler, which parses the command line the first
        time, and takes it off the finaliser's queue. */
    method Dispose() returns (thrown: Option<Exception>)
      requires Valid()
      modifies this`trace, this`disposed, this`finalizerSuppressed, arguments
      ensures !old(disposed) ==> Parsed(thrown)
      ensures old(disposed) ==> Untouched() && thrown == None
      ensures disposed == (old(disposed) || thrown.None?)
      ensures finalizerSuppressed == (old(finalizerSuppressed) || thrown.None?)
    {
      thrown := DisposeWith(true);
      if thrown.None? {
        finalizerSuppressed := true;
      }
    }

    /** The finaliser: disposes without parsing. */
    method Finalize()
      requires Valid()
      modifies this`trace, this`disposed, arguments
      ensures Untouched() && disposed
    {
      var thrown := DisposeWith(false);
    }
  }
}
