# StyleCopCmd command-line parameter handler in Dafny

This project models the parameter handler of StyleCopCmd. The handler is a
small command-line parser. A program builds a `ParameterHandler` from its
command line and registers:

- switches: named boolean flags with a callback that takes no argument;
- argument parameters: a named flag followed by a value, with a callback that
  takes the value, and optionally mandatory;
- a default callback for positional tokens.

The command line is parsed once, when the handler is disposed. The scan walks
the tokens left to right. For each token it does one of these things:

- runs a switch callback;
- hands the following token to an argument parameter;
- passes a positional token to the default callback;
- raises a `ParameterError` event.

After the scan, every parameter is validated. Each mandatory argument
parameter that was never supplied raises one more error.

Callbacks are opaque. The model records which one was invoked, and with what
value, in the handler's `trace`. The trace also records every
`ParameterError` delivered to subscribed listeners. A null delegate is
`None`. Exceptions are returned values, not thrown.

Modules, one per source file plus shared parts:

- `Common`: `Option`, callbacks, events, exceptions and validation results.
- `Text`: case folding for name lookup and the help text's column padding.
- `Parameters`, `Switches`, `Arguments`: the three parameter classes.
  `ArgumentParameter` is a class, because `Execute` sets its `used` flag in
  place. The other two never change after construction, so they are
  datatypes.
- `Scanning`: the meaning of a parse as pure functions.
  - `Classify` is the decision taken on one token.
  - `Decisions` is the list of decisions of a whole scan.
  - `Trace` gives the events those decisions cause.
  - `Completed` and `Crashes` describe where a null default callback stops
    the parse.
  - `Run` gives the whole outcome of a parse.
  - `ValidationErrors` gives what the validation pass raises.
- `Handler`: the `ParameterHandler` class. Its `Parse` is a `while` loop over
  the command line, proved equal to `Run` followed by `ValidationErrors`. Its
  dispose methods follow the source's dispose pattern.
- `Scenarios`: disposing one handler twice.

Two behaviours of the source are worth stating, because a reader might expect
otherwise. The model follows the source in both.

- The `Valid` property has a private setter that nothing calls, so it always
  reads `false`. The model has `reportedValid`, which the constructor sets to
  `false` and nothing changes.
- The default callback is invoked with no null check
  (src/StyleCop/ParameterHandler.cs:276). When none has been set, a positional
  token throws `NullReferenceException`. The model returns that exception.
  Everything before that token has already happened. Nothing after it
  happens, and the validation pass does not run. A disposal that throws
  leaves the handler undisposed, so the next disposal parses again.

## Model

| member | source | states |
|---|---|---|
| Text.LowerChar | src/StyleCop/ParameterHandler.cs:248 | an upper-case ASCII letter is shifted to lower case; every other character is kept |
| Text.LowerAt | src/StyleCop/ParameterHandler.cs:248 | lower-casing a name folds each character in place and keeps the length |
| Text.LowerIdempotent | src/StyleCop/ParameterHandler.cs:248-250 | folding an already folded name changes nothing |
| Text.SameNameOfLowered | src/StyleCop/ParameterHandler.cs:248-250 | comparing a registered name, ignoring case, with the lowered token gives the same answer as comparing it with the token as written |
| Text.PadRight | src/StyleCop/ParameterHandler.cs:127 | the `{0,-20}` format item: left-aligns the name in a field of at least the width, padding with spaces and never truncating |
| Parameters.Parameter.Validate | src/StyleCop/Parameter.cs:48-52 | the default validation succeeds, with an empty message |
| Switches.SwitchParameter.Execute | src/StyleCop/SwitchParameter.cs:35-38 | executing a switch invokes exactly its own callback |
| Switches.NewSwitch | src/StyleCop/SwitchParameter.cs:21-30 | the constructor throws ArgumentNullException("action") exactly when the callback is null; otherwise it keeps the name, description and callback |
| Switches.SwitchAlwaysValid | src/StyleCop/Parameter.cs:48-52 | a switch does not override validation, so validating any switch succeeds with an empty message |
| Arguments.ArgumentParameter.constructor | Backup/src/StyleCop/ArgumentParameter.cs:44-54 | a new parameter keeps its name, description, mandatory flag and callback, and is not yet used |
| Arguments.NewArgumentParameter | Backup/src/StyleCop/ArgumentParameter.cs:44-54 | the constructor throws ArgumentNullException("action") exactly when the callback is null; otherwise it returns a fresh, unused parameter with the given fields |
| Arguments.ArgumentParameter.Execute | Backup/src/StyleCop/ArgumentParameter.cs:60-64 | invokes the callback with exactly the given value, then marks the parameter used |
| Arguments.ArgumentParameter.Validate | Backup/src/StyleCop/ArgumentParameter.cs:71-81 | fails, with "Mandatory parameter <name> not specified", if and only if the parameter is mandatory and unused; otherwise succeeds with an empty message |
| Scanning.FirstMatch | src/StyleCop/ParameterHandler.cs:250 | the `FirstOrDefault` lookup returns a position inside the list of registered names, or nothing |
| Scanning.FirstMatchMeaning | src/StyleCop/ParameterHandler.cs:250 | the lookup finds the first name equal to the key ignoring case, and finds nothing only when no name matches |
| Scanning.SwitchLookup | src/StyleCop/ParameterHandler.cs:248-254 | looking a switch up by the lowered flag name finds the first switch whose name equals the flag name as written, ignoring case |
| Scanning.ArgumentLookup | src/StyleCop/ParameterHandler.cs:248-263 | the same for argument parameters |
| Scanning.NamesMeaning | src/StyleCop/ParameterHandler.cs:250-259 | each lookup succeeds exactly when some registered name equals the flag name ignoring case |
| Scanning.Classify | src/StyleCop/ParameterHandler.cs:244-277 | the decision on one token keeps that token; a switch or argument decision points inside its list; an argument decision takes the next token as its value |
| Scanning.ClassifyMeaning | src/StyleCop/ParameterHandler.cs:244-277 | each decision in both directions: positional exactly when the token has no `-` or `/` prefix; a switch exactly when some switch matches (the first one); an argument only when a value follows (the first match); "not recognised" exactly when a value follows and nothing matches; "at end" exactly when the flag is last and no switch matches |
| Scanning.Completed | src/StyleCop/ParameterHandler.cs:274-277 | the decisions a parse acts on are a prefix of all its decisions |
| Scanning.CompletedExactly | src/StyleCop/ParameterHandler.cs:274-277 | a parse that does not throw acts on every decision; one that throws stops exactly at a positional token; no positional token reaches a null default callback |
| Scanning.Run | src/StyleCop/ParameterHandler.cs:241-280 | the scan keeps one used flag per argument parameter |
| Scanning.RunStep | src/StyleCop/ParameterHandler.cs:244-279 | acting on the first decision and then on the rest gives the same outcome as acting on all of them |
| Scanning.RunStops | src/StyleCop/ParameterHandler.cs:274-277 | a positional token with no default callback throws NullReferenceException at once, with nothing produced after it |
| Scanning.RunEmpty | src/StyleCop/ParameterHandler.cs:242 | with no token left, the scan ends in the state reached, without throwing |
| Scanning.RunWhole | src/StyleCop/ParameterHandler.cs:241-280 | a scan with a default callback never throws; a scan that does not throw produces the events of every decision and marks every argument parameter that some decision supplies |
| Scanning.EveryTokenCoveredOnce | src/StyleCop/ParameterHandler.cs:241-280 | every token is accounted for exactly once and in order: none is skipped and none is visited twice |
| Scanning.PositionalRun | src/StyleCop/ParameterHandler.cs:274-277 | a run of positional tokens goes to the default callback unchanged, in order and with repeats kept, and the scan then resumes on what follows |
| Scanning.DefaultSeesDefaultTokens | src/StyleCop/ParameterHandler.cs:276 | the default callback receives exactly the tokens of the positional decisions, in order |
| Scanning.DefaultTokensArePositional | src/StyleCop/ParameterHandler.cs:244-277 | no flag token reaches the default callback (that a consumed value is never handed to it follows from `EveryTokenCoveredOnce`) |
| Scanning.UnknownFlagThenToken | src/StyleCop/ParameterHandler.cs:264-267 | a flag that names nothing, followed by a token, raises one "Parameter <flag> not recognised" error with the flag as written, and the next token is scanned afresh |
| Scanning.FlagAtEnd | src/StyleCop/ParameterHandler.cs:269-272 | a last flag that names no switch raises "Parameter <flag> cannot appear at end of command line", even when it names an argument parameter |
| Scanning.SwitchWins | src/StyleCop/ParameterHandler.cs:250-254 | switches are looked up first: a flag that names a switch fires it and consumes nothing more, even when an argument parameter has the same name |
| Scanning.ArgumentTakesValue | src/StyleCop/ParameterHandler.cs:257-263 | a flag that names an argument parameter and no switch takes the following token as its value, and the cursor moves by two |
| Scanning.CaseInsensitive | src/StyleCop/ParameterHandler.cs:246-250 | two flags whose names agree ignoring case, with either prefix, lead to the same decision kind and the same callbacks |
| Scanning.ValidationErrorsAppend | src/StyleCop/ParameterHandler.cs:282-289 | the errors of a list of validations are those of its parts, in order |
| Scanning.ValidationErrorsExact | src/StyleCop/ParameterHandler.cs:282-289 | with a listener, there is an error exactly for each failed validation, carrying that validation's message; as many errors as failed validations; none exactly when every validation succeeds |
| Scanning.ValidationErrorsCount | src/StyleCop/ParameterHandler.cs:282-289 | with a listener, the validation pass raises exactly as many errors as there are failed validations |
| Scanning.MissingMandatoryReported | src/StyleCop/ParameterHandler.cs:282-289 | every mandatory, unused argument parameter is reported under its own name; there are exactly as many errors as such parameters; nothing is reported exactly when every mandatory parameter was used |
| Scanning.ValidationsAt | src/StyleCop/ParameterHandler.cs:282-285 | the validation pass looks at each argument parameter in registration order |
| Handler.HelpLine | src/StyleCop/ParameterHandler.cs:127-133 | a help line is the marker, " -", the name padded to 20 columns, a space and the description; its length follows from theirs |
| Handler.SwitchGuard | src/StyleCop/ParameterHandler.cs:55-63 | ArgumentNullException("name") for an empty name, otherwise ArgumentNullException("action") for a null callback, and no exception exactly when both are present |
| Handler.ParameterGuard | src/StyleCop/ParameterHandler.cs:76-89 | name, then description, then callback are checked in that order, each failing with ArgumentNullException naming it; no exception exactly when all three are present |
| Handler.ParameterHandler.constructor | src/StyleCop/ParameterHandler.cs:32-35 | keeps the command line and starts with nothing registered, no default callback, no listener, nothing happened and not disposed |
| Handler.ParameterHandler.Default | src/StyleCop/ParameterHandler.cs:42-45 | replaces the default callback |
| Handler.ParameterHandler.AddSwitch | src/StyleCop/ParameterHandler.cs:53-66 | throws as `SwitchGuard` says and then changes nothing; otherwise appends the switch after the registered ones |
| Handler.ParameterHandler.AddArgument | src/StyleCop/ParameterHandler.cs:74-118 | the registration shared by both kinds of argument parameter: throws as `ParameterGuard` says and then changes nothing; otherwise appends one fresh, unused parameter with the given fields, keeping the registered ones distinct |
| Handler.ParameterHandler.AddParameter | src/StyleCop/ParameterHandler.cs:74-92 | throws as `ParameterGuard` says and then changes nothing; otherwise appends one fresh, unused, optional parameter |
| Handler.ParameterHandler.AddMandatoryParameter | src/StyleCop/ParameterHandler.cs:100-118 | the same, with a mandatory parameter |
| Handler.ParameterHandler.PrintHelp | src/StyleCop/ParameterHandler.cs:123-136 | one help line per argument parameter (marked `*` when mandatory), then one per switch, each in registration order |
| Handler.ParameterHandler.Subscribe | src/StyleCop/ParameterHandler.cs:147 | adds one subscription of the delegate; adding the same delegate twice subscribes it twice |
| Handler.ParameterHandler.Unsubscribe | src/StyleCop/ParameterHandler.cs:148 | removes one subscription of the delegate; removing a delegate that is not subscribed changes nothing; every other delegate stays subscribed |
| Handler.ParameterHandler.OnParameterError | src/StyleCop/ParameterHandler.cs:155-163 | the error is delivered when someone listens and dropped with no effect otherwise |
| Handler.ParameterHandler.Step | src/StyleCop/ParameterHandler.cs:244-279 | acts on the current token exactly as `Classify` decides: its events, its width, the used flag it sets, and the NullReferenceException of a null default callback |
| Handler.ParameterHandler.ScanAll | src/StyleCop/ParameterHandler.cs:241-280 | the scan loop leaves the trace, the used flags and the exception that `Run` gives for the whole command line |
| Handler.ParameterHandler.ReportIfInvalid | src/StyleCop/ParameterHandler.cs:285-288 | a failed validation raises its message; a successful one raises nothing |
| Handler.ParameterHandler.ReportInvalid | src/StyleCop/ParameterHandler.cs:282-298 | the validation pass raises the errors of the argument parameters' validations, in order; the switches' validations raise nothing |
| Handler.ParameterHandler.Parse | src/StyleCop/ParameterHandler.cs:239-299 | the scan's outcome, followed by the validation errors unless the scan threw; the registered parameters stay the same objects |
| Handler.ParameterHandler.DisposeManaged | src/StyleCop/ParameterHandler.cs:219-222 | the managed-disposal hook parses |
| Handler.ParameterHandler.DisposeWith | src/StyleCop/ParameterHandler.cs:187-200 | the first disposal while disposing parses; a finaliser's disposal and any later one leave everything untouched; the handler is marked disposed unless parsing threw |
| Handler.ParameterHandler.Dispose | src/StyleCop/ParameterHandler.cs:177-181 | parses on every call until one completes, then never again; suppresses finalisation once a call completes |
| Handler.ParameterHandler.Finalize | src/StyleCop/ParameterHandler.cs:210-213 | the finaliser disposes without parsing and without touching anything else |
| Scenarios.DisposeTwice | src/StyleCop/ParameterHandler.cs:177-200 | after a first disposal that completes, the second does not throw and the handler stays disposed; after one that throws, the second throws the same exception |

## Left out

- Null strings are not modelled; a string is a sequence and can only be
  empty. The registration guards' `IsNullOrEmpty` checks are modelled on the
  empty case.
- Case folding is ASCII only. `ToLowerInvariant` and
  `InvariantCultureIgnoreCase` also fold non-ASCII letters, and culture-aware
  `StartsWith` is modelled as a first-character test.
- `Console.WriteLine` and `String.Format` are not modelled as I/O.
  `PrintHelp` returns the lines it would print. The messages are built by
  concatenation.
- Handler.ParameterHandler.OnParameterError: the multicast delegate is
  modelled as a multiset of listeners, so the order of the invocation list is
  not kept. A delivery to several listeners is one `ParameterError` event.
- Handler.ParameterHandler.Dispose: `GC.SuppressFinalize` is modelled only as
  a flag. Garbage collection and the timing of the finaliser are not modelled.
  `DisposeUnmanaged` is an empty hook and has no model.
- Handler.ParameterHandler.constructor: the command line is kept as a value.
  The source keeps a reference to the caller's array, so a parse would see
  changes the caller makes to the array after construction. A null array,
  which makes the parse throw at src/StyleCop/ParameterHandler.cs:242, is not
  modelled.
- The callbacks' own effects are not modelled, and neither are exceptions
  they throw; a callback is an identifier plus its arguments.
- `ParameterErrorEventArgs`, the program entry point, the analysis driver and
  the build scripts are not part of this model.
- The `Valid` property has no operation of its own: the source never assigns
  it, so it is the constant `reportedValid`.
- Concrete command lines, such as a settings file followed by two source
  files, are not worked through as examples. The general lemmas
  (`PositionalRun`, `ArgumentTakesValue`, `SwitchWins`, `FlagAtEnd`,
  `UnknownFlagThenToken`) cover each step of them.
