/** The meaning of one parse pass, as pure functions of the command line and
    of the registered parameters: which decision the scan takes at each token,
    which callbacks and errors that produces, and what the validation pass
    after the scan reports. `Handler.ParameterHandler.Parse` is proved to do
    exactly this. */
module Scanning {
  import opened Common
  import opened Text
  import opened Switches
  import opened Arguments

  /** A flag token starts with `-` or `/`; any other token (the empty one
      included) is positional. */
  predicate IsFlag(token: string)
  {
    |token| > 0 && (token[0] == '-' || token[0] == '/')
  }

  /** The name a flag token is looked up by: prefix removed, lower-cased. */
  function FlagName(token: string): string
    requires IsFlag(token)
  {
    Lower(token[1..])
  }

  /** The position of the first registered name equal to `name` ignoring
      case, if any (the `FirstOrDefault` lookup; see `FirstMatchMeaning`). */
  function FirstMatch(names: seq<string>, name: string): (r: Option<nat>)
    ensures r.Some? ==> r.value < |names|
  {
    if names == [] then None
    else if SameName(names[0], name) then Some(0)
    else match FirstMatch(names[1..], name)
      case None => None
      case Some(k) => Some(k + 1)
  }

  /** The lookup finds the first matching name, and finds nothing only when
      no name matches. */
  lemma {:induction false} FirstMatchMeaning(names: seq<string>, name: string)
    ensures var r := FirstMatch(names, name);
      && (r.Some? ==> SameName(names[r.value], name))
      && (r.Some? ==> forall j :: 0 <= j < r.value ==> !SameName(names[j], name))
      && (r.None? ==> forall j :: 0 <= j < |names| ==> !SameName(names[j], name))
  {
    if names != [] && !SameName(names[0], name) {
      FirstMatchMeaning(names[1..], name);
      var r := FirstMatch(names[1..], name);
      if r.Some? {
        forall j | 0 <= j < r.value + 1 ensures !SameName(names[j], name) {
          if j > 0 { assert names[j] == names[1..][j - 1]; }
        }
      } else {
        forall j | 0 <= j < |names| ensures !SameName(names[j], name) {
          if j > 0 { assert names[j] == names[1..][j - 1]; }
        }
      }
    }
  }

  function SwitchNames(switches: seq<SwitchParameter>): seq<string>
  {
    seq(|switches|, k requires 0 <= k < |switches| => switches[k].name)
  }

  function ArgumentNames(arguments: seq<ArgumentParameter>): seq<string>
  {
    seq(|arguments|, k requires 0 <= k < |arguments| => arguments[k].name)
  }

  /** Looking a switch up by the lowered flag name finds the first switch
      whose name equals the flag name as written, ignoring case. */
  lemma SwitchLookup(switches: seq<SwitchParameter>, name: string)
    ensures var r := FirstMatch(SwitchNames(switches), Lower(name));
      (r.Some? ==>
         r.value < |switches| && SameName(switches[r.value].name, name) &&
         forall j :: 0 <= j < r.value ==> !SameName(switches[j].name, name)) &&
      (r.None? ==> forall j :: 0 <= j < |switches| ==> !SameName(switches[j].name, name))
  {
    var names := SwitchNames(switches);
    FirstMatchMeaning(names, Lower(name));
    forall j | 0 <= j < |switches| ensures SameName(names[j], Lower(name)) <==> SameName(switches[j].name, name) {
      SameNameOfLowered(names[j], name);
    }
  }

  /** The same for argument parameters. */
  lemma ArgumentLookup(arguments: seq<ArgumentParameter>, name: string)
    ensures var r := FirstMatch(ArgumentNames(arguments), Lower(name));
      (r.Some? ==>
         r.value < |arguments| && SameName(arguments[r.value].name, name) &&
         forall j :: 0 <= j < r.value ==> !SameName(arguments[j].name, name)) &&
      (r.None? ==> forall j :: 0 <= j < |arguments| ==> !SameName(arguments[j].name, name))
  {
    var names := ArgumentNames(arguments);
    FirstMatchMeaning(names, Lower(name));
    forall j | 0 <= j < |arguments| ensures SameName(names[j], Lower(name)) <==> SameName(arguments[j].name, name) {
      SameNameOfLowered(names[j], name);
    }
  }

  /** Whether some registered switch is called `name`, ignoring case. */
  predicate NamesSwitch(switches: seq<SwitchParameter>, name: string)
  {
    FirstMatch(SwitchNames(switches), Lower(name)).Some?
  }

  /** Whether some registered argument parameter is called `name`, ignoring case. */
  predicate NamesArgument(arguments: seq<ArgumentParameter>, name: string)
  {
    FirstMatch(ArgumentNames(arguments), Lower(name)).Some?
  }

  /** The two lookups succeed exactly when a registered name equals `name`
      ignoring case. */
  lemma NamesMeaning(switches: seq<SwitchParameter>, arguments: seq<ArgumentParameter>, name: string)
    ensures NamesSwitch(switches, name) <==> exists j :: 0 <= j < |switches| && SameName(switches[j].name, name)
    ensures NamesArgument(arguments, name) <==> exists j :: 0 <= j < |arguments| && SameName(arguments[j].name, name)
  {
    SwitchLookup(switches, name);
    ArgumentLookup(arguments, name);
  }

  function NotRecognisedMessage(token: string): string
  {
    "Parameter " + token + " not recognised"
  }

  function AtEndMessage(token: string): string
  {
    "Parameter " + token + " cannot appear at end of command line"
  }

  /** What the scan does with the token under the cursor. Every decision
      keeps the token it was taken on; `FireArgument` also keeps the value
      token it consumes. */
  datatype Decision =
    | FireSwitch(token: string, index: nat, action: ActionId)
    | FireArgument(token: string, index: nat, action: ActionId, value: string)
    | FireDefault(token: string)
    | NotRecognised(token: string)
    | AtEnd(token: string)
  {
    /** The tokens this decision accounts for. */
    function Tokens(): seq<string>
    {
      if FireArgument? then [token, value] else [token]
    }
  }

  /** The decision taken on `tokens[0]`, with `tokens[1..]` the rest of the
      command line (see `ClassifyMeaning` for what it amounts to). */
  function Classify(tokens: seq<string>, switches: seq<SwitchParameter>, arguments: seq<ArgumentParameter>)
    : (d: Decision)
    requires tokens != []
    ensures d.token == tokens[0]
    ensures d.FireSwitch? ==> d.index < |switches|
    ensures d.FireArgument? ==> |tokens| > 1 && d.value == tokens[1] && d.index < |arguments|
  {
    var token := tokens[0];
    if !IsFlag(token) then FireDefault(token)
    else
      var name := FlagName(token);
      match FirstMatch(SwitchNames(switches), name)
      case Some(k) => FireSwitch(token, k, switches[k].action)
      case None =>
        if |tokens| > 1 then
          match FirstMatch(ArgumentNames(arguments), name)
          case Some(k) => FireArgument(token, k, arguments[k].action, tokens[1])
          case None => NotRecognised(token)
        else AtEnd(token)
  }

  /** What the decision on `tokens[0]` amounts to: a positional token goes to
      the default callback; a flag fires the first switch whose name equals
      it ignoring case; failing that, and only when a value token follows, the
      first such argument parameter takes that value; failing that, the flag
      is reported as not recognised, or, in last position, as appearing at
      the end, whether or not it names an argument parameter. */
  lemma ClassifyMeaning(tokens: seq<string>, switches: seq<SwitchParameter>, arguments: seq<ArgumentParameter>)
    requires tokens != []
    ensures var d := Classify(tokens, switches, arguments);
      && (d.FireDefault? <==> !IsFlag(tokens[0]))
      && (d.FireSwitch? <==>
            IsFlag(tokens[0]) && exists j :: 0 <= j < |switches| && SameName(switches[j].name, tokens[0][1..]))
      && (d.FireSwitch? ==>
            d.action == switches[d.index].action &&
            SameName(switches[d.index].name, tokens[0][1..]) &&
            forall j :: 0 <= j < d.index ==> !SameName(switches[j].name, tokens[0][1..]))
      && (d.FireArgument? ==>
            d.action == arguments[d.index].action &&
            SameName(arguments[d.index].name, tokens[0][1..]) &&
            forall j :: 0 <= j < d.index ==> !SameName(arguments[j].name, tokens[0][1..]))
      && (d.NotRecognised? <==>
            IsFlag(tokens[0]) && |tokens| > 1 &&
            (forall j :: 0 <= j < |switches| ==> !SameName(switches[j].name, tokens[0][1..])) &&
            (forall j :: 0 <= j < |arguments| ==> !SameName(arguments[j].name, tokens[0][1..])))
      && (d.AtEnd? <==>
            IsFlag(tokens[0]) && |tokens| == 1 &&
            forall j :: 0 <= j < |switches| ==> !SameName(switches[j].name, tokens[0][1..]))
  {
    if IsFlag(tokens[0]) {
      SwitchLookup(switches, tokens[0][1..]);
      ArgumentLookup(arguments, tokens[0][1..]);
    }
  }

  /** How far the cursor advances after a decision. */
  function Width(d: Decision): nat
  {
    if d.FireArgument? then 2 else 1
  }

  /** The decisions of a whole scan, left to right. */
  function Decisions(tokens: seq<string>, switches: seq<SwitchParameter>, arguments: seq<ArgumentParameter>)
    : seq<Decision>
    decreases |tokens|
  {
    if tokens == [] then []
    else
      var d := Classify(tokens, switches, arguments);
      [d] + Decisions(tokens[Width(d)..], switches, arguments)
  }

  /** Unfolds the scan by one decision. */
  lemma DecisionsStep(tokens: seq<string>, switches: seq<SwitchParameter>, arguments: seq<ArgumentParameter>)
    requires tokens != []
    ensures var d := Classify(tokens, switches, arguments);
      && Width(d) <= |tokens|
      && Decisions(tokens, switches, arguments) == [d] + Decisions(tokens[Width(d)..], switches, arguments)
  {
  }

  /** The decisions a parse acts on before it stops: all of them, or, when no
      default callback is set, those before the first positional token, at
      which invoking the null callback throws. */
  function Completed(ds: seq<Decision>, default: Option<ActionId>): (r: seq<Decision>)
    ensures |r| <= |ds| && r == ds[..|r|]
  {
    if ds == [] || (ds[0].FireDefault? && default.None?) then []
    else [ds[0]] + Completed(ds[1..], default)
  }

  /** The parse throws: a positional token reaches a null default callback. */
  predicate Crashes(ds: seq<Decision>, default: Option<ActionId>)
  {
    default.None? && DefaultTokens(ds) != []
  }

  /** A parse that does not throw acts on every decision; one that throws
      stops exactly at the first positional token, so no positional token is
      ever handed to a null callback. */
  lemma {:induction false} CompletedExactly(ds: seq<Decision>, default: Option<ActionId>)
    ensures !Crashes(ds, default) ==> Completed(ds, default) == ds
    ensures Crashes(ds, default) ==> |Completed(ds, default)| < |ds| && ds[|Completed(ds, default)|].FireDefault?
    ensures default.Some? || DefaultTokens(Completed(ds, default)) == []
  {
    if ds != [] && !(ds[0].FireDefault? && default.None?) {
      CompletedExactly(ds[1..], default);
      PrefixCons(ds[0], ds[1..], default, false);
      PrefixCons(ds[0], Completed(ds[1..], default), default, false);
      assert [ds[0]] + ds[1..] == ds;
    }
  }

  /** Which argument parameters a sequence headed by `d` gives a value to. */
  lemma SuppliedCons(d: Decision, rest: seq<Decision>)
    ensures forall k: nat :: Supplied(k, [d] + rest) <==> (d.FireArgument? && d.index == k) || Supplied(k, rest)
  {
    assert ([d] + rest)[1..] == rest;
  }

  /** Acting on one more decision keeps the account of a parse: what it has
      produced so far followed by the events of the decisions still to act
      on, whether it throws, and which argument parameters it supplies. */
  lemma ScanAdvance(before: seq<Event>, after: seq<Event>, d: Decision, rest: seq<Decision>,
                    default: Option<ActionId>, listening: bool)
    requires !(d.FireDefault? && default.None?)
    requires after == before + EventsOf(d, default, listening)
    ensures after + Trace(Completed(rest, default), default, listening)
      == before + Trace(Completed([d] + rest, default), default, listening)
    ensures Crashes([d] + rest, default) == Crashes(rest, default)
  {
    var events := EventsOf(d, default, listening);
    var done := Completed(rest, default);
    var later := Trace(done, default, listening);
    PrefixCons(d, rest, default, listening);
    assert Completed([d] + rest, default) == [d] + done;
    PrefixCons(d, done, default, listening);
    assert Trace([d] + done, default, listening) == events + later;
    assert (before + events) + later == before + (events + later);
  }

  /** The facts about a sequence headed by `d` that the account of a parse
      needs, without those about argument parameters. */
  lemma PrefixCons(d: Decision, rest: seq<Decision>, default: Option<ActionId>, listening: bool)
    ensures Trace([d] + rest, default, listening) == EventsOf(d, default, listening) + Trace(rest, default, listening)
    ensures DefaultTokens([d] + rest) == (if d.FireDefault? then [d.token] else []) + DefaultTokens(rest)
    ensures Completed([d] + rest, default) == if d.FireDefault? && default.None? then [] else [d] + Completed(rest, default)
  {
    assert ([d] + rest)[1..] == rest;
  }

  /** A positional token with no default callback set ends the parse: it
      throws, and no decision is acted on from there. */
  lemma ScanStops(d: Decision, rest: seq<Decision>, default: Option<ActionId>)
    requires d.FireDefault? && default.None?
    ensures Completed([d] + rest, default) == [] && Crashes([d] + rest, default)
  {
    PrefixCons(d, rest, default, false);
  }

  /** Marking by a single decision sets at most the flag of the parameter it
      gives a value to. */
  lemma MarkOne(used: seq<bool>, d: Decision)
    ensures forall k :: 0 <= k < |used| ==> Mark(used, [d])[k] == (used[k] || (d.FireArgument? && d.index == k))
  {
    SuppliedCons(d, []);
    assert [d] + [] == [d];
  }

  /** The used flags after acting on one more decision, marked by the
      decisions still to act on, are the flags before it marked by both. */
  lemma UsedAdvance(used: seq<bool>, d: Decision, rest: seq<Decision>, default: Option<ActionId>)
    ensures d.FireDefault? && default.None? ==> Mark(used, [d]) == Mark(used, Completed([d] + rest, default))
    ensures !(d.FireDefault? && default.None?) ==>
      Mark(Mark(used, [d]), Completed(rest, default)) == Mark(used, Completed([d] + rest, default))
  {
    PrefixCons(d, rest, default, false);
    if d.FireDefault? && default.None? {
      MarkNothing(used, [d]);
      MarkNothing(used, []);
    } else {
      MarkCons(used, d, Completed(rest, default));
    }
  }

  /** The used flags of the argument parameters after acting on `ds`: a
      parameter is used when it was, or when a decision gave it a value. */
  function Mark(used: seq<bool>, ds: seq<Decision>): (r: seq<bool>)
    ensures |r| == |used|
  {
    seq(|used|, k requires 0 <= k < |used| => used[k] || Supplied(k, ds))
  }

  /** Decisions that give no argument parameter a value change no flag. */
  lemma MarkNothing(used: seq<bool>, ds: seq<Decision>)
    requires forall i :: 0 <= i < |ds| ==> !ds[i].FireArgument?
    ensures Mark(used, ds) == used
  {
    forall k | 0 <= k < |used| ensures !Supplied(k, ds) {
      NotSupplied(k, ds);
    }
  }

  lemma {:induction false} NotSupplied(k: nat, ds: seq<Decision>)
    requires forall i :: 0 <= i < |ds| ==> !ds[i].FireArgument?
    ensures !Supplied(k, ds)
  {
    if ds != [] {
      NotSupplied(k, ds[1..]);
    }
  }

  /** Marking by one decision, then by the rest, marks by both. */
  lemma MarkCons(used: seq<bool>, d: Decision, rest: seq<Decision>)
    ensures Mark(Mark(used, [d]), rest) == Mark(used, [d] + rest)
  {
    SuppliedCons(d, rest);
    SuppliedCons(d, []);
    assert [d] + [] == [d];
    forall k | 0 <= k < |used|
      ensures Mark(Mark(used, [d]), rest)[k] == Mark(used, [d] + rest)[k]
    {
    }
  }

  /** What a parse leaves behind: the events so far, the used flag of each
      argument parameter, and the exception it throws, if any. */
  datatype Outcome = Outcome(events: seq<Event>, used: seq<bool>, thrown: Option<Exception>)

  /** The outcome of acting on the decisions `ds`, starting from the events
      `events` and the used flags `used`. */
  function Run(events: seq<Event>, used: seq<bool>, ds: seq<Decision>, default: Option<ActionId>, listening: bool)
    : (r: Outcome)
    ensures |r.used| == |used|
  {
    var done := Completed(ds, default);
    Outcome(events + Trace(done, default, listening), Mark(used, done),
            if Crashes(ds, default) then Some(NullReferenceException) else None)
  }

  /** Acting on the first decision, then on the rest, is acting on all. */
  lemma RunStep(events: seq<Event>, used: seq<bool>, d: Decision, rest: seq<Decision>,
                default: Option<ActionId>, listening: bool)
    requires !(d.FireDefault? && default.None?)
    ensures Run(events + EventsOf(d, default, listening), Mark(used, [d]), rest, default, listening)
      == Run(events, used, [d] + rest, default, listening)
  {
    ScanAdvance(events, events + EventsOf(d, default, listening), d, rest, default, listening);
    UsedAdvance(used, d, rest, default);
  }

  /** A positional token with no default callback set throws at once, with
      nothing produced and no flag set by it. */
  lemma RunStops(events: seq<Event>, used: seq<bool>, d: Decision, rest: seq<Decision>,
                 default: Option<ActionId>, listening: bool)
    requires d.FireDefault? && default.None?
    ensures Outcome(events + EventsOf(d, default, listening), Mark(used, [d]), Some(NullReferenceException))
      == Run(events, used, [d] + rest, default, listening)
  {
    ScanStops(d, rest, default);
    UsedAdvance(used, d, rest, default);
    MarkNothing(used, []);
    assert events + [] == events;
  }

  /** With nothing left to act on, the outcome is the state reached. */
  lemma RunEmpty(events: seq<Event>, used: seq<bool>, default: Option<ActionId>, listening: bool)
    ensures Run(events, used, [], default, listening) == Outcome(events, used, None)
  {
    MarkNothing(used, []);
    assert events + [] == events;
  }

  /** A parse that does not throw acts on every decision and marks every
      argument parameter a decision supplies; with a default callback set a
      parse never throws. */
  lemma RunWhole(events: seq<Event>, used: seq<bool>, ds: seq<Decision>, default: Option<ActionId>, listening: bool)
    ensures default.Some? ==> Run(events, used, ds, default, listening).thrown.None?
    ensures Run(events, used, ds, default, listening).thrown.None? ==>
      Run(events, used, ds, default, listening) == Outcome(events + Trace(ds, default, listening), Mark(used, ds), None)
  {
    CompletedExactly(ds, default);
  }

  /** Raising a ParameterError: delivered when someone listens, dropped otherwise. */
  function Raised(message: string, listening: bool): seq<Event>
  {
    if listening then [ParameterError(message)] else []
  }

  /** What one decision makes happen. */
  function EventsOf(d: Decision, default: Option<ActionId>, listening: bool): seq<Event>
  {
    match d
    case FireSwitch(_, _, a) => [SwitchInvoked(a)]
    case FireArgument(_, _, a, v) => [ArgumentInvoked(a, v)]
    case FireDefault(t) => if default.Some? then [DefaultInvoked(default.value, t)] else []
    case NotRecognised(t) => Raised(NotRecognisedMessage(t), listening)
    case AtEnd(t) => Raised(AtEndMessage(t), listening)
  }

  /** What a sequence of decisions makes happen, in order. */
  function Trace(ds: seq<Decision>, default: Option<ActionId>, listening: bool): seq<Event>
  {
    if ds == [] then [] else EventsOf(ds[0], default, listening) + Trace(ds[1..], default, listening)
  }

  /** The tokens a sequence of decisions hands to the default callback, in order. */
  function DefaultTokens(ds: seq<Decision>): seq<string>
  {
    if ds == [] then []
    else (if ds[0].FireDefault? then [ds[0].token] else []) + DefaultTokens(ds[1..])
  }

  /** Whether the argument parameter at position `k` receives a value. */
  predicate Supplied(k: nat, ds: seq<Decision>)
  {
    ds != [] && ((ds[0].FireArgument? && ds[0].index == k) || Supplied(k, ds[1..]))
  }

  /** The tokens a sequence of decisions accounts for, in order. */
  function Covered(ds: seq<Decision>): seq<string>
  {
    if ds == [] then [] else ds[0].Tokens() + Covered(ds[1..])
  }

  /** Whether each argument parameter has been given a value, in order. */
  function UsedFlags(arguments: seq<ArgumentParameter>): (r: seq<bool>)
    reads arguments
    ensures |r| == |arguments|
  {
    seq(|arguments|, k requires 0 <= k < |arguments| reads arguments => arguments[k].used)
  }

  /** The validations of the argument parameters, in registration order. */
  function ArgumentValidations(arguments: seq<ArgumentParameter>): seq<Validation>
    reads set k | 0 <= k < |arguments| :: arguments[k]
  {
    if arguments == [] then [] else [arguments[0].Validate()] + ArgumentValidations(arguments[1..])
  }

  /** The errors a validation pass raises, in order: one per failed validation. */
  function ValidationErrors(vs: seq<Validation>, listening: bool): seq<Event>
  {
    if vs == [] then []
    else (if vs[0].ok then [] else Raised(vs[0].message, listening)) + ValidationErrors(vs[1..], listening)
  }

  // ---------------------------------------------------------------------
  // Properties of the scan

  /** Every token is accounted for exactly once and in order: fired as a
      switch, taken as a flag with its value, handed to the default
      callback, or reported. None is skipped and none is visited twice. */
  lemma {:induction false} EveryTokenCoveredOnce(tokens: seq<string>, switches: seq<SwitchParameter>, arguments: seq<ArgumentParameter>)
    ensures Covered(Decisions(tokens, switches, arguments)) == tokens
    decreases |tokens|
  {
    if tokens != [] {
      var d := Classify(tokens, switches, arguments);
      var rest := tokens[Width(d)..];
      EveryTokenCoveredOnce(rest, switches, arguments);
      assert Covered(Decisions(tokens, switches, arguments)) == d.Tokens() + Covered(Decisions(rest, switches, arguments));
      assert d.Tokens() == tokens[..Width(d)];
      assert tokens == tokens[..Width(d)] + rest;
    }
  }

  /** A run of positional tokens reaches the default callback unchanged, in
      order and with repeats kept, and the scan then carries on with what
      follows as if the run had not been there. */
  lemma {:induction false} PositionalRun(ps: seq<string>, rest: seq<string>, switches: seq<SwitchParameter>, arguments: seq<ArgumentParameter>)
    requires forall i :: 0 <= i < |ps| ==> !IsFlag(ps[i])
    ensures Decisions(ps + rest, switches, arguments)
      == seq(|ps|, i requires 0 <= i < |ps| => FireDefault(ps[i])) + Decisions(rest, switches, arguments)
  {
    if ps != [] {
      PositionalRun(ps[1..], rest, switches, arguments);
      assert (ps + rest)[0] == ps[0];
      assert (ps + rest)[1..] == ps[1..] + rest;
      assert seq(|ps|, i requires 0 <= i < |ps| => FireDefault(ps[i]))
        == [FireDefault(ps[0])] + seq(|ps[1..]|, i requires 0 <= i < |ps[1..]| => FireDefault(ps[1..][i]));
    } else {
      assert ps + rest == rest;
    }
  }

  /** The default callback receives exactly the tokens of the positional
      decisions, in order. */
  lemma {:induction false} DefaultSeesDefaultTokens(ds: seq<Decision>, a: ActionId, listening: bool)
    ensures DefaultInvocations(Trace(ds, Some(a), listening)) == DefaultTokens(ds)
  {
    if ds != [] {
      DefaultSeesDefaultTokens(ds[1..], a, listening);
      DefaultInvocationsAppend(EventsOf(ds[0], Some(a), listening), Trace(ds[1..], Some(a), listening));
    }
  }

  /** The tokens a trace hands to the default callback. */
  function DefaultInvocations(es: seq<Event>): seq<string>
  {
    if es == [] then []
    else (if es[0].DefaultInvoked? then [es[0].token] else []) + DefaultInvocations(es[1..])
  }

  lemma {:induction false} DefaultInvocationsAppend(a: seq<Event>, b: seq<Event>)
    ensures DefaultInvocations(a + b) == DefaultInvocations(a) + DefaultInvocations(b)
  {
    if a != [] {
      DefaultInvocationsAppend(a[1..], b);
      assert (a + b)[0] == a[0];
      assert (a + b)[1..] == a[1..] + b;
    } else {
      assert a + b == b;
    }
  }

  /** A token handed to the default callback is never a flag, and a value
      consumed by an argument parameter is never handed to it. */
  lemma {:induction false} DefaultTokensArePositional(tokens: seq<string>, switches: seq<SwitchParameter>, arguments: seq<ArgumentParameter>)
    ensures forall t :: t in DefaultTokens(Decisions(tokens, switches, arguments)) ==> !IsFlag(t)
    decreases |tokens|
  {
    if tokens != [] {
      var d := Classify(tokens, switches, arguments);
      DefaultTokensArePositional(tokens[Width(d)..], switches, arguments);
    }
  }

  /** A flag that names no switch and no argument parameter, followed by a
      token: one "not recognised" error naming the flag as written, and the
      cursor advances by one only, so the following token is scanned afresh
      rather than consumed. */
  lemma UnknownFlagThenToken(flag: string, next: string, rest: seq<string>, switches: seq<SwitchParameter>, arguments: seq<ArgumentParameter>)
    requires IsFlag(flag) && !NamesSwitch(switches, flag[1..]) && !NamesArgument(arguments, flag[1..])
    ensures Decisions([flag, next] + rest, switches, arguments)
      == [NotRecognised(flag)] + Decisions([next] + rest, switches, arguments)
    ensures EventsOf(NotRecognised(flag), None, true) == [ParameterError(NotRecognisedMessage(flag))]
  {
    assert ([flag, next] + rest)[1..] == [next] + rest;
  }

  /** A flag naming no switch, in last position, is reported as appearing at
      the end, whether or not it names an argument parameter. */
  lemma FlagAtEnd(flag: string, switches: seq<SwitchParameter>, arguments: seq<ArgumentParameter>)
    requires IsFlag(flag) && !NamesSwitch(switches, flag[1..])
    ensures Decisions([flag], switches, arguments) == [AtEnd(flag)]
    ensures EventsOf(AtEnd(flag), None, true) == [ParameterError(AtEndMessage(flag))]
  {
  }

  /** Switches are looked up first: a flag naming a switch fires it and
      consumes nothing else, even when an argument parameter has that name. */
  lemma SwitchWins(flag: string, rest: seq<string>, switches: seq<SwitchParameter>, arguments: seq<ArgumentParameter>)
    requires IsFlag(flag) && NamesSwitch(switches, flag[1..])
    ensures var d := Classify([flag] + rest, switches, arguments);
      d.FireSwitch? && d.token == flag &&
      Decisions([flag] + rest, switches, arguments) == [d] + Decisions(rest, switches, arguments)
  {
    assert ([flag] + rest)[1..] == rest;
  }

  /** A flag naming no switch but an argument parameter, followed by a token,
      hands that token to the parameter as its value: the cursor advances by
      two. */
  lemma ArgumentTakesValue(flag: string, value: string, rest: seq<string>, switches: seq<SwitchParameter>, arguments: seq<ArgumentParameter>)
    requires IsFlag(flag) && !NamesSwitch(switches, flag[1..]) && NamesArgument(arguments, flag[1..])
    ensures var d := Classify([flag, value] + rest, switches, arguments);
      d.FireArgument? && d.token == flag && d.value == value &&
      Decisions([flag, value] + rest, switches, arguments) == [d] + Decisions(rest, switches, arguments)
  {
    assert ([flag, value] + rest)[2..] == rest;
  }

  /** Name lookup ignores case and the choice of prefix: two flags whose names
      agree ignoring case lead to the same callbacks with the same values. */
  lemma CaseInsensitive(f1: string, f2: string, rest: seq<string>, switches: seq<SwitchParameter>, arguments: seq<ArgumentParameter>)
    requires IsFlag(f1) && IsFlag(f2) && SameName(f1[1..], f2[1..])
    ensures var d1, d2 := Classify([f1] + rest, switches, arguments), Classify([f2] + rest, switches, arguments);
      d1.FireSwitch? == d2.FireSwitch? && d1.FireArgument? == d2.FireArgument? &&
      d1.NotRecognised? == d2.NotRecognised? && d1.AtEnd? == d2.AtEnd? &&
      EventsOf(d1, None, false) == EventsOf(d2, None, false)
  {
    assert FlagName(f1) == FlagName(f2);
  }

  /** The validation errors of a list are those of its parts, in order. */
  lemma {:induction false} ValidationErrorsAppend(a: seq<Validation>, b: seq<Validation>, listening: bool)
    ensures ValidationErrors(a + b, listening) == ValidationErrors(a, listening) + ValidationErrors(b, listening)
  {
    if a != [] {
      ValidationErrorsAppend(a[1..], b, listening);
      assert (a + b)[0] == a[0];
      assert (a + b)[1..] == a[1..] + b;
    } else {
      assert a + b == b;
    }
  }

  /** Reporting one more validation keeps the account of the errors raised
      so far followed by those still to come. */
  lemma ValidationAdvance(before: seq<Event>, after: seq<Event>, vs: seq<Validation>, listening: bool)
    requires vs != [] && after == before + ValidationErrors([vs[0]], listening)
    ensures after + ValidationErrors(vs[1..], listening) == before + ValidationErrors(vs, listening)
  {
    var first := ValidationErrors([vs[0]], listening);
    var later := ValidationErrors(vs[1..], listening);
    ValidationErrorsAppend([vs[0]], vs[1..], listening);
    assert [vs[0]] + vs[1..] == vs;
    assert (before + first) + later == before + (first + later);
  }

  /** With a listener, the validation pass raises an error for a parameter
      exactly when its validation fails, with that validation's message; it
      raises nothing when every parameter is valid, and it raises one error
      per failed validation. */
  lemma {:induction false} ValidationErrorsExact(vs: seq<Validation>)
    ensures forall e :: e in ValidationErrors(vs, true) <==>
      exists k :: 0 <= k < |vs| && !vs[k].ok && e == ParameterError(vs[k].message)
    ensures ValidationErrors(vs, true) == [] <==> forall k :: 0 <= k < |vs| ==> vs[k].ok
    ensures |ValidationErrors(vs, true)| == |set k | 0 <= k < |vs| && !vs[k].ok|
  {
    ValidationErrorsCount(vs);
    if vs != [] {
      ValidationErrorsExact(vs[1..]);
      forall e ensures e in ValidationErrors(vs, true) <==>
        exists k :: 0 <= k < |vs| && !vs[k].ok && e == ParameterError(vs[k].message)
      {
        if e in ValidationErrors(vs[1..], true) {
          var k :| 0 <= k < |vs[1..]| && !vs[1..][k].ok && e == ParameterError(vs[1..][k].message);
          assert vs[k + 1] == vs[1..][k];
        }
        if exists k :: 0 <= k < |vs| && !vs[k].ok && e == ParameterError(vs[k].message) {
          var k :| 0 <= k < |vs| && !vs[k].ok && e == ParameterError(vs[k].message);
          if k > 0 {
            assert vs[1..][k - 1] == vs[k];
          }
        }
      }
    }
  }

  /** With a listener, the validation pass raises one error per failed
      validation: no failure is dropped, repeated or merged with another. */
  lemma {:induction false} ValidationErrorsCount(vs: seq<Validation>)
    ensures |ValidationErrors(vs, true)| == |set k | 0 <= k < |vs| && !vs[k].ok|
  {
    if vs != [] {
      var n := |vs| - 1;
      var init := vs[..n];
      ValidationErrorsCount(init);
      ValidationErrorsAppend(init, [vs[n]], true);
      assert init + [vs[n]] == vs;
      var before := set k | 0 <= k < |init| && !init[k].ok;
      var after := set k | 0 <= k < |vs| && !vs[k].ok;
      if vs[n].ok {
        assert after == before;
      } else {
        assert after == before + {n};
      }
    }
  }

  /** The mandatory argument parameters that were never supplied are the ones
      reported, each once and with its own name; the others raise nothing. */
  lemma MissingMandatoryReported(arguments: seq<ArgumentParameter>, k: nat)
    requires k < |arguments|
    ensures |ArgumentValidations(arguments)| == |arguments|
    ensures ParameterError(MandatoryMessage(arguments[k].name)) in ValidationErrors(ArgumentValidations(arguments), true)
      <== arguments[k].mandatory && !arguments[k].used
    ensures ValidationErrors(ArgumentValidations(arguments), true) == []
      <==> forall j :: 0 <= j < |arguments| ==> !arguments[j].mandatory || arguments[j].used
    ensures |ValidationErrors(ArgumentValidations(arguments), true)|
      == |set j | 0 <= j < |arguments| && arguments[j].mandatory && !arguments[j].used|
  {
    var vs := ArgumentValidations(arguments);
    ValidationsAt(arguments);
    ValidationErrorsExact(vs);
    ValidationErrorsCount(vs);
    assert (set k | 0 <= k < |vs| && !vs[k].ok)
      == set j | 0 <= j < |arguments| && arguments[j].mandatory && !arguments[j].used;
  }

  /** The validations are those of the argument parameters, position by position. */
  lemma {:induction false} ValidationsAt(arguments: seq<ArgumentParameter>)
    ensures |ArgumentValidations(arguments)| == |arguments|
    ensures forall k :: 0 <= k < |arguments| ==> ArgumentValidations(arguments)[k] == arguments[k].Validate()
  {
    if arguments != [] {
      ValidationsAt(arguments[1..]);
    }
  }
}
