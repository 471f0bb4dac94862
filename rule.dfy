/** Rules: a rule is a named build action with typed parameters. It decides
    whether it applies to a set of arguments, normalises them (computing
    dynamic and default values), splits them into input and output files and
    reports its primary output. Rules are assembled by a builder, then frozen. */
module Rules {
  import opened Values
  import opened Actions

  datatype Direction = Input | Output | Argument

  /** The positional arguments a dynamic block receives: an implicit
      parameter's block gets the argument map, an explicit dynamic one the
      supplied value and the argument map. */
  datatype BlockArguments =
    | ImplicitCall(arguments: Arguments)
    | DynamicCall(value: Value, arguments: Arguments)

  /** A dynamic block, evaluated in the scope of the invoking task. */
  type Block = (Scope, BlockArguments) -> Value

  /** The options hash of a parameter: `optional:` and `implicit:` by their
      truthiness, `default:` by whether the key is present (and its value),
      `pattern:` as the predicate its `match` computes. */
  datatype Options = Options(
    optional: bool,
    implicit: bool,
    default: Option<Value>,
    pattern: Option<Value -> bool>)

  datatype Parameter = Parameter(
    direction: Direction,
    name: string,
    options: Options,
    dynamic: Option<Block>)

  predicate HasDefault(p: Parameter) {
    p.options.default.Some?
  }

  /** Implicit parameters have a block and the `implicit:` option. */
  predicate Implicit(p: Parameter) {
    p.dynamic.Some? && p.options.implicit
  }

  /** Optional parameters may be missing from the arguments. */
  predicate Optional(p: Parameter) {
    p.options.optional || Implicit(p) || HasDefault(p)
  }

  /** A missing parameter applies when optional; a present one must have
      every element of `Array(value)` match the pattern, if there is one. */
  predicate ParameterApplicable(p: Parameter, arguments: Arguments) {
    if p.name !in arguments then Optional(p)
    else match p.options.pattern
      case None => true
      case Some(pattern) => forall item <- ToArray(arguments[p.name]) :: pattern(item)
  }

  /** `options[:default]`, which is nil when there is no `default:` key. */
  function DefaultValue(p: Parameter): Value {
    match p.options.default
    case Some(v) => v
    case None => Nil
  }

  /** The value a parameter computes before the default is considered: an
      implicit parameter takes a truthy supplied value or else its block's,
      an explicit dynamic one its block's, a static one the supplied value. */
  function RawValue(p: Parameter, arguments: Arguments, scope: Scope): Value {
    match p.dynamic
    case Some(block) =>
      if p.options.implicit then
        (var supplied := Get(arguments, p.name);
         if Truthy(supplied) then supplied else block(scope, ImplicitCall(arguments)))
      else block(scope, DynamicCall(Get(arguments, p.name), arguments))
    case None => Get(arguments, p.name)
  }

  /** `Parameter#compute` as written: any falsy value (nil and also an
      explicit false) falls back to `options[:default]`. */
  function ComputeAsWritten(p: Parameter, arguments: Arguments, scope: Scope): (v: Value)
    ensures !Truthy(RawValue(p, arguments, scope)) ==> v == DefaultValue(p)
  {
    var raw := RawValue(p, arguments, scope);
    if Truthy(raw) then raw else DefaultValue(p)
  }

  /** `Parameter#compute` as intended: only a nil value falls back to the
      default, so an explicit false is kept. */
  function Compute(p: Parameter, arguments: Arguments, scope: Scope): (v: Value)
    ensures RawValue(p, arguments, scope) == Bool(false) ==> v == Bool(false)
  {
    var raw := RawValue(p, arguments, scope);
    if raw.Nil? then DefaultValue(p) else raw
  }

  /** The two versions of `compute` differ exactly when the computed value is
      an explicit false and the default is something else. */
  lemma ComputeDiffersOnlyOnFalse(p: Parameter, arguments: Arguments, scope: Scope)
    ensures Compute(p, arguments, scope) != ComputeAsWritten(p, arguments, scope)
        <==> (RawValue(p, arguments, scope) == Bool(false) && DefaultValue(p) != Bool(false))
  {
  }

  /** A truthy supplied value overrides an implicit parameter's block, and is
      kept as is by a static parameter; a missing static parameter takes the
      default. */
  lemma SuppliedValueWins(p: Parameter, arguments: Arguments, scope: Scope)
    requires Implicit(p) || p.dynamic.None?
    ensures p.name in arguments && Truthy(arguments[p.name]) ==> Compute(p, arguments, scope) == arguments[p.name]
    ensures p.dynamic.None? && p.name !in arguments ==> Compute(p, arguments, scope) == DefaultValue(p)
  {
  }

  // ---------------------------------------------------------------------
  // Names

  predicate WordChar(c: char) {
    ('a' <= c <= 'z') || ('A' <= c <= 'Z') || ('0' <= c <= '9') || c == '_'
  }

  /** Replaces every character of `s` by `f` of it. */
  function Substitute(s: string, f: char -> char): (r: string)
    ensures |r| == |s|
    ensures forall i :: 0 <= i < |s| ==> r[i] == f(s[i])
  {
    if s == [] then [] else [f(s[0])] + Substitute(s[1..], f)
  }

  /** `name.gsub(/[^\w]/, '_')`: the method name for a fully named rule. */
  function FullName(name: string): (r: string)
    ensures |r| == |name|
    ensures forall i :: 0 <= i < |r| ==> WordChar(r[i])
    ensures forall i :: 0 <= i < |r| ==> (r[i] == name[i] <==> WordChar(name[i]))
  {
    Substitute(name, c => if WordChar(c) then c else '_')
  }

  /** `process_name.gsub('-', '_')`: the method name for a process. */
  function ProcessName(process: string): (r: string)
    ensures |r| == |process| && '-' !in r
    ensures forall i :: 0 <= i < |r| ==> (process[i] == '-' ==> r[i] == '_') && (process[i] != '-' ==> r[i] == process[i])
  {
    Substitute(process, c => if c == '-' then '_' else c)
  }

  /** `name.split('.', 2)` as `Rule.build` needs it: the text before the
      first '.', and everything after it; no split when there is no '.'. */
  function SplitAtFirstDot(name: string): (r: Option<(string, string)>)
    ensures r.None? <==> '.' !in name
    ensures r.Some? ==> r.value.0 + "." + r.value.1 == name && '.' !in r.value.0
  {
    if name == [] then None
    else if name[0] == '.' then Some(([], name[1..]))
    else match SplitAtFirstDot(name[1..])
      case None => None
      case Some(parts) =>
        assert [name[0]] + parts.0 + "." + parts.1 == name;
        Some(([name[0]] + parts.0, parts.1))
  }

  // ---------------------------------------------------------------------
  // Rules

  datatype Rule = Rule(
    name: string,
    fullName: string,
    processName: string,
    ruleType: string,
    parameters: seq<Parameter>,
    primaryOutput: Option<Parameter>,
    apply: Option<Action>)

  /** The first declared output parameter. */
  function FirstOutput(parameters: seq<Parameter>): Option<Parameter> {
    if parameters == [] then None
    else if parameters[0].direction == Output then Some(parameters[0])
    else FirstOutput(parameters[1..])
  }

  /** A rule's primary output is its first declared output parameter. */
  ghost predicate ValidRule(rule: Rule) {
    rule.primaryOutput == FirstOutput(rule.parameters)
  }

  /** `Rule.new(process_name, type)`: a rule without parameters, primary
      output or action, whose full and process names are derived from its
      name and process. */
  function NewRule(process: string, ruleType: string): (rule: Rule)
    ensures ValidRule(rule)
    ensures rule.name == process + "." + ruleType && rule.ruleType == ruleType
    ensures rule.parameters == [] && rule.primaryOutput.None? && rule.apply.None?
    ensures rule.fullName == FullName(rule.name) && rule.processName == ProcessName(process)
  {
    var name := process + "." + ruleType;
    Rule(name, FullName(name), ProcessName(process), ruleType, [], None, None)
  }

  /** Every non-implicit parameter in `parameters` applies. */
  function AllApplicable(parameters: seq<Parameter>, arguments: Arguments): (r: bool)
    ensures r <==> forall i :: 0 <= i < |parameters| && !Implicit(parameters[i]) ==> ParameterApplicable(parameters[i], arguments)
  {
    if parameters == [] then true
    else
      && (Implicit(parameters[0]) || ParameterApplicable(parameters[0], arguments))
      && AllApplicable(parameters[1..], arguments)
  }

  /** `Rule#applicable?`: implicit parameters are skipped, every other
      parameter must apply; a rule without parameters always applies. */
  predicate Applicable(rule: Rule, arguments: Arguments) {
    AllApplicable(rule.parameters, arguments)
  }

  /** A required parameter (not optional, implicit or defaulted) that the
      arguments lack makes the rule inapplicable. */
  lemma {:induction false} RequiredParameterMissing(rule: Rule, arguments: Arguments, i: nat)
    requires i < |rule.parameters|
    requires !Optional(rule.parameters[i]) && rule.parameters[i].name !in arguments
    ensures !Applicable(rule, arguments)
  {
  }

  /** Adding an argument for a name that no patterned parameter has never
      makes an applicable rule inapplicable. */
  lemma ApplicableMonotone(rule: Rule, arguments: Arguments, name: string, value: Value)
    requires Applicable(rule, arguments)
    requires forall i :: 0 <= i < |rule.parameters| && rule.parameters[i].name == name ==> rule.parameters[i].options.pattern.None?
    ensures Applicable(rule, arguments[name := value])
  {
    var extended := arguments[name := value];
    forall i | 0 <= i < |rule.parameters| && !Implicit(rule.parameters[i])
      ensures ParameterApplicable(rule.parameters[i], extended)
    {
      assert ParameterApplicable(rule.parameters[i], arguments);
    }
  }

  /** Whether `parameters[i]` is the last parameter with its name (the one
      whose value a Ruby `Hash[]` of pairs keeps). */
  predicate LastWithName(parameters: seq<Parameter>, i: nat)
    requires i < |parameters|
  {
    forall j :: i < j < |parameters| ==> parameters[j].name != parameters[i].name
  }

  /** The names of the parameters. */
  function Names(parameters: seq<Parameter>): set<string> {
    if parameters == [] then {}
    else Names(parameters[..|parameters| - 1]) + {parameters[|parameters| - 1].name}
  }

  /** A name is among the parameter names iff some parameter has it. */
  lemma {:induction false} NamesMembers(parameters: seq<Parameter>, k: string)
    ensures k in Names(parameters) <==> exists i :: 0 <= i < |parameters| && parameters[i].name == k
  {
    if parameters != [] {
      var n := |parameters| - 1;
      NamesMembers(parameters[..n], k);
      if exists i :: 0 <= i < |parameters| && parameters[i].name == k {
        var i :| 0 <= i < |parameters| && parameters[i].name == k;
        if i < n {
          assert parameters[..n][i] == parameters[i];
        }
      }
    }
  }

  function ComputeAll(parameters: seq<Parameter>, arguments: Arguments, scope: Scope): (r: Arguments)
    ensures r.Keys == Names(parameters)
  {
    if parameters == [] then map[]
    else
      var n := |parameters| - 1;
      ComputeAll(parameters[..n], arguments, scope)[parameters[n].name := Compute(parameters[n], arguments, scope)]
  }

  lemma {:induction false} ComputeAllAt(parameters: seq<Parameter>, arguments: Arguments, scope: Scope, i: nat)
    requires i < |parameters| && LastWithName(parameters, i)
    ensures parameters[i].name in ComputeAll(parameters, arguments, scope)
    ensures ComputeAll(parameters, arguments, scope)[parameters[i].name] == Compute(parameters[i], arguments, scope)
  {
    var n := |parameters| - 1;
    var prefix := parameters[..n];
    var name := parameters[i].name;
    NamesMembers(parameters, name);
    if i < n {
      assert prefix[i] == parameters[i];
      assert forall j :: i < j < n ==> prefix[j] == parameters[j];
      ComputeAllAt(prefix, arguments, scope, i);
    }
  }

  /** `Rule#normalize`: exactly one entry per declared parameter name,
      holding the value the (last) parameter of that name computes; argument
      keys that name no parameter are dropped. */
  function Normalize(rule: Rule, arguments: Arguments, scope: Scope): (r: Arguments)
    ensures r.Keys == Names(rule.parameters)
    ensures forall i :: 0 <= i < |rule.parameters| && LastWithName(rule.parameters, i) ==>
      rule.parameters[i].name in r && r[rule.parameters[i].name] == Compute(rule.parameters[i], arguments, scope)
  {
    forall i | 0 <= i < |rule.parameters| && LastWithName(rule.parameters, i)
      ensures rule.parameters[i].name in ComputeAll(rule.parameters, arguments, scope)
      ensures ComputeAll(rule.parameters, arguments, scope)[rule.parameters[i].name] == Compute(rule.parameters[i], arguments, scope)
    {
      ComputeAllAt(rule.parameters, arguments, scope, i);
    }
    ComputeAll(rule.parameters, arguments, scope)
  }

  /** The truthy values of the parameters of direction `d`, in declaration order. */
  function Selected(parameters: seq<Parameter>, arguments: Arguments, d: Direction): (r: seq<Value>)
    ensures forall v <- r :: Truthy(v)
    ensures |r| <= |parameters|
  {
    if parameters == [] then []
    else
      var n := |parameters| - 1;
      var rest := Selected(parameters[..n], arguments, d);
      var value := Get(arguments, parameters[n].name);
      if parameters[n].direction == d && Truthy(value) then rest + [value] else rest
  }

  /** A value is selected for direction `d` exactly when some parameter of
      that direction is bound to it and it is truthy. */
  lemma {:induction false} SelectedMembers(parameters: seq<Parameter>, arguments: Arguments, d: Direction, v: Value)
    ensures v in Selected(parameters, arguments, d) <==>
      Truthy(v) && exists i :: 0 <= i < |parameters| && parameters[i].direction == d && Get(arguments, parameters[i].name) == v
  {
    if parameters != [] {
      var n := |parameters| - 1;
      SelectedMembers(parameters[..n], arguments, d, v);
      if v in Selected(parameters, arguments, d) && v !in Selected(parameters[..n], arguments, d) {
        assert parameters[n].direction == d && Get(arguments, parameters[n].name) == v;
      }
      if Truthy(v) && exists i :: 0 <= i < |parameters| && parameters[i].direction == d && Get(arguments, parameters[i].name) == v {
        var i :| 0 <= i < |parameters| && parameters[i].direction == d && Get(arguments, parameters[i].name) == v;
        if i < n {
          assert parameters[..n][i] == parameters[i];
        }
      }
    }
  }

  /** `Rule#files`: the truthy values of input parameters and of output
      parameters, each in declaration order; argument parameters and falsy
      values are left out. */
  method Files(rule: Rule, arguments: Arguments) returns (inputs: seq<Value>, outputs: seq<Value>)
    ensures inputs == Selected(rule.parameters, arguments, Input)
    ensures outputs == Selected(rule.parameters, arguments, Output)
  {
    inputs, outputs := [], [];
    var i := 0;
    while i < |rule.parameters|
      invariant 0 <= i <= |rule.parameters|
      invariant inputs == Selected(rule.parameters[..i], arguments, Input)
      invariant outputs == Selected(rule.parameters[..i], arguments, Output)
    {
      var parameter := rule.parameters[i];
      var value := Get(arguments, parameter.name);
      assert rule.parameters[..i + 1][..i] == rule.parameters[..i];
      if Truthy(value) {
        match parameter.direction
        case Input => inputs := inputs + [value];
        case Output => outputs := outputs + [value];
        case Argument =>
      }
      i := i + 1;
    }
    assert rule.parameters[..i] == rule.parameters;
  }

  /** `Rule#result`: the value of the primary output, or nil without one. */
  function Result(rule: Rule, arguments: Arguments): Value {
    match rule.primaryOutput
    case Some(p) => Get(arguments, p.name)
    case None => Nil
  }

  lemma {:induction false} FirstOutputIsFirst(parameters: seq<Parameter>)
    ensures FirstOutput(parameters).None? <==> forall i :: 0 <= i < |parameters| ==> parameters[i].direction != Output
    ensures forall i :: (0 <= i < |parameters| && parameters[i].direction == Output
      && (forall j :: 0 <= j < i ==> parameters[j].direction != Output)) ==> FirstOutput(parameters) == Some(parameters[i])
  {
    if parameters != [] {
      FirstOutputIsFirst(parameters[1..]);
      forall i | (0 < i < |parameters| && parameters[i].direction == Output
        && (forall j :: 0 <= j < i ==> parameters[j].direction != Output))
        ensures FirstOutput(parameters) == Some(parameters[i])
      {
        assert parameters[1..][i - 1] == parameters[i];
        assert forall j :: 0 <= j < i - 1 ==> parameters[1..][j] == parameters[j + 1];
      }
      if forall i :: 0 <= i < |parameters[1..]| ==> parameters[1..][i].direction != Output {
        assert forall i :: 1 <= i < |parameters| ==> parameters[i].direction == parameters[1..][i - 1].direction;
      }
    }
  }

  /** The result of a rule is the argument bound to its first declared output
      parameter, or nil when it declares no output. */
  lemma ResultIsFirstOutput(rule: Rule, arguments: Arguments)
    requires ValidRule(rule)
    ensures (forall i :: 0 <= i < |rule.parameters| ==> rule.parameters[i].direction != Output) ==> Result(rule, arguments) == Nil
    ensures forall i :: (0 <= i < |rule.parameters| && rule.parameters[i].direction == Output
      && (forall j :: 0 <= j < i ==> rule.parameters[j].direction != Output)) ==>
      Result(rule, arguments) == Get(arguments, rule.parameters[i].name)
  {
    FirstOutputIsFirst(rule.parameters);
  }

  // ---------------------------------------------------------------------
  // Building rules

  /** The calls a `Rule.build` block makes on the rule under construction. */
  datatype RuleStep =
    | InputStep(name: string, options: Options, dynamic: Option<Block>)
    | OutputStep(name: string, options: Options, dynamic: Option<Block>)
    | ArgumentStep(name: string, options: Options, dynamic: Option<Block>)
    | ApplyStep(action: Action)

  /** The rule after `rule << parameter`. */
  function AddParameter(rule: Rule, p: Parameter): Rule {
    rule.(parameters := rule.parameters + [p],
          primaryOutput := if rule.primaryOutput.None? && p.direction == Output then Some(p) else rule.primaryOutput)
  }

  lemma {:induction false} FirstOutputAppend(parameters: seq<Parameter>, p: Parameter)
    ensures FirstOutput(parameters + [p]) ==
      if FirstOutput(parameters).None? && p.direction == Output then Some(p) else FirstOutput(parameters)
  {
    if parameters != [] {
      assert (parameters + [p])[1..] == parameters[1..] + [p];
      FirstOutputAppend(parameters[1..], p);
    }
  }

  /** Adding a parameter keeps the primary output the first declared output. */
  lemma AddParameterValid(rule: Rule, p: Parameter)
    requires ValidRule(rule)
    ensures ValidRule(AddParameter(rule, p))
  {
    FirstOutputAppend(rule.parameters, p);
  }

  function StepParameter(step: RuleStep): Parameter
    requires !step.ApplyStep?
  {
    match step
    case InputStep(name, options, dynamic) => Parameter(Input, name, options, dynamic)
    case OutputStep(name, options, dynamic) => Parameter(Output, name, options, dynamic)
    case ArgumentStep(name, options, dynamic) => Parameter(Argument, name, options, dynamic)
  }

  /** The rule after running one step of the build block. */
  function ApplyStepTo(rule: Rule, step: RuleStep): Rule {
    if step.ApplyStep? then rule.(apply := Some(step.action))
    else AddParameter(rule, StepParameter(step))
  }

  function ApplySteps(rule: Rule, steps: seq<RuleStep>): Rule
    decreases |steps|
  {
    if steps == [] then rule
    else ApplySteps(ApplyStepTo(rule, steps[0]), steps[1..])
  }

  lemma {:induction false} ApplyStepsSnoc(rule: Rule, steps: seq<RuleStep>, step: RuleStep)
    ensures ApplySteps(rule, steps + [step]) == ApplyStepTo(ApplySteps(rule, steps), step)
    decreases |steps|
  {
    if steps != [] {
      assert (steps + [step])[1..] == steps[1..] + [step];
      ApplyStepsSnoc(ApplyStepTo(rule, steps[0]), steps[1..], step);
    }
  }

  /** Building keeps names and the primary-output invariant, and the
      parameters are exactly those the steps declare, in order. */
  lemma {:induction false} ApplyStepsShape(rule: Rule, steps: seq<RuleStep>)
    requires ValidRule(rule)
    ensures ValidRule(ApplySteps(rule, steps))
    ensures ApplySteps(rule, steps).name == rule.name
    ensures ApplySteps(rule, steps).processName == rule.processName
    ensures ApplySteps(rule, steps).parameters == rule.parameters + DeclaredParameters(steps)
    decreases |steps|
  {
    if steps != [] {
      var next := ApplyStepTo(rule, steps[0]);
      if !steps[0].ApplyStep? {
        AddParameterValid(rule, StepParameter(steps[0]));
      }
      ApplyStepsShape(next, steps[1..]);
      if !steps[0].ApplyStep? {
        assert rule.parameters + [StepParameter(steps[0])] + DeclaredParameters(steps[1..])
          == rule.parameters + DeclaredParameters(steps);
      }
    }
  }

  /** The parameters a build block declares, in order. */
  function DeclaredParameters(steps: seq<RuleStep>): seq<Parameter> {
    if steps == [] then []
    else if steps[0].ApplyStep? then DeclaredParameters(steps[1..])
    else [StepParameter(steps[0])] + DeclaredParameters(steps[1..])
  }

  /** `Rule.build(name) { ... }`: splits the name at the first '.', runs the
      block's steps on a new rule and freezes it; a name without '.' is an
      argument error (None). */
  function BuildRule(name: string, steps: seq<RuleStep>): (r: Option<Rule>)
    ensures r.None? <==> '.' !in name
    ensures r.Some? ==> r.value.name == name && ValidRule(r.value)
    ensures r.Some? ==> r.value.parameters == DeclaredParameters(steps)
  {
    match SplitAtFirstDot(name)
    case None => None
    case Some(parts) =>
      ApplyStepsShape(NewRule(parts.0, parts.1), steps);
      Some(ApplySteps(NewRule(parts.0, parts.1), steps))
  }

  /** A rule under construction: `Rule.new` followed by the `input`,
      `output`, `parameter` and `apply` calls of the build block. */
  class RuleBuilder {
    const name: string
    const fullName: string
    const processName: string
    const ruleType: string
    var parameters: seq<Parameter>
    var primaryOutput: Option<Parameter>
    var apply: Option<Action>

    /** The value this builder freezes into. */
    function Frozen(): Rule
      reads this
    {
      Rule(name, fullName, processName, ruleType, parameters, primaryOutput, apply)
    }

    ghost predicate Valid()
      reads this
    {
      ValidRule(Frozen())
    }

    constructor (process: string, ruleType: string)
      ensures Valid() && Frozen() == NewRule(process, ruleType)
    {
      var name := process + "." + ruleType;
      this.name := name;
      this.fullName := FullName(name);
      this.processName := ProcessName(process);
      this.ruleType := ruleType;
      this.parameters := [];
      this.primaryOutput := None;
      this.apply := None;
    }

    /** `rule << parameter`: appends it; the first output becomes primary. */
    method Add(p: Parameter)
      requires Valid()
      modifies this
      ensures Valid()
      ensures Frozen() == AddParameter(old(Frozen()), p)
    {
      AddParameterValid(Frozen(), p);
      parameters := parameters + [p];
      if primaryOutput.None? && p.direction == Output {
        primaryOutput := Some(p);
      }
    }

    /** `input`, `output` and `parameter` of the build block, and `apply`. */
    method Step(step: RuleStep)
      requires Valid()
      modifies this
      ensures Valid()
      ensures Frozen() == ApplyStepTo(old(Frozen()), step)
    {
      match step
      case InputStep(n, options, dynamic) => Add(Parameter(Input, n, options, dynamic));
      case OutputStep(n, options, dynamic) => Add(Parameter(Output, n, options, dynamic));
      case ArgumentStep(n, options, dynamic) => Add(Parameter(Argument, n, options, dynamic));
      case ApplyStep(action) => apply := Some(action);
    }
  }

  /** `Rule.build`, step by step on a builder. */
  method Build(name: string, steps: seq<RuleStep>) returns (r: Option<Rule>)
    ensures r == BuildRule(name, steps)
  {
    var parts := SplitAtFirstDot(name);
    if parts.None? {
      return None;
    }
    var builder := new RuleBuilder(parts.value.0, parts.value.1);
    var i := 0;
    while i < |steps|
      invariant 0 <= i <= |steps|
      invariant builder.Valid()
      invariant builder.Frozen() == ApplySteps(NewRule(parts.value.0, parts.value.1), steps[..i])
    {
      ApplyStepsSnoc(NewRule(parts.value.0, parts.value.1), steps[..i], steps[i]);
      assert steps[..i + 1] == steps[..i] + [steps[i]];
      builder.Step(steps[i]);
      i := i + 1;
    }
    assert steps[..i] == steps;
    r := Some(builder.Frozen());
  }

  /** `NoApplicableRule`: raised with the process name and the arguments. */
  datatype NoApplicableRule = NoApplicableRule(name: string, arguments: Arguments)

  // ---------------------------------------------------------------------
  // The rules of the source's own tests

  const NoOptions := Options(false, false, None, None)

  /** A rule such as `compile.cpp` with input `source` and output
      `destination`. */
  function CompileRule(process: string, ruleType: string): (rule: Rule)
    ensures rule.parameters == [Parameter(Input, "source", NoOptions, None), Parameter(Output, "destination", NoOptions, None)]
    ensures rule.primaryOutput == Some(Parameter(Output, "destination", NoOptions, None))
  {
    var rule := NewRule(process, ruleType);
    AddParameter(AddParameter(rule, Parameter(Input, "source", NoOptions, None)),
                 Parameter(Output, "destination", NoOptions, None))
  }

  /** With both parameters supplied the rule applies. */
  lemma CompileRuleApplies(process: string, ruleType: string, source: Value, destination: Value)
    ensures Applicable(CompileRule(process, ruleType), map["source" := source, "destination" := destination])
  {
    var rule := CompileRule(process, ruleType);
    var arguments := map["source" := source, "destination" := destination];
    assert ParameterApplicable(rule.parameters[0], arguments);
    assert ParameterApplicable(rule.parameters[1], arguments);
  }

  /** Without the output argument the rule does not apply. */
  lemma CompileRuleNeedsDestination(process: string, ruleType: string, source: Value)
    ensures !Applicable(CompileRule(process, ruleType), map["source" := source])
  {
    RequiredParameterMissing(CompileRule(process, ruleType), map["source" := source], 1);
  }

  /** The rule's result is the destination. */
  lemma CompileRuleResult(process: string, ruleType: string, source: Value, destination: Value)
    ensures Result(CompileRule(process, ruleType), map["source" := source, "destination" := destination]) == destination
  {
  }

  /** The `install` parameter with `default: true`. */
  const Install := Parameter(Argument, "install", Options(false, false, Some(Bool(true)), None), None)

  /** A rule with one `install` argument. */
  function InstallRule(process: string, ruleType: string): (rule: Rule)
    ensures rule.parameters == [Install]
  {
    AddParameter(NewRule(process, ruleType), Install)
  }

  /** The `install` parameter is the only one, and the last of its name. */
  lemma InstallRuleNames(process: string, ruleType: string)
    ensures Names(InstallRule(process, ruleType).parameters) == {"install"}
    ensures LastWithName(InstallRule(process, ruleType).parameters, 0)
  {
    assert InstallRule(process, ruleType).parameters[..0] == [];
  }

  /** Normalising `{}` gives `{install: true}`. */
  lemma DefaultFillsMissingArgument(process: string, ruleType: string)
    ensures Normalize(InstallRule(process, ruleType), map[], map[]) == map["install" := Bool(true)]
  {
    InstallRuleNames(process, ruleType);
    assert Compute(Install, map[], map[]) == Bool(true);
  }

  /** Normalising `{install: false}` keeps false. */
  lemma RespectsFalseArgument(process: string, ruleType: string)
    ensures Normalize(InstallRule(process, ruleType), map["install" := Bool(false)], map[]) == map["install" := Bool(false)]
  {
    InstallRuleNames(process, ruleType);
    var r := Normalize(InstallRule(process, ruleType), map["install" := Bool(false)], map[]);
    assert Compute(Install, map["install" := Bool(false)], map[]) == Bool(false);
    assert r.Keys == {"install"} && r["install"] == Bool(false);
  }

  /** `compute` as written turns the explicit false into the default true. */
  lemma AsWrittenOverridesFalse()
    ensures ComputeAsWritten(Install, map["install" := Bool(false)], map[]) == Bool(true)
  {
  }
}
