/** The nodes of the build graph and what a task learns from them: their
    files, the task class each runs in, the provisions and dependency nodes
    they lead to, and the failures a task can raise. */
module Nodes {
  import opened Values
  import opened Actions
  import opened Rules
  import opened Environments
  import opened OrderedHashes
  import opened Rulebooks
  import opened Chains

  /** The nodes of the graph. A rule node keeps the input and output files
      its rule selected from the (normalised) arguments. */
  datatype Node =
    | ChainNode(chain: Chain, arguments: seq<Value>, environment: Environment)
    | DependencyNode(chain: Chain, dependency: Dependency, environment: Environment, arguments: seq<Value>)
    | ProvisionNode(chain: Chain, provision: Provision, environment: Environment, arguments: seq<Value>)
    | BuildNode(environment: Environment, dependency: Dependency, provisions: seq<Provision>, arguments: seq<Value>)
    | RuleNode(rule: Rule, ruleArguments: Arguments, callback: Option<Action>, inputs: seq<Value>, outputs: seq<Value>)

  /** What a task can raise while it is updated, and what fails a visit
      whose children failed (`ChildrenFailed`). */
  datatype Failure =
    | CommandFailure(argv: Argv, status: int)
    | NoApplicable(error: NoApplicableRule)
    | NoMethod(selector: string)
    | BadRuleName(name: string)
    | DependenciesFailed
    | ChildrenFailed
    | UnknownKeyword(keyword: string)
    | WrongArity(given: nat, expected: nat)
    | FrozenList
    | OutOfFuel

  datatype Outcome<+T> = Success(value: T) | Raised(failure: Failure)

  /** The outputs a graph node declares: listed files, or `:inherit` (the
      outputs of its children). */
  datatype Outputs = Listed(files: seq<Value>) | Inherit

  /** How the walker picks the class of the task that visits a node: the
      controller's step takes the parent task's class (or `Task` at the top);
      otherwise each node names its own through `task_class(parent_task)`. */
  datatype Policy = ParentClass | NodeClass

  /** The name a node is logged under: only a chain's can be missing, and a
      dependency's node and the build node made for it share its name. */
  function NodeName(node: Node): (r: Option<string>)
    ensures r.None? ==> node.ChainNode?
    ensures node.DependencyNode? || node.BuildNode? ==> r == Some(node.dependency.name)
  {
    match node
    case ChainNode(_, _, environment) => environment.layer.name
    case DependencyNode(_, dependency, _, _) => Some(dependency.name)
    case ProvisionNode(_, provision, _, _) => Some(provision.name)
    case BuildNode(_, dependency, _, _) => Some(dependency.name)
    case RuleNode(rule, _, _, _, _) => Some(rule.name)
  }

  /** The inputs and outputs a node was created with: a rule node's come from
      its rule's files; every other node has no inputs and inherits its
      outputs. */
  function Files(node: Node): (r: (seq<Value>, Outputs))
    ensures node.RuleNode? ==> r == (node.inputs, Listed(node.outputs))
    ensures !node.RuleNode? ==> r == ([], Inherit)
  {
    match node
    case RuleNode(_, _, _, inputs, outputs) => (inputs, Listed(outputs))
    case _ => ([], Inherit)
  }

  /** `RuleNode.new(rule, arguments, &block)`: the node's files are the two
      lists `rule.files(arguments)` returns. */
  method NewRuleNode(rule: Rule, arguments: Arguments, callback: Option<Action>) returns (node: Node)
    ensures node.RuleNode? && node.rule == rule && node.ruleArguments == arguments && node.callback == callback
    ensures Files(node) == (Selected(rule.parameters, arguments, Input), Listed(Selected(rule.parameters, arguments, Output)))
  {
    var inputs, outputs := Rules.Files(rule, arguments);
    node := RuleNode(rule, arguments, callback, inputs, outputs);
  }

  /** What a block run in a task sees: the values of the task's environment,
      or nothing when it has none. */
  function ScopeOf(environment: Option<Environment>): (r: Scope)
    ensures environment.None? ==> r == map[]
    ensures environment.Some? ==> r == Export(environment.value)
  {
    match environment
    case Some(e) => Export(e)
    case None => map[]
  }

  /** The environment a new task holds: `Task#initialize` reads the
      `environment` accessor its class defines (nil without one), and
      `DependencyTask#initialize` resets it to nil. */
  function InitialEnvironment(tc: TaskClass): (r: Option<Environment>)
    ensures tc.kind == DependencyTask ==> r.None?
    ensures tc.kind != DependencyTask ==> (r.Some? <==> "environment" in tc.state)
    ensures r.Some? ==> r.value == tc.state["environment"]
  {
    if tc.kind == DependencyTask then None
    else if "environment" in tc.state then Some(tc.state["environment"])
    else None
  }

  /** `Rulebook.for(environment).with(kind, environment: environment)`. */
  function EnvironmentClass(e: Environment, kind: TaskKind): (r: Outcome<TaskClass>)
    ensures r.Raised? ==> r.failure.BadRuleName?
    ensures r.Success? ==> r.value.kind == kind
  {
    match BuiltRules(Defined(e))
    case Some(registered) => Success(TaskClass(kind, ProcessesOf(registered), RulesOf(registered), map["environment" := e]))
    case None => Raised(BadRuleName(BadDefinition(Defined(e))))
  }

  /** The class for an environment is found exactly when every rule name
      the environment defines holds a '.', and a task of that class (other
      than a dependency task) holds the environment. */
  lemma EnvironmentClassFound(e: Environment, kind: TaskKind)
    ensures EnvironmentClass(e, kind).Success? <==> !SomeUndotted(Defined(e))
    ensures EnvironmentClass(e, kind).Success? ==>
      InitialEnvironment(EnvironmentClass(e, kind).value) == (if kind == DependencyTask then None else Some(e))
  {
    BuiltRulesFail(Defined(e));
  }

  /** The class of the task that visits `node` for a task of class `parent`. */
  function ChildClass(policy: Policy, parent: TaskClass, node: Node): Outcome<TaskClass> {
    match policy
    case ParentClass => Success(parent)
    case NodeClass =>
      match node
      case RuleNode(_, _, _, _, _) => Success(parent)
      case BuildNode(environment, _, _, _) => EnvironmentClass(environment, BuildTask)
      case DependencyNode(_, _, _, _) => Success(BaseClass(DependencyTask))
      case ProvisionNode(_, _, _, _) => Success(BaseClass(ProvisionTask))
      case ChainNode(_, _, _) => Raised(WrongArity(1, 0))
  }

  /** A rule node always runs in its parent task's class, so the methods
      that class generated stay available to the rule's blocks. */
  lemma RuleNodeInheritsClass(policy: Policy, parent: TaskClass, node: Node)
    requires node.RuleNode?
    ensures ChildClass(policy, parent, node) == Success(parent)
  {
  }

  /** A build node's task class comes from the rulebook of the node's own
      environment, with that environment bound as state. */
  lemma BuildNodeClass(node: Node, parent: TaskClass)
    requires node.BuildNode?
    ensures var c := ChildClass(NodeClass, parent, node);
      c.Success? <==> BuiltRules(Defined(node.environment)).Some?
    ensures var c := ChildClass(NodeClass, parent, node);
      c.Success? ==> (c.value.kind == BuildTask && c.value.state == map["environment" := node.environment]
        && c.value.rules == RulesOf(BuiltRules(Defined(node.environment)).value))
  {
  }

  /** `node.provisions`: a dependency node's resolved provisions (nil, and
      so an error when walked, for an unresolved dependency), a build node's
      own list. */
  function ProvisionsOf(node: Node): (r: Outcome<seq<Provision>>)
    ensures node.DependencyNode? ==> (r.Success? <==> node.dependency in node.chain.resolved)
    ensures node.DependencyNode? && r.Success? ==> r.value == node.chain.resolved[node.dependency]
    ensures node.BuildNode? ==> r == Success(node.provisions)
    ensures !node.DependencyNode? && !node.BuildNode? ==> r == Raised(NoMethod("provisions"))
  {
    match node
    case DependencyNode(chain, dependency, _, _) =>
      (match Resolved(chain, dependency)
       case Some(provisions) => Success(provisions)
       case None => Raised(NoMethod("each")))
    case BuildNode(_, _, provisions, _) => Success(provisions)
    case _ => Raised(NoMethod("provisions"))
  }

  /** `node.dependency_node_for(dependency)`: a dependency node over the same
      chain, environment and arguments. */
  function DependencyNodeFor(node: Node, dependency: Dependency): (r: Option<Node>)
    ensures r.Some? <==> node.DependencyNode? || node.ProvisionNode?
    ensures r.Some? ==> r.value == DependencyNode(node.chain, dependency, node.environment, node.arguments)
  {
    match node
    case DependencyNode(chain, _, environment, arguments) => Some(DependencyNode(chain, dependency, environment, arguments))
    case ProvisionNode(chain, _, environment, arguments) => Some(DependencyNode(chain, dependency, environment, arguments))
    case _ => None
  }

  /** The nodes a dependency node's `apply!` invokes: one per chain
      dependency, in chain order. */
  function ChainDependencyNodes(node: Node): (r: seq<Node>)
    requires node.DependencyNode?
    ensures |r| == |node.chain.dependencies|
    ensures forall i :: 0 <= i < |r| ==> r[i] == DependencyNodeFor(node, node.chain.dependencies[i]).value
  {
    seq(|node.chain.dependencies|, i requires 0 <= i < |node.chain.dependencies| =>
      DependencyNode(node.chain, node.chain.dependencies[i], node.environment, node.arguments))
  }

  /** `CommandFailure#executable_name`: the second word when the argument
      vector starts with an environment Hash, else the first (nil when
      missing). That the result is then a word, and not the environment, is
      `ExecutableNameIsWord`. */
  function ExecutableName(argv: Argv): (r: Option<Arg>)
    ensures r.Some? ==> r.value in argv
  {
    if argv != [] && argv[0].EnvironmentArg? then
      (if |argv| >= 2 then Some(argv[1]) else None)
    else if argv != [] then Some(argv[0])
    else None
  }

  /** Prepending the shell environment, as `run!` does, leaves the name of the
      executable unchanged. */
  lemma RunKeepsExecutableName(variables: map<string, Value>, argv: Argv)
    requires argv == [] || !argv[0].EnvironmentArg?
    ensures ExecutableName([EnvironmentArg(variables)] + argv) == ExecutableName(argv)
  {
    if argv != [] {
      assert ([EnvironmentArg(variables)] + argv)[1] == argv[0];
    }
  }

  /** The name is never the environment Hash itself when the vector has a
      word after it. */
  lemma ExecutableNameIsWord(argv: Argv)
    requires forall i :: 1 <= i < |argv| ==> argv[i].Word?
    requires |argv| >= 1 && (argv[0].Word? || |argv| >= 2)
    ensures ExecutableName(argv).Some? && ExecutableName(argv).value.Word?
  {
  }

  // ---------------------------------------------------------------------
  // Keyword arguments of `Task#initialize`

  /** The keywords `Task#initialize` takes as written: `logger:` only. */
  const TaskKeywordsAsWritten: set<string> := {"logger"}

  /** The keywords it evidently should take: a chain walk also hands a new
      task the tasks built before it. */
  const TaskKeywords: set<string> := {"logger", "dependencies"}

  /** Calling an initializer that takes `accepted` with `given`: the first
      keyword it does not take raises an argument error. */
  function PassKeywords(accepted: set<string>, given: seq<string>): (r: Outcome<()>)
    ensures r.Success? <==> forall i :: 0 <= i < |given| ==> given[i] in accepted
  {
    if given == [] then Success(())
    else if given[0] !in accepted then Raised(UnknownKeyword(given[0]))
    else
      var r := PassKeywords(accepted, given[1..]);
      assert forall i :: 1 <= i < |given| ==> given[i] == given[1..][i - 1];
      r
  }

  /** The call a chain walk makes to create the task of a dependency. */
  const ChainTaskKeywords: seq<string> := ["logger", "dependencies"]

  /** As written, every task a chain walk creates raises on creation. */
  lemma ChainTaskAsWrittenRaises()
    ensures PassKeywords(TaskKeywordsAsWritten, ChainTaskKeywords) == Raised(UnknownKeyword("dependencies"))
  {
  }

  /** With the keyword taken, creating the task succeeds. */
  lemma ChainTaskAccepted()
    ensures PassKeywords(TaskKeywords, ChainTaskKeywords) == Success(())
  {
  }

  // ---------------------------------------------------------------------
  // `ProvisionTask#update_environments!` as written

  /** The methods the engine's task classes define beyond those of the
      graph's own task. */
  function TaskMethods(kind: TaskKind): (r: set<string>)
    ensures "dependency" !in r && "update" in r && "run!" in r
    ensures "output_environment" in r <==> kind == BuildTask || kind == ProvisionTask
    ensures "update_outputs" in r <==> kind == DependencyTask
  {
    var base := {"environment", "group", "logger", "wet?", "spawn", "shell_environment", "run!",
                 "touch", "cp", "rm", "mkpath", "install", "write", "update", "invoke_rule"};
    match kind
    case PlainTask => base
    case BuildTask => base + {"output_environment", "output_environment="}
    case DependencyTask => base + {"update_outputs"}
    case ProvisionTask => base + {"environments", "build_task", "provision", "local_environment", "output_environment"}
  }

  /** `update_environments!` as written over child tasks of the given kinds:
      the first child's `task.dependency` raises, as no task class defines
      it; with no children, `BuildNode.new` receives three arguments where
      it takes four. */
  function UpdateEnvironmentsAsWritten(kinds: seq<TaskKind>): (r: Outcome<()>)
    ensures kinds == [] ==> r == Raised(WrongArity(3, 4))
  {
    if kinds == [] then Raised(WrongArity(3, 4))
    else if "dependency" !in TaskMethods(kinds[0]) then Raised(NoMethod("dependency"))
    else Success(())
  }

  /** As written, a provision task whose children all succeeded still fails:
      it never reaches its build. */
  lemma UpdateEnvironmentsAsWrittenRaises(kinds: seq<TaskKind>)
    ensures UpdateEnvironmentsAsWritten(kinds).Raised?
    ensures kinds != [] ==> UpdateEnvironmentsAsWritten(kinds) == Raised(NoMethod("dependency"))
  {
    if kinds != [] {
      assert "dependency" !in TaskMethods(kinds[0]);
    }
  }

  /** The build node the corrected `update_environments!` invokes: the
      provision alone, built over the local environment under the
      provision's name. */
  function ProvisionBuildNode(local: Environment, provision: Provision, arguments: seq<Value>): (r: Node)
    ensures r.BuildNode? && r.environment == local && r.provisions == [provision] && r.arguments == arguments
    ensures NodeName(r) == Some(provision.name)
  {
    BuildNode(local, Dependency(provision.name, false, false), [provision], arguments)
  }
}
