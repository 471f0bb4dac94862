# Build engine core, modelled in Dafny

This project models the core of `build`, a Ruby build tool. Its engine is
driven by dependency chains.

- A **rule** is a named build action with typed parameters (inputs, outputs,
  arguments). It decides whether it applies to a set of arguments. It
  normalises them (dynamic blocks, defaults), splits them into input and
  output files, and reports its primary output.
- A **rulebook** collects the rules an environment defines. It generates a
  task class with one method per process (the first applicable rule wins) and
  one per rule.
- The **build graph** is made of nodes:
  - chain nodes (the top level);
  - dependency nodes (one per resolved dependency);
  - provision nodes;
  - build nodes (which construct an output environment from provisions);
  - rule nodes (one per rule invocation).
- Each node is visited by a **task**. The task runs the node's `apply!`,
  creates child tasks through `invoke`, and merges the environments its
  children publish.
- The **controller** holds the frozen list of top-level chain nodes. It
  visits each of them in turn and lets its processes drain before the next
  one starts.
- **Names** derive identifiers, targets, keys, macros and header guards from
  a human-readable text.

The model is split into modules. Ruby's exceptions become returned failures:
`Outcome` is either `Success` or `Raised`.

| file | module | contents |
|---|---|---|
| `values.dfy` | `Values` | Ruby values and truthiness |
| `ordered_hash.dfy` | `OrderedHashes` | a `Hash` that keeps insertion order |
| `actions.dfy` | `Actions` | argument vectors, and the commands a block issues |
| `rule.dfy` | `Rules` | parameters, rules and the rule builder |
| `environment.dfy` | `Environments` | layered build environments: combine, evaluate, construct |
| `rulebook.dfy` | `Rulebooks` | rulebooks, generated task classes and method dispatch |
| `chain.dfy` | `Chains` | dependencies, provisions, chains and environment publication |
| `nodes.dfy` | `Nodes` | the node kinds, the task class of each node, and two as-written defects |
| `task.dfy` | `Tasks` | the filesystem, the process group, the walker, and the `Task` class with every node's update |
| `name.dfy` | `Names` | the `Name` helpers |
| `controller.dfy` | `Controllers` | the controller |

The task and the controller are classes whose methods update their fields in
place. Rules, rulebook contents, environments and names are values.

A block (a dynamic parameter, a rule's `apply`, a rule-node callback, a
provision's value) is a function. It returns the values it computes, or the
list of commands it issues. The task then performs those commands in order:
primitives such as `touch`, `run!` and `cp`, or calls of generated methods.

## Model

| member | source | states |
|---|---|---|
| Values.Get | lib/build/rule.rb:91-96 | a name missing from the arguments reads as nil |
| Values.ToArray | lib/build/rule.rb:81-82 | `Array(value)`: nil gives no items; a scalar gives itself alone |
| Rules.ComputeAsWritten | lib/build/rule.rb:88-98 | as written: any falsy computed value falls back to the default |
| Rules.Compute | lib/build/rule.rb:88-98 | as intended: an explicit false is kept and only nil takes the default |
| Rules.ComputeDiffersOnlyOnFalse | lib/build/rule.rb:97 | the two versions differ exactly when the value is an explicit false and the default is not false |
| Rules.RawValue | lib/build/rule.rb:88-96 | definition: an implicit parameter takes a truthy supplied value, else its block's; an explicit dynamic one takes its block's; a static one the supplied value (`Rules.SuppliedValueWins` states the consequences) |
| Rules.SuppliedValueWins | lib/build/rule.rb:88-98 | a truthy supplied value beats an implicit block and is kept by a static parameter; a missing static parameter takes its default |
| Rules.FullName | lib/build/rule.rb:114-125 | the method name keeps word characters and replaces every other character with `_`; it has the same length |
| Rules.ProcessName | lib/build/rule.rb:114-125 | the process method name replaces every `-` with `_` and keeps every other character |
| Rules.SplitAtFirstDot | lib/build/rule.rb:24-30 | `split('.', 2)`: None exactly when there is no dot; otherwise the two parts rejoin to the name and the first has no dot |
| Rules.NewRule | lib/build/rule.rb:114-125 | a new rule is named `process.type` and keeps its type; it has no parameters, no primary output and no action; its full name is the name with non-word characters replaced and its process name the process with `-` replaced |
| Rules.Implicit | lib/build/rule.rb:65-67 | definition: a parameter is implicit exactly when it has a block and the `implicit:` option |
| Rules.Optional | lib/build/rule.rb:70-72 | definition: optional, implicit or defaulted (`Rules.RequiredParameterMissing` shows the consequence for applicability) |
| Rules.ParameterApplicable | lib/build/rule.rb:74-86 | definition: a missing parameter applies exactly when it is optional; a present one when every element of `Array(value)` matches its pattern, if it has one |
| Rules.AllApplicable | lib/build/rule.rb:176-184 | true exactly when every non-implicit parameter applies |
| Rules.Applicable | lib/build/rule.rb:176-184 | definition: `applicable?` is `AllApplicable` over the rule's parameters, so a rule without parameters always applies |
| Rules.RequiredParameterMissing | lib/build/rule.rb:74-86 | a missing parameter that is neither optional, implicit nor defaulted makes the rule inapplicable |
| Rules.ApplicableMonotone | lib/build/rule.rb:176-184 | adding an argument that no patterned parameter checks keeps an applicable rule applicable |
| Rules.ComputeAll | lib/build/rule.rb:187-193 | the computed hash has exactly the parameter names as keys |
| Rules.ComputeAllAt | lib/build/rule.rb:187-193 | each name holds the value computed by the last parameter with that name |
| Rules.Normalize | lib/build/rule.rb:187-193 | one entry per declared name, holding that parameter's computed value; argument keys that no parameter names are dropped |
| Rules.Selected | lib/build/rule.rb:195-214 | only truthy values are selected, and at most one per parameter |
| Rules.SelectedMembers | lib/build/rule.rb:195-214 | a value is selected for a direction exactly when it is truthy and bound to some parameter of that direction |
| Rules.Files | lib/build/rule.rb:195-214 | the loop returns the selected inputs and the selected outputs, in declaration order |
| Rules.FirstOutputIsFirst | lib/build/rule.rb:167-173 | the primary output is the first declared output, or none when no output exists |
| Rules.Result | lib/build/rule.rb:224-228 | definition: the argument bound to the primary output, or nil without one (`Rules.ResultIsFirstOutput` states it against the declared parameters) |
| Rules.ResultIsFirstOutput | lib/build/rule.rb:224-228 | the result is the argument bound to the first output parameter, or nil without one |
| Rules.FirstOutputAppend | lib/build/rule.rb:167-173 | appending a parameter sets the primary output only if none exists and the parameter is an output |
| Rules.AddParameter | lib/build/rule.rb:167-173 | definition: `<<` appends the parameter and makes it primary only if it is an output and there is none yet (`Rules.AddParameterValid` proves the invariant kept) |
| Rules.AddParameterValid | lib/build/rule.rb:167-173 | `<<` keeps the primary output equal to the first declared output |
| Rules.ApplyStepsSnoc | lib/build/rule.rb:24-30 | running one more build step runs it on the rule built so far |
| Rules.ApplyStepsShape | lib/build/rule.rb:24-30 | building keeps the name and the primary-output invariant; the parameters are those declared, in order |
| Rules.BuildRule | lib/build/rule.rb:24-30 | `Rule.build` fails exactly for a name without a dot; otherwise the rule has that name and the declared parameters |
| Rules.RuleBuilder.constructor | lib/build/rule.rb:114-125 | the builder starts as the new rule |
| Rules.RuleBuilder.Add | lib/build/rule.rb:167-173 | the builder's rule becomes the rule with the parameter appended; the invariant is kept |
| Rules.RuleBuilder.Step | lib/build/rule.rb:155-218 | `input`, `output`, `parameter` and `apply` change the builder as the matching step does |
| Rules.Build | lib/build/rule.rb:24-30 | building step by step on a builder gives `BuildRule` |
| Rules.CompileRule | lib/build/rule.rb:167-173 | a rule with an input and then an output has those parameters, and the output is primary |
| Rules.CompileRuleApplies | lib/build/rule.rb:176-184 | such a rule applies when both files are given |
| Rules.CompileRuleNeedsDestination | lib/build/rule.rb:74-86 | it does not apply when the required output is missing |
| Rules.CompileRuleResult | lib/build/rule.rb:224-228 | its result is the destination |
| Rules.InstallRule | lib/build/rule.rb:167-173 | a rule with one defaulted argument parameter has exactly that parameter |
| Rules.InstallRuleNames | lib/build/rule.rb:187-193 | its only name is `install` |
| Rules.DefaultFillsMissingArgument | lib/build/rule.rb:88-98 | normalising no arguments fills in the default `true` |
| Rules.RespectsFalseArgument | spec/build/rule_spec.rb:36-52 | normalising `install: false` keeps `false` (the corrected `compute`) |
| Rules.AsWrittenOverridesFalse | lib/build/rule.rb:97 | as written, `install: false` computes to the default `true` |
| Environments.Levels | lib/build/chain_node.rb:81 | an environment's levels end with its own level; a root has exactly one level |
| Environments.Stack | lib/build/chain_node.rb:81 | stacking gives no environment only when there is neither a parent nor a level |
| Environments.StackLevels | lib/build/chain_node.rb:81 | stacking levels over a parent gives the parent's levels followed by them |
| Environments.StackAppend | lib/build/chain_node.rb:81 | stacking in two rounds is stacking once |
| Environments.StackOfLevels | lib/build/chain_node.rb:81 | restacking an environment's levels gives it back |
| Environments.AllLevelsAppend | lib/build/chain_node.rb:81 | the levels of two lists are the levels of each, in turn |
| Environments.Combine | lib/build/chain_node.rb:81 | `combine` gives nil for no environments, otherwise one chain of all their levels in argument order |
| Environments.CombineOne | lib/build/dependency_node.rb:172 | combining one environment gives it back |
| Environments.CombineAssociative | lib/build/chain_node.rb:103 | a combined prefix may stand in for its parts |
| Environments.New | lib/build/build_node.rb:58-60 | `Environment.new(parent, name:)` adds one empty, named level over the parent |
| Environments.Detach | lib/build/chain_node.rb:97 | `dup(parent: nil, name:)` keeps only the environment's own level, renamed |
| Environments.FlatMembers | lib/build/chain_node.rb:81 | a key is in the flattened environment exactly when some level defines it |
| Environments.FlatLaterWins | lib/build/chain_node.rb:81 | a later level's value wins over an earlier level's value |
| Environments.FlatOne | lib/build/chain_node.rb:81 | flattening a single level gives that level back |
| Environments.Evaluate | lib/build/chain_node.rb:81 | `evaluate` gives a root environment under the given name |
| Environments.Flat | lib/build/task.rb:76-78 | definition: each level's hash stored over the previous ones (`Environments.FlatMembers` and `Environments.FlatLaterWins` state its meaning) |
| Environments.EvaluateIdempotent | lib/build/provision_node.rb:106 | evaluating an evaluated environment changes only its name |
| Environments.Export | lib/build/task.rb:76-78 | `flatten.export` gives exactly the plain values of the flattened chain, with later levels winning |
| Environments.Definitions | lib/build/rulebook.rb:84-92 | every listed definition is a rule definition of the environment's own level |
| Environments.DefinitionsComplete | lib/build/rulebook.rb:84-92 | every rule definition of the own level is listed |
| Environments.Defined | lib/build/rulebook.rb:87 | `environment.defined` lists no more definitions than the own level has keys |
| Environments.DefinedExactly | lib/build/rulebook.rb:87 | a name is listed with its steps exactly when the own level holds that name as a rule definition with those steps |
| Environments.Bound | lib/build/build_node.rb:66-74 | construction keeps the parent and the name, and never loses a key |
| Environments.BoundAppend | lib/build/build_node.rb:69-71 | constructing two provisions in turn is constructing their steps at once |
| Environments.BoundLastWins | lib/build/build_node.rb:69-71 | a key bound by the last step holds what it was bound to |
| Rulebooks.RulesOf | lib/build/rulebook.rb:33-39 | the rules hash stays a valid ordered hash |
| Rulebooks.ProcessesOf | lib/build/rulebook.rb:33-39 | the process hash stays a valid ordered hash |
| Rulebooks.OfProcessSnoc | lib/build/rulebook.rb:37-38 | registering a rule appends it to its own process's list and to no other |
| Rulebooks.OfProcessEmpty | lib/build/rulebook.rb:37-38 | a process has no rules exactly when no registered rule names it |
| Rulebooks.OfProcess | lib/build/rulebook.rb:37-38 | a process's list holds only rules of that process, and no more than were registered |
| Rulebooks.ProcessesAreRegistrationOrder | lib/build/rulebook.rb:33-39 | a process has an entry exactly when some rule names it, and the entry lists its rules in registration order |
| Rulebooks.RulesHoldRegisteredNames | lib/build/rulebook.rb:33-34 | the rules hash has a key for every registered name, and no other key |
| Rulebooks.RulesHoldLastRegistered | lib/build/rulebook.rb:33-34 | under a name, the rules hash holds the rule registered last with that name |
| Rulebooks.Rulebook.constructor | lib/build/rulebook.rb:25-29 | a new rulebook has its name and no rules |
| Rulebooks.Rulebook.Add | lib/build/rulebook.rb:33-39 | `<<` registers one more rule and keeps both hashes consistent with the registrations |
| Rulebooks.Rulebook.Lookup | lib/build/rulebook.rb:41-43 | `[]` finds a rule exactly when one has that name, and gives the rule registered last |
| Rulebooks.Rulebook.With | lib/build/rulebook.rb:45-82 | the generated class has the given superclass and state, and the rulebook's process and rule hashes |
| Rulebooks.BuiltRulesFail | lib/build/rulebook.rb:84-92 | building the defined rules fails exactly when some name has no dot |
| Rulebooks.BuiltRulesShape | lib/build/rulebook.rb:84-92 | one rule per definition, in order, with the definition's name and declared parameters |
| Rulebooks.BuiltRulesStep | lib/build/rulebook.rb:87-89 | one more definition appends its rule, or makes building fail |
| Rulebooks.For | lib/build/rulebook.rb:84-92 | `Rulebook.for` registers the built rules in definition order; otherwise it names the definition that raises |
| Rulebooks.BaseClass | lib/build/controller.rb:61 | a base task class has no generated methods and no state |
| Rulebooks.FirstApplicable | lib/build/rulebook.rb:57 | `rules.find` gives none exactly when no rule applies; otherwise it gives the first that applies |
| Rulebooks.FirstApplicableOfProcess | lib/build/rulebook.rb:54-65 | searching a process's list finds that process's first applicable rule in registration order |
| Rulebooks.FullNamed | lib/build/rulebook.rb:68-72 | a full-name method resolves to the last rule defined under that method name, or to none |
| Rulebooks.Resolve | lib/build/rulebook.rb:45-82 | state readers win over rule methods; rule methods win over process methods; process methods win over inherited ones |
| Rulebooks.Dispatch | lib/build/rulebook.rb:54-72 | a process method invokes an applicable rule or raises `NoApplicableRule(process, arguments)`; a rule method invokes its rule; an unknown name is no method |
| Rulebooks.ProcessDispatchFollowsRegistration | lib/build/rulebook.rb:54-65 | calling a process invokes its first applicable rule in registration order, or raises `NoApplicableRule` |
| Chains.Resolved | lib/build/chain_node.rb:56 | `resolved[dependency]` is present exactly for a resolved dependency |
| Chains.NestedSnoc | lib/build/chain_node.rb:58-59 | each provision's dependencies are walked after those of earlier provisions |
| Chains.StepsSnoc | lib/build/chain_node.rb:92-95 | each provision's steps run after those of earlier provisions |
| Chains.PresentSnoc | lib/build/chain_node.rb:60-63 | a child contributes its environment exactly when it has one |
| Chains.Present | lib/build/chain_node.rb:60-63 | no more environments are gathered than there are children |
| Chains.PresentMembers | lib/build/chain_node.rb:60-63 | an environment is gathered exactly when some child yielded it |
| Chains.Exposed | lib/build/chain_node.rb:65-66 | no more environments are published than there are children |
| Chains.ExposedMembers | lib/build/chain_node.rb:65-66 | an environment is published exactly when a child yielded it and that child is public or the dependency an alias |
| Chains.PublicSlots | lib/build/provision_node.rb:116-123 | a provision task adds no more public slots than it has children |
| Chains.PublicSlotsMembers | lib/build/provision_node.rb:116-123 | a slot, nil included, enters the public list exactly when a public child holds it |
| Chains.ExposedSnoc | lib/build/chain_node.rb:65-66 | a child's environment is published exactly when the dependency is an alias or the child is public |
| Chains.PublicSlotsSnoc | lib/build/provision_node.rb:121-122 | a public child contributes its environment slot, even an empty one |
| Chains.LocalEnvironments | lib/build/chain_node.rb:50 | the local environments start with the node's own environment |
| Chains.LocalEnvironmentsSnoc | lib/build/chain_node.rb:60-63 | a child with an environment appends it to the local list; one without leaves the list as it was |
| Chains.Collect | lib/build/chain_node.rb:60-67 | one child's contribution: its environment joins the local list when present, and the public list too when exposed |
| Chains.LocalEnvironment | lib/build/chain_node.rb:81 | definition: `combine(*local)&.evaluate \|\| Environment.new` (`Chains.LocalEnvironmentCombines` states it) |
| Chains.Published | lib/build/chain_node.rb:103 | definition: the combination of the public list, which ends with the built output when there is one (`Chains.BuiltIsPublishedLast`) |
| Chains.Output | lib/build/chain_node.rb:89-95 | definition: a fresh level over the local environment, named after the dependency, with every provision's steps bound in order |
| Chains.AliasExposesAll | lib/build/chain_node.rb:65 | an alias publishes every environment its children have |
| Chains.PrivateChildrenHidden | lib/build/chain_node.rb:65 | without an alias, private children publish nothing |
| Chains.ExposedAreLocal | lib/build/chain_node.rb:60-66 | every published environment is also a local one |
| Chains.ExposedCount | lib/build/chain_node.rb:60-66 | all present environments are published exactly when each child with one is public, or the dependency is an alias |
| Chains.ExposedNoLonger | lib/build/chain_node.rb:60-66 | no more environments are published than are present |
| Chains.LocalEnvironmentCombines | lib/build/chain_node.rb:81 | the local environment is the evaluated combination of the node's own environment and the children's environments, in that order |
| Chains.AliasPublishesChildren | lib/build/chain_node.rb:103 | an alias publishes the combination of its children, or nil when none has an environment |
| Chains.PresentEmpty | lib/build/chain_node.rb:60 | nothing is present exactly when no child has an environment |
| Chains.BuiltIsPublishedLast | lib/build/chain_node.rb:97-103 | the built output is published last, after the exposed children |
| Nodes.Files | lib/build/rule_node.rb:25-34 | a rule node carries its rule's files; every other node has no inputs and inherits its outputs |
| Nodes.NewRuleNode | lib/build/rule_node.rb:25-34 | `RuleNode.new` keeps the rule, the arguments and the callback, with the rule's input and output files |
| Nodes.InitialEnvironment | lib/build/task.rb:49-55 | a task starts with its class's `environment` state (nil without one); a dependency task starts with none |
| Nodes.ChildClass | lib/build/controller.rb:60-62 | definition: under the parent-class policy a child takes its parent's class; under the node-class policy each node kind picks its own (`Nodes.RuleNodeInheritsClass`, `Nodes.BuildNodeClass`) |
| Nodes.RuleNodeInheritsClass | lib/build/rule_node.rb:51-53 | a rule node always runs in its parent task's class |
| Nodes.BuildNodeClass | lib/build/build_node.rb:54-56 | a build node's class comes from its environment's rulebook, with that environment as state; the class fails exactly when a rule cannot be built |
| Nodes.ProvisionsOf | lib/build/dependency_node.rb:62-64 | a dependency node's provisions are the chain's resolution; a build node's are its own list; other nodes have none |
| Nodes.DependencyNodeFor | lib/build/dependency_node.rb:84-86 | dependency and provision nodes give a dependency node over the same chain, environment and arguments |
| Nodes.ChainDependencyNodes | lib/build/dependency_node.rb:75-82 | one dependency node per chain dependency, in chain order |
| Nodes.ExecutableName | lib/build/task.rb:36-42 | the executable name is an element of the argument vector |
| Nodes.RunKeepsExecutableName | lib/build/task.rb:80-82 | prepending the shell environment, as `run!` does, keeps the executable name |
| Nodes.ExecutableNameIsWord | lib/build/task.rb:36-42 | after an environment hash, the executable name is the following word |
| Nodes.PassKeywords | lib/build/task.rb:49 | an initializer call succeeds exactly when every keyword is one the initializer accepts |
| Nodes.ChainTaskAsWrittenRaises | lib/build/chain_node.rb:86 | as written, creating a chain's build task raises on the `dependencies:` keyword |
| Nodes.ChainTaskAccepted | lib/build/chain_node.rb:86 | when the initializer accepts the keyword, the creation succeeds |
| Nodes.UpdateEnvironmentsAsWritten | lib/build/provision_node.rb:115-129 | as written, with no children, `BuildNode.new` gets three arguments where it takes four |
| Nodes.UpdateEnvironmentsAsWrittenRaises | lib/build/provision_node.rb:121 | as written, `update_environments!` always raises; with children it raises on `task.dependency` |
| Nodes.ProvisionBuildNode | lib/build/provision_node.rb:126-128 | the corrected build node covers the provision alone, over the local environment, under the provision's name |
| Nodes.NodeName | lib/build/build_node.rb:62-64 | only a chain node can be nameless; a dependency node and the build node made for it are both named after the dependency |
| Nodes.EnvironmentClass | lib/build/chain_node.rb:85 | the class `Rulebook.for(environment).with(kind, …)` gives has the requested kind, and only a bad rule name makes it raise |
| Nodes.EnvironmentClassFound | lib/build/rulebook.rb:84-92 | the class is found exactly when every rule name the environment defines has a dot, and its tasks (other than dependency tasks) hold that environment |
| Nodes.ScopeOf | lib/build/rule.rb:186-191 | a block run in a task sees the exported plain values of the task's environment, and nothing when the task has none |
| Nodes.TaskMethods | lib/build/task.rb:57-134 | no task class defines `dependency`; every class defines `update` and `run!`; only build and provision tasks define `output_environment`, only dependency tasks `update_outputs` |
| Tasks.FileSystem.constructor | lib/build/task.rb:84-128 | the filesystem starts with the given paths and an empty log |
| Tasks.RemoveTree | lib/build/task.rb:98-103 | `rm -rf` removes the path and everything below it, and nothing else |
| Tasks.Group.Spawn | lib/build/task.rb:65-74 | spawning records the command and returns its exit status |
| Tasks.Group.Wait | lib/build/controller.rb:81-83 | waiting drains the group |
| Tasks.Walker.constructor | lib/build/controller.rb:52 | a new walker has no failures |
| Tasks.CountsAppend | lib/build/task.rb:65-74 | the failed-process count and the drain count of a log add up over its two halves |
| Tasks.CountsMean | lib/build/task.rb:65-74 | a log's failed-process count is positive exactly when a process in it exited non-zero, and its drain count is zero exactly when it holds no drain |
| Tasks.AccountedMeans | lib/build/controller.rb:60-67 | a call that accounts for itself added no drain, and a failed process among the events it added was answered by a raise or a recorded failure |
| Tasks.ChainedThen | lib/build/chain_node.rb:86-100 | two walks in a row, the second from what the first left pending, chain their build tasks: each build depends on the one before it, the first on the pending tasks |
| Tasks.ChainedOne | lib/build/chain_node.rb:86-100 | a walk that ends in one more build task, on the same node and depending on what was pending, stays chained, and that build alone is pending after it |
| Tasks.ChildClassOf | lib/build/controller.rb:60-62 | the class of a child task follows the walker's policy |
| Tasks.EnvironmentClassOf | lib/build/chain_node.rb:85 | the class of a chain's build task comes from its local environment's rulebook |
| Tasks.Task.constructor | lib/build/task.rb:49-55 | a new task holds its node, class, group and walker, and starts with its class's initial environment and no children |
| Tasks.Task.Wet | lib/build/task.rb:61-63 | definition: `wet?` is whether the walker counts the node as dirty (`Tasks.Task.Spawn` and `Tasks.Task.Run` state what depends on it) |
| Tasks.Task.Fail | lib/build/provision_node.rb:101 | failing records the failure on the task and at the end of the walker's failures |
| Tasks.Task.Touch | lib/build/task.rb:84-89 | a wet task creates the path and logs it; a dry task leaves the filesystem unchanged |
| Tasks.Task.Copy | lib/build/task.rb:91-96 | a wet task creates the destination and logs the copy; a dry task does nothing |
| Tasks.Task.Remove | lib/build/task.rb:98-103 | a wet task removes the tree and logs it; a dry task does nothing |
| Tasks.Task.MakePath | lib/build/task.rb:105-112 | a wet task creates a missing path only; otherwise nothing changes |
| Tasks.Task.Install | lib/build/task.rb:114-119 | a wet task installs the destination and logs it; a dry task does nothing |
| Tasks.Task.Write | lib/build/task.rb:121-128 | a wet task writes the file with its data and mode; a dry task does nothing |
| Tasks.Task.Spawn | lib/build/task.rb:65-74 | a dry task succeeds and leaves the group alone; a wet task logs exactly one spawn of the vector, and raises `CommandFailure` with the vector and status exactly when the status is not 0 |
| Tasks.Task.ShellEnvironment | lib/build/task.rb:76-78 | the shell environment is computed once from the task's environment and then reused; a task without an environment raises |
| Tasks.Task.Run | lib/build/task.rb:80-82 | `run!` first computes and keeps the exported shell environment (raising, with the group untouched, when the task has none); a wet task then spawns that environment followed by the arguments, raising `CommandFailure(full vector, status)` exactly when the status is not 0; a dry one succeeds |
| Tasks.Task.Visit | lib/build/controller.rb:60-67 | a visit never raises; the task has failed afterwards exactly when it had failed before, the update raised, or a child failed; a failed child makes the failure `ChildrenFailed`, and otherwise a raise becomes the failure; a new failure is the walker's last; the update's own promise, by task kind, holds (`NodeApplied`, `DependencyUpdated`, `ProvisionUpdated`) |
| Tasks.Task.Settle | lib/build/controller.rb:60-67 | the end of a visit: a raise or a failed child fails the task once, recorded once by the walker, with `ChildrenFailed` taking precedence; with neither, the failure and the walker are unchanged; the update's promise is kept |
| Tasks.Task.Updated | lib/build/dependency_node.rb:116-132 | the block of a visit: the update's promise by task kind; a dependency task that updated then publishes its outputs |
| Tasks.Task.Invoke | lib/build/controller.rb:60-67 | `invoke` creates a fresh task of the policy's class for the node, visits it, and adds it to the children; `invoke` raises exactly when the child's class cannot be made, and then adds no child; a failure of the child itself is caught by its visit and recorded as the walker's last failure |
| Tasks.Task.Enter | lib/build/controller.rb:60-67 | a just-created task is visited, or fails with `OutOfFuel` beyond the walk's bound; a failure it ends with is the walker's latest, and only a build node's task holds an output, the one its provisions construct |
| Tasks.Task.Update | lib/build/task.rb:130-132 | by task kind: a task or build task keeps `apply!`'s promise (`NodeApplied`), a dependency task `DependencyUpdated`, a provision task `ProvisionUpdated` with fresh dependency tasks; only a build node changes the output environment |
| Tasks.Task.ApplyNode | lib/build/task.rb:130-132 | `apply!` by node kind: a rule node performs its rule's and callback's steps, all of them on success; a build node sets the output environment to its provisions' output; a chain node succeeds only with every dependency resolved; a dependency node invokes one child per chain dependency, in order, and never raises; a provision node raises no method |
| Tasks.Task.RunCommands | lib/build/rule_node.rb:59-65 | the commands are performed in order, stopping at the first failure |
| Tasks.Task.Perform | lib/build/rulebook.rb:54-72 | the step is recorded; a call dispatched to a rule succeeds with one new rule-node child over the normalised arguments, callback and files (`InvokedRule`); a read adds no child; no applicable rule raises `NoApplicableRule`; an unknown method raises no method |
| Tasks.Task.InvokeRule | lib/build/task.rb:134-146 | `invoke_rule` adds exactly one child, a rule node of the rule over the arguments normalised in the task's scope, with the callback and the files the rule selects, and returns the rule's result for those normalised arguments |
| Tasks.Task.RuleApply | lib/build/rule_node.rb:59-65 | a rule node performs its rule's commands and then its callback's commands |
| Tasks.RuleCommands | lib/build/rule_node.rb:59-65 | the rule's own commands come first in what a rule node performs |
| Tasks.Task.ConstructInto | lib/build/build_node.rb:66-74 | each provision in turn is constructed into the output environment |
| Tasks.Task.BuildApply | lib/build/build_node.rb:66-74 | a build task's output environment is the node's environment constructed from all its provisions |
| Tasks.Task.ChainApply | lib/build/chain_node.rb:107-112 | on success every chain dependency, in order, was resolved and walked from an empty pending list: its first build depends on nothing, each later one on the build before it |
| Tasks.Task.WalkDependency | lib/build/chain_node.rb:109-111 | one top-level `apply_dependency` starts with no pending tasks; on success the dependency is resolved and its builds chain from the empty list |
| Tasks.Task.WalkNested | lib/build/chain_node.rb:58-72 | on success one child per nested dependency, with its publicity; the local list is the node's environment then every present child environment; the public list the exposed ones (all under an alias); the build tasks chain from the pending tasks, each on this node |
| Tasks.Task.NestedStep | lib/build/chain_node.rb:59-70 | one nested dependency walked from what is pending: its environment joins the local list, and the public list when exposed; the builds keep chaining |
| Tasks.Task.ApplyDependency | lib/build/chain_node.rb:45-104 | an unresolved dependency raises; otherwise it returns the exposed children then the built output named after the dependency; an alias builds nothing; a non-alias ends with one build task, of its local environment's class, whose dependencies are the tasks pending before it, alone in the pending list after; the output is published exactly when its construction completed, and the build task fails exactly when it did not or when a child of the task failed |
| Tasks.Task.BuildDependency | lib/build/chain_node.rb:74-103 | the non-alias end of the walk: one build task depending on the pending tasks, of the local environment's class; its output published last exactly when its construction completed; the task fails exactly when it did not or a child of it failed |
| Tasks.Task.BuildInChain | lib/build/chain_node.rb:85-98 | the build task is fresh, depends on the pending tasks and has the local environment's class; its output is published exactly when the construction completed; it fails exactly when the construction did not complete or a child of it failed, with `ChildrenFailed` in the latter case |
| Tasks.Task.DependencyApply | lib/build/dependency_node.rb:75-82 | never raises; exactly one child per chain dependency, each on that dependency's node, in order |
| Tasks.Task.DependencyUpdate | lib/build/dependency_node.rb:116-130 | the unresolved dependency raises; otherwise one task per nested dependency, in order |
| Tasks.Task.UpdateOutputs | lib/build/dependency_node.rb:132-175 | the task's environment is what the children expose plus, unless an alias, the build output renamed to the dependency; the output is published only when the children succeeded |
| Tasks.Task.GatherOutputs | lib/build/dependency_node.rb:139-149 | the local and published environments are those of the children; `public?` on a non-dependency child raises |
| Tasks.KidOf | lib/build/dependency_node.rb:139-143 | a parent sees a kept task's environment, and sees it as public only when it is a dependency's task whose dependency is public |
| Tasks.Task.BuildLocal | lib/build/dependency_node.rb:162-169 | a non-alias dependency invokes one build node over the local environment; its output, detached and named after the dependency, is kept exactly when no child of the task failed |
| Tasks.Task.ProvisionUpdate | lib/build/provision_node.rb:93-103 | one fresh dependency task per provision dependency, in order; `DependenciesFailed` exactly when a child failed, and then no build; on success the provision's build node over the local environment is invoked |
| Tasks.Task.InvokeDependencies | lib/build/provision_node.rb:94-96 | one fresh dependency task per dependency, in order; the children count as failed exactly when they did before or one of the new tasks failed |
| Tasks.Task.UpdateEnvironments | lib/build/provision_node.rb:115-129 | the corrected `update_environments!` collects the present and the public environments and builds the provision over the local environment |
| Tasks.Task.GatherEnvironments | lib/build/provision_node.rb:116-124 | every present environment is collected, and the slot of every public child |
| Tasks.Task.CollectEnvironments | lib/build/provision_node.rb:115-124 | the environments and the public environments grow by exactly what the kept tasks yield, in order; a task whose publicity cannot be asked raises |
| Tasks.Task.BuildProvision | lib/build/provision_node.rb:126-128 | the provision's build node over the local environment is invoked, becomes the next child and is kept as the build task |
| Tasks.Task.ProvisionLocalEnvironment | lib/build/provision_node.rb:105-107 | the local environment is the node's and the children's environments, flattened under the provision's name |
| Tasks.Task.ProvisionOutputEnvironment | lib/build/provision_node.rb:109-111 | the output environment is the build's output with its parent removed; without a build it raises |
| Controllers.Controller.constructor | lib/build/controller.rb:37-53 | the nodes are the added chains, in order; the list is then frozen, and the walker uses the parent-class policy |
| Controllers.Controller.AddChain | lib/build/controller.rb:74-76 | `add_chain` appends one chain node; on a frozen list it raises and changes nothing |
| Controllers.Controller.Update | lib/build/controller.rb:78-85 | one fresh top-level task per node, in order, of the base class with no dependencies; the group's log grows by one segment per node, each followed by a drain and holding no drain itself, so exactly one drain per node; a failed process in a segment, or a failed top task, makes `failed?` true |
| Controllers.Controller.VisitTop | lib/build/controller.rb:81-83 | one node inside `group.wait`: a fresh base-class task visits it, then the group drains; a failed process during the visit or a failed task makes `failed?` true |
| Controllers.Controller.Run | lib/build/controller.rb:88-94 | `run` is `update`: one task per node, one drain after each node, and every failure is reflected in `failed?` |
| Controllers.Controller.Failed | lib/build/controller.rb:69-71 | definition: `failed?` is whether the walker recorded a failure (`Controllers.Controller.Update` states when it holds) |
| Controllers.DrainsCount | lib/build/controller.rb:78-85 | when no visit drains by itself, the log of the update holds exactly one drain per node and ends with one |
| Names.Up | lib/build/name.rb:53-55 | upper-casing leaves no lower-case letter and changes nothing else |
| Names.Down | lib/build/name.rb:43-45 | lower-casing leaves no upper-case letter and changes nothing else |
| Names.Squeeze | lib/build/name.rb:38-40 | `gsub(/\s+/, sep)` leaves no whitespace when the separator has none |
| Names.SqueezeFixed | lib/build/name.rb:43-45 | text without whitespace is left as it is |
| Names.SqueezeNothing | lib/build/name.rb:38-40 | replacing the runs by nothing removes every whitespace character |
| Names.Identifier | lib/build/name.rb:38-40 | the identifier has no whitespace |
| Names.IdentifierRemovesWhitespace | lib/build/name.rb:38-40 | the identifier is the text with its whitespace removed, other characters kept in order |
| Names.Target | lib/build/name.rb:43-45 | the target has no whitespace and no upper case |
| Names.TargetIdempotent | lib/build/name.rb:43-45 | a target name is its own target name |
| Names.KeyOf | lib/build/name.rb:48-50 | the key has no whitespace and no upper case |
| Names.Macro | lib/build/name.rb:53-55 | the macro has no whitespace and no lower case |
| Names.KeyIsLowerMacro | lib/build/name.rb:48-55 | a key without postfixes is the lower-case form of the macro without a prefix |
| Names.HeaderGuard | lib/build/name.rb:58-60 | the header guard ends in `_H`, with no whitespace and no lower case |
| Names.Strip | lib/build/name.rb:32 | `strip` gives the slice of the text after its leading whitespace, and the slice neither starts nor ends with whitespace or NUL |
| Names.Scan | lib/build/name.rb:32 | definition: `gsub(/(^\|[ \-_])(.)/) { " " + $2.upcase }`, scanned left to right (`Names.TitleCaseOfWords` states the result on words) |
| Names.StripRemovesOnlySpace | lib/build/name.rb:32 | every character `strip` removes, before or after the slice, is whitespace or NUL |
| Names.TitleCaseOfWords | lib/build/name.rb:31-33 | `from_target` capitalises each word of a name joined by space, `-` or `_`, and joins the words with single spaces |
| Names.TitleCase | lib/build/name.rb:31-33 | definition: the scan, then `strip` (`Names.TitleCaseOfWords`, `Names.TitleCaseExample`) |
| Names.Name.FromTarget | lib/build/name.rb:31-33 | `from_target` gives a fresh name whose text is the title-cased target, with no key yet |
| Names.TitleCaseExample | lib/build/name.rb:31-33 | `foo-bar` becomes `Foo Bar` |
| Names.Name.Key | lib/build/name.rb:48-50 | `key` is computed on the first call and remembered; later postfixes are ignored |

## Left out

- Logging, the `logger` keyword and `Graph::Walker`'s internals are not modelled. The walker's memoisation of nodes already visited is not modelled either. Every `invoke` creates and visits a new task.
- The walker is reduced to a list of failures and a class policy. A visit catches its task's failure, records it, and lets the parent continue.
- Processes, the file system and the clock are not real. The process group is a status function plus an event log. The file system is a set of paths plus a log of operations. Whether a node is dirty is a parameter of the walker.
- The concurrency of the process group is not modelled. `wait` is a single drain event.
- Ruby class generation is not modelled. `Rulebook#with` gives a task-class value, and method calls are resolved by `Rulebooks.Dispatch`.
- `Rule#==` and `RuleNode#==` identity is not modelled, and neither are `hash`, `to_s`, `inspect` or freezing. A frozen rule is a value.
- `environment_node.rb`, `target_node.rb`, `graphviz.rb`, `logger.rb` and `print_dependencies` are not part of this model.
- The `build-environment` gem's environments are modelled only as far as the engine uses them: a chain of levels, `combine`, `evaluate`, `dup`, `flatten.export`, `defined`, and `construct!` as a list of bindings and commands.
- The `Process::Group` `limit:` option is not modelled.
- `Controllers.Controller.Run`: the block yielded the walker is not modelled.
- `Tasks.Task.Visit`, `Tasks.Task.Settle`: the visit block that catches a task's raise and then checks its children belongs to the build-graph library, which is not part of this model; the children check is modelled after the whole update, `update_outputs` included, and a failed task is recorded by the walker once, with its final failure.
- `Tasks.Task.Visit`: walks deeper than the `fuel` bound raise `OutOfFuel`. Real walks are finite because the chain's resolution is finite.
- `Tasks.Task.Invoke`: the contract states the new child's class, node and failure, but not the subtree below it.
- `Tasks.Task.RuleApply`: the commands a rule performs are recorded in a ghost trace (`performed`), and the files they produce are not related to the rule's outputs.
- `Tasks.Task.ShellEnvironment`: the exported values are not narrowed to strings.
- `Names.Up`, `Names.Down`: only ASCII letters change case. Ruby's `upcase` and `downcase` are Unicode-aware ("é" becomes "É", "ß" becomes "SS"); that mapping is not modelled, and the gap carries into `Names.Target`, `Names.KeyOf`, `Names.Macro`, `Names.HeaderGuard` and `Names.TitleCase`.
- `Tasks.Task.WalkNested`, `Tasks.Task.NestedStep`, `Tasks.Task.ApplyDependency`: the build tasks a walk creates are stated by their node and their chaining, not as fresh objects; only `Tasks.Task.BuildInChain` states that its task is fresh.
- The test in `spec/build/controller_spec.rb` calls `add_environment`, which the controller does not define (it defines `add_chain`). The model follows the controller.

## Findings

| source | as written | input that shows it | evidently intended | confidence | as-written member | corrected member |
|---|---|---|---|---|---|---|
| lib/build/rule.rb:97 | `compute` falls back to `options[:default]` for any falsy value, so an explicit `false` becomes the default | a parameter `install` with `default: true`, normalised with `install: false`, gives `true` | only nil takes the default, and an explicit `false` is kept (`spec/build/rule_spec.rb:36-52` expects `{install: false}`) | high; not executed | Rules.AsWrittenOverridesFalse | Rules.RespectsFalseArgument |
| lib/build/chain_node.rb:86 | the chain's build task is created with a `dependencies:` keyword that `Task#initialize` (lib/build/task.rb:49) does not accept | any chain with one non-alias dependency raises `ArgumentError: unknown keyword: :dependencies` | the task is created with the pending tasks as its dependencies | high; not executed | Nodes.ChainTaskAsWrittenRaises | Nodes.ChainTaskAccepted |
| lib/build/provision_node.rb:121-127 | `update_environments!` calls `task.dependency`, which a task does not define, and calls `BuildNode.new` with three arguments where it takes four | a provision with one dependency raises `NoMethodError`; a provision with none raises `ArgumentError` (3 for 4) | the public check reads the child's node (`task.node.public?`), and the build node covers the provision alone under the provision's name | high; not executed | Nodes.UpdateEnvironmentsAsWrittenRaises | Tasks.Task.UpdateEnvironments |
