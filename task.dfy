/** Tasks: the objects that visit the nodes of the build graph. A task runs
    its node's behaviour with the primitives of its class, each of which has
    an effect only when the node is dirty; it invokes child nodes through the
    walker, which creates and visits a child task for each. The filesystem,
    the process group and the walker are the world the tasks share. */
module Tasks {
  import opened Values
  import opened Actions
  import opened Rules
  import opened Environments
  import opened Rulebooks
  import opened Chains
  import opened Nodes
  import opened OrderedHashes

  // ---------------------------------------------------------------------
  // The shared world

  /** What a filesystem primitive did. */
  datatype FileEffect =
    | Touched(path: string)
    | Copied(source: string, destination: string)
    | Removed(path: string)
    | MadePath(path: string)
    | Installed(source: string, destination: string)
    | Wrote(path: string, data: string, mode: string)

  /** The files that exist, and the log of what the primitives did to them. */
  class FileSystem {
    var paths: set<string>
    var log: seq<FileEffect>

    constructor (paths: set<string>)
      ensures this.paths == paths && log == []
    {
      this.paths := paths;
      log := [];
    }
  }

  /** `rm_rf(path)` removes the path and everything below it. */
  function RemoveTree(paths: set<string>, path: string): (r: set<string>)
    ensures r <= paths && path !in r
    ensures forall p :: p in paths && p != path && !(path + "/" <= p) ==> p in r
  {
    set p | p in paths && p != path && !(path + "/" <= p)
  }

  /** What happened in the process group: a process spawned with its exit
      status, or a wait until every spawned process finished. */
  datatype GroupEvent = Spawned(argv: Argv, status: int) | Drained

  /** The process group; `status` gives the exit status a spawned argument
      vector ends with. */
  class Group {
    const status: Argv -> int
    var events: seq<GroupEvent>

    constructor (status: Argv -> int)
      ensures this.status == status && events == []
    {
      this.status := status;
      events := [];
    }

    /** `group.spawn(*arguments)`: runs the process and returns its status. */
    method Spawn(argv: Argv) returns (s: int)
      modifies this
      ensures s == status(argv) && events == old(events) + [Spawned(argv, s)]
    {
      s := status(argv);
      events := events + [Spawned(argv, s)];
    }

    /** `group.wait`: every process spawned so far has finished. */
    method Wait()
      modifies this
      ensures events == old(events) + [Drained]
    {
      events := events + [Drained];
    }
  }

  /** The walker of the graph: which nodes are dirty, how it chooses the
      class of a child task, and the failures of the tasks it visited. */
  class Walker {
    const dirty: Node -> bool
    const policy: Policy
    var failures: seq<Failure>

    constructor (dirty: Node -> bool, policy: Policy)
      ensures this.dirty == dirty && this.policy == policy && failures == []
    {
      this.dirty := dirty;
      this.policy := policy;
      failures := [];
    }

    /** `walker.failed?`. */
    predicate Failed()
      reads this
    {
      failures != []
    }
  }

  /** A process of the group that exited with a status other than 0. */
  ghost predicate FailedSpawn(events: seq<GroupEvent>) {
    exists e <- events :: e.Spawned? && e.status != 0
  }

  /** How many processes of the group exited with a status other than 0. */
  function SpawnFailures(events: seq<GroupEvent>): nat {
    if events == [] then 0
    else
      var n := |events| - 1;
      SpawnFailures(events[..n]) + (if events[n].Spawned? && events[n].status != 0 then 1 else 0)
  }

  /** How many times the group was drained. */
  function DrainCount(events: seq<GroupEvent>): nat {
    if events == [] then 0
    else
      var n := |events| - 1;
      DrainCount(events[..n]) + (if events[n].Drained? then 1 else 0)
  }

  /** Both counts add up over two stretches of events. */
  lemma {:induction false} CountsAppend(events: seq<GroupEvent>, more: seq<GroupEvent>)
    ensures SpawnFailures(events + more) == SpawnFailures(events) + SpawnFailures(more)
    ensures DrainCount(events + more) == DrainCount(events) + DrainCount(more)
  {
    if more == [] {
      assert events + more == events;
    } else {
      var n := |more| - 1;
      CountsAppend(events, more[..n]);
      assert (events + more)[..|events| + n] == events + more[..n];
      assert (events + more)[|events| + n] == more[n];
    }
  }

  /** The counts say what the events hold. */
  lemma {:induction false} CountsMean(events: seq<GroupEvent>)
    ensures SpawnFailures(events) > 0 <==> FailedSpawn(events)
    ensures DrainCount(events) == 0 <==> Drained !in events
  {
    if events != [] {
      var n := |events| - 1;
      CountsMean(events[..n]);
      assert events == events[..n] + [events[n]];
      if events[n].Spawned? && events[n].status != 0 {
        assert events[n] in events;
      }
      if FailedSpawn(events) && !(events[n].Spawned? && events[n].status != 0) {
        var e :| e in events && e.Spawned? && e.status != 0;
        assert e in events[..n];
      }
    }
  }

  /** How the world moved during a call: the group's events and the
      walker's failures only grew, the group was not drained, and a process
      that failed in between was answered, by the raise the caller receives
      or by a failure the walker recorded. */
  ghost predicate Accounted(events0: seq<GroupEvent>, events: seq<GroupEvent>, failures0: seq<Failure>, failures: seq<Failure>, raised: bool) {
    events0 <= events && failures0 <= failures && DrainCount(events0) == DrainCount(events)
    && (SpawnFailures(events0) < SpawnFailures(events) ==> raised || |failures0| < |failures|)
  }

  /** What `Accounted` says of the events a call added. */
  lemma AccountedMeans(events0: seq<GroupEvent>, events: seq<GroupEvent>, failures0: seq<Failure>, failures: seq<Failure>, raised: bool)
    requires Accounted(events0, events, failures0, failures, raised)
    ensures Drained !in events[|events0|..]
    ensures FailedSpawn(events[|events0|..]) ==> raised || |failures0| < |failures|
  {
    assert events == events0 + events[|events0|..];
    CountsAppend(events0, events[|events0|..]);
    CountsMean(events[|events0|..]);
  }

  /** A call that spawned nothing accounts for itself. */
  lemma AccountedQuiet(events: seq<GroupEvent>, failures0: seq<Failure>, failures: seq<Failure>)
    requires failures0 <= failures
    ensures Accounted(events, events, failures0, failures, false)
  {
  }

  /** Two calls in a row account for what happened across both. */
  lemma AccountedThen(e0: seq<GroupEvent>, e1: seq<GroupEvent>, e2: seq<GroupEvent>,
                      f0: seq<Failure>, f1: seq<Failure>, f2: seq<Failure>, raised1: bool, raised2: bool)
    requires Accounted(e0, e1, f0, f1, raised1) && Accounted(e1, e2, f1, f2, raised2)
    ensures Accounted(e0, e2, f0, f2, raised1 || raised2)
  {
  }

  /** A raise that is caught and recorded as a failure answers a failed
      process as well as the raise did. */
  lemma AccountedCaught(e0: seq<GroupEvent>, e1: seq<GroupEvent>, f0: seq<Failure>, f1: seq<Failure>, f: Failure)
    requires Accounted(e0, e1, f0, f1, true)
    ensures Accounted(e0, e1, f0, f1 + [f], false)
  {
  }

  /** What a dependency's build publishes when it did not fail: the output
      of its provisions over the local environment, detached from it and
      named after the dependency. */
  ghost predicate BuiltOutput(built: Option<Environment>, local: Environment, dependency: Dependency,
                              provisions: seq<Provision>, arguments: seq<Value>) {
    built.Some? ==> built.value == Detach(Chains.Output(local, dependency, provisions, arguments), Some(dependency.name))
  }

  /** The build tasks a walk of a chain created, in order, from the pending
      tasks: the first takes them as its dependencies, every later one the
      build just before it. */
  ghost predicate ChainedFrom(pending: seq<Task>, builds: seq<Task>) {
    (builds != [] ==> builds[0].dependencies == pending)
    && forall i, j :: 0 <= i && j == i + 1 && j < |builds| ==> builds[j].dependencies == [builds[i]]
  }

  /** ... and the pending list after the walk: the last build alone, or the
      pending tasks unchanged when nothing was built. */
  ghost predicate Chained(pending: seq<Task>, builds: seq<Task>, after: seq<Task>) {
    ChainedFrom(pending, builds) && after == (if builds == [] then pending else [builds[|builds| - 1]])
  }

  /** Two walks in a row, the second starting from what the first left
      pending, chain their builds. */
  lemma ChainedThen(pending: seq<Task>, builds1: seq<Task>, middle: seq<Task>, builds2: seq<Task>, after: seq<Task>)
    requires Chained(pending, builds1, middle) && Chained(middle, builds2, after)
    ensures Chained(pending, builds1 + builds2, after)
  {
    var all := builds1 + builds2;
    forall i, j | 0 <= i && j == i + 1 && j < |all|
      ensures all[j].dependencies == [all[i]]
    {
      if i >= |builds1| {
        assert all[j] == builds2[j - |builds1|] && all[i] == builds2[i - |builds1|];
      } else if j == |builds1| {
        assert all[j] == builds2[0] && all[i] == builds1[|builds1| - 1];
      } else {
        assert all[j] == builds1[j] && all[i] == builds1[i];
      }
    }
  }

  /** A walk that ends in one more build, on the same node and depending
      on what was pending, keeps its builds chained; that build alone is
      then pending. */
  lemma ChainedOne(start: seq<Task>, walked: seq<Task>, pending: seq<Task>, task: Task, node: Node)
    requires Chained(start, walked, pending) && forall t <- walked :: t.node == node
    requires task.dependencies == pending && task.node == node
    ensures Chained(start, walked + [task], [task]) && forall t <- walked + [task] :: t.node == node
  {
    ChainedThen(start, walked, pending, [task], [task]);
    assert forall t <- walked + [task] :: t in walked || t == task;
  }

  /** The class of the task a walker with `policy` creates for `node` under
      a parent of class `parent`; a build node's class needs the rulebook of
      its environment. */
  method ChildClassOf(policy: Policy, parent: TaskClass, node: Node) returns (r: Outcome<TaskClass>)
    ensures r == ChildClass(policy, parent, node)
  {
    if policy.NodeClass? && node.BuildNode? {
      r := EnvironmentClassOf(node.environment, BuildTask);
    } else {
      r := ChildClass(policy, parent, node);
    }
  }

  /** `Rulebook.for(environment).with(kind, environment: environment)`. */
  method EnvironmentClassOf(e: Environment, kind: TaskKind) returns (r: Outcome<TaskClass>)
    ensures r == EnvironmentClass(e, kind)
  {
    var book, error := For(e);
    if error.Some? {
      return Raised(BadRuleName(error.value));
    }
    r := Success(book.With(kind, map["environment" := e]));
  }

  // ---------------------------------------------------------------------
  // Tasks

  class Task {
    const node: Node
    const taskClass: TaskClass
    const fs: FileSystem
    const group: Group
    const walker: Walker
    /** The tasks a chain walk built before this one. */
    const dependencies: seq<Task>

    var environment: Option<Environment>
    /** `@shell_environment`: the exported environment, once computed. */
    var shellEnvironment: Option<map<string, Value>>
    /** The tasks of the nodes this task invoked, in order. */
    var children: seq<Task>
    /** Whether one of those tasks failed (`!wait_for_children?`). */
    var childrenFailed: bool
    /** `DependencyTask#@tasks`. */
    var tasks: seq<Task>
    /** `ProvisionTask#@dependencies`. */
    var dependencyTasks: seq<Task>
    /** `ProvisionTask#@environments` and `@public_environments`. */
    var environments: seq<Environment>
    var publicEnvironments: seq<Option<Environment>>
    /** `ProvisionTask#@build_task`. */
    var buildTask: Option<Task>
    /** `BuildTask#output_environment`. */
    var outputEnvironment: Option<Environment>
    var failure: Option<Failure>
    /** The steps of blocks this task has performed, in order. */
    ghost var performed: seq<Command>

    /** `task_class.new(walker, node, group, ...)`. */
    constructor (node: Node, taskClass: TaskClass, fs: FileSystem, group: Group, walker: Walker, dependencies: seq<Task>)
      ensures this.node == node && this.taskClass == taskClass && this.dependencies == dependencies
      ensures this.fs == fs && this.group == group && this.walker == walker
      ensures environment == InitialEnvironment(taskClass) && shellEnvironment.None?
      ensures children == [] && !childrenFailed && tasks == [] && dependencyTasks == []
      ensures environments == [] && publicEnvironments == [] && buildTask.None? && outputEnvironment.None?
      ensures failure.None? && performed == []
    {
      this.node := node;
      this.taskClass := taskClass;
      this.fs := fs;
      this.group := group;
      this.walker := walker;
      this.dependencies := dependencies;
      environment := InitialEnvironment(taskClass);
      shellEnvironment := None;
      children := [];
      childrenFailed := false;
      tasks := [];
      dependencyTasks := [];
      environments := [];
      publicEnvironments := [];
      buildTask := None;
      outputEnvironment := None;
      failure := None;
      performed := [];
    }

    /** `wet?`: exactly whether the node is dirty. */
    predicate Wet() {
      walker.dirty(node)
    }

    /** `fail!(error)`: the task and the walker record the failure. */
    method Fail(f: Failure)
      modifies this`failure, walker
      ensures failure == Some(f) && walker.failures == old(walker.failures) + [f]
    {
      failure := Some(f);
      walker.failures := walker.failures + [f];
    }

    // -------------------------------------------------------------------
    // Primitives: no effect unless the node is dirty

    method Touch(path: string)
      modifies fs
      ensures Wet() ==> fs.paths == old(fs.paths) + {path} && fs.log == old(fs.log) + [Touched(path)]
      ensures !Wet() ==> unchanged(fs)
    {
      if Wet() {
        fs.paths := fs.paths + {path};
        fs.log := fs.log + [Touched(path)];
      }
    }

    method Copy(source: string, destination: string)
      modifies fs
      ensures Wet() ==> fs.paths == old(fs.paths) + {destination} && fs.log == old(fs.log) + [Copied(source, destination)]
      ensures !Wet() ==> unchanged(fs)
    {
      if Wet() {
        fs.paths := fs.paths + {destination};
        fs.log := fs.log + [Copied(source, destination)];
      }
    }

    method Remove(path: string)
      modifies fs
      ensures Wet() ==> fs.paths == RemoveTree(old(fs.paths), path) && fs.log == old(fs.log) + [Removed(path)]
      ensures !Wet() ==> unchanged(fs)
    {
      if Wet() {
        fs.paths := RemoveTree(fs.paths, path);
        fs.log := fs.log + [Removed(path)];
      }
    }

    /** `mkpath`: creates the path only when it does not exist yet. */
    method MakePath(path: string)
      modifies fs
      ensures Wet() && path !in old(fs.paths) ==> fs.paths == old(fs.paths) + {path} && fs.log == old(fs.log) + [MadePath(path)]
      ensures !Wet() || path in old(fs.paths) ==> unchanged(fs)
    {
      if Wet() {
        if path !in fs.paths {
          fs.paths := fs.paths + {path};
          fs.log := fs.log + [MadePath(path)];
        }
      }
    }

    method Install(source: string, destination: string)
      modifies fs
      ensures Wet() ==> fs.paths == old(fs.paths) + {destination} && fs.log == old(fs.log) + [Installed(source, destination)]
      ensures !Wet() ==> unchanged(fs)
    {
      if Wet() {
        fs.paths := fs.paths + {destination};
        fs.log := fs.log + [Installed(source, destination)];
      }
    }

    method Write(path: string, data: string, mode: string)
      modifies fs
      ensures Wet() ==> fs.paths == old(fs.paths) + {path} && fs.log == old(fs.log) + [Wrote(path, data, mode)]
      ensures !Wet() ==> unchanged(fs)
    {
      if Wet() {
        fs.paths := fs.paths + {path};
        fs.log := fs.log + [Wrote(path, data, mode)];
      }
    }

    /** `spawn`: nothing, and no failure, unless the node is dirty; then the
        process runs and a status other than 0 raises `CommandFailure` with
        the argument vector and the status. */
    method Spawn(argv: Argv) returns (r: Outcome<()>)
      modifies group
      ensures !Wet() ==> r == Success(()) && unchanged(group)
      ensures Wet() ==> group.events == old(group.events) + [Spawned(argv, group.status(argv))]
      ensures Wet() ==> (r.Raised? <==> group.status(argv) != 0)
      ensures r.Raised? ==> r.failure == CommandFailure(argv, group.status(argv))
      ensures Accounted(old(group.events), group.events, old(walker.failures), walker.failures, r.Raised?)
    {
      r := Success(());
      AccountedQuiet(group.events, walker.failures, walker.failures);
      if Wet() {
        var status := group.Spawn(argv);
        assert group.events[..|old(group.events)|] == old(group.events);
        if status != 0 {
          r := Raised(CommandFailure(argv, status));
        }
      }
    }

    /** `shell_environment`: the exported environment, computed on the first
        call and then remembered; raises when the task has no environment. */
    method ShellEnvironment() returns (r: Outcome<map<string, Value>>)
      modifies this`shellEnvironment
      ensures old(shellEnvironment).Some? ==> r == Success(old(shellEnvironment).value) && shellEnvironment == old(shellEnvironment)
      ensures old(shellEnvironment).None? && environment.None? ==> r == Raised(NoMethod("flatten")) && shellEnvironment.None?
      ensures old(shellEnvironment).None? && environment.Some? ==> (
        r == Success(Export(environment.value)) && shellEnvironment == Some(Export(environment.value)))
    {
      if shellEnvironment.Some? {
        return Success(shellEnvironment.value);
      }
      if environment.None? {
        return Raised(NoMethod("flatten"));
      }
      shellEnvironment := Some(Export(environment.value));
      r := Success(shellEnvironment.value);
    }

    /** `run!`: spawns with the shell environment prepended. The environment
        is computed (and may raise) even when the node is clean; a dirty node
        raises `CommandFailure` with the prepended vector exactly when the
        process exits with a status other than 0. */
    method Run(argv: Argv) returns (r: Outcome<()>)
      modifies this`shellEnvironment, group
      ensures old(shellEnvironment).Some? ==> shellEnvironment == old(shellEnvironment)
      ensures old(shellEnvironment).None? && environment.None? ==> (
        r == Raised(NoMethod("flatten")) && shellEnvironment.None? && unchanged(group))
      ensures old(shellEnvironment).None? && environment.Some? ==> shellEnvironment == Some(Export(environment.value))
      ensures shellEnvironment.Some? && !Wet() ==> r == Success(()) && unchanged(group)
      ensures shellEnvironment.Some? && Wet() ==> (
        var full := [EnvironmentArg(shellEnvironment.value)] + argv;
        group.events == old(group.events) + [Spawned(full, group.status(full))]
        && (r.Raised? <==> group.status(full) != 0)
        && (r.Raised? ==> r.failure == CommandFailure(full, group.status(full))))
      ensures Accounted(old(group.events), group.events, old(walker.failures), walker.failures, r.Raised?)
    {
      var shell := ShellEnvironment();
      if shell.Raised? {
        AccountedQuiet(group.events, walker.failures, walker.failures);
        return Raised(shell.failure);
      }
      r := Spawn([EnvironmentArg(shell.value)] + argv);
    }

    // -------------------------------------------------------------------
    // Visiting and invoking

    /** `visit { update }`: the task's update runs (`Updated`); then a task
        whose children failed fails with `ChildrenFailed`, and otherwise
        anything the update raised (`caught`) becomes its failure. The
        failure is recorded once, as the walker's latest; the visit itself
        never raises. */
    method Visit(fuel: nat) returns (caught: Outcome<()>)
      modifies this, fs, group, walker
      ensures failure.Some? <==> old(failure).Some? || caught.Raised? || childrenFailed
      ensures childrenFailed ==> failure == Some(ChildrenFailed)
      ensures caught.Raised? && !childrenFailed ==> failure == Some(caught.failure)
      ensures caught.Raised? || childrenFailed ==> (
        walker.failures != [] && failure == Some(walker.failures[|walker.failures| - 1]))
      ensures UpdateKept(caught, old(performed), old(children), old(outputEnvironment), old(tasks), old(dependencyTasks), old(childrenFailed), old(buildTask))
      ensures taskClass.kind == ProvisionTask ==> forall i :: |old(dependencyTasks)| <= i < |dependencyTasks| ==> fresh(dependencyTasks[i])
      ensures old(outputEnvironment).None? && outputEnvironment.Some? ==> (
        node.BuildNode? && outputEnvironment == Some(Chains.Output(node.environment, node.dependency, node.provisions, node.arguments)))
      ensures Accounted(old(group.events), group.events, old(walker.failures), walker.failures, false)
      decreases fuel, 26
    {
      caught := Updated(fuel);
      Settle(caught, old(performed), old(children), old(outputEnvironment), old(tasks), old(dependencyTasks), old(childrenFailed), old(buildTask));
    }

    /** The end of a visit (`caught` is what the update raised): a task
        that raised, or whose children failed (`wait_for_children!`), fails
        once, with `ChildrenFailed` when its children failed and otherwise
        with what was caught; the update's promise (`UpdateKept`) is
        untouched. */
    method Settle(caught: Outcome<()>, ghost performed0: seq<Command>, ghost children0: seq<Task>, ghost output0: Option<Environment>,
                  ghost tasks0: seq<Task>, ghost dependencyTasks0: seq<Task>, ghost childrenFailed0: bool, ghost buildTask0: Option<Task>)
      requires UpdateKept(caught, performed0, children0, output0, tasks0, dependencyTasks0, childrenFailed0, buildTask0)
      requires taskClass.kind == ProvisionTask ==> this !in set i | |dependencyTasks0| <= i < |dependencyTasks| :: dependencyTasks[i]
      modifies this`failure, walker
      ensures UpdateKept(caught, performed0, children0, output0, tasks0, dependencyTasks0, childrenFailed0, buildTask0)
      ensures failure.Some? <==> old(failure).Some? || caught.Raised? || childrenFailed
      ensures childrenFailed ==> failure == Some(ChildrenFailed)
      ensures caught.Raised? && !childrenFailed ==> failure == Some(caught.failure)
      ensures caught.Raised? || childrenFailed ==> walker.failures == old(walker.failures) + [failure.value]
      ensures !caught.Raised? && !childrenFailed ==> failure == old(failure) && walker.failures == old(walker.failures)
    {
      if caught.Raised? || childrenFailed {
        Fail(if childrenFailed then ChildrenFailed else caught.failure);
      }
    }

    /** The block of the visit: the task's update, and for a dependency task
        then its outputs. */
    method Updated(fuel: nat) returns (r: Outcome<()>)
      modifies this`performed, this`shellEnvironment, this`children, this`childrenFailed, this`outputEnvironment
      modifies this`tasks, this`dependencyTasks, this`environments, this`publicEnvironments, this`buildTask, this`environment
      modifies fs, group, walker
      ensures UpdateKept(r, old(performed), old(children), old(outputEnvironment), old(tasks), old(dependencyTasks), old(childrenFailed), old(buildTask))
      ensures taskClass.kind == ProvisionTask ==> forall i :: |old(dependencyTasks)| <= i < |dependencyTasks| ==> fresh(dependencyTasks[i])
      ensures old(outputEnvironment).None? && outputEnvironment.Some? ==> (
        node.BuildNode? && outputEnvironment == Some(Chains.Output(node.environment, node.dependency, node.provisions, node.arguments)))
      ensures Accounted(old(group.events), group.events, old(walker.failures), walker.failures, r.Raised?)
      decreases fuel, 24
    {
      r := Update(fuel);
      if r.Success? && taskClass.kind == DependencyTask {
        ghost var e1, f1 := group.events, walker.failures;
        ghost var kids, built;
        r, kids, built := UpdateOutputs(fuel);
        AccountedThen(old(group.events), e1, group.events, old(walker.failures), f1, walker.failures, false, r.Raised?);
      }
    }

    /** `invoke(node)`: the walker creates a task of the class its policy
        chooses for `child` and visits it; the new task is this task's next
        child. Choosing the class can raise; the child's own failure is
        caught by its visit. */
    method Invoke(child: Node, fuel: nat) returns (r: Outcome<Task>)
      modifies this`children, this`childrenFailed, fs, group, walker
      ensures r.Raised? <==> ChildClass(walker.policy, taskClass, child).Raised?
      ensures r.Raised? ==> r.failure == ChildClass(walker.policy, taskClass, child).failure && children == old(children)
      ensures r.Raised? ==> !r.failure.DependenciesFailed?
      ensures r.Success? ==> (fresh(r.value) && r.value.node == child
        && r.value.taskClass == ChildClass(walker.policy, taskClass, child).value
        && r.value.fs == fs && r.value.group == group && r.value.walker == walker
        && children == old(children) + [r.value]
        && childrenFailed == (old(childrenFailed) || r.value.failure.Some?))
      ensures r.Success? && r.value.failure.Some? ==> (
        walker.failures != [] && walker.failures[|walker.failures| - 1] == r.value.failure.value)
      ensures r.Success? && r.value.outputEnvironment.Some? ==> (child.BuildNode?
        && r.value.outputEnvironment == Some(Chains.Output(child.environment, child.dependency, child.provisions, child.arguments)))
      ensures Accounted(old(group.events), group.events, old(walker.failures), walker.failures, false)
      decreases fuel, 2
    {
      var tc := ChildClassOf(walker.policy, taskClass, child);
      if tc.Raised? {
        AccountedQuiet(group.events, walker.failures, walker.failures);
        return Raised(tc.failure);
      }
      var task := new Task(child, tc.value, fs, group, walker, []);
      task.Enter(fuel);
      children := children + [task];
      childrenFailed := childrenFailed || task.failure.Some?;
      r := Success(task);
    }

    /** The walker's visit of a task it has just created, which fails with
        `OutOfFuel` instead when the walk is out of fuel: a failure the task
        ends with is the walker's latest, and only a build node's task
        holds an output, the one its provisions construct. */
    method Enter(fuel: nat)
      requires failure.None? && outputEnvironment.None?
      modifies this, fs, group, walker
      ensures failure.Some? ==> walker.failures != [] && walker.failures[|walker.failures| - 1] == failure.value
      ensures outputEnvironment.Some? ==> (node.BuildNode?
        && outputEnvironment == Some(Chains.Output(node.environment, node.dependency, node.provisions, node.arguments)))
      ensures Accounted(old(group.events), group.events, old(walker.failures), walker.failures, false)
      decreases fuel, 1
    {
      if fuel == 0 {
        Fail(OutOfFuel);
        AccountedQuiet(group.events, old(walker.failures), walker.failures);
      } else {
        var caught := Visit(fuel - 1);
      }
    }

    /** What an update promises, by the kind of the task (see `NodeApplied`,
        `DependencyUpdated` and `ProvisionUpdated`). */
    ghost predicate UpdateKept(r: Outcome<()>, performed0: seq<Command>, children0: seq<Task>, output0: Option<Environment>,
                               tasks0: seq<Task>, dependencyTasks0: seq<Task>, childrenFailed0: bool, buildTask0: Option<Task>)
      reads this`performed, this`children, this`outputEnvironment, this`tasks
      reads this`dependencyTasks, this`childrenFailed, this`buildTask, this`environments
      reads set i | |dependencyTasks0| <= i < |dependencyTasks| :: dependencyTasks[i]
    {
      && (taskClass.kind == PlainTask || taskClass.kind == BuildTask ==> NodeApplied(r, performed0, children0, output0))
      && (taskClass.kind == DependencyTask ==> DependencyUpdated(r, tasks0))
      && (taskClass.kind == ProvisionTask ==> ProvisionUpdated(r, dependencyTasks0, childrenFailed0, buildTask0))
    }

    /** What `node.apply!(self)` promises, by the kind of the node, from the
        state before it (`performed0`, `children0`, `output0`): a rule node
        performs its rule's steps and then the callback's, up to the first
        that raises; a build node sets the output environment; a chain node
        walks only resolved dependencies; a dependency node invokes one
        dependency node per chain dependency; a provision node has no
        `apply!`. */
    ghost predicate NodeApplied(r: Outcome<()>, performed0: seq<Command>, children0: seq<Task>, output0: Option<Environment>)
      reads this`performed, this`children, this`outputEnvironment
    {
      && (node.RuleNode? ==> (performed0 <= performed <= performed0 + RuleCommands(node)
            && (r.Success? ==> performed == performed0 + RuleCommands(node))))
      && (node.BuildNode? && r.Success? ==> (taskClass.kind == BuildTask
            && outputEnvironment == Some(Chains.Output(node.environment, node.dependency, node.provisions, node.arguments))))
      && (!(node.BuildNode? && r.Success?) ==> outputEnvironment == output0)
      && (node.ChainNode? && r.Success? ==> forall d <- node.chain.dependencies :: d in node.chain.resolved)
      && (node.DependencyNode? ==> (r.Success? && children0 <= children && |children| == |children0| + |node.chain.dependencies|
            && forall i :: 0 <= i < |node.chain.dependencies| ==> children[|children0| + i].node == ChainDependencyNodes(node)[i]))
      && (node.ProvisionNode? ==> r == Raised(NoMethod("apply!")))
    }

    /** What `DependencyTask#update` promises from the tasks it kept before
        (`tasks0`): an unresolved dependency raises with nothing kept;
        otherwise one task is kept per nested dependency, in order. */
    ghost predicate DependencyUpdated(r: Outcome<()>, tasks0: seq<Task>)
      reads this`tasks
    {
      && (ProvisionsOf(node).Raised? ==> r == Raised(ProvisionsOf(node).failure) && tasks == tasks0)
      && (r.Success? ==> (ProvisionsOf(node).Success?
            && |tasks| == |tasks0| + |Nested(ProvisionsOf(node).value)| && tasks0 <= tasks
            && forall i :: 0 <= i < |Nested(ProvisionsOf(node).value)| ==>
                 Some(tasks[|tasks0| + i].node) == DependencyNodeFor(node, Nested(ProvisionsOf(node).value)[i])))
    }

    /** What `ProvisionTask#update` promises from the state before it: one
        dependency task per dependency of the provision, in order;
        `DependenciesFailed` exactly when a child failed (before or now), and
        then no build is invoked; otherwise the build of the provision over
        the local environment, or what that raised. */
    ghost predicate ProvisionUpdated(r: Outcome<()>, dependencyTasks0: seq<Task>, childrenFailed0: bool, buildTask0: Option<Task>)
      reads this`dependencyTasks, this`childrenFailed, this`buildTask, this`environments
      reads set i | |dependencyTasks0| <= i < |dependencyTasks| :: dependencyTasks[i]
    {
      && (!node.ProvisionNode? ==> r == Raised(NoMethod("provision")))
      && (node.ProvisionNode? ==> (
            var o, dependencies := |dependencyTasks0|, node.provision.dependencies;
            dependencyTasks0 <= dependencyTasks && |dependencyTasks| == o + |dependencies|
            && (forall i :: o <= i < |dependencyTasks| ==>
                  dependencyTasks[i].node == DependencyNode(node.chain, dependencies[i - o], node.environment, node.arguments))
            && (r == Raised(DependenciesFailed) <==> childrenFailed0 || AnyFailed(dependencyTasks[o..]))
            && (r == Raised(DependenciesFailed) ==> childrenFailed && buildTask == buildTask0)
            && (r.Success? ==> (buildTask.Some?
                  && buildTask.value.node == ProvisionBuildNode(ProvisionLocalEnvironment(), node.provision, node.arguments)))))
    }

    /** `update`: `node.apply!(self)` for a task or build task, called once;
        dependency and provision tasks have their own. */
    method Update(fuel: nat) returns (r: Outcome<()>)
      modifies this`performed, this`shellEnvironment, this`children, this`childrenFailed, this`outputEnvironment
      modifies this`tasks, this`dependencyTasks, this`environments, this`publicEnvironments, this`buildTask
      modifies fs, group, walker
      ensures taskClass.kind == PlainTask || taskClass.kind == BuildTask ==> (
        NodeApplied(r, old(performed), old(children), old(outputEnvironment)))
      ensures taskClass.kind == DependencyTask ==> DependencyUpdated(r, old(tasks))
      ensures taskClass.kind == ProvisionTask ==> (
        ProvisionUpdated(r, old(dependencyTasks), old(childrenFailed), old(buildTask))
        && forall i :: |old(dependencyTasks)| <= i < |dependencyTasks| ==> fresh(dependencyTasks[i]))
      ensures outputEnvironment != old(outputEnvironment) ==> (
        node.BuildNode? && outputEnvironment == Some(Chains.Output(node.environment, node.dependency, node.provisions, node.arguments)))
      ensures Accounted(old(group.events), group.events, old(walker.failures), walker.failures, r.Raised?)
      decreases fuel, 22
    {
      match taskClass.kind
      case PlainTask => r := ApplyNode(fuel);
      case BuildTask => r := ApplyNode(fuel);
      case DependencyTask => r := DependencyUpdate(fuel);
      case ProvisionTask => r := ProvisionUpdate(fuel);
    }

    /** `node.apply!(self)`: what the node does when a task updates it. A
        provision node has no `apply!`. */
    method ApplyNode(fuel: nat) returns (r: Outcome<()>)
      modifies this`performed, this`shellEnvironment, this`children, this`childrenFailed, this`outputEnvironment
      modifies fs, group, walker
      ensures NodeApplied(r, old(performed), old(children), old(outputEnvironment))
      ensures Accounted(old(group.events), group.events, old(walker.failures), walker.failures, r.Raised?)
      decreases fuel, 20
    {
      match node
      case ChainNode(_, _, _) =>
        ghost var walks;
        r, walks := ChainApply(fuel);
      case DependencyNode(_, _, _, _) => r := DependencyApply(fuel);
      case BuildNode(_, _, _, _) => r := BuildApply(fuel);
      case RuleNode(_, _, _, _, _) => r := RuleApply(fuel);
      case ProvisionNode(_, _, _, _) =>
        r := Raised(NoMethod("apply!"));
        AccountedQuiet(group.events, walker.failures, walker.failures);
    }

    // -------------------------------------------------------------------
    // Blocks and rules

    /** Performs the steps of a block in order, stopping at the first that
        raises. */
    method RunCommands(commands: seq<Command>, fuel: nat) returns (r: Outcome<()>)
      modifies this`performed, this`shellEnvironment, this`children, this`childrenFailed
      modifies fs, group, walker
      ensures old(performed) <= performed <= old(performed) + commands
      ensures r.Success? ==> performed == old(performed) + commands
      ensures r.Raised? ==> |performed| > |old(performed)|
      ensures Accounted(old(group.events), group.events, old(walker.failures), walker.failures, r.Raised?)
      decreases fuel, 8
    {
      var i := 0;
      r := Success(());
      AccountedQuiet(group.events, walker.failures, walker.failures);
      while i < |commands|
        invariant 0 <= i <= |commands|
        invariant performed == old(performed) + commands[..i]
        invariant r.Success?
        invariant Accounted(old(group.events), group.events, old(walker.failures), walker.failures, false)
      {
        ghost var e1, f1 := group.events, walker.failures;
        r := Perform(commands[i], fuel);
        AccountedThen(old(group.events), e1, group.events, old(walker.failures), f1, walker.failures, false, r.Raised?);
        assert commands[..i + 1] == commands[..i] + [commands[i]];
        if r.Raised? {
          return;
        }
        i := i + 1;
      }
      assert commands[..i] == commands;
    }

    /** What `invoke_rule(rule, arguments, &callback)` leaves behind, from
        the children before it: one more child, a rule node of `rule` over
        the arguments normalised in this task's scope, with the callback and
        the files the rule selects from those arguments. */
    ghost predicate InvokedRule(rule: Rule, arguments: Arguments, callback: Option<Action>, children0: seq<Task>)
      reads this`children, this`environment
    {
      var normalized := Normalize(rule, arguments, ScopeOf(environment));
      && children0 <= children && |children| == |children0| + 1
      && children[|children0|].node.RuleNode?
      && children[|children0|].node.rule == rule
      && children[|children0|].node.ruleArguments == normalized
      && children[|children0|].node.callback == callback
      && Nodes.Files(children[|children0|].node)
        == (Selected(rule.parameters, normalized, Input), Listed(Selected(rule.parameters, normalized, Output)))
    }

    /** One step of a block: a primitive, or a call of a method of the task's
        class. A process method invokes its first applicable rule or raises
        `NoApplicableRule`; a full-name method invokes its rule. */
    method Perform(command: Command, fuel: nat) returns (r: Outcome<()>)
      modifies this`performed, this`shellEnvironment, this`children, this`childrenFailed
      modifies fs, group, walker
      ensures performed == old(performed) + [command]
      ensures command.Call? ==> (match Dispatch(taskClass, command.selector, command.arguments)
        case Invoke(rule) => r.Success? && InvokedRule(rule, command.arguments, command.callback, old(children))
        case Read(_) => r.Success? && children == old(children)
        case NoRule(error) => r == Raised(NoApplicable(error)) && children == old(children)
        case NoSuchMethod(selector) => r == Raised(NoMethod(selector)) && children == old(children))
      ensures !command.Call? ==> children == old(children)
      ensures Accounted(old(group.events), group.events, old(walker.failures), walker.failures, r.Raised?)
      decreases fuel, 6
    {
      performed := performed + [command];
      r := Success(());
      AccountedQuiet(group.events, walker.failures, walker.failures);
      match command
      case Touch(path) => Touch(path);
      case Copy(source, destination) => Copy(source, destination);
      case Remove(path) => Remove(path);
      case MakePath(path) => MakePath(path);
      case Install(source, destination) => Install(source, destination);
      case Write(path, data, mode) => Write(path, data, mode);
      case Spawn(argv) => r := Spawn(argv);
      case Run(argv) => r := Run(argv);
      case Call(selector, arguments, callback) =>
        match Dispatch(taskClass, selector, arguments)
        case Invoke(rule) =>
          var result := InvokeRule(rule, arguments, callback, fuel);
        case Read(_) =>
        case NoRule(error) => r := Raised(NoApplicable(error));
        case NoSuchMethod(name) => r := Raised(NoMethod(name));
    }

    /** `invoke_rule(rule, arguments, &block)`: normalises the arguments in
        this task's scope, invokes a rule node over them, and returns the
        rule's result for that same normalised map. */
    method InvokeRule(rule: Rule, arguments: Arguments, callback: Option<Action>, fuel: nat) returns (result: Value)
      modifies this`children, this`childrenFailed, fs, group, walker
      ensures result == Result(rule, Normalize(rule, arguments, ScopeOf(environment)))
      ensures InvokedRule(rule, arguments, callback, old(children))
      ensures Accounted(old(group.events), group.events, old(walker.failures), walker.failures, false)
      decreases fuel, 4
    {
      var normalized := Normalize(rule, arguments, ScopeOf(environment));
      var node := NewRuleNode(rule, normalized, callback);
      RuleNodeInheritsClass(walker.policy, taskClass, node);
      var child := Invoke(node, fuel);
      result := Result(rule, normalized);
    }

    /** `RuleNode#apply!`: the rule's action, then the callback if there is
        one, both with the node's arguments. */
    method RuleApply(fuel: nat) returns (r: Outcome<()>)
      requires node.RuleNode?
      modifies this`performed, this`shellEnvironment, this`children, this`childrenFailed
      modifies fs, group, walker
      ensures r.Success? ==> performed == old(performed) + RuleCommands(node)
      ensures old(performed) <= performed <= old(performed) + RuleCommands(node)
      ensures Accounted(old(group.events), group.events, old(walker.failures), walker.failures, r.Raised?)
      decreases fuel, 14
    {
      var action := ActionCommands(node.rule.apply, node.ruleArguments);
      var after := ActionCommands(node.callback, node.ruleArguments);
      r := RunCommands(action, fuel);
      if r.Success? {
        ghost var e1, f1 := group.events, walker.failures;
        r := RunCommands(after, fuel);
        AccountedThen(old(group.events), e1, group.events, old(walker.failures), f1, walker.failures, false, r.Raised?);
      }
    }

    // -------------------------------------------------------------------
    // Building environments

    /** `output.construct!(task, *arguments, &provision.value)` for each
        provision in order: bindings go into the output's own level, calls go
        to this task. */
    method ConstructInto(output: Environment, provisions: seq<Provision>, arguments: seq<Value>, fuel: nat)
      returns (r: Outcome<Environment>)
      modifies this`performed, this`shellEnvironment, this`children, this`childrenFailed
      modifies fs, group, walker
      ensures r.Success? ==> r.value == Bound(output, Steps(provisions, arguments))
      ensures Accounted(old(group.events), group.events, old(walker.failures), walker.failures, r.Raised?)
      decreases fuel, 10
    {
      var e := output;
      var p := 0;
      AccountedQuiet(group.events, walker.failures, walker.failures);
      while p < |provisions|
        invariant 0 <= p <= |provisions|
        invariant e == Bound(output, Steps(provisions[..p], arguments))
        invariant Accounted(old(group.events), group.events, old(walker.failures), walker.failures, false)
      {
        var steps := provisions[p].value(arguments);
        var before := e;
        var j := 0;
        while j < |steps|
          invariant 0 <= j <= |steps|
          invariant e == Bound(before, steps[..j])
          invariant Accounted(old(group.events), group.events, old(walker.failures), walker.failures, false)
        {
          BoundSnoc(before, steps[..j], steps[j]);
          assert steps[..j + 1] == steps[..j] + [steps[j]];
          match steps[j] {
            case Bind(key, entry) =>
              e := e.(layer := e.layer.(values := Store(e.layer.values, key, entry)));
            case Do(command) =>
              ghost var e1, f1 := group.events, walker.failures;
              var done := Perform(command, fuel);
              AccountedThen(old(group.events), e1, group.events, old(walker.failures), f1, walker.failures, false, done.Raised?);
              if done.Raised? {
                return Raised(done.failure);
              }
          }
          j := j + 1;
        }
        assert steps[..j] == steps;
        BoundAppend(output, Steps(provisions[..p], arguments), steps);
        assert provisions[..p + 1] == provisions[..p] + [provisions[p]];
        StepsSnoc(provisions[..p], provisions[p], arguments);
        p := p + 1;
      }
      assert provisions[..p] == provisions;
      r := Success(e);
    }

    /** `BuildNode#apply!`: a fresh level over the node's environment, named
        after the dependency, built by the provisions in order and stored as
        the task's output environment. */
    method BuildApply(fuel: nat) returns (r: Outcome<()>)
      requires node.BuildNode?
      modifies this`performed, this`shellEnvironment, this`children, this`childrenFailed, this`outputEnvironment
      modifies fs, group, walker
      ensures r.Success? ==> (taskClass.kind == BuildTask
        && outputEnvironment == Some(Chains.Output(node.environment, node.dependency, node.provisions, node.arguments)))
      ensures r.Raised? ==> outputEnvironment == old(outputEnvironment)
      ensures Accounted(old(group.events), group.events, old(walker.failures), walker.failures, r.Raised?)
      decreases fuel, 14
    {
      var output := New(Some(node.environment), Some(node.dependency.name));
      var built := ConstructInto(output, node.provisions, node.arguments, fuel);
      if built.Raised? {
        return Raised(built.failure);
      }
      if taskClass.kind != BuildTask {
        return Raised(NoMethod("output_environment="));
      }
      outputEnvironment := Some(built.value);
      r := Success(());
    }

    // -------------------------------------------------------------------
    // Dependency chains

    /** `ChainNode#apply!`: walks each of the chain's dependencies in order,
        each with an empty list of pending tasks (`walks[i]` are the builds
        of the i-th walk). Every dependency walked must be resolved. */
    method ChainApply(fuel: nat) returns (r: Outcome<()>, ghost walks: seq<seq<Task>>)
      requires node.ChainNode?
      modifies fs, group, walker
      ensures r.Success? ==> (|walks| == |node.chain.dependencies|
        && forall i :: 0 <= i < |walks| ==> node.chain.dependencies[i] in node.chain.resolved && ChainedFrom([], walks[i]))
      ensures Accounted(old(group.events), group.events, old(walker.failures), walker.failures, r.Raised?)
      decreases fuel, 18
    {
      var dependencies := node.chain.dependencies;
      var i := 0;
      walks := [];
      AccountedQuiet(group.events, walker.failures, walker.failures);
      while i < |dependencies|
        invariant 0 <= i <= |dependencies| && |walks| == i
        invariant forall k :: 0 <= k < i ==> dependencies[k] in node.chain.resolved && ChainedFrom([], walks[k])
        invariant Accounted(old(group.events), group.events, old(walker.failures), walker.failures, false)
      {
        ghost var e1, f1 := group.events, walker.failures;
        var walked;
        ghost var builds, pending;
        walked, builds, pending := WalkDependency(dependencies[i], fuel);
        AccountedThen(old(group.events), e1, group.events, old(walker.failures), f1, walker.failures, false, walked.Raised?);
        if walked.Raised? {
          r := walked;
          return;
        }
        walks := walks + [builds];
        i := i + 1;
      }
      r := Success(());
    }

    /** One top-level `apply_dependency` call of `apply!`, with no pending
        tasks; what it returns, and what it leaves pending, is dropped. */
    method WalkDependency(dependency: Dependency, fuel: nat) returns (r: Outcome<()>, ghost builds: seq<Task>, ghost pending: seq<Task>)
      requires node.ChainNode?
      modifies fs, group, walker
      ensures r.Success? ==> dependency in node.chain.resolved && Chained([], builds, pending)
      ensures Accounted(old(group.events), group.events, old(walker.failures), walker.failures, r.Raised?)
      decreases fuel, 16
    {
      var walked, tasksOut;
      ghost var kids, built;
      walked, tasksOut, kids, built, builds := ApplyDependency(dependency, [], fuel);
      pending := tasksOut;
      if walked.Raised? {
        return Raised(walked.failure), builds, pending;
      }
      r := Success(());
    }

    /** The nested dependencies of a walked dependency, in order: each is
        walked in turn from what the one before left pending; what it yields
        enters the local list, and the public list too when the parent is an
        alias or it is public. */
    method WalkNested(dependencies: seq<Dependency>, alias: bool, tasks: seq<Task>, fuel: nat)
      returns (r: Outcome<()>, tasksOut: seq<Task>, locals: seq<Environment>, publics: seq<Environment>,
               ghost kids: seq<Child>, ghost builds: seq<Task>)
      requires node.ChainNode?
      modifies fs, group, walker
      ensures r.Success? ==> (|kids| == |dependencies|
        && (forall i :: 0 <= i < |dependencies| ==> kids[i].isPublic == dependencies[i].isPublic)
        && locals == LocalEnvironments(node.environment, kids)
        && publics == Exposed(alias, kids)
        && Chained(tasks, builds, tasksOut)
        && forall t <- builds :: t.node == node)
      ensures Accounted(old(group.events), group.events, old(walker.failures), walker.failures, r.Raised?)
      decreases fuel, 12
    {
      tasksOut := tasks;
      locals := [node.environment];
      publics := [];
      kids := [];
      builds := [];
      r := Success(());
      AccountedQuiet(group.events, walker.failures, walker.failures);
      var i := 0;
      while i < |dependencies|
        invariant 0 <= i <= |dependencies| && |kids| == i
        invariant forall k :: 0 <= k < i ==> kids[k].isPublic == dependencies[k].isPublic
        invariant locals == LocalEnvironments(node.environment, kids)
        invariant publics == Exposed(alias, kids)
        invariant Chained(tasks, builds, tasksOut)
        invariant forall t <- builds :: t.node == node
        invariant Accounted(old(group.events), group.events, old(walker.failures), walker.failures, false)
      {
        if fuel == 0 {
          r := Raised(OutOfFuel);
          return;
        }
        ghost var e1, f1 := group.events, walker.failures;
        var walked;
        ghost var kid;
        walked, tasksOut, locals, publics, kid, builds := NestedStep(dependencies[i], alias, tasksOut, locals, publics, kids, tasks, builds, fuel - 1);
        AccountedThen(old(group.events), e1, group.events, old(walker.failures), f1, walker.failures, false, walked.Raised?);
        if walked.Raised? {
          r := Raised(walked.failure);
          return;
        }
        assert forall k :: 0 <= k <= i ==> (kids + [kid])[k].isPublic == dependencies[k].isPublic;
        kids := kids + [kid];
        i := i + 1;
      }
    }

    /** One nested dependency of a walked dependency: it is walked from what
        the ones before it left pending, and what it yields is collected. */
    method NestedStep(dependency: Dependency, alias: bool, tasks: seq<Task>, locals: seq<Environment>, publics: seq<Environment>,
                      ghost kids: seq<Child>, ghost pending: seq<Task>, ghost builds: seq<Task>, fuel: nat)
      returns (r: Outcome<()>, tasksOut: seq<Task>, locals': seq<Environment>, publics': seq<Environment>,
               kid: Child, ghost builds': seq<Task>)
      requires node.ChainNode?
      requires locals == LocalEnvironments(node.environment, kids) && publics == Exposed(alias, kids)
      requires Chained(pending, builds, tasks) && forall t <- builds :: t.node == node
      modifies fs, group, walker
      ensures r.Success? ==> (kid.isPublic == dependency.isPublic
        && locals' == LocalEnvironments(node.environment, kids + [kid])
        && publics' == Exposed(alias, kids + [kid])
        && Chained(pending, builds', tasksOut)
        && forall t <- builds' :: t.node == node)
      ensures Accounted(old(group.events), group.events, old(walker.failures), walker.failures, r.Raised?)
      decreases fuel, 16
    {
      locals', publics', builds' := locals, publics, builds;
      var yielded;
      ghost var nestedKids, nestedBuilt, nestedBuilds;
      yielded, tasksOut, nestedKids, nestedBuilt, nestedBuilds := ApplyDependency(dependency, tasks, fuel);
      kid := Child(if yielded.Success? then yielded.value else None, dependency.isPublic);
      if yielded.Raised? {
        return Raised(yielded.failure), tasksOut, locals', publics', kid, builds';
      }
      ChainedThen(pending, builds, tasks, nestedBuilds, tasksOut);
      builds' := builds + nestedBuilds;
      LocalEnvironmentsSnoc(node.environment, kids, kid);
      ExposedSnoc(alias, kids, kid);
      locals', publics' := Collect(alias, locals, publics, kid);
      r := Success(());
    }

    /** `ChainNode#apply_dependency`: walks the nested dependencies of the
        dependency's provisions, then, unless it is an alias, builds it in a
        fresh task of the class of its local environment; the task takes the
        pending tasks as its dependencies and then stands alone in the
        pending list (`builds` are the build tasks of the walk, in order). A
        failed build is the task's failure, and its output is then not
        published. */
    method ApplyDependency(dependency: Dependency, tasks: seq<Task>, fuel: nat)
      returns (r: Outcome<Option<Environment>>, tasksOut: seq<Task>, ghost kids: seq<Child>, ghost built: Option<Environment>,
               ghost builds: seq<Task>)
      requires node.ChainNode?
      modifies fs, group, walker
      ensures dependency !in node.chain.resolved ==> r == Raised(NoMethod("each"))
      ensures r.Success? ==> (dependency in node.chain.resolved
        && |kids| == |Nested(node.chain.resolved[dependency])|
        && (forall i :: 0 <= i < |kids| ==> kids[i].isPublic == Nested(node.chain.resolved[dependency])[i].isPublic)
        && r.value == Published(dependency.isAlias, kids, built)
        && Chained(tasks, builds, tasksOut)
        && forall t <- builds :: t.node == node)
      ensures r.Success? && dependency.isAlias ==> built.None?
      ensures r.Success? && !dependency.isAlias ==> (
        var local := LocalEnvironment(node.environment, kids);
        builds != [] && tasksOut == [builds[|builds| - 1]]
        && tasksOut[0].dependencies == (if |builds| == 1 then tasks else [builds[|builds| - 2]])
        && EnvironmentClass(local, PlainTask) == Success(tasksOut[0].taskClass)
        && (tasksOut[0].failure.Some? <==> built.None? || tasksOut[0].childrenFailed)
        && BuiltOutput(built, local, dependency, node.chain.resolved[dependency], node.arguments))
      ensures Accounted(old(group.events), group.events, old(walker.failures), walker.failures, r.Raised?)
      decreases fuel, 14
    {
      tasksOut := tasks;
      kids := [];
      built := None;
      builds := [];
      var provisions := Resolved(node.chain, dependency);
      if provisions.None? {
        r := Raised(NoMethod("each"));
        AccountedQuiet(group.events, walker.failures, walker.failures);
        return;
      }
      var walked, acc, locals, publics;
      ghost var walkedKids, walkedBuilds;
      walked, acc, locals, publics, walkedKids, walkedBuilds := WalkNested(Nested(provisions.value), dependency.isAlias, tasks, fuel);
      if walked.Raised? {
        r := Raised(walked.failure);
        return;
      }
      kids := walkedKids;
      builds := walkedBuilds;
      tasksOut := acc;
      if dependency.isAlias {
        assert publics == Exposed(dependency.isAlias, kids) + [];
        r := Success(Combine(publics));
        return;
      }
      r, tasksOut, built, builds := BuildDependency(dependency, node.chain.resolved[dependency], locals, publics, acc, kids, tasks, builds, fuel);
    }

    /** The end of the walk of a dependency that is not an alias: its build
        over the combination of the local list takes what the nested walks
        left pending, and its output, when the build did not fail, closes the
        public list (`walked` are the builds of the walk so far, from
        `start`). */
    method BuildDependency(dependency: Dependency, provisions: seq<Provision>, locals: seq<Environment>, publics: seq<Environment>,
                           pending: seq<Task>, ghost kids: seq<Child>, ghost start: seq<Task>, ghost walked: seq<Task>, fuel: nat)
      returns (r: Outcome<Option<Environment>>, tasksOut: seq<Task>, ghost built: Option<Environment>, ghost builds: seq<Task>)
      requires node.ChainNode?
      requires locals == LocalEnvironments(node.environment, kids) && publics == Exposed(false, kids)
      requires Chained(start, walked, pending) && forall t <- walked :: t.node == node
      modifies fs, group, walker
      ensures r.Success? ==> (
        var local := LocalEnvironment(node.environment, kids);
        builds == walked + tasksOut && Chained(start, builds, tasksOut) && (forall t <- builds :: t.node == node)
        && |tasksOut| == 1 && tasksOut[0].dependencies == pending
        && EnvironmentClass(local, PlainTask) == Success(tasksOut[0].taskClass)
        && (tasksOut[0].failure.Some? <==> built.None? || tasksOut[0].childrenFailed)
        && BuiltOutput(built, local, dependency, provisions, node.arguments)
        && r.value == Published(false, kids, built))
      ensures Accounted(old(group.events), group.events, old(walker.failures), walker.failures, r.Raised?)
      decreases fuel, 13
    {
      tasksOut, builds := pending, walked;
      var combined := Combine(locals);
      var local := if combined.Some? then Evaluate(combined.value, None) else New(None, None);
      var task, output := BuildInChain(dependency, provisions, local, pending, fuel);
      built := output;
      if task.Raised? {
        return Raised(task.failure), tasksOut, built, builds;
      }
      var exposed := publics + (if output.Some? then [output.value] else []);
      tasksOut := [task.value];
      ChainedOne(start, walked, pending, task.value, node);
      builds := walked + tasksOut;
      r := Success(Combine(exposed));
    }

    /** The build of a dependency that is not an alias: a fresh task of the
        class of the local environment's rulebook, with the pending tasks as
        its dependencies, visits a fresh level over the local environment
        named after the dependency and has the provisions construct it. The
        output is published when the construction completed; the task fails
        when it did not, or when a child of the task failed. */
    method BuildInChain(dependency: Dependency, provisions: seq<Provision>, local: Environment, pending: seq<Task>, fuel: nat)
      returns (r: Outcome<Task>, built: Option<Environment>)
      requires node.ChainNode?
      modifies fs, group, walker
      ensures r.Raised? ==> EnvironmentClass(local, PlainTask) == Raised(r.failure)
      ensures r.Success? ==> (fresh(r.value) && r.value.node == node && r.value.dependencies == pending
        && EnvironmentClass(local, PlainTask) == Success(r.value.taskClass)
        && (r.value.failure.Some? <==> built.None? || r.value.childrenFailed)
        && (r.value.childrenFailed ==> r.value.failure == Some(ChildrenFailed))
        && BuiltOutput(built, local, dependency, provisions, node.arguments))
      ensures Accounted(old(group.events), group.events, old(walker.failures), walker.failures, false)
      decreases fuel, 12
    {
      built := None;
      var tc := EnvironmentClassOf(local, PlainTask);
      if tc.Raised? {
        AccountedQuiet(group.events, walker.failures, walker.failures);
        return Raised(tc.failure), None;
      }
      var task := new Task(node, tc.value, fs, group, walker, pending);
      var output := New(Some(local), Some(dependency.name));
      var constructed := task.ConstructInto(output, provisions, node.arguments, fuel);
      if constructed.Success? {
        built := Some(Detach(constructed.value, Some(dependency.name)));
      }
      if constructed.Raised? || task.childrenFailed {
        ghost var f1 := walker.failures;
        var f := if task.childrenFailed then ChildrenFailed else constructed.failure;
        task.Fail(f);
        AccountedCaught(old(group.events), group.events, old(walker.failures), f1, f);
      }
      r := Success(task);
    }

    /** `DependencyNode#apply!`: invokes a dependency node for each of the
        chain's dependencies, in order; the class of a dependency node's task
        is always found, so this never raises. */
    method DependencyApply(fuel: nat) returns (r: Outcome<()>)
      requires node.DependencyNode?
      modifies this`children, this`childrenFailed, fs, group, walker
      ensures r.Success? && old(children) <= children && |children| == |old(children)| + |node.chain.dependencies|
      ensures forall i :: 0 <= i < |node.chain.dependencies| ==> children[|old(children)| + i].node == ChainDependencyNodes(node)[i]
      ensures Accounted(old(group.events), group.events, old(walker.failures), walker.failures, r.Raised?)
      decreases fuel, 14
    {
      var dependencies := node.chain.dependencies;
      var i := 0;
      AccountedQuiet(group.events, walker.failures, walker.failures);
      while i < |dependencies|
        invariant 0 <= i <= |dependencies|
        invariant |children| == |old(children)| + i && old(children) <= children
        invariant forall k :: 0 <= k < i ==> children[|old(children)| + k].node == ChainDependencyNodes(node)[k]
        invariant Accounted(old(group.events), group.events, old(walker.failures), walker.failures, false)
      {
        ghost var e1, f1 := group.events, walker.failures;
        var child := Invoke(DependencyNode(node.chain, dependencies[i], node.environment, node.arguments), fuel);
        AccountedThen(old(group.events), e1, group.events, old(walker.failures), f1, walker.failures, false, false);
        i := i + 1;
      }
      r := Success(());
    }

    // -------------------------------------------------------------------
    // Dependency tasks

    /** `DependencyTask#update`: invokes the dependency node of each nested
        dependency of the node's provisions, in order, and keeps their
        tasks. */
    method DependencyUpdate(fuel: nat) returns (r: Outcome<()>)
      modifies this`tasks, this`children, this`childrenFailed, fs, group, walker
      ensures DependencyUpdated(r, old(tasks))
      ensures Accounted(old(group.events), group.events, old(walker.failures), walker.failures, r.Raised?)
      decreases fuel, 14
    {
      AccountedQuiet(group.events, walker.failures, walker.failures);
      var provisions := ProvisionsOf(node);
      if provisions.Raised? {
        return Raised(provisions.failure);
      }
      var nested := Nested(provisions.value);
      var i := 0;
      while i < |nested|
        invariant 0 <= i <= |nested|
        invariant |tasks| == |old(tasks)| + i && old(tasks) <= tasks
        invariant forall k :: 0 <= k < i ==> Some(tasks[|old(tasks)| + k].node) == DependencyNodeFor(node, nested[k])
        invariant Accounted(old(group.events), group.events, old(walker.failures), walker.failures, false)
      {
        var child := DependencyNodeFor(node, nested[i]);
        if child.None? {
          return Raised(NoMethod("dependency_node_for"));
        }
        ghost var e1, f1 := group.events, walker.failures;
        var task := Invoke(child.value, fuel);
        AccountedThen(old(group.events), e1, group.events, old(walker.failures), f1, walker.failures, false, false);
        tasks := tasks + [task.value];
        i := i + 1;
      }
      r := Success(());
    }

    /** `DependencyTask#update_outputs`: the environments the kept tasks
        yielded form the local list, and those of public tasks (all, under
        an alias) the public list; unless the dependency is an alias, a build
        node over the local environment is invoked and, when no child
        failed, its detached output ends the public list. The task's
        environment is then the combination of the public list. */
    method UpdateOutputs(fuel: nat) returns (r: Outcome<()>, ghost kids: seq<Child>, ghost built: Option<Environment>)
      requires node.DependencyNode? ==> node.dependency in node.chain.resolved
      modifies this`environment, this`children, this`childrenFailed, fs, group, walker
      ensures !node.DependencyNode? ==> (
        r == Raised(NoMethod(if node.BuildNode? then "alias?" else "dependency")) && environment == old(environment))
      ensures r.Success? ==> (node.DependencyNode? && |kids| == |old(tasks)|
        && (forall i :: 0 <= i < |kids| ==> kids[i] == old(KidOf(tasks[i])))
        && environment == Published(node.dependency.isAlias, kids, built))
      ensures r.Success? && node.dependency.isAlias ==> built.None? && children == old(children)
      ensures r.Success? && !node.dependency.isAlias ==> (
        var local := LocalEnvironment(node.environment, kids);
        var provisions := node.chain.resolved[node.dependency];
        |children| == |old(children)| + 1
        && children[|old(children)|].node == BuildNode(local, node.dependency, provisions, node.arguments)
        && (built.Some? <==> !childrenFailed)
        && BuiltOutput(built, local, node.dependency, provisions, node.arguments))
      ensures Accounted(old(group.events), group.events, old(walker.failures), walker.failures, r.Raised?)
      decreases fuel, 16
    {
      kids := [];
      built := None;
      AccountedQuiet(group.events, walker.failures, walker.failures);
      if !node.DependencyNode? {
        r := Raised(NoMethod(if node.BuildNode? then "alias?" else "dependency"));
        return;
      }
      var alias := node.dependency.isAlias;
      var gathered, locals, publics;
      gathered, locals, publics, kids := GatherOutputs(node.environment, alias);
      if gathered.Raised? {
        r := gathered;
        return;
      }
      if !alias {
        var combined := Combine(locals);
        var local := if combined.Some? then Evaluate(combined.value, None) else New(None, None);
        ghost var e1, f1 := group.events, walker.failures;
        var output;
        r, output := BuildLocal(local, fuel);
        built := output;
        AccountedThen(old(group.events), e1, group.events, old(walker.failures), f1, walker.failures, false, r.Raised?);
        if r.Raised? {
          return;
        }
        if output.Some? {
          publics := publics + [output.value];
        }
      }
      assert publics == Exposed(alias, kids) + (if built.Some? then [built.value] else []);
      environment := Combine(publics);
      r := Success(());
    }

    /** The second half of `update_outputs` for a dependency that is not an
        alias: a build node over the local environment is invoked and, when
        no child of this task failed, the build task's output, detached and
        named after the dependency, is what it adds to the public list. */
    method BuildLocal(local: Environment, fuel: nat) returns (r: Outcome<()>, built: Option<Environment>)
      requires node.DependencyNode? && node.dependency in node.chain.resolved
      modifies this`children, this`childrenFailed, fs, group, walker
      ensures r.Success? ==> (
        var provisions := node.chain.resolved[node.dependency];
        |children| == |old(children)| + 1
        && children[|old(children)|].node == BuildNode(local, node.dependency, provisions, node.arguments)
        && (built.Some? <==> !childrenFailed)
        && BuiltOutput(built, local, node.dependency, provisions, node.arguments))
      ensures Accounted(old(group.events), group.events, old(walker.failures), walker.failures, r.Raised?)
      decreases fuel, 15
    {
      built := None;
      var provisions := node.chain.resolved[node.dependency];
      var child := Invoke(BuildNode(local, node.dependency, provisions, node.arguments), fuel);
      if child.Raised? {
        return Raised(child.failure), None;
      }
      if !childrenFailed {
        if child.value.taskClass.kind != BuildTask {
          return Raised(NoMethod("output_environment")), None;
        }
        if child.value.outputEnvironment.None? {
          return Raised(WrongArity(1, 0)), None;
        }
        built := Some(Detach(child.value.outputEnvironment.value, Some(node.dependency.name)));
      }
      r := Success(());
    }

    /** The first half of `update_outputs`: the local list (`base`, then
        every environment a kept task yielded) and the public list. A task
        that yielded an environment under a parent that is not an alias must
        be a dependency's, or asking whether it is public raises. */
    method GatherOutputs(base: Environment, alias: bool)
      returns (r: Outcome<()>, locals: seq<Environment>, publics: seq<Environment>, ghost kids: seq<Child>)
      ensures r.Success? ==> (|kids| == |tasks|
        && (forall i :: 0 <= i < |tasks| ==> kids[i] == KidOf(tasks[i]))
        && locals == LocalEnvironments(base, kids)
        && publics == Exposed(alias, kids))
      ensures r.Raised? ==> (r.failure == NoMethod("public?") && !alias
        && exists i :: 0 <= i < |tasks| && tasks[i].environment.Some? && !tasks[i].node.DependencyNode?)
    {
      r := Success(());
      locals := [base];
      publics := [];
      kids := [];
      var i := 0;
      while i < |tasks|
        invariant 0 <= i <= |tasks| && |kids| == i
        invariant forall k :: 0 <= k < i ==> kids[k] == KidOf(tasks[k])
        invariant locals == LocalEnvironments(base, kids)
        invariant publics == Exposed(alias, kids)
      {
        var task := tasks[i];
        var kid := KidOf(task);
        PresentSnoc(kids, kid);
        ExposedSnoc(alias, kids, kid);
        if task.environment.Some? {
          locals := locals + [task.environment.value];
          if !alias && !task.node.DependencyNode? {
            r := Raised(NoMethod("public?"));
            return;
          }
          if alias || task.node.dependency.isPublic {
            publics := publics + [task.environment.value];
          }
        }
        kids := kids + [kid];
        i := i + 1;
      }
    }

    // -------------------------------------------------------------------
    // Provision tasks

    /** `ProvisionTask#update`: invokes the dependency node of each of the
        provision's dependencies and keeps their tasks; if any child failed
        the task fails with `DependenciesFailed` and builds nothing,
        otherwise it updates its environments and invokes the provision's
        build. */
    method ProvisionUpdate(fuel: nat) returns (r: Outcome<()>)
      modifies this`dependencyTasks, this`environments, this`publicEnvironments, this`buildTask
      modifies this`children, this`childrenFailed, fs, group, walker
      ensures ProvisionUpdated(r, old(dependencyTasks), old(childrenFailed), old(buildTask))
      ensures forall i :: |old(dependencyTasks)| <= i < |dependencyTasks| ==> fresh(dependencyTasks[i])
      ensures Accounted(old(group.events), group.events, old(walker.failures), walker.failures, r.Raised?)
      decreases fuel, 16
    {
      AccountedQuiet(group.events, walker.failures, walker.failures);
      if !node.ProvisionNode? {
        return Raised(NoMethod("provision"));
      }
      ghost var e1, f1 := group.events, walker.failures;
      InvokeDependencies(fuel);
      AccountedThen(old(group.events), e1, group.events, old(walker.failures), f1, walker.failures, false, false);
      if childrenFailed {
        return Raised(DependenciesFailed);
      }
      ghost var e2, f2 := group.events, walker.failures;
      ghost var kids;
      r, kids := UpdateEnvironments(fuel);
      AccountedThen(old(group.events), e2, group.events, old(walker.failures), f2, walker.failures, false, r.Raised?);
      assert !AnyFailed(dependencyTasks[|old(dependencyTasks)|..]);
    }

    /** The first half of `ProvisionTask#update`: a dependency task per
        dependency of the provision, in order, each remembered and counted
        when it failed. */
    method InvokeDependencies(fuel: nat)
      requires node.ProvisionNode?
      modifies this`dependencyTasks, this`children, this`childrenFailed, fs, group, walker
      ensures |dependencyTasks| == |old(dependencyTasks)| + |node.provision.dependencies| && old(dependencyTasks) <= dependencyTasks
      ensures forall k :: |old(dependencyTasks)| <= k < |dependencyTasks| ==>
        fresh(dependencyTasks[k])
        && dependencyTasks[k].node == DependencyNode(node.chain, node.provision.dependencies[k - |old(dependencyTasks)|], node.environment, node.arguments)
      ensures childrenFailed == (old(childrenFailed) || AnyFailed(dependencyTasks[|old(dependencyTasks)|..]))
      ensures Accounted(old(group.events), group.events, old(walker.failures), walker.failures, false)
      decreases fuel, 15
    {
      AccountedQuiet(group.events, walker.failures, walker.failures);
      var dependencies := node.provision.dependencies;
      var i := 0;
      while i < |dependencies|
        invariant 0 <= i <= |dependencies|
        invariant |dependencyTasks| == |old(dependencyTasks)| + i && old(dependencyTasks) <= dependencyTasks
        invariant forall k :: |old(dependencyTasks)| <= k < |dependencyTasks| ==>
          fresh(dependencyTasks[k])
          && dependencyTasks[k].node == DependencyNode(node.chain, dependencies[k - |old(dependencyTasks)|], node.environment, node.arguments)
        invariant childrenFailed == (old(childrenFailed) || AnyFailed(dependencyTasks[|old(dependencyTasks)|..]))
        invariant Accounted(old(group.events), group.events, old(walker.failures), walker.failures, false)
      {
        ghost var e1, f1 := group.events, walker.failures;
        ghost var prior := dependencyTasks[|old(dependencyTasks)|..];
        ghost var priorFailed := AnyFailed(prior);
        var child := Invoke(DependencyNode(node.chain, dependencies[i], node.environment, node.arguments), fuel);
        assert AnyFailed(prior) == priorFailed;
        AccountedThen(old(group.events), e1, group.events, old(walker.failures), f1, walker.failures, false, false);
        AnyFailedSnoc(prior, child.value);
        assert (dependencyTasks + [child.value])[|old(dependencyTasks)|..] == prior + [child.value];
        dependencyTasks := dependencyTasks + [child.value];
        i := i + 1;
      }
    }

    /** `ProvisionTask#update_environments!`: each kept task's environment
        enters the environment list when it has one, and fills a slot of the
        public list, nil included, when its dependency is public; then the
        provision's build is invoked over the local environment. */
    method UpdateEnvironments(fuel: nat) returns (r: Outcome<()>, ghost kids: seq<Child>)
      requires node.ProvisionNode?
      modifies this`environments, this`publicEnvironments, this`buildTask, this`children, this`childrenFailed
      modifies fs, group, walker
      ensures r.Raised? ==> !r.failure.DependenciesFailed?
      ensures r.Success? ==> (|kids| == |old(dependencyTasks)|
        && (forall i :: 0 <= i < |kids| ==> kids[i] == old(KidOf(dependencyTasks[i])))
        && environments == old(environments) + Present(kids)
        && publicEnvironments == old(publicEnvironments) + PublicSlots(kids)
        && buildTask.Some? && fresh(buildTask.value) && children == old(children) + [buildTask.value]
        && buildTask.value.node == ProvisionBuildNode(ProvisionLocalEnvironment(), node.provision, node.arguments))
      ensures Accounted(old(group.events), group.events, old(walker.failures), walker.failures, r.Raised?)
      decreases fuel, 14
    {
      r, kids := CollectEnvironments();
      if r.Raised? {
        AccountedQuiet(group.events, walker.failures, walker.failures);
        return;
      }
      r := BuildProvision(ProvisionLocalEnvironment(), fuel);
    }

    /** The loop of `update_environments!` and its effect on the two lists:
        what the kept tasks yielded is appended to them, up to the task
        whose publicity cannot be asked. */
    method CollectEnvironments() returns (r: Outcome<()>, ghost kids: seq<Child>)
      modifies this`environments, this`publicEnvironments
      ensures r.Raised? ==> r.failure == NoMethod("public?")
      ensures r.Success? ==> (|kids| == |dependencyTasks|
        && (forall i :: 0 <= i < |kids| ==> kids[i] == KidOf(dependencyTasks[i]))
        && environments == old(environments) + Present(kids)
        && publicEnvironments == old(publicEnvironments) + PublicSlots(kids))
    {
      var present, slots;
      r, present, slots, kids := GatherEnvironments();
      environments := environments + present;
      publicEnvironments := publicEnvironments + slots;
    }

    /** The last step of `update_environments!`: the provision's build is
        invoked over the local environment and kept as the build task. */
    method BuildProvision(local: Environment, fuel: nat) returns (r: Outcome<()>)
      requires node.ProvisionNode?
      modifies this`buildTask, this`children, this`childrenFailed, fs, group, walker
      ensures r.Raised? ==> !r.failure.DependenciesFailed?
      ensures r.Success? ==> (buildTask.Some? && fresh(buildTask.value) && children == old(children) + [buildTask.value]
        && buildTask.value.node == ProvisionBuildNode(local, node.provision, node.arguments))
      ensures Accounted(old(group.events), group.events, old(walker.failures), walker.failures, false)
      decreases fuel, 12
    {
      var child := Invoke(ProvisionBuildNode(local, node.provision, node.arguments), fuel);
      if child.Raised? {
        r := Raised(child.failure);
        return;
      }
      buildTask := Some(child.value);
      r := Success(());
    }

    /** The loop of `update_environments!`, over the kept tasks in order: the
        environments they yielded, and a slot for each public one. Asking a
        task that is not a dependency's whether it is public raises, after
        its environment was taken. */
    method GatherEnvironments() returns (r: Outcome<()>, present: seq<Environment>, slots: seq<Option<Environment>>, ghost kids: seq<Child>)
      ensures |kids| <= |dependencyTasks| && forall i :: 0 <= i < |kids| ==> kids[i] == KidOf(dependencyTasks[i])
      ensures present == Present(kids)
      ensures r.Success? ==> |kids| == |dependencyTasks| && slots == PublicSlots(kids)
      ensures r.Raised? ==> (r.failure == NoMethod("public?") && kids != []
        && !dependencyTasks[|kids| - 1].node.DependencyNode? && slots == PublicSlots(kids[..|kids| - 1]))
    {
      r := Success(());
      present := [];
      slots := [];
      kids := [];
      var i := 0;
      while i < |dependencyTasks|
        invariant 0 <= i <= |dependencyTasks| && |kids| == i
        invariant forall k :: 0 <= k < i ==> kids[k] == KidOf(dependencyTasks[k])
        invariant present == Present(kids) && slots == PublicSlots(kids)
      {
        var task := dependencyTasks[i];
        var kid := KidOf(task);
        PresentSnoc(kids, kid);
        PublicSlotsSnoc(kids, kid);
        if task.environment.Some? {
          present := present + [task.environment.value];
        }
        if !task.node.DependencyNode? {
          assert (kids + [kid])[..i] == kids;
          kids := kids + [kid];
          r := Raised(NoMethod("public?"));
          return;
        }
        if task.node.dependency.isPublic {
          slots := slots + [task.environment];
        }
        kids := kids + [kid];
        i := i + 1;
      }
    }

    /** `ProvisionTask#local_environment`: the node's environment followed by
        every environment the dependencies yielded, flattened into one root
        level named after the provision. */
    function ProvisionLocalEnvironment(): (e: Environment)
      requires node.ProvisionNode?
      reads this`environments
      ensures e.parent.None? && e.layer.name == Some(node.provision.name)
      ensures e.layer.values == Flat(Levels(node.environment) + AllLevels(environments))
    {
      AllLevelsAppend([node.environment], environments);
      assert [node.environment][..0] == [];
      assert AllLevels([node.environment]) == Levels(node.environment);
      Evaluate(Combine([node.environment] + environments).value, Some(node.provision.name))
    }

    /** `ProvisionTask#output_environment`: the build task's output with its
        parent dropped; raises without a build task that has an output. */
    method ProvisionOutputEnvironment() returns (r: Outcome<Environment>)
      ensures buildTask.None? || buildTask.value.taskClass.kind != BuildTask ==> r == Raised(NoMethod("output_environment"))
      ensures buildTask.Some? && buildTask.value.taskClass.kind == BuildTask ==> (
        (r.Success? <==> buildTask.value.outputEnvironment.Some?)
        && (r.Success? ==> Levels(r.value) == [buildTask.value.outputEnvironment.value.layer]))
    {
      if buildTask.None? || buildTask.value.taskClass.kind != BuildTask {
        return Raised(NoMethod("output_environment"));
      }
      var output := buildTask.value.outputEnvironment;
      if output.None? {
        return Raised(WrongArity(1, 0));
      }
      r := Success(Detach(output.value, output.value.layer.name));
    }
  }

  /** Whether one of the tasks failed. */
  ghost predicate AnyFailed(tasks: seq<Task>)
    reads set t | t in tasks
  {
    exists t <- tasks :: t.failure.Some?
  }

  lemma AnyFailedSnoc(tasks: seq<Task>, task: Task)
    ensures AnyFailed(tasks + [task]) == (AnyFailed(tasks) || task.failure.Some?)
  {
    if task.failure.Some? {
      assert task in tasks + [task];
    }
  }

  /** What a parent sees of a kept task: the environment it yielded, and
      whether its node is a public dependency. */
  function KidOf(task: Task): (r: Child)
    reads task`environment
    ensures r.environment == task.environment
    ensures r.isPublic ==> task.node.DependencyNode?
    ensures task.node.DependencyNode? ==> (r.isPublic <==> task.node.dependency.isPublic)
  {
    Child(task.environment, task.node.DependencyNode? && task.node.dependency.isPublic)
  }

  /** The steps a block takes with `arguments`; none without a block. */
  function ActionCommands(action: Option<Action>, arguments: Arguments): seq<Command> {
    match action
    case Some(block) => block(arguments)
    case None => []
  }

  /** What a rule node's `apply!` performs: the rule's action, then the
      callback, both given the node's arguments. */
  function RuleCommands(node: Node): (r: seq<Command>)
    requires node.RuleNode?
    ensures ActionCommands(node.rule.apply, node.ruleArguments) <= r
  {
    ActionCommands(node.rule.apply, node.ruleArguments) + ActionCommands(node.callback, node.ruleArguments)
  }
}
