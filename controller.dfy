/** The controller: the fixed list of top-level chain nodes, the process
    group and the walker, and the update that visits each top-level node in
    turn, letting its processes drain before the next one starts. */
module Controllers {
  import opened Values
  import opened Actions
  import opened Environments
  import opened Rulebooks
  import opened Chains
  import opened Nodes
  import opened Tasks

  /** What one `add_chain` call in the constructor's block adds. */
  datatype Addition = Addition(chain: Chain, arguments: seq<Value>, environment: Environment)

  class Controller {
    /** The top-level nodes, in the order they were added. */
    var nodes: seq<Node>
    /** Whether the node list is frozen (after the constructor's block). */
    var frozen: bool
    const fs: FileSystem
    const group: Group
    const walker: Walker
    /** The top-level tasks of the last update, one per node. */
    ghost var tops: seq<Task>

    /** `Controller.new { |controller| ... }`: the block's additions, in
        order, and then the node list is frozen. Top-level tasks are created
        with the class of their parent, so the walker's policy is
        `ParentClass`. */
    constructor (additions: seq<Addition>, fs: FileSystem, status: Argv -> int, dirty: Node -> bool)
      ensures frozen && this.fs == fs && fresh(group) && fresh(walker)
      ensures |nodes| == |additions|
      ensures forall i :: 0 <= i < |additions| ==>
        nodes[i] == ChainNode(additions[i].chain, additions[i].arguments, additions[i].environment)
      ensures walker.policy == ParentClass && walker.dirty == dirty && walker.failures == []
      ensures group.status == status && group.events == [] && tops == []
    {
      nodes := [];
      frozen := false;
      this.fs := fs;
      group := new Group(status);
      walker := new Walker(dirty, ParentClass);
      tops := [];
      new;
      var i := 0;
      while i < |additions|
        invariant 0 <= i <= |additions| && !frozen && |nodes| == i
        invariant forall k :: 0 <= k < i ==>
          nodes[k] == ChainNode(additions[k].chain, additions[k].arguments, additions[k].environment)
        modifies this`nodes
      {
        var added := AddChain(additions[i].chain, additions[i].arguments, additions[i].environment);
        i := i + 1;
      }
      frozen := true;
    }

    /** `add_chain`: appends one chain node; once the list is frozen it
        raises and the list is unchanged. */
    method AddChain(chain: Chain, arguments: seq<Value>, environment: Environment) returns (r: Outcome<()>)
      modifies this`nodes
      ensures frozen ==> r == Raised(FrozenList) && nodes == old(nodes)
      ensures !frozen ==> r.Success? && nodes == old(nodes) + [ChainNode(chain, arguments, environment)]
    {
      if frozen {
        return Raised(FrozenList);
      }
      nodes := nodes + [ChainNode(chain, arguments, environment)];
      r := Success(());
    }

    /** `failed?`: exactly whether the walker recorded a failure. */
    predicate Failed()
      reads this, walker
    {
      walker.Failed()
    }

    /** `update`: for each top-level node in order, a task of the base class
        visits it inside `group.wait`, so the group drains after each node:
        the group's log grows by one segment per node (what its visit
        spawned, which drains nothing) and one drain after it. A process
        that failed during a node's visit, or a top-level task that failed,
        leaves the controller failed. */
    method Update(fuel: nat) returns (ghost segments: seq<seq<GroupEvent>>)
      modifies this`tops, fs, group, walker
      ensures |tops| == |nodes|
      ensures forall i :: 0 <= i < |nodes| ==>
        fresh(tops[i]) && tops[i].node == nodes[i] && tops[i].taskClass == BaseClass(PlainTask) && tops[i].dependencies == []
      ensures forall i :: 0 <= i < |nodes| && tops[i].failure.Some? ==> Failed()
      ensures |segments| == |nodes| && group.events == old(group.events) + Drains(segments)
      ensures forall i :: 0 <= i < |segments| ==> Drained !in segments[i] && (FailedSpawn(segments[i]) ==> Failed())
      ensures multiset(group.events[|old(group.events)|..])[Drained] == |nodes|
      ensures old(walker.failures) <= walker.failures
    {
      tops := [];
      segments := [];
      var i := 0;
      while i < |nodes|
        invariant 0 <= i <= |nodes| && |tops| == i && |segments| == i
        invariant forall k :: 0 <= k < i ==>
          fresh(tops[k]) && tops[k].node == nodes[k] && tops[k].taskClass == BaseClass(PlainTask) && tops[k].dependencies == []
        invariant forall k :: 0 <= k < i && tops[k].failure.Some? ==> walker.failures != []
        invariant group.events == old(group.events) + Drains(segments)
        invariant forall k :: 0 <= k < i ==> Drained !in segments[k] && (FailedSpawn(segments[k]) ==> walker.failures != [])
        invariant old(walker.failures) <= walker.failures
      {
        var task;
        ghost var segment;
        task, segment := VisitTop(nodes[i], fuel);
        assert (segments + [segment])[..i] == segments;
        segments := segments + [segment];
        tops := tops + [task];
        i := i + 1;
      }
      DrainsCount(segments);
      assert group.events[|old(group.events)|..] == Drains(segments);
    }

    /** One top-level node: a task of the base class visits it and the group
        drains; `segment` is what the visit spawned. */
    method VisitTop(node: Node, fuel: nat) returns (task: Task, ghost segment: seq<GroupEvent>)
      modifies fs, group, walker
      ensures fresh(task) && task.node == node && task.taskClass == BaseClass(PlainTask) && task.dependencies == []
      ensures task.failure.Some? ==> Failed()
      ensures group.events == old(group.events) + segment + [Drained]
      ensures Drained !in segment && (FailedSpawn(segment) ==> Failed())
      ensures old(walker.failures) <= walker.failures
    {
      task := new Task(node, BaseClass(PlainTask), fs, group, walker, []);
      var caught := task.Visit(fuel);
      AccountedMeans(old(group.events), group.events, old(walker.failures), walker.failures, false);
      segment := group.events[|old(group.events)|..];
      assert group.events == old(group.events) + segment;
      group.Wait();
    }

    /** `run`: the update, inside the walker's run. */
    method Run(fuel: nat) returns (ghost segments: seq<seq<GroupEvent>>)
      modifies this`tops, fs, group, walker
      ensures |tops| == |nodes| && forall i :: 0 <= i < |nodes| ==> tops[i].node == nodes[i]
      ensures forall i :: 0 <= i < |nodes| && tops[i].failure.Some? ==> Failed()
      ensures |segments| == |nodes| && group.events == old(group.events) + Drains(segments)
      ensures forall i :: 0 <= i < |segments| ==> Drained !in segments[i] && (FailedSpawn(segments[i]) ==> Failed())
      ensures old(walker.failures) <= walker.failures
    {
      segments := Update(fuel);
    }
  }

  /** The group's log over top-level visits: each visit's events, then the
      drain of the `group.wait` around it. */
  function Drains(segments: seq<seq<GroupEvent>>): seq<GroupEvent> {
    if segments == [] then []
    else Drains(segments[..|segments| - 1]) + segments[|segments| - 1] + [Drained]
  }

  /** When no visit drains by itself, the log holds exactly one drain per
      visit, and (after at least one visit) ends with a drain. */
  lemma {:induction false} DrainsCount(segments: seq<seq<GroupEvent>>)
    requires forall i :: 0 <= i < |segments| ==> Drained !in segments[i]
    ensures multiset(Drains(segments))[Drained] == |segments|
    ensures segments != [] ==> Drains(segments)[|Drains(segments)| - 1] == Drained
  {
    if segments != [] {
      var last := segments[|segments| - 1];
      DrainsCount(segments[..|segments| - 1]);
      assert multiset(last)[Drained] == 0;
      assert Drains(segments) == Drains(segments[..|segments| - 1]) + last + [Drained];
    }
  }
}
