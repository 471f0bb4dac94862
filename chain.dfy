/** Dependency chains and the rules by which environments propagate along
    them: what a walked dependency contributes to its parent's local list
    (every environment it yielded) and to its parent's public list (only
    through an alias parent or a public dependency), and what a dependency
    finally exposes. */
module Chains {
  import opened Values
  import opened Environments

  /** A dependency of a chain: its name, and whether it is an alias (builds
      nothing of its own) or public (re-exported to whoever depends on it). */
  datatype Dependency = Dependency(name: string, isAlias: bool, isPublic: bool)

  /** A provision that resolves a dependency: its nested dependencies in
      declaration order, and the block that constructs its environment. */
  datatype Provision = Provision(name: string, dependencies: seq<Dependency>, value: Constructor)

  /** A resolved chain: the dependencies asked for, and the provisions that
      resolve each of them. */
  datatype Chain = Chain(dependencies: seq<Dependency>, resolved: map<Dependency, seq<Provision>>)

  /** `chain.resolved[dependency]`, or nil. */
  function Resolved(chain: Chain, dependency: Dependency): (r: Option<seq<Provision>>)
    ensures r.Some? <==> dependency in chain.resolved
    ensures r.Some? ==> r.value == chain.resolved[dependency]
  {
    if dependency in chain.resolved then Some(chain.resolved[dependency]) else None
  }

  /** The nested dependencies of the provisions, provision by provision and
      each provision's in order (`provisions.each { each_dependency }`). */
  function Nested(provisions: seq<Provision>): seq<Dependency> {
    if provisions == [] then []
    else
      var n := |provisions| - 1;
      Nested(provisions[..n]) + provisions[n].dependencies
  }

  lemma NestedSnoc(provisions: seq<Provision>, p: Provision)
    ensures Nested(provisions + [p]) == Nested(provisions) + p.dependencies
  {
    assert (provisions + [p])[..|provisions|] == provisions;
  }

  /** The steps the provisions' blocks take with the build arguments, in
      provision order. */
  function Steps(provisions: seq<Provision>, arguments: seq<Value>): seq<ConstructStep> {
    if provisions == [] then []
    else
      var n := |provisions| - 1;
      Steps(provisions[..n], arguments) + provisions[n].value(arguments)
  }

  lemma StepsSnoc(provisions: seq<Provision>, p: Provision, arguments: seq<Value>)
    ensures Steps(provisions + [p], arguments) == Steps(provisions, arguments) + p.value(arguments)
  {
    assert (provisions + [p])[..|provisions|] == provisions;
  }

  /** What a parent sees of one walked nested dependency: the environment it
      yielded (nil when it yielded none) and whether it is public. */
  datatype Child = Child(environment: Option<Environment>, isPublic: bool)

  /** Whether a child's environment is re-exported by its parent. */
  predicate Exposes(alias: bool, kid: Child) {
    kid.environment.Some? && (alias || kid.isPublic)
  }

  /** The environments the children yielded, in order, skipping nil. */
  function Present(kids: seq<Child>): (r: seq<Environment>)
    ensures |r| <= |kids|
  {
    if kids == [] then []
    else
      var n := |kids| - 1;
      Present(kids[..n]) + (if kids[n].environment.Some? then [kids[n].environment.value] else [])
  }

  /** The environments that enter the public list, in order. */
  function Exposed(alias: bool, kids: seq<Child>): (r: seq<Environment>)
    ensures |r| <= |kids|
  {
    if kids == [] then []
    else
      var n := |kids| - 1;
      Exposed(alias, kids[..n]) + (if Exposes(alias, kids[n]) then [kids[n].environment.value] else [])
  }

  lemma PresentSnoc(kids: seq<Child>, kid: Child)
    ensures Present(kids + [kid]) == Present(kids) + (if kid.environment.Some? then [kid.environment.value] else [])
  {
    assert (kids + [kid])[..|kids|] == kids;
  }

  lemma ExposedSnoc(alias: bool, kids: seq<Child>, kid: Child)
    ensures Exposed(alias, kids + [kid]) == Exposed(alias, kids) + (if Exposes(alias, kid) then [kid.environment.value] else [])
  {
    assert (kids + [kid])[..|kids|] == kids;
  }

  /** One step of the walk over nested dependencies: what a child yielded
      enters the local list, and the public list too when it is exposed. */
  method Collect(alias: bool, locals: seq<Environment>, publics: seq<Environment>, kid: Child)
    returns (locals': seq<Environment>, publics': seq<Environment>)
    ensures locals' == locals + (if kid.environment.Some? then [kid.environment.value] else [])
    ensures publics' == publics + (if Exposes(alias, kid) then [kid.environment.value] else [])
  {
    locals', publics' := locals, publics;
    if kid.environment.Some? {
      locals' := locals' + [kid.environment.value];
      if alias || kid.isPublic {
        publics' := publics' + [kid.environment.value];
      }
    }
  }

  /** The slots a provision task adds to its public list: one per public
      child, holding whatever that child yielded, nil included. */
  function PublicSlots(kids: seq<Child>): (r: seq<Option<Environment>>)
    ensures |r| <= |kids|
  {
    if kids == [] then []
    else
      var n := |kids| - 1;
      PublicSlots(kids[..n]) + (if kids[n].isPublic then [kids[n].environment] else [])
  }

  lemma PublicSlotsSnoc(kids: seq<Child>, kid: Child)
    ensures PublicSlots(kids + [kid]) == PublicSlots(kids) + (if kid.isPublic then [kid.environment] else [])
  {
    assert (kids + [kid])[..|kids|] == kids;
  }

  /** The local list: the parent's environment, then every environment a
      child yielded. */
  function LocalEnvironments(base: Environment, kids: seq<Child>): (r: seq<Environment>)
    ensures r != [] && r[0] == base
  {
    [base] + Present(kids)
  }

  lemma LocalEnvironmentsSnoc(base: Environment, kids: seq<Child>, kid: Child)
    ensures LocalEnvironments(base, kids + [kid])
         == LocalEnvironments(base, kids) + (if kid.environment.Some? then [kid.environment.value] else [])
  {
    PresentSnoc(kids, kid);
  }

  /** `Environment.combine(*local)&.evaluate || Environment.new`. */
  function LocalEnvironment(base: Environment, kids: seq<Child>): Environment {
    match Combine(LocalEnvironments(base, kids))
    case Some(e) => Evaluate(e, None)
    case None => New(None, None)
  }

  /** What a walked dependency exposes: the combination of its public list,
      which ends with the detached output of its own build when there is one;
      nil when the list is empty. */
  function Published(alias: bool, kids: seq<Child>, built: Option<Environment>): Option<Environment> {
    Combine(Exposed(alias, kids) + (if built.Some? then [built.value] else []))
  }

  /** The output of a build over `local`: a fresh level named after the
      dependency, holding what the provisions bound. */
  function Output(local: Environment, dependency: Dependency, provisions: seq<Provision>, arguments: seq<Value>): Environment {
    Bound(New(Some(local), Some(dependency.name)), Steps(provisions, arguments))
  }

  // ---------------------------------------------------------------------
  // Propagation properties

  /** Under an alias every environment a child yielded is exposed, whether
      or not the child is public. */
  lemma {:induction false} AliasExposesAll(kids: seq<Child>)
    ensures Exposed(true, kids) == Present(kids)
  {
    if kids != [] {
      AliasExposesAll(kids[..|kids| - 1]);
    }
  }

  /** Under a non-alias parent, children that are not public expose nothing. */
  lemma {:induction false} PrivateChildrenHidden(kids: seq<Child>)
    requires forall i :: 0 <= i < |kids| ==> !kids[i].isPublic
    ensures Exposed(false, kids) == []
  {
    if kids != [] {
      PrivateChildrenHidden(kids[..|kids| - 1]);
    }
  }

  /** Every exposed environment also entered the local list. */
  lemma {:induction false} ExposedAreLocal(alias: bool, base: Environment, kids: seq<Child>, e: Environment)
    requires e in Exposed(alias, kids)
    ensures e in Present(kids) && e in LocalEnvironments(base, kids)
  {
    var n := |kids| - 1;
    var present := if kids[n].environment.Some? then [kids[n].environment.value] else [];
    assert Present(kids) == Present(kids[..n]) + present;
    if e in Exposed(alias, kids[..n]) {
      ExposedAreLocal(alias, base, kids[..n], e);
    } else {
      assert e in present;
    }
    assert LocalEnvironments(base, kids) == [base] + Present(kids);
  }

  /** The public list withholds nothing from the local list exactly when
      the parent is an alias or every child that yielded an environment is
      public. */
  lemma {:induction false} ExposedCount(alias: bool, kids: seq<Child>)
    ensures |Exposed(alias, kids)| == |Present(kids)| <==> forall i :: 0 <= i < |kids| && kids[i].environment.Some? ==> alias || kids[i].isPublic
  {
    if kids != [] {
      var n := |kids| - 1;
      ExposedCount(alias, kids[..n]);
      ExposedNoLonger(alias, kids[..n]);
      assert forall i :: 0 <= i < n ==> kids[..n][i] == kids[i];
    }
  }

  lemma {:induction false} ExposedNoLonger(alias: bool, kids: seq<Child>)
    ensures |Exposed(alias, kids)| <= |Present(kids)|
  {
    if kids != [] {
      ExposedNoLonger(alias, kids[..|kids| - 1]);
    }
  }

  /** The local list always holds the parent's environment, so combining it
      never yields nil and the fallback to a fresh environment is never
      taken: the local environment flattens the parent's levels first, then
      each child's in order. */
  lemma LocalEnvironmentCombines(base: Environment, kids: seq<Child>)
    ensures Combine(LocalEnvironments(base, kids)).Some?
    ensures LocalEnvironment(base, kids) == Evaluate(Combine(LocalEnvironments(base, kids)).value, None)
    ensures Levels(Combine(LocalEnvironments(base, kids)).value) == Levels(base) + AllLevels(Present(kids))
  {
    var local := LocalEnvironments(base, kids);
    AllLevelsAppend([base], Present(kids));
    assert [base][..0] == [];
    assert AllLevels([base]) == Levels(base);
    assert AllLevels(local) == Levels(base) + AllLevels(Present(kids));
  }

  /** An alias builds nothing of its own, so it publishes exactly the
      combination of what its children yielded; nil when they yielded
      nothing. */
  lemma AliasPublishesChildren(kids: seq<Child>)
    ensures Published(true, kids, None) == Combine(Present(kids))
    ensures Published(true, kids, None).None? <==> forall i :: 0 <= i < |kids| ==> kids[i].environment.None?
  {
    AliasExposesAll(kids);
    assert Exposed(true, kids) + [] == Exposed(true, kids);
    PresentEmpty(kids);
  }

  /** An environment is present exactly when some child yielded it. */
  lemma {:induction false} PresentMembers(kids: seq<Child>, env: Environment)
    ensures env in Present(kids) <==> exists i :: 0 <= i < |kids| && kids[i].environment == Some(env)
  {
    if kids != [] {
      var n := |kids| - 1;
      var last := if kids[n].environment.Some? then [kids[n].environment.value] else [];
      assert Present(kids) == Present(kids[..n]) + last;
      PresentMembers(kids[..n], env);
      if exists i :: 0 <= i < |kids| && kids[i].environment == Some(env) {
        var i :| 0 <= i < |kids| && kids[i].environment == Some(env);
        if i < n {
          assert kids[..n][i] == kids[i];
        }
      }
      if env in Present(kids[..n]) {
        var i :| 0 <= i < n && kids[..n][i].environment == Some(env);
        assert kids[..n][i] == kids[i];
      }
    }
  }

  /** An environment is published exactly when a child that is exposed
      (public, or under an alias) yielded it. */
  lemma {:induction false} ExposedMembers(alias: bool, kids: seq<Child>, env: Environment)
    ensures env in Exposed(alias, kids) <==> exists i :: 0 <= i < |kids| && Exposes(alias, kids[i]) && kids[i].environment == Some(env)
  {
    if kids != [] {
      var n := |kids| - 1;
      var last := if Exposes(alias, kids[n]) then [kids[n].environment.value] else [];
      assert Exposed(alias, kids) == Exposed(alias, kids[..n]) + last;
      ExposedMembers(alias, kids[..n], env);
      if exists i :: 0 <= i < |kids| && Exposes(alias, kids[i]) && kids[i].environment == Some(env) {
        var i :| 0 <= i < |kids| && Exposes(alias, kids[i]) && kids[i].environment == Some(env);
        if i < n {
          assert kids[..n][i] == kids[i];
        }
      }
      if env in Exposed(alias, kids[..n]) {
        var i :| 0 <= i < n && Exposes(alias, kids[..n][i]) && kids[..n][i].environment == Some(env);
        assert kids[..n][i] == kids[i];
      }
    }
  }

  /** A slot enters a provision task's public list exactly when a public
      child holds it, nil included. */
  lemma {:induction false} PublicSlotsMembers(kids: seq<Child>, slot: Option<Environment>)
    ensures slot in PublicSlots(kids) <==> exists i :: 0 <= i < |kids| && kids[i].isPublic && kids[i].environment == slot
  {
    if kids != [] {
      var n := |kids| - 1;
      var last := if kids[n].isPublic then [kids[n].environment] else [];
      assert PublicSlots(kids) == PublicSlots(kids[..n]) + last;
      PublicSlotsMembers(kids[..n], slot);
      if exists i :: 0 <= i < |kids| && kids[i].isPublic && kids[i].environment == slot {
        var i :| 0 <= i < |kids| && kids[i].isPublic && kids[i].environment == slot;
        if i < n {
          assert kids[..n][i] == kids[i];
        }
      }
      if slot in PublicSlots(kids[..n]) {
        var i :| 0 <= i < n && kids[..n][i].isPublic && kids[..n][i].environment == slot;
        assert kids[..n][i] == kids[i];
      }
    }
  }

  lemma {:induction false} PresentEmpty(kids: seq<Child>)
    ensures Present(kids) == [] <==> forall i :: 0 <= i < |kids| ==> kids[i].environment.None?
  {
    if kids != [] {
      var n := |kids| - 1;
      PresentEmpty(kids[..n]);
      assert forall i :: 0 <= i < n ==> kids[..n][i] == kids[i];
    }
  }

  /** A successful build always publishes something, and its output is the
      last level of what is published. */
  lemma BuiltIsPublishedLast(alias: bool, kids: seq<Child>, built: Environment)
    ensures var p := Published(alias, kids, Some(built));
      p.Some? && Levels(p.value) == AllLevels(Exposed(alias, kids)) + Levels(built)
  {
    AllLevelsSnoc(Exposed(alias, kids), built);
  }
}
