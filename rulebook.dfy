/** The rulebook of an environment: every rule by name, and the rules of each
    process in registration order. A task class generated from a rulebook
    answers a process name by the first applicable rule of that process, a
    rule's full name by that rule, and a bound state key by its value. */
module Rulebooks {
  import opened Values
  import opened OrderedHashes
  import opened Rules
  import opened Environments

  // ---------------------------------------------------------------------
  // The registry, as a function of the rules registered so far

  /** `@rules` after registering `registered` in turn. */
  function RulesOf(registered: seq<Rule>): (h: Hash<string, Rule>)
    ensures Valid(h)
  {
    if registered == [] then Empty()
    else
      var n := |registered| - 1;
      Store(RulesOf(registered[..n]), registered[n].name, registered[n])
  }

  /** `@processes` after registering `registered` in turn. */
  function ProcessesOf(registered: seq<Rule>): (h: Hash<string, seq<Rule>>)
    ensures Valid(h)
  {
    if registered == [] then Empty()
    else
      var n := |registered| - 1;
      var before := ProcessesOf(registered[..n]);
      var key := registered[n].processName;
      Store(before, key, (if key in before.entries then before.entries[key] else []) + [registered[n]])
  }

  /** The rules of `process`, in registration order. */
  function OfProcess(registered: seq<Rule>, process: string): (r: seq<Rule>)
    ensures |r| <= |registered|
    ensures forall i :: 0 <= i < |r| ==> r[i].processName == process
  {
    if registered == [] then []
    else (if registered[0].processName == process then [registered[0]] else []) + OfProcess(registered[1..], process)
  }

  lemma {:induction false} OfProcessSnoc(registered: seq<Rule>, rule: Rule, process: string)
    ensures OfProcess(registered + [rule], process)
      == OfProcess(registered, process) + (if rule.processName == process then [rule] else [])
  {
    if registered != [] {
      assert (registered + [rule])[1..] == registered[1..] + [rule];
      OfProcessSnoc(registered[1..], rule, process);
    }
  }

  lemma {:induction false} OfProcessEmpty(registered: seq<Rule>, process: string)
    ensures OfProcess(registered, process) == [] <==> forall i :: 0 <= i < |registered| ==> registered[i].processName != process
  {
    if registered != [] {
      OfProcessEmpty(registered[1..], process);
      assert forall i :: 1 <= i < |registered| ==> registered[i] == registered[1..][i - 1];
    }
  }

  /** `@processes` lists, for every process some registered rule belongs to,
      exactly the rules of that process in registration order, and has no
      other key. */
  lemma {:induction false} ProcessesAreRegistrationOrder(registered: seq<Rule>, process: string)
    ensures process in ProcessesOf(registered).entries <==> OfProcess(registered, process) != []
    ensures process in ProcessesOf(registered).entries ==> ProcessesOf(registered).entries[process] == OfProcess(registered, process)
    decreases |registered|
  {
    if registered != [] {
      var n := |registered| - 1;
      ProcessesAreRegistrationOrder(registered[..n], process);
      OfProcessSnoc(registered[..n], registered[n], process);
      assert registered[..n] + [registered[n]] == registered;
    }
  }

  /** Whether `registered[i]` is the last rule registered under its name. */
  ghost predicate LastNamed(registered: seq<Rule>, i: nat)
    requires i < |registered|
  {
    forall j :: i < j < |registered| ==> registered[j].name != registered[i].name
  }

  /** Some registered rule has this name. */
  ghost predicate Named(registered: seq<Rule>, name: string) {
    exists i :: 0 <= i < |registered| && registered[i].name == name
  }

  lemma NamedSnoc(registered: seq<Rule>, rule: Rule, name: string)
    ensures Named(registered + [rule], name) <==> Named(registered, name) || rule.name == name
  {
    var all := registered + [rule];
    if Named(all, name) && rule.name != name {
      var i :| 0 <= i < |all| && all[i].name == name;
      assert registered[i] == all[i];
    }
    if Named(registered, name) {
      var i :| 0 <= i < |registered| && registered[i].name == name;
      assert all[i] == registered[i];
    }
    assert all[|registered|] == rule;
  }

  /** `@rules` holds a key for every registered name, and no other. */
  lemma {:induction false} RulesHoldRegisteredNames(registered: seq<Rule>, name: string)
    ensures name in RulesOf(registered).entries <==> Named(registered, name)
    decreases |registered|
  {
    if registered != [] {
      var n := |registered| - 1;
      RulesHoldRegisteredNames(registered[..n], name);
      NamedSnoc(registered[..n], registered[n], name);
      assert registered[..n] + [registered[n]] == registered;
    }
  }

  /** Under a name, `@rules` holds the rule registered last with that name. */
  lemma {:induction false} RulesHoldLastRegistered(registered: seq<Rule>, i: nat)
    requires i < |registered| && LastNamed(registered, i)
    ensures registered[i].name in RulesOf(registered).entries
    ensures RulesOf(registered).entries[registered[i].name] == registered[i]
    decreases |registered|
  {
    var n := |registered| - 1;
    var init := registered[..n];
    if i < n {
      assert registered[n].name != registered[i].name;
      assert init[i] == registered[i];
      forall j | i < j < |init|
        ensures init[j].name != init[i].name
      {
        assert init[j] == registered[j];
      }
      RulesHoldLastRegistered(init, i);
    }
  }

  // ---------------------------------------------------------------------
  // The rulebook object

  class Rulebook {
    const name: Option<string>
    var rules: Hash<string, Rule>
    var processes: Hash<string, seq<Rule>>
    /** The rules added so far, in order. */
    ghost var registered: seq<Rule>

    ghost predicate Valid()
      reads this
    {
      rules == RulesOf(registered) && processes == ProcessesOf(registered)
    }

    /** `Rulebook.new(name)`: no rules yet. */
    constructor (name: Option<string>)
      ensures Valid() && this.name == name && registered == []
    {
      this.name := name;
      rules := Empty();
      processes := Empty();
      registered := [];
    }

    /** `rulebook << rule`: stores the rule under its name, replacing an
        earlier rule of that name, and appends it to its process's list. */
    method Add(rule: Rule)
      requires Valid()
      modifies this
      ensures Valid() && registered == old(registered) + [rule]
    {
      assert (registered + [rule])[..|registered|] == registered;
      rules := Store(rules, rule.name, rule);
      var key := rule.processName;
      var list := if key in processes.entries then processes.entries[key] else [];
      processes := Store(processes, key, list + [rule]);
      registered := registered + [rule];
    }

    /** `rulebook[name]`: the rule registered last under `name`, or nil. */
    function Lookup(ruleName: string): (r: Option<Rule>)
      requires Valid()
      reads this
      ensures r.Some? <==> Named(registered, ruleName)
      ensures forall i :: 0 <= i < |registered| && registered[i].name == ruleName && LastNamed(registered, i) ==>
        r == Some(registered[i])
    {
      RulesHoldRegisteredNames(registered, ruleName);
      forall i | 0 <= i < |registered| && registered[i].name == ruleName && LastNamed(registered, i)
        ensures Fetch(rules, ruleName) == Some(registered[i])
      {
        RulesHoldLastRegistered(registered, i);
      }
      Fetch(rules, ruleName)
    }

    /** `rulebook.with(superclass, **state)`: the generated task class. */
    function With(kind: TaskKind, state: map<string, Environment>): (tc: TaskClass)
      reads this
      ensures tc.kind == kind && tc.state == state
      ensures Valid() ==> tc.processes == ProcessesOf(registered) && tc.rules == RulesOf(registered)
    {
      TaskClass(kind, processes, rules, state)
    }
  }

  /** The rules `Rule.build` makes of the definitions, in order; None as
      soon as one name has no '.' (an argument error). */
  function BuiltRules(definitions: seq<(string, seq<RuleStep>)>): Option<seq<Rule>> {
    if definitions == [] then Some([])
    else
      var n := |definitions| - 1;
      match BuiltRules(definitions[..n])
      case None => None
      case Some(rules) =>
        match BuildRule(definitions[n].0, definitions[n].1)
        case None => None
        case Some(rule) => Some(rules + [rule])
  }

  /** Some definition's name has no '.'. */
  ghost predicate SomeUndotted(definitions: seq<(string, seq<RuleStep>)>) {
    exists i :: 0 <= i < |definitions| && '.' !in definitions[i].0
  }

  lemma SomeUndottedSnoc(definitions: seq<(string, seq<RuleStep>)>, n: nat)
    requires n < |definitions|
    ensures SomeUndotted(definitions[..n + 1]) <==> SomeUndotted(definitions[..n]) || '.' !in definitions[n].0
  {
    var all := definitions[..n + 1];
    if SomeUndotted(all) && '.' in definitions[n].0 {
      var i :| 0 <= i < |all| && '.' !in all[i].0;
      assert definitions[..n][i] == all[i];
    }
    if SomeUndotted(definitions[..n]) {
      var i :| 0 <= i < n && '.' !in definitions[..n][i].0;
      assert all[i] == definitions[..n][i];
    }
  }

  /** Building fails exactly when some name has no '.'. */
  lemma {:induction false} BuiltRulesFail(definitions: seq<(string, seq<RuleStep>)>)
    ensures BuiltRules(definitions).None? <==> SomeUndotted(definitions)
    decreases |definitions|
  {
    if definitions != [] {
      var n := |definitions| - 1;
      BuiltRulesFail(definitions[..n]);
      SomeUndottedSnoc(definitions, n);
      assert definitions[..n + 1] == definitions;
    }
  }

  lemma BuiltRulesLast(definitions: seq<(string, seq<RuleStep>)>)
    requires definitions != [] && BuiltRules(definitions).Some?
    ensures var n := |definitions| - 1;
      && BuiltRules(definitions[..n]).Some?
      && BuildRule(definitions[n].0, definitions[n].1).Some?
      && BuiltRules(definitions).value
        == BuiltRules(definitions[..n]).value + [BuildRule(definitions[n].0, definitions[n].1).value]
  {
  }

  /** `rules` holds one rule per definition, in order, named as the
      definition and with the parameters its block declares. */
  ghost predicate Shaped(rules: seq<Rule>, definitions: seq<(string, seq<RuleStep>)>) {
    && |rules| == |definitions|
    && forall i :: 0 <= i < |definitions| ==>
      rules[i].name == definitions[i].0 && rules[i].parameters == DeclaredParameters(definitions[i].1)
  }

  lemma ShapedSnoc(rules: seq<Rule>, rule: Rule, definitions: seq<(string, seq<RuleStep>)>)
    requires definitions != [] && Shaped(rules, definitions[..|definitions| - 1])
    requires rule.name == definitions[|definitions| - 1].0
    requires rule.parameters == DeclaredParameters(definitions[|definitions| - 1].1)
    ensures Shaped(rules + [rule], definitions)
  {
    var n := |definitions| - 1;
    forall i | 0 <= i < n
      ensures (rules + [rule])[i].name == definitions[i].0
      ensures (rules + [rule])[i].parameters == DeclaredParameters(definitions[i].1)
    {
      assert definitions[..n][i] == definitions[i];
    }
  }

  /** One rule per definition, named as the definition, with the parameters
      its block declares. */
  lemma {:induction false} BuiltRulesShape(definitions: seq<(string, seq<RuleStep>)>)
    requires BuiltRules(definitions).Some?
    ensures Shaped(BuiltRules(definitions).value, definitions)
    decreases |definitions|
  {
    if definitions != [] {
      var n := |definitions| - 1;
      BuiltRulesLast(definitions);
      BuiltRulesShape(definitions[..n]);
      ShapedSnoc(BuiltRules(definitions[..n]).value, BuildRule(definitions[n].0, definitions[n].1).value, definitions);
    }
  }

  lemma BuiltRulesPrefix(definitions: seq<(string, seq<RuleStep>)>, i: nat)
    requires i <= |definitions| && BuiltRules(definitions[..i]).None?
    ensures BuiltRules(definitions).None?
  {
    BuiltRulesFail(definitions[..i]);
    BuiltRulesFail(definitions);
    var j :| 0 <= j < i && '.' !in definitions[..i][j].0;
    assert definitions[j] == definitions[..i][j];
  }

  /** One more definition: its rule is appended, or building fails. */
  lemma BuiltRulesStep(definitions: seq<(string, seq<RuleStep>)>, i: nat, registered: seq<Rule>)
    requires i < |definitions| && BuiltRules(definitions[..i]) == Some(registered)
    ensures BuildRule(definitions[i].0, definitions[i].1).None? ==> BuiltRules(definitions[..i + 1]).None?
    ensures BuildRule(definitions[i].0, definitions[i].1).Some? ==>
      BuiltRules(definitions[..i + 1]) == Some(registered + [BuildRule(definitions[i].0, definitions[i].1).value])
  {
    assert definitions[..i + 1][..i] == definitions[..i];
  }

  /** The name of the first definition `Rule.build` refuses. */
  function BadDefinition(definitions: seq<(string, seq<RuleStep>)>): string {
    if definitions == [] then ""
    else if '.' !in definitions[0].0 then definitions[0].0
    else BadDefinition(definitions[1..])
  }

  /** `Rulebook.for(environment)`: a rulebook named as the environment,
      holding one built rule per rule definition of the environment's own
      level, in definition order. A definition whose name has no '.' makes
      `Rule.build` raise: `error` names it. */
  method For(e: Environment) returns (book: Rulebook, error: Option<string>)
    ensures fresh(book) && book.Valid() && book.name == e.layer.name
    ensures error.None? <==> BuiltRules(Defined(e)).Some?
    ensures error.None? ==> book.registered == BuiltRules(Defined(e)).value
    ensures error.Some? ==> error.value == BadDefinition(Defined(e))
  {
    book := new Rulebook(e.layer.name);
    var definitions := Defined(e);
    var i := 0;
    while i < |definitions|
      invariant 0 <= i <= |definitions|
      invariant book.Valid() && book.name == e.layer.name
      invariant BuiltRules(definitions[..i]) == Some(book.registered)
      invariant BadDefinition(definitions) == BadDefinition(definitions[i..])
    {
      BuiltRulesStep(definitions, i, book.registered);
      var rule := Build(definitions[i].0, definitions[i].1);
      if rule.None? {
        BuiltRulesPrefix(definitions, i + 1);
        return book, Some(definitions[i].0);
      }
      assert definitions[i..][1..] == definitions[i + 1..];
      book.Add(rule.value);
      i := i + 1;
    }
    assert definitions[..i] == definitions;
    error := None;
  }

  // ---------------------------------------------------------------------
  // Generated task classes and their dispatch

  /** The task classes the engine derives from: `Task`, `BuildTask`,
      `DependencyTask` and `ProvisionTask`. */
  datatype TaskKind = PlainTask | BuildTask | DependencyTask | ProvisionTask

  /** A task class: its base, and the methods `Rulebook#with` defined on it. */
  datatype TaskClass = TaskClass(
    kind: TaskKind,
    processes: Hash<string, seq<Rule>>,
    rules: Hash<string, Rule>,
    state: map<string, Environment>)

  /** One of the base classes itself, without generated methods. */
  function BaseClass(kind: TaskKind): (tc: TaskClass)
    ensures tc.kind == kind && tc.state == map[]
    ensures tc.processes.entries == map[] && tc.rules.entries == map[]
  {
    TaskClass(kind, Empty(), Empty(), map[])
  }

  /** The first rule that applies to `arguments` (`rules.find`). */
  function FirstApplicable(rules: seq<Rule>, arguments: Arguments): (r: Option<Rule>)
    ensures r.None? <==> forall i :: 0 <= i < |rules| ==> !Applicable(rules[i], arguments)
    ensures r.Some? ==> exists i :: (0 <= i < |rules| && rules[i] == r.value && Applicable(rules[i], arguments)
      && forall j :: 0 <= j < i ==> !Applicable(rules[j], arguments))
  {
    if rules == [] then None
    else if Applicable(rules[0], arguments) then Some(rules[0])
    else
      var r := FirstApplicable(rules[1..], arguments);
      assert forall i :: 1 <= i < |rules| ==> rules[i] == rules[1..][i - 1];
      r
  }

  /** The first registered rule of `process` that applies. */
  function FirstRegistered(registered: seq<Rule>, process: string, arguments: Arguments): Option<Rule> {
    if registered == [] then None
    else if registered[0].processName == process && Applicable(registered[0], arguments) then Some(registered[0])
    else FirstRegistered(registered[1..], process, arguments)
  }

  /** Searching the process's list finds the first rule of that process, in
      registration order, that applies. */
  lemma {:induction false} FirstApplicableOfProcess(registered: seq<Rule>, process: string, arguments: Arguments)
    ensures FirstApplicable(OfProcess(registered, process), arguments) == FirstRegistered(registered, process, arguments)
  {
    if registered != [] {
      FirstApplicableOfProcess(registered[1..], process, arguments);
      var rest := OfProcess(registered[1..], process);
      if registered[0].processName == process {
        assert OfProcess(registered, process) == [registered[0]] + rest;
        assert ([registered[0]] + rest)[1..] == rest;
      } else {
        assert OfProcess(registered, process) == rest;
      }
    }
  }

  /** The rule of the fully named method `selector`: generated in the order
      of `keys`, so the last rule with that full name wins. */
  function FullNamed(keys: seq<string>, entries: map<string, Rule>, selector: string): (r: Option<Rule>)
    ensures r.None? <==> forall i :: 0 <= i < |keys| && keys[i] in entries ==> entries[keys[i]].fullName != selector
    ensures r.Some? ==> exists i :: (0 <= i < |keys| && keys[i] in entries && entries[keys[i]] == r.value
      && r.value.fullName == selector
      && forall j :: i < j < |keys| && keys[j] in entries ==> entries[keys[j]].fullName != selector)
  {
    if keys == [] then None
    else
      var n := |keys| - 1;
      if keys[n] in entries && entries[keys[n]].fullName == selector then Some(entries[keys[n]])
      else
        var r := FullNamed(keys[..n], entries, selector);
        assert forall i :: 0 <= i < n ==> keys[..n][i] == keys[i];
        r
  }

  /** What a generated method does when called. */
  datatype Method =
    | StateReader(value: Environment)
    | RuleMethod(rule: Rule)
    | ProcessMethod(process: string, candidates: seq<Rule>)
    | Inherited

  /** The method `selector` names on the class: state accessors were defined
      last and shadow everything, full-name methods shadow process methods;
      anything else is left to the base class. */
  function Resolve(tc: TaskClass, selector: string): (m: Method)
    ensures selector in tc.state ==> m == StateReader(tc.state[selector])
    ensures selector !in tc.state ==>
      match FullNamed(tc.rules.keys, tc.rules.entries, selector)
      case Some(rule) => m == RuleMethod(rule)
      case None =>
        if selector in tc.processes.entries then m == ProcessMethod(selector, tc.processes.entries[selector])
        else m == Inherited
  {
    if selector in tc.state then StateReader(tc.state[selector])
    else match FullNamed(tc.rules.keys, tc.rules.entries, selector)
      case Some(rule) => RuleMethod(rule)
      case None =>
        if selector in tc.processes.entries then ProcessMethod(selector, tc.processes.entries[selector])
        else Inherited
  }

  /** The outcome of calling a generated method. */
  datatype Dispatched =
    | Invoke(rule: Rule)
    | Read(value: Environment)
    | NoRule(error: NoApplicableRule)
    | NoSuchMethod(selector: string)

  /** Calling `selector` with `arguments`: a process method invokes its first
      applicable rule or raises `NoApplicableRule(process, arguments)`; a
      full-name method invokes its rule whether or not it applies. */
  function Dispatch(tc: TaskClass, selector: string, arguments: Arguments): (d: Dispatched)
    ensures d.NoSuchMethod? <==> Resolve(tc, selector).Inherited?
    ensures Resolve(tc, selector).RuleMethod? ==> d == Invoke(Resolve(tc, selector).rule)
    ensures Resolve(tc, selector).ProcessMethod? ==>
      (d.NoRule? <==> forall i :: 0 <= i < |Resolve(tc, selector).candidates| ==> !Applicable(Resolve(tc, selector).candidates[i], arguments))
    ensures d.NoRule? ==> d.error == NoApplicableRule(selector, arguments)
    ensures d.Invoke? && Resolve(tc, selector).ProcessMethod? ==> Applicable(d.rule, arguments)
  {
    match Resolve(tc, selector)
    case StateReader(value) => Read(value)
    case RuleMethod(rule) => Invoke(rule)
    case ProcessMethod(process, candidates) =>
      (match FirstApplicable(candidates, arguments)
       case Some(rule) => Invoke(rule)
       case None => NoRule(NoApplicableRule(process, arguments)))
    case Inherited => NoSuchMethod(selector)
  }

  /** Through a rulebook's generated class, a process name not shadowed by
      state or a full name invokes the first rule registered for that
      process that applies, and raises `NoApplicableRule` when rules exist
      but none applies. */
  lemma ProcessDispatchFollowsRegistration(book: Rulebook, kind: TaskKind, state: map<string, Environment>,
                                           process: string, arguments: Arguments)
    requires book.Valid()
    requires process !in state
    requires forall i :: 0 <= i < |book.registered| ==> book.registered[i].fullName != process
    requires exists i :: 0 <= i < |book.registered| && book.registered[i].processName == process
    ensures var d := Dispatch(book.With(kind, state), process, arguments);
      match FirstRegistered(book.registered, process, arguments)
      case Some(rule) => d == Invoke(rule)
      case None => d == NoRule(NoApplicableRule(process, arguments))
  {
    var tc := book.With(kind, state);
    var registered := book.registered;
    forall i | 0 <= i < |tc.rules.keys| && tc.rules.keys[i] in tc.rules.entries
      ensures tc.rules.entries[tc.rules.keys[i]].fullName != process
    {
      var key := tc.rules.keys[i];
      RulesHoldRegisteredNames(registered, key);
      var j :| 0 <= j < |registered| && registered[j].name == key;
      var last := LastIndexNamed(registered, key, j);
      RulesHoldLastRegistered(registered, last);
    }
    OfProcessEmpty(registered, process);
    ProcessesAreRegistrationOrder(registered, process);
    FirstApplicableOfProcess(registered, process, arguments);
  }

  /** The last index at or after `j` holding a rule named `key`. */
  lemma {:induction false} LastIndexNamed(registered: seq<Rule>, key: string, j: nat) returns (last: nat)
    requires j < |registered| && registered[j].name == key
    ensures j <= last < |registered| && registered[last].name == key && LastNamed(registered, last)
    decreases |registered| - j
  {
    if LastNamed(registered, j) {
      return j;
    }
    var k :| j < k < |registered| && registered[k].name == key;
    last := LastIndexNamed(registered, key, k);
  }
}
