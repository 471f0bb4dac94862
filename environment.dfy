/** Environments, as far as the build engine uses them: a chain of levels
    (root first), each with an optional name and an insertion-ordered hash of
    values and rule definitions. The engine combines environments by
    concatenating their chains, evaluates a chain into a single flat level
    in which later levels win, detaches an environment from its parent, and
    lets provision blocks add keys to an environment under construction. */
module Environments {
  import opened Values
  import opened OrderedHashes
  import opened Actions
  import opened Rules

  /** What a key holds: a plain value, or a rule definition
      (`define Build::Rule, "make.file" do ... end`), kept as the steps of its block. */
  datatype Entry = Literal(value: Value) | Define(steps: seq<RuleStep>)

  type Entries = h: Hash<string, Entry> | Valid(h) witness Hash([], map[])

  /** One level: its own name and key/value hash. */
  datatype Layer = Layer(name: Option<string>, values: Entries)

  /** An environment and its parent chain. */
  datatype Environment = Environment(parent: Option<Environment>, layer: Layer)

  /** The levels of the chain, root first; the environment's own level is last. */
  function Levels(e: Environment): (r: seq<Layer>)
    ensures |r| >= 1 && r[|r| - 1] == e.layer
    ensures e.parent.None? <==> |r| == 1
    decreases e
  {
    match e.parent
    case None => [e.layer]
    case Some(p) => Levels(p) + [e.layer]
  }

  /** The parent's levels, or none for a root. */
  function ParentLevels(parent: Option<Environment>): seq<Layer> {
    match parent
    case None => []
    case Some(p) => Levels(p)
  }

  /** Levels stacked one on another over `parent`, each becoming the parent
      of the next: `ordered.inject(parent) {|parent, level| level.dup(parent: parent)}`. */
  function Stack(parent: Option<Environment>, layers: seq<Layer>): (r: Option<Environment>)
    ensures r.None? <==> (parent.None? && layers == [])
    decreases |layers|
  {
    if layers == [] then parent
    else Stack(Some(Environment(parent, layers[0])), layers[1..])
  }

  /** Stacking levels over a parent yields the parent's levels followed by them. */
  lemma {:induction false} StackLevels(parent: Option<Environment>, layers: seq<Layer>)
    requires parent.Some? || layers != []
    ensures Levels(Stack(parent, layers).value) == ParentLevels(parent) + layers
    decreases |layers|
  {
    if layers != [] {
      var next := Some(Environment(parent, layers[0]));
      StackLevels(next, layers[1..]);
      assert ParentLevels(next) == ParentLevels(parent) + [layers[0]];
      assert [layers[0]] + layers[1..] == layers;
    }
  }

  /** Stacking in two rounds is stacking once. */
  lemma {:induction false} StackAppend(parent: Option<Environment>, a: seq<Layer>, b: seq<Layer>)
    ensures Stack(parent, a + b) == Stack(Stack(parent, a), b)
    decreases |a|
  {
    if a == [] {
      assert a + b == b;
    } else {
      assert (a + b)[0] == a[0];
      assert (a + b)[1..] == a[1..] + b;
      StackAppend(Some(Environment(parent, a[0])), a[1..], b);
    }
  }

  /** Restacking the levels of an environment gives it back. */
  lemma {:induction false} StackOfLevels(e: Environment)
    ensures Stack(None, Levels(e)) == Some(e)
    decreases e
  {
    match e.parent
    case None =>
    case Some(p) =>
      StackOfLevels(p);
      StackAppend(None, Levels(p), [e.layer]);
  }

  /** The levels of every environment in turn. */
  function AllLevels(es: seq<Environment>): seq<Layer> {
    if es == [] then [] else AllLevels(es[..|es| - 1]) + Levels(es[|es| - 1])
  }

  lemma AllLevelsSnoc(es: seq<Environment>, e: Environment)
    ensures AllLevels(es + [e]) == AllLevels(es) + Levels(e)
  {
    assert (es + [e])[..|es|] == es;
  }

  /** Proof helper: concatenation regrouped, kept apart so that the proof
      using it does not search for the regrouping itself. */
  lemma ConcatAssociative<T>(a: seq<T>, b: seq<T>, c: seq<T>)
    ensures (a + b) + c == a + (b + c)
  {
  }

  /** The levels of two lists of environments are the levels of each, in turn. */
  lemma {:induction false} AllLevelsAppend(a: seq<Environment>, b: seq<Environment>)
    ensures AllLevels(a + b) == AllLevels(a) + AllLevels(b)
    decreases |b|
  {
    if b == [] {
      assert a + b == a;
    } else {
      var n := |b| - 1;
      var init := b[..n];
      assert b == init + [b[n]];
      assert a + b == (a + init) + [b[n]];
      AllLevelsSnoc(a + init, b[n]);
      AllLevelsSnoc(init, b[n]);
      AllLevelsAppend(a, init);
      ConcatAssociative(AllLevels(a), AllLevels(init), Levels(b[n]));
    }
  }

  /** `Environment.combine(*environments)`: nil for no environments, else
      one chain made of all their levels in argument order. */
  function Combine(es: seq<Environment>): (r: Option<Environment>)
    ensures r.None? <==> es == []
    ensures r.Some? ==> Levels(r.value) == AllLevels(es)
  {
    if es == [] then None
    else
      assert AllLevels(es) != [] by {
        assert es == es[..|es| - 1] + [es[|es| - 1]];
      }
      StackLevels(None, AllLevels(es));
      Stack(None, AllLevels(es))
  }

  /** Combining one environment gives it back unchanged. */
  lemma CombineOne(e: Environment)
    ensures Combine([e]) == Some(e)
  {
    assert [e][..0] == [];
    assert AllLevels([e]) == Levels(e);
    StackOfLevels(e);
  }

  /** Combining is associative: a combined prefix may stand for its parts. */
  lemma CombineAssociative(a: seq<Environment>, b: seq<Environment>)
    requires a != []
    ensures Combine(a + b) == Combine([Combine(a).value] + b)
  {
    var c := Combine(a).value;
    AllLevelsAppend(a, b);
    AllLevelsAppend([c], b);
    assert [c][..0] == [];
    assert AllLevels([c]) == Levels(c) == AllLevels(a);
    assert AllLevels(a + b) == AllLevels([c] + b);
    assert a + b != [] && [c] + b != [];
  }

  /** `Environment.new(parent, name: name)`: an empty level over `parent`. */
  function New(parent: Option<Environment>, name: Option<string>): (e: Environment)
    ensures Levels(e) == ParentLevels(parent) + [Layer(name, Empty())]
  {
    Environment(parent, Layer(name, Empty()))
  }

  /** `environment.dup(parent: nil, name: name)`: the environment's own
      level alone, renamed. */
  function Detach(e: Environment, name: Option<string>): (r: Environment)
    ensures Levels(r) == [e.layer.(name := name)]
  {
    Environment(None, e.layer.(name := name))
  }

  // ---------------------------------------------------------------------
  // Evaluation

  /** The hash of each level stored in turn, so a later level's value wins
      and a key keeps the position where it first appeared. */
  function Flat(layers: seq<Layer>): Entries {
    if layers == [] then Empty()
    else
      var n := |layers| - 1;
      StoreAll(Flat(layers[..n]), layers[n].values.keys, layers[n].values.entries)
  }

  /** Some level holds the key. */
  ghost predicate InSomeLevel(layers: seq<Layer>, k: string) {
    exists i :: 0 <= i < |layers| && k in layers[i].values.entries
  }

  lemma InSomeLevelSnoc(layers: seq<Layer>, layer: Layer, k: string)
    ensures InSomeLevel(layers + [layer], k) <==> InSomeLevel(layers, k) || k in layer.values.entries
  {
    var all := layers + [layer];
    if InSomeLevel(all, k) {
      var i :| 0 <= i < |all| && k in all[i].values.entries;
      if i < |layers| {
        assert all[i] == layers[i];
      }
    }
    if InSomeLevel(layers, k) {
      var i :| 0 <= i < |layers| && k in layers[i].values.entries;
      assert all[i] == layers[i];
    }
    assert all[|layers|] == layer;
  }

  /** Flattening one more level stores that level's hash over the rest. */
  lemma FlatSnoc(layers: seq<Layer>, layer: Layer)
    ensures Flat(layers + [layer]) == StoreAll(Flat(layers), layer.values.keys, layer.values.entries)
  {
    assert (layers + [layer])[..|layers|] == layers;
  }

  /** Storing a valid hash's keys stores exactly its entries. */
  lemma StoreLayer(acc: Entries, layer: Layer, k: string)
    ensures var r := StoreAll(acc, layer.values.keys, layer.values.entries);
      && (k in r.entries <==> k in acc.entries || k in layer.values.entries)
      && (k in layer.values.entries ==> r.entries[k] == layer.values.entries[k])
      && (k !in layer.values.entries && k in acc.entries ==> r.entries[k] == acc.entries[k])
  {
    StoreAllEntries(acc, layer.values.keys, layer.values.entries, k);
    KeySetMembers(layer.values.keys, k);
  }

  /** A key is in the flattened hash iff some level holds it. */
  lemma {:induction false} FlatMembers(layers: seq<Layer>, k: string)
    ensures k in Flat(layers).entries <==> InSomeLevel(layers, k)
    decreases |layers|
  {
    if layers != [] {
      var n := |layers| - 1;
      var init := layers[..n];
      assert layers == init + [layers[n]];
      FlatMembers(init, k);
      FlatSnoc(init, layers[n]);
      StoreLayer(Flat(init), layers[n], k);
      InSomeLevelSnoc(init, layers[n], k);
    }
  }

  /** Later levels win: a key of the last level has that level's value,
      any other key the value it has in the earlier levels. */
  lemma FlatLaterWins(layers: seq<Layer>, layer: Layer, k: string)
    requires k in Flat(layers + [layer]).entries
    ensures k in layer.values.entries ==> Flat(layers + [layer]).entries[k] == layer.values.entries[k]
    ensures k !in layer.values.entries ==> k in Flat(layers).entries && Flat(layers + [layer]).entries[k] == Flat(layers).entries[k]
  {
    FlatSnoc(layers, layer);
    StoreLayer(Flat(layers), layer, k);
  }

  /** A single hash, flattened, is itself. */
  lemma FlatOne(layer: Layer)
    ensures Flat([layer]) == layer.values
  {
    assert [layer][..0] == [];
    StoreAllCopies(layer.values);
  }

  /** `environment.evaluate(name: name)`: one root level holding the
      flattened chain, under the given name. */
  function Evaluate(e: Environment, name: Option<string>): (r: Environment)
    ensures r.parent.None? && r.layer.name == name
  {
    Environment(None, Layer(name, Flat(Levels(e))))
  }

  /** Evaluating an evaluated environment changes nothing but its name. */
  lemma EvaluateIdempotent(e: Environment, name: Option<string>, other: Option<string>)
    ensures Evaluate(Evaluate(e, other), name) == Evaluate(e, name)
  {
    FlatOne(Evaluate(e, other).layer);
  }

  /** `environment.flatten.export`: the plain values the whole chain defines,
      the later level winning (rule definitions are not exported). */
  function Export(e: Environment): (r: map<string, Value>)
    ensures forall k :: k in r <==> k in Flat(Levels(e)).entries && Flat(Levels(e)).entries[k].Literal?
  {
    var flat := Flat(Levels(e)).entries;
    map k | k in flat && flat[k].Literal? :: flat[k].value
  }

  /** `environment.defined`: the rule definitions of the environment's own
      level, in the order their keys were first defined. */
  function Defined(e: Environment): (r: seq<(string, seq<RuleStep>)>)
    ensures |r| <= |e.layer.values.keys|
  {
    Definitions(e.layer.values.keys, e.layer.values.entries)
  }

  function Definitions(keys: seq<string>, entries: map<string, Entry>): (r: seq<(string, seq<RuleStep>)>)
    ensures forall d <- r :: d.0 in keys && d.0 in entries && entries[d.0] == Define(d.1)
    ensures |r| <= |keys|
  {
    if keys == [] then []
    else
      var rest := Definitions(keys[1..], entries);
      if keys[0] in entries && entries[keys[0]].Define? then [(keys[0], entries[keys[0]].steps)] + rest else rest
  }

  /** `defined` lists a name with its steps exactly when the own level
      holds that name as a rule definition with those steps. */
  lemma DefinedExactly(e: Environment, name: string, steps: seq<RuleStep>)
    ensures (name, steps) in Defined(e) <==> name in e.layer.values.entries && e.layer.values.entries[name] == Define(steps)
  {
    if name in e.layer.values.entries && e.layer.values.entries[name] == Define(steps) {
      KeySetMembers(e.layer.values.keys, name);
      DefinitionsComplete(e.layer.values.keys, e.layer.values.entries, name);
    }
  }

  /** Every definition of the own level is listed. */
  lemma {:induction false} DefinitionsComplete(keys: seq<string>, entries: map<string, Entry>, k: string)
    requires k in keys && k in entries && entries[k].Define?
    ensures (k, entries[k].steps) in Definitions(keys, entries)
  {
    if keys[0] != k {
      DefinitionsComplete(keys[1..], entries, k);
    }
  }

  // ---------------------------------------------------------------------
  // Construction

  /** What a provision block does with the environment under construction
      (`construct!`): set a key, or call a method of the task. */
  datatype ConstructStep = Bind(key: string, entry: Entry) | Do(command: Command)

  /** A provision's block, given the build arguments. */
  type Constructor = seq<Value> -> seq<ConstructStep>

  /** The environment after the steps' bindings, stored in its own level. */
  function Bound(e: Environment, steps: seq<ConstructStep>): (r: Environment)
    ensures r.parent == e.parent && r.layer.name == e.layer.name
    ensures forall k :: k in e.layer.values.entries ==> k in r.layer.values.entries
    decreases |steps|
  {
    if steps == [] then e
    else
      var next := match steps[0]
        case Bind(key, entry) => e.(layer := e.layer.(values := Store(e.layer.values, key, entry)))
        case Do(_) => e;
      Bound(next, steps[1..])
  }

  lemma {:induction false} BoundSnoc(e: Environment, steps: seq<ConstructStep>, step: ConstructStep)
    ensures Bound(e, steps + [step]) == Bound(Bound(e, steps), [step])
    decreases |steps|
  {
    if steps != [] {
      assert (steps + [step])[1..] == steps[1..] + [step];
      var next := match steps[0]
        case Bind(key, entry) => e.(layer := e.layer.(values := Store(e.layer.values, key, entry)))
        case Do(_) => e;
      BoundSnoc(next, steps[1..], step);
    }
  }

  lemma {:induction false} BoundAppend(e: Environment, a: seq<ConstructStep>, b: seq<ConstructStep>)
    ensures Bound(e, a + b) == Bound(Bound(e, a), b)
    decreases |a|
  {
    if a != [] {
      assert (a + b)[0] == a[0];
      assert (a + b)[1..] == a[1..] + b;
      var next := match a[0]
        case Bind(key, entry) => e.(layer := e.layer.(values := Store(e.layer.values, key, entry)))
        case Do(_) => e;
      BoundAppend(next, a[1..], b);
    } else {
      assert a + b == b;
    }
  }

  /** A key bound by the last step holds what it was bound to. */
  lemma BoundLastWins(e: Environment, steps: seq<ConstructStep>, key: string, entry: Entry)
    ensures var r := Bound(e, steps + [Bind(key, entry)]);
      key in r.layer.values.entries && r.layer.values.entries[key] == entry
  {
    BoundSnoc(e, steps, Bind(key, entry));
  }
}
