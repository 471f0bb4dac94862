/** The Ruby values that flow through rule arguments: nil, booleans, numbers,
    strings (symbols and paths included) and arrays, together with Ruby's
    notion of truthiness and the `Kernel#Array` conversion. */
module Values {

  datatype Option<+T> = None | Some(value: T)

  datatype Value =
    | Nil
    | Bool(b: bool)
    | Int(i: int)
    | Str(s: string)
    | List(items: seq<Value>)

  /** An argument map, keyed by the (symbol) names of rule parameters. */
  type Arguments = map<string, Value>

  /** What a block evaluated inside a task can see of that task: the values
      of the environment bound to the task's class (empty when none is bound). */
  type Scope = map<string, Value>

  /** Ruby truthiness: only `nil` and `false` are falsy. */
  predicate Truthy(v: Value) {
    !(v.Nil? || v == Bool(false))
  }

  /** `arguments[name]`: the bound value, or `nil` for a missing key. */
  function Get(arguments: Arguments, name: string): (v: Value)
    ensures name !in arguments ==> v == Nil
  {
    if name in arguments then arguments[name] else Nil
  }

  /** `Kernel#Array(value)`: nil becomes the empty array, an array stays
      itself, anything else is wrapped. */
  function ToArray(v: Value): (items: seq<Value>)
    ensures v.Nil? <==> (items == [] && !v.List?)
    ensures !v.Nil? && !v.List? ==> items == [v]
  {
    match v
    case Nil => []
    case List(items) => items
    case _ => [v]
  }
}
