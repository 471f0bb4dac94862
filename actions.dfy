/** What the blocks of a build description do, as data: a block evaluated
    inside a task yields the commands the task then performs in order. */
module Actions {
  import opened Values

  /** One element of a spawned argument vector: a Hash of environment
      variables (as `run!` prepends) or a word. */
  datatype Arg = EnvironmentArg(variables: map<string, Value>) | Word(word: string)

  type Argv = seq<Arg>

  /** A step of a block: one of the task's primitives, or a call of a method
      of the task's class (a process or a fully named rule, or a bound state
      accessor), optionally with a block that is run after the rule. */
  datatype Command =
    | Touch(path: string)
    | Copy(source: string, destination: string)
    | Remove(path: string)
    | MakePath(path: string)
    | Install(source: string, destination: string)
    | Write(path: string, data: string, mode: string)
    | Spawn(argv: Argv)
    | Run(argv: Argv)
    | Call(selector: string, arguments: Arguments, callback: Option<Action>)

  /** A block taking the (normalised) arguments: a rule's `apply` block, or
      the block given when a rule is invoked. */
  type Action = Arguments -> seq<Command>

  /** Whether any step calls into the task's class (and so may invoke rules). */
  predicate HasCalls(commands: seq<Command>) {
    exists i :: 0 <= i < |commands| && commands[i].Call?
  }
}
