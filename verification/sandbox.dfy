/** `safe_execute`: running the generated program in a fresh namespace
    that binds only an empty built-ins table, the dataset and the
    mail-sending function, and absorbing every fault it raises. */
module Sandbox {
  import opened Base

  /** The Python values the namespace can hold, as far as the pipeline
      distinguishes them. */
  datatype Value =
    | Frame(data: Dataset)              // a DataFrame
    | BuiltinsTable(names: set<string>) // the `__builtins__` mapping
    | SendEmailFunction                 // the `send_email` callable
    | Other(repr: string)               // anything else the program binds

  /** A Python globals dictionary. */
  type Env = map<string, Value>

  /** How `exec(code, env)` ended: an exception, or normal completion with
      the namespace as the program left it. Either way `input` is the
      DataFrame object the namespace first bound to `df`, as the program
      left it: that object is the caller's own, so a program may change it
      in place (`df['x'] = ...`, `inplace=True`) before it raises or
      unbinds `df`. */
  datatype ExecOutcome =
    | Fault(error: string, input: Dataset)
    | Completed(env: Env, input: Dataset)

  /** `exec`, consulted with the batch position of the message, the program
      text and the namespace it is given. */
  type Executor = (nat, string, Env) -> ExecOutcome

  const BuiltinsName := "__builtins__"
  const DatasetName := "df"
  const SendEmailName := "send_email"

  /** The namespace handed to the program: exactly three names, with no
      built-ins, the dataset, and the mail-sending capability. */
  function FreshEnv(df: Dataset): (env: Env)
    ensures env.Keys == {BuiltinsName, DatasetName, SendEmailName}
    ensures env[BuiltinsName] == BuiltinsTable({})
    ensures env[DatasetName] == Frame(df)
    ensures env[SendEmailName] == SendEmailFunction
    ensures forall name :: name in env && env[name].Frame? ==> name == DatasetName
  {
    map[BuiltinsName := BuiltinsTable({}), DatasetName := Frame(df), SendEmailName := SendEmailFunction]
  }

  /** `safe_execute(code, df)`. It never raises: a fault yields the
      caller's DataFrame object in whatever state the program left it;
      normal completion yields whatever `df` is bound to afterwards, or
      that same object when the program unbound `df`. */
  function SafeExecute(k: nat, code: string, df: Dataset, exec: Executor): (v: Value)
    ensures exec(k, code, FreshEnv(df)).Fault? ==> v == Frame(exec(k, code, FreshEnv(df)).input)
    ensures exec(k, code, FreshEnv(df)).Completed? && DatasetName in exec(k, code, FreshEnv(df)).env
            ==> v == exec(k, code, FreshEnv(df)).env[DatasetName]
    ensures exec(k, code, FreshEnv(df)).Completed? && DatasetName !in exec(k, code, FreshEnv(df)).env
            ==> v == Frame(exec(k, code, FreshEnv(df)).input)
    ensures v == Frame(exec(k, code, FreshEnv(df)).input)
            || (exec(k, code, FreshEnv(df)).Completed?
                && DatasetName in exec(k, code, FreshEnv(df)).env
                && v == exec(k, code, FreshEnv(df)).env[DatasetName])
  {
    match exec(k, code, FreshEnv(df))
    case Fault(_, input) => Frame(input)
    case Completed(env, input) => if DatasetName in env then env[DatasetName] else Frame(input)
  }

  /** The program sees nothing but the fresh namespace: two interpreters
      that agree on it give the same result, whatever they do elsewhere. */
  lemma SafeExecuteSeesOnlyFreshEnv(k: nat, code: string, df: Dataset, e1: Executor, e2: Executor)
    requires e1(k, code, FreshEnv(df)) == e2(k, code, FreshEnv(df))
    ensures SafeExecute(k, code, df, e1) == SafeExecute(k, code, df, e2)
  {
  }

  /** A program that leaves the caller's object as it found it, and then
      raises, unbinds `df` or leaves `df` bound to the input, hands back
      the dataset it was given. */
  lemma UntouchedInputIsKept(k: nat, code: string, df: Dataset, exec: Executor)
    requires exec(k, code, FreshEnv(df)).input == df
    requires exec(k, code, FreshEnv(df)).Fault?
             || DatasetName !in exec(k, code, FreshEnv(df)).env
             || exec(k, code, FreshEnv(df)).env[DatasetName] == FreshEnv(df)[DatasetName]
    ensures SafeExecute(k, code, df, exec) == Frame(df)
  {
  }

  /** The fallback does not restore the input: a program that changed the
      caller's object in place and then raised hands back the changed
      object, not the dataset it was given. */
  lemma InPlaceChangeSurvivesFault(k: nat, code: string, df: Dataset, changed: Dataset)
    requires changed != df
    ensures var exec := (k': nat, c: string, e: Env) => Fault("KeyError", changed);
            SafeExecute(k, code, df, exec) == Frame(changed) && SafeExecute(k, code, df, exec) != Frame(df)
  {
    var exec := (k': nat, c: string, e: Env) => Fault("KeyError", changed);
    assert exec(k, code, FreshEnv(df)) == Fault("KeyError", changed);
  }
}
