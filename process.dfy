/**
 * Child processes as the route handlers see them. Spawning, the stdout and
 * stderr listeners and the 'close' and 'error' events are not modelled; a
 * process is represented by the command line it was started with and by the
 * outcome its listeners report.
 */
module Process {
  import opened Js

  /** How a spawned process ended, as its listeners observe it: the 'error'
      event (the program could not be started), or the 'close' event with the
      exit code (`None` when a signal ended the process) and what the process
      wrote to stdout and stderr. `Out` is the stdout text, or what a handler
      made of it. */
  datatype Exit<Out> =
    | SpawnError(message: string)
    | Closed(code: Option<int>, stdout: Out, stderr: string)
  {
    /** `code === 0` in a 'close' listener. */
    predicate ExitedZero()
    {
      Closed? && code == Some(0)
    }
  }

  /** How a promise built around a process settles. */
  datatype Settled<T> = Resolved(value: T) | Rejected(message: string)

  /** A command line: the program and its argument vector. */
  datatype Invocation = Invocation(program: string, args: seq<string>)

  /** The value a program reads for the option `flag`: the argument right
      after `flag`. Every command line of the routes names each option once,
      so which of several occurrences a program would honour does not arise;
      this reading takes the first. */
  function OptionValue(args: seq<string>, flag: string): (v: Option<string>)
    ensures v.Some? ==> exists i :: 0 <= i < |args| - 1 && args[i] == flag && flag !in args[..i] && v.value == args[i + 1]
    ensures v.None? <==> flag !in args || (args[|args| - 1] == flag && flag !in args[..|args| - 1])
  {
    var i := IndexOf(args, flag);
    if i + 1 < |args| then Some(args[i + 1]) else None
  }

  /** A best-effort lookup that resolves on 'close' with the trimmed output,
      whatever the exit code, or with `fallback` when that is empty or when
      the program could not be started. */
  function TrimmedOutputOr(run: Exit<string>, fallback: string): (r: string)
    ensures fallback != "" ==> r != ""
    ensures run.Closed? && Trim(run.stdout) != "" ==> r == Trim(run.stdout)
    ensures run.SpawnError? || Trim(run.stdout) == "" ==> r == fallback
  {
    match run
    case SpawnError(_) => fallback
    case Closed(_, stdout, _) => OrElse(Trim(stdout), fallback)
  }
}
