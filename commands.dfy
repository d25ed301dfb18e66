/** The shell the server runs commands through (`ExecUtil.run`,
    `child_process.exec`, `CommandRunnerService.run` and `runWithInput`).
    Whether a command succeeds is decided by a response function fixed when
    the shell is created, so a service's behaviour can be stated for every
    possible outcome; the shell records every command it is asked to run,
    in order. */
module Commands {

  /** A command line, with the text piped to its standard input if any. */
  datatype Invocation = Invocation(command: string, input: string)

  /** What running a command gives: its output, or the error it failed
      with (the error's message). */
  datatype Outcome = Succeeded(stdout: string) | Failed(message: string)

  class Shell {
    /** Every command run so far, oldest first. */
    var history: seq<Invocation>
    /** The outcome of each possible command. */
    const respond: Invocation -> Outcome

    constructor(respond: Invocation -> Outcome)
      ensures history == [] && this.respond == respond
    {
      history := [];
      this.respond := respond;
    }

    /** Run a command line: it is recorded, and its outcome returned. */
    method Run(command: string) returns (o: Outcome)
      modifies this
      ensures history == old(history) + [Invocation(command, "")]
      ensures o == respond(Invocation(command, ""))
    {
      history := history + [Invocation(command, "")];
      o := respond(Invocation(command, ""));
    }

    /** Run a command line with `input` on its standard input. */
    method RunWithInput(command: string, input: string) returns (o: Outcome)
      modifies this
      ensures history == old(history) + [Invocation(command, input)]
      ensures o == respond(Invocation(command, input))
    {
      history := history + [Invocation(command, input)];
      o := respond(Invocation(command, input));
    }
  }
}
