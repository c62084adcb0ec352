/** Running a repo's done-check: its commands in order until one fails, the failure's report scrubbed. */
module DoneCheck {
  import Redaction
  import opened Wrappers

  type Command = seq<string>

  datatype RunResult = RunResult(exitCode: int, stdout: string, stderr: string)

  /** The container as the check uses it: `ran` are the commands executed so far with what they returned. */
  class CheckContainer {
    var ran: seq<(Command, RunResult)>
    ghost var raised: nat         // how many commands could not be executed

    constructor ()
      ensures ran == []
    {
      ran, raised := [], 0;
    }

    method RunCommand(command: Command) returns (r: Result<RunResult>)
      modifies this
      ensures r.Ok? ==> ran == old(ran) + [(command, r.value)]
      ensures r.Raised? ==> ran == old(ran)
      ensures raised == old(raised) + if r.Raised? then 1 else 0
    {
      var fails: bool := *;
      if fails {
        raised := raised + 1;
        return Raised;
      }
      var code: int, out: string, err: string := *, *, *;
      ran := ran + [(command, RunResult(code, out, err))];
      r := Ok(RunResult(code, out, err));
    }
  }

  /** `log` runs a prefix of `commands`, in order, and everything in it but possibly the last succeeded. */
  predicate RunsUntilFailure(log: seq<(Command, RunResult)>, commands: seq<Command>) {
    && |log| <= |commands|
    && (forall i | 0 <= i < |log| :: log[i].0 == commands[i])
    && (forall i | 0 <= i < |log| - 1 :: log[i].1.exitCode == 0)
  }

  predicate AllOk(log: seq<(Command, RunResult)>) {
    forall i | 0 <= i < |log| :: log[i].1.exitCode == 0
  }

  const GREEN_DETAIL := "all done-check commands passed"

  /**
   Green exactly when every command ran and exited 0; red exactly when the last one run did not, and then
   nothing after it ran. `describe` renders a failure; no value that can be scrubbed is left in the report.
   */
  method RunDoneCheckCommands(
      container: CheckContainer, commands: seq<Command>, secrets: set<string>, describe: (Command, RunResult) -> string)
    returns (r: Result<(bool, string)>, ghost log: seq<(Command, RunResult)>, ghost order: seq<string>)
    modifies container
    ensures container.ran == old(container.ran) + log && RunsUntilFailure(log, commands)
    ensures r.Ok? && r.value.0 ==> |log| == |commands| && AllOk(log) && r.value.1 == GREEN_DETAIL
    ensures r.Ok? && !r.value.0 ==> log != [] && log[|log| - 1].1.exitCode != 0
    ensures r.Ok? && !r.value.0 ==>
      && Redaction.LongestFirst(order) && (forall v :: v in order <==> v in secrets)
      && r.value.1 == Redaction.RedactAll(order, describe(log[|log| - 1].0, log[|log| - 1].1), Redaction.MARKER)
    ensures r.Raised? ==> |log| < |commands| && AllOk(log)
    ensures container.raised == old(container.raised) + if r.Raised? then 1 else 0
    ensures r.Ok? && !r.value.0 ==> forall v | v in secrets && |v| >= 4
              && Redaction.Independent(v, Redaction.MARKER) :: !Redaction.Contains(r.value.1, v)
  {
    log, order := [], [];
    for i := 0 to |commands|
      invariant |log| == i && RunsUntilFailure(log, commands) && AllOk(log)
      invariant container.ran == old(container.ran) + log && container.raised == old(container.raised)
    {
      var result;
      result := container.RunCommand(commands[i]);
      if result.Raised? { return Raised, log, order; }
      log := log + [(commands[i], result.value)];
      if result.value.exitCode != 0 {
        var detail;
        detail, order := Redaction.RedactValues(describe(commands[i], result.value), secrets);
        return Ok((false, detail)), log, order;
      }
    }
    r := Ok((true, GREEN_DETAIL));
  }
}
