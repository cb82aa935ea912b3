// What one run of the installer does to the outside world, as far as the
// `Bash` base classes are concerned: the commands it shows and hands to the
// shell, the files it writes, and the state every `Bash` instance of the
// process shares (the "apt updated" flag, the summary rows, the
// installed-modules log).

module Shell {
  import opened Common

  /** One step taken on the outside world, in the order taken. */
  datatype Event =
    | Command(cmd: string)                       // a command passed to `run`
    | WriteFile(path: string, content: string)   // `write_new_file`
    | Fatal(msg: string)                         // `util.error`: report, then exit
    | Raised(exception: string)                  // an exception no handler catches: traceback, then exit

  /** The command-line switches `run` consults. */
  datatype Args = Args(dryRun: bool, generateScript: bool)

  /** A summary row kept in `info_messages`: marker, title, message. */
  type InfoRow = (string, string, string)

  /** The state shared by every `Bash` instance of one process: class
      attributes, module globals and the log file in the home directory. */
  class Process {
    /** Every event, shown or executed, in order. */
    var trace: seq<Event>
    /** The commands actually handed to `/bin/bash`. */
    var executed: seq<string>
    /** `Bash.APTUPDATED` (or the module global `APTUPDATED`). */
    var aptUpdated: bool
    /** `Bash.info_messages`: summary rows under each module title. */
    var infoMessages: map<string, seq<InfoRow>>
    /** The lines of `~/boss-installed-modules`; `None` when it is absent. */
    var logFile: Option<seq<string>>

    constructor (logFile: Option<seq<string>>)
      ensures trace == [] && executed == [] && !aptUpdated
      ensures infoMessages == map[] && this.logFile == logFile
    {
      trace := [];
      executed := [];
      aptUpdated := false;
      infoMessages := map[];
      this.logFile := logFile;
    }

    /** `Bash.run`: the command is always shown (and so recorded), but it
        is handed to the shell only when neither `--dry-run` nor
        `--generate-script` was given; otherwise `run` returns `None`. */
    method Run(cmd: string, args: Args) returns (ran: bool)
      modifies this
      ensures ran <==> !args.dryRun && !args.generateScript
      ensures trace == old(trace) + [Command(cmd)]
      ensures executed == old(executed) + (if ran then [cmd] else [])
      ensures aptUpdated == old(aptUpdated) && infoMessages == old(infoMessages)
      ensures logFile == old(logFile)
    {
      trace := trace + [Command(cmd)];
      ran := !args.dryRun && !args.generateScript;
      if ran {
        executed := executed + [cmd];
      }
    }

    /** Several `run` calls in a row. */
    method RunAll(cmds: seq<string>, args: Args)
      modifies this
      ensures trace == old(trace) + Commands(cmds)
      ensures executed == old(executed) + Executed(cmds, args)
      ensures aptUpdated == old(aptUpdated) && infoMessages == old(infoMessages)
      ensures logFile == old(logFile)
    {
      ghost var trace0, executed0 := trace, executed;
      for i := 0 to |cmds|
        invariant trace == trace0 + Commands(cmds[..i])
        invariant executed == executed0 + Executed(cmds[..i], args)
        invariant aptUpdated == old(aptUpdated) && infoMessages == old(infoMessages)
        invariant logFile == old(logFile)
      {
        var _ := Run(cmds[i], args);
        assert cmds[..i + 1] == cmds[..i] + [cmds[i]];
        CommandsSnoc(cmds[..i], cmds[i]);
        AppendAssoc(trace0, Commands(cmds[..i]), [Command(cmds[i])]);
        AppendAssoc(executed0, cmds[..i], [cmds[i]]);
      }
      assert cmds[..|cmds|] == cmds;
    }

    /** `write_new_file`, which no shown file defines: recorded as written. */
    method WriteNewFile(path: string, content: string)
      modifies this
      ensures trace == old(trace) + [WriteFile(path, content)]
      ensures executed == old(executed) && aptUpdated == old(aptUpdated)
      ensures infoMessages == old(infoMessages) && logFile == old(logFile)
    {
      trace := trace + [WriteFile(path, content)];
    }

    /** `util.error` without `dry_run`: the message is the last event. */
    method Error(msg: string)
      modifies this
      ensures trace == old(trace) + [Fatal(msg)]
      ensures executed == old(executed) && aptUpdated == old(aptUpdated)
      ensures infoMessages == old(infoMessages) && logFile == old(logFile)
    {
      trace := trace + [Fatal(msg)];
    }

    /** An exception that no `except` clause of the run catches: the
        traceback is the last event. */
    method Raise(exception: string)
      modifies this
      ensures trace == old(trace) + [Raised(exception)]
      ensures executed == old(executed) && aptUpdated == old(aptUpdated)
      ensures infoMessages == old(infoMessages) && logFile == old(logFile)
    {
      trace := trace + [Raised(exception)];
    }
  }

  /** The events of running `cmds` one after the other. */
  function Commands(cmds: seq<string>): (r: seq<Event>)
    ensures |r| == |cmds|
    ensures forall i :: 0 <= i < |cmds| ==> r[i] == Command(cmds[i])
  {
    if cmds == [] then [] else Commands(cmds[..|cmds| - 1]) + [Command(cmds[|cmds| - 1])]
  }

  lemma CommandsSnoc(cmds: seq<string>, c: string)
    ensures Commands(cmds + [c]) == Commands(cmds) + [Command(c)]
  {
    assert (cmds + [c])[..|cmds|] == cmds;
  }

  lemma {:induction false} CommandsAppend(a: seq<string>, b: seq<string>)
    ensures Commands(a + b) == Commands(a) + Commands(b)
    decreases |b|
  {
    if b == [] {
      assert a + b == a;
    } else {
      var b' := b[..|b| - 1];
      assert a + b == (a + b') + [b[|b| - 1]];
      CommandsSnoc(a + b', b[|b| - 1]);
      CommandsSnoc(b', b[|b| - 1]);
      assert b == b' + [b[|b| - 1]];
      CommandsAppend(a, b');
    }
  }

  /** What the shell receives when `cmds` are run under `args`. */
  function Executed(cmds: seq<string>, args: Args): seq<string>
  {
    if args.dryRun || args.generateScript then [] else cmds
  }

  /** How often `e` occurs in `trace`. */
  function Count(trace: seq<Event>, e: Event): (n: nat)
    ensures n <= |trace|
    ensures n == 0 <==> e !in trace
  {
    if trace == [] then 0
    else Count(trace[..|trace| - 1], e) + (if trace[|trace| - 1] == e then 1 else 0)
  }

  lemma {:induction false} CountAppend(a: seq<Event>, b: seq<Event>, e: Event)
    ensures Count(a + b, e) == Count(a, e) + Count(b, e)
    decreases |b|
  {
    if b != [] {
      var b' := b[..|b| - 1];
      assert (a + b)[..|a + b| - 1] == a + b';
      CountAppend(a, b', e);
    } else {
      assert a + b == a;
    }
  }

  // ----------------------------------------------------------- apt commands

  const UpdateCommand := "sudo apt-get --quiet update"

  const AptPrefix := "export DEBIAN_FRONTEND=noninteractive; sudo apt-get "

  /** `'export DEBIAN_FRONTEND=noninteractive; sudo apt-get {dry} --yes
      --quiet {action} {packages}'` with `dry` either `--dry-run` or empty
      (leaving two spaces). */
  function AptCommand(dry: bool, action: string, packages: string): string
  {
    AptPrefix + (if dry then "--dry-run" else "") + " --yes --quiet " + action + " " + packages
  }

  /** The `--dry-run` switch is there exactly when the instance is a dry
      run, whatever the package names. */
  lemma AptCommandDryRun(dry: bool, action: string, packages: string)
    ensures AptPrefix + "--dry-run " <= AptCommand(dry, action, packages) <==> dry
  {
    var cmd := AptCommand(dry, action, packages);
    var n := |AptPrefix|;
    if !dry {
      assert cmd[n] == ' ';
      assert (AptPrefix + "--dry-run ")[n] == '-';
    }
  }

  /** The package list can be read back from the command: it is the text
      after the action, split at single spaces. */
  lemma AptCommandPackages(dry: bool, action: string, packages: seq<string>)
    requires packages != []
    requires forall i :: 0 <= i < |packages| ==> ' ' !in packages[i]
    ensures var head := AptPrefix + (if dry then "--dry-run" else "") + " --yes --quiet " + action + " ";
            var cmd := AptCommand(dry, action, Join(" ", packages));
            head <= cmd && Split(cmd[|head|..], ' ') == packages
  {
    var head := AptPrefix + (if dry then "--dry-run" else "") + " --yes --quiet " + action + " ";
    var cmd := AptCommand(dry, action, Join(" ", packages));
    assert cmd == head + Join(" ", packages);
    assert cmd[|head|..] == Join(" ", packages);
    SplitJoin(packages, ' ');
  }

  /** No install or purge command is the update command. */
  lemma AptCommandNotUpdate(dry: bool, action: string, packages: string)
    ensures AptCommand(dry, action, packages) != UpdateCommand
  {
    assert |AptCommand(dry, action, packages)| > |AptPrefix| > |UpdateCommand|;
  }
}
