// The `Bash` base class of the src/ tree (src/bash.py): install-only apt
// calls behind the class attribute `Bash.APTUPDATED`, with no upgrade.
// As written, the install command's `format` call names an undefined
// variable, so every non-empty call fails right after the update; the
// model keeps that behaviour (`AptAsWritten`) beside the evident intent
// (`Apt`), which `Install` uses.

module SrcBash {
  import opened Common
  import opened Shell
  import LegacyBash

  /** What Python reports for the undefined `action` in the install line. */
  const NameErrorMsg := "name 'action' is not defined"

  /** The commands of a non-empty, working `_apt` call: update when the
      process has not updated yet, then install. */
  function AptCommands(updated: bool, dry: bool, packages: seq<string>): seq<string>
  {
    (if updated then [] else [UpdateCommand]) + [AptCommand(dry, "install", Join(" ", packages))]
  }

  /** The update comes at most once per call and only while the process
      has not updated; the install command names the packages in order. */
  lemma AptCommandsUpdateOnce(updated: bool, dry: bool, packages: seq<string>)
    ensures var cmds := AptCommands(updated, dry, packages);
            Count(Commands(cmds), Command(UpdateCommand)) == (if updated then 0 else 1)
            && cmds[|cmds| - 1] == AptCommand(dry, "install", Join(" ", packages))
  {
    var cmds := AptCommands(updated, dry, packages);
    var install := AptCommand(dry, "install", Join(" ", packages));
    AptCommandNotUpdate(dry, "install", Join(" ", packages));
    if updated {
      assert Commands(cmds) == [Command(install)];
      assert Commands(cmds)[..0] == [];
    } else {
      assert Commands(cmds) == [Command(UpdateCommand), Command(install)];
      assert Commands(cmds)[..1] == [Command(UpdateCommand)];
      assert Commands(cmds)[..1][..0] == [];
    }
  }

  class Bash {
    const proc: Process
    const args: Args
    const dryRun: bool
    const name: string
    const required: seq<string>
    const provided: seq<string>
    const aptPkgs: seq<string>

    /** `Bash.__init__`: with arguments and outside a dry run, the module
        is logged under the sub-command's action. */
    constructor (proc: Process, args: Args, argsGiven: bool, action: string, dryRun: bool,
                 name: string, required: seq<string>, provided: seq<string>, aptPkgs: seq<string>)
      modifies proc
      ensures this.proc == proc && this.args == args && this.dryRun == dryRun && this.name == name
      ensures this.required == required && this.provided == provided && this.aptPkgs == aptPkgs
      ensures argsGiven && !dryRun ==>
                proc.logFile.Some? &&
                Elements(proc.logFile.value) == LegacyBash.LogLines(old(proc.logFile), action, name)
      ensures !(argsGiven && !dryRun) ==> proc.logFile == old(proc.logFile)
      ensures proc.trace == old(proc.trace) && proc.executed == old(proc.executed)
      ensures proc.aptUpdated == old(proc.aptUpdated) && proc.infoMessages == old(proc.infoMessages)
    {
      this.proc := proc;
      this.args := args;
      this.dryRun := dryRun;
      this.name := name;
      this.required := required;
      this.provided := provided;
      this.aptPkgs := aptPkgs;
      new;
      if argsGiven && !dryRun {
        LegacyBash.Log(proc, action, name);
      }
    }

    /** `Bash._apt(packages)` as written: an empty joined list returns
        `False` with no command; otherwise the first call of the process
        updates and sets the flag, and then building the install command
        raises `NameError`, so no install command is ever issued. */
    method AptAsWritten(packages: seq<string>) returns (r: Result<bool>)
      modifies proc
      ensures Join(" ", packages) == "" ==> r == Ok(false)
      ensures Join(" ", packages) != "" ==> r == Err(NameErrorMsg)
      ensures var cmds := if Join(" ", packages) == "" || old(proc.aptUpdated) then [] else [UpdateCommand];
              proc.trace == old(proc.trace) + Commands(cmds) &&
              proc.executed == old(proc.executed) + Executed(cmds, args)
      ensures Command(AptCommand(dryRun, "install", Join(" ", packages))) !in proc.trace[|old(proc.trace)|..]
      ensures proc.aptUpdated == (old(proc.aptUpdated) || Join(" ", packages) != "")
      ensures proc.infoMessages == old(proc.infoMessages) && proc.logFile == old(proc.logFile)
    {
      var joined := Join(" ", packages);
      if joined == "" {
        return Ok(false);
      }
      var cmds := if proc.aptUpdated then [] else [UpdateCommand];
      proc.aptUpdated := true;
      proc.RunAll(cmds, args);
      AptCommandNotUpdate(dryRun, "install", joined);
      assert proc.trace[|old(proc.trace)|..] == Commands(cmds);
      r := Err(NameErrorMsg);
    }

    /** `Bash._apt(packages)` as evidently intended: the same, but the
        install command is issued and `True` returned. */
    method Apt(packages: seq<string>) returns (done: bool)
      modifies proc
      ensures done <==> Join(" ", packages) != ""
      ensures var cmds := if done then AptCommands(old(proc.aptUpdated), dryRun, packages) else [];
              proc.trace == old(proc.trace) + Commands(cmds) &&
              proc.executed == old(proc.executed) + Executed(cmds, args)
      ensures proc.aptUpdated == (old(proc.aptUpdated) || done)
      ensures proc.infoMessages == old(proc.infoMessages) && proc.logFile == old(proc.logFile)
    {
      var joined := Join(" ", packages);
      if joined == "" {
        return false;
      }
      var cmds := AptCommands(proc.aptUpdated, dryRun, packages);
      proc.aptUpdated := true;
      proc.RunAll(cmds, args);
      done := true;
    }

    /** `Bash.install`. */
    method Install() returns (ok: bool)
      modifies proc
      ensures ok
      ensures var cmds := if Join(" ", aptPkgs) == "" then []
                          else AptCommands(old(proc.aptUpdated), dryRun, aptPkgs);
              proc.trace == old(proc.trace) + Commands(cmds) &&
              proc.executed == old(proc.executed) + Executed(cmds, args)
      ensures proc.aptUpdated == (old(proc.aptUpdated) || Join(" ", aptPkgs) != "")
      ensures proc.infoMessages == old(proc.infoMessages) && proc.logFile == old(proc.logFile)
    {
      var _ := Apt(aptPkgs);
      ok := true;
    }
  }
}
