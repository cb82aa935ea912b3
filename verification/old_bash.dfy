// The `Bash` base class of the oldest tree (boss/bash.py): apt installs and
// purges behind a module-global "updated" flag, the `is_installed` field,
// and `uninstall`, which autoremoves only after a purge actually ran.

module OldBash {
  import opened Common
  import opened Shell
  import LegacyBash

  /** The `Apt` enum. */
  datatype AptAction = Install | Uninstall

  /** The apt-get verb for an action. */
  function ActionWord(action: AptAction): string
  {
    if action == Install then "install" else "purge"
  }

  const UpgradeCommand := "sudo apt-get --quiet --yes upgrade"
  const AutoremoveCommand := "sudo apt-get --yes --quiet autoremove"

  /** The commands of an `_apt` call whose joined package list is not
      empty: update and upgrade when the process has not updated yet, then
      the install or purge command. */
  function AptCommands(updated: bool, dry: bool, action: AptAction, packages: seq<string>): seq<string>
  {
    (if updated then [] else [UpdateCommand, UpgradeCommand])
    + [AptCommand(dry, ActionWord(action), Join(" ", packages))]
  }

  /** The commands of `uninstall`: nothing when there is nothing to purge,
      otherwise the purge followed by `autoremove`. */
  function UninstallCommands(updated: bool, dry: bool, packages: seq<string>): seq<string>
  {
    if Join(" ", packages) == "" then []
    else AptCommands(updated, dry, Uninstall, packages) + [AutoremoveCommand]
  }

  /** Each `_apt` call updates at most once, and only the first in the
      process does; the upgrade comes with the update. */
  lemma AptCommandsUpdateOnce(updated: bool, dry: bool, action: AptAction, packages: seq<string>)
    ensures var cmds := AptCommands(updated, dry, action, packages);
            (UpdateCommand in cmds <==> !updated) && (UpgradeCommand in cmds <==> !updated)
            && cmds[|cmds| - 1] == AptCommand(dry, ActionWord(action), Join(" ", packages))
  {
    AptCommandNotUpdate(dry, ActionWord(action), Join(" ", packages));
    assert |AptCommand(dry, ActionWord(action), Join(" ", packages))| > |UpgradeCommand|;
  }

  /** `autoremove` is issued exactly when a purge was, and only the empty
      list or a single empty name counts as nothing to purge. */
  lemma AutoremoveOnlyAfterPurge(updated: bool, dry: bool, packages: seq<string>)
    ensures AutoremoveCommand in UninstallCommands(updated, dry, packages)
            <==> packages != [] && packages != [""]
  {
    JoinEmpty(" ", packages);
    if Join(" ", packages) != "" {
      var cmds := UninstallCommands(updated, dry, packages);
      assert cmds[|cmds| - 1] == AutoremoveCommand;
    }
  }

  class Bash {
    const proc: Process
    const args: Args
    const dryRun: bool
    const name: string
    const required: seq<string>
    const provided: seq<string>
    const aptPkgs: seq<string>
    var isInstalled: bool

    /** `Bash.__init__`: with arguments and outside a dry run, the module
        is logged under the sub-command's action. */
    constructor (proc: Process, args: Args, argsGiven: bool, action: string, dryRun: bool,
                 name: string, required: seq<string>, provided: seq<string>, aptPkgs: seq<string>)
      modifies proc
      ensures this.proc == proc && this.args == args && this.dryRun == dryRun && this.name == name
      ensures this.required == required && this.provided == provided && this.aptPkgs == aptPkgs
      ensures !isInstalled
      ensures argsGiven && !dryRun ==>
                proc.logFile.Some? &&
                Elements(proc.logFile.value) == LegacyBash.LogLines(old(proc.logFile), action, name)
      ensures !(argsGiven && !dryRun) ==> proc.logFile == old(proc.logFile)
      ensures proc.trace == old(proc.trace) && proc.executed == old(proc.executed)
      ensures proc.aptUpdated == old(proc.aptUpdated) && proc.infoMessages == old(proc.infoMessages)
    {
      this.proc := proc;
      this.args := args;
      this.dryRun := dryRun;
      this.name := name;
      this.required := required;
      this.provided := provided;
      this.aptPkgs := aptPkgs;
      isInstalled := false;
      new;
      if argsGiven && !dryRun {
        LegacyBash.Log(proc, action, name);
      }
    }

    /** `Bash._apt(action, packages)`: nothing happens and `False` is
        returned when the space-joined list is empty; otherwise the first
        call of the process updates and upgrades and sets the global flag,
        then the install or purge command runs, `is_installed` is set and
        `True` is returned. */
    method Apt(action: AptAction, packages: seq<string>) returns (done: bool)
      modifies proc, this
      ensures done <==> Join(" ", packages) != ""
      ensures var cmds := if done then AptCommands(old(proc.aptUpdated), dryRun, action, packages) else [];
              proc.trace == old(proc.trace) + Commands(cmds) &&
              proc.executed == old(proc.executed) + Executed(cmds, args)
      ensures proc.aptUpdated == (old(proc.aptUpdated) || done)
      ensures isInstalled == (old(isInstalled) || done)
      ensures proc.infoMessages == old(proc.infoMessages) && proc.logFile == old(proc.logFile)
    {
      var joined := Join(" ", packages);
      if joined == "" {
        return false;
      }
      var cmds := AptCommands(proc.aptUpdated, dryRun, action, packages);
      proc.aptUpdated := true;
      proc.RunAll(cmds, args);
      isInstalled := true;
      done := true;
    }

    /** `Bash.install`. */
    method Install() returns (ok: bool)
      modifies proc, this
      ensures ok
      ensures var cmds := if Join(" ", aptPkgs) == "" then []
                          else AptCommands(old(proc.aptUpdated), dryRun, AptAction.Install, aptPkgs);
              proc.trace == old(proc.trace) + Commands(cmds) &&
              proc.executed == old(proc.executed) + Executed(cmds, args)
      ensures proc.aptUpdated == (old(proc.aptUpdated) || Join(" ", aptPkgs) != "")
      ensures isInstalled == (old(isInstalled) || Join(" ", aptPkgs) != "")
      ensures proc.infoMessages == old(proc.infoMessages) && proc.logFile == old(proc.logFile)
    {
      var _ := Apt(AptAction.Install, aptPkgs);
      ok := true;
    }

    /** `Bash.uninstall`: purge the packages, and autoremove only when the
        purge ran. */
    method Uninstall() returns (ok: bool)
      modifies proc, this
      ensures ok
      ensures var cmds := UninstallCommands(old(proc.aptUpdated), dryRun, aptPkgs);
              proc.trace == old(proc.trace) + Commands(cmds) &&
              proc.executed == old(proc.executed) + Executed(cmds, args)
      ensures proc.aptUpdated == (old(proc.aptUpdated) || Join(" ", aptPkgs) != "")
      ensures isInstalled == (old(isInstalled) || Join(" ", aptPkgs) != "")
      ensures proc.infoMessages == old(proc.infoMessages) && proc.logFile == old(proc.logFile)
    {
      var purged := Apt(AptAction.Uninstall, aptPkgs);
      if purged {
        var _ := proc.Run(AutoremoveCommand, args);
        assert Commands(UninstallCommands(old(proc.aptUpdated), dryRun, aptPkgs))
            == Commands(AptCommands(old(proc.aptUpdated), dryRun, AptAction.Uninstall, aptPkgs))
               + [Command(AutoremoveCommand)];
      }
      ok := true;
    }
  }
}
