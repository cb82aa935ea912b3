// The `Bash` base class of the current tree (src/boss/bash.py): apt and
// snap installs, the one-time `apt-get update` behind the class attribute
// `Bash.APTUPDATED`, the shared `info_messages` summary, the command
// `append_to_file` builds, `restart_apache`, and the installed-modules log.

module CurrentBash {
  import opened Common
  import opened Shell
  import LegacyBash

  /** The `Snap` enum. */
  datatype SnapMode = Classic | Default

  /** `Bash.WWW_USER`. */
  const WwwUser := "www-data"

  /** The marker in front of every summary row. */
  const InfoMarker := "\U{251C}\U{2500}"

  const RestartCommand := "sudo service apache2 restart"
  const RestartError := "restart_apache has unknown platform"

  // -------------------------------------------------------------- apt

  /** The commands of `_apt(packages)`: none for an empty list; otherwise
      the update while the process has not updated, then one install
      command naming every package. */
  function AptCommands(updated: bool, dry: bool, packages: seq<string>): seq<string>
  {
    if packages == [] then []
    else (if updated then [] else [UpdateCommand]) + [AptCommand(dry, "install", Join(" ", packages))]
  }

  /** An empty list issues nothing; otherwise the update is issued once
      exactly when the process had not updated, and the last command
      installs the packages. */
  lemma AptCommandsUpdateOnce(updated: bool, dry: bool, packages: seq<string>)
    ensures var cmds := AptCommands(updated, dry, packages);
            (cmds == [] <==> packages == [])
            && Count(Commands(cmds), Command(UpdateCommand)) == (if !updated && packages != [] then 1 else 0)
            && (packages != [] ==> cmds[|cmds| - 1] == AptCommand(dry, "install", Join(" ", packages)))
  {
    if packages != [] {
      var install := AptCommand(dry, "install", Join(" ", packages));
      var cmds := AptCommands(updated, dry, packages);
      AptCommandNotUpdate(dry, "install", Join(" ", packages));
      if updated {
        assert Commands(cmds) == [Command(install)];
        assert Commands(cmds)[..0] == [];
      } else {
        assert Commands(cmds) == [Command(UpdateCommand), Command(install)];
        assert Commands(cmds)[..1] == [Command(UpdateCommand)];
        assert Commands(cmds)[..1][..0] == [];
      }
    }
  }

  // ------------------------------------------------------------- snap

  /** `f"sudo snap install {mode} {package}"`, `mode` being `--classic` or
      empty. */
  function SnapCommand(package: string, mode: SnapMode): string
  {
    "sudo snap install " + (if mode == Classic then "--classic" else "") + " " + package
  }

  function SnapCommands(packages: seq<(string, SnapMode)>): (r: seq<string>)
    ensures |r| == |packages|
    ensures forall i :: 0 <= i < |packages| ==> r[i] == SnapCommand(packages[i].0, packages[i].1)
  {
    if packages == [] then []
    else
      var last := packages[|packages| - 1];
      SnapCommands(packages[..|packages| - 1]) + [SnapCommand(last.0, last.1)]
  }

  /** `--classic` is there exactly for classic snaps, whatever the name. */
  lemma SnapCommandClassic(package: string, mode: SnapMode)
    ensures "sudo snap install --classic " <= SnapCommand(package, mode) <==> mode == Classic
  {
    var cmd := SnapCommand(package, mode);
    if mode != Classic {
      assert cmd[18] == ' ';
      assert "sudo snap install --classic "[18] == '-';
    }
  }

  lemma SnapCommandNotUpdate(package: string, mode: SnapMode)
    ensures SnapCommand(package, mode) != UpdateCommand
  {
    assert SnapCommand(package, mode)[..9] == "sudo snap";
    assert UpdateCommand[..9] == "sudo apt-";
  }

  lemma SnapCommandsNoUpdate(packages: seq<(string, SnapMode)>)
    ensures Count(Commands(SnapCommands(packages)), Command(UpdateCommand)) == 0
  {
    forall i | 0 <= i < |packages|
      ensures Commands(SnapCommands(packages))[i] != Command(UpdateCommand)
    {
      SnapCommandNotUpdate(packages[i].0, packages[i].1);
    }
  }

  // ------------------------------------------------------------ dedent

  /** The characters of `s` that are not white space, in order. */
  function Visible(s: string): string
  {
    if s == [] then [] else (if IsSpace(s[0]) then [] else [s[0]]) + Visible(s[1..])
  }

  /** `re.sub(r"^\s+", "", s, flags=re.MULTILINE)`: every run of white
      space that begins a line is deleted. A run may cross line ends, so
      lines holding only white space vanish with it. */
  function Dedent(s: string): (r: string)
    ensures r == [] || !IsSpace(r[0])
    ensures forall i :: 0 < i < |r| && r[i - 1] == '\n' ==> !IsSpace(r[i])
  {
    DedentFrom(s, true)
  }

  /** The substitution from a position that does, or does not, begin a
      line. */
  function DedentFrom(s: string, atLineStart: bool): (r: string)
    ensures |r| <= |s|
    ensures atLineStart ==> r == [] || !IsSpace(r[0])
    ensures s != [] && !(atLineStart && IsSpace(s[0])) ==> r != [] && r[0] == s[0]
    ensures forall i :: 0 < i < |r| && r[i - 1] == '\n' ==> !IsSpace(r[i])
    decreases |s|
  {
    if s == [] then []
    else if atLineStart && IsSpace(s[0]) then DedentFrom(TrimLeft(s[1..]), false)
    else
      var rest := DedentFrom(s[1..], s[0] == '\n');
      assert forall i :: 1 < i < |rest| + 1 ==> ([s[0]] + rest)[i] == rest[i - 1];
      [s[0]] + rest
  }

  /** Text none of whose lines is indented comes through unchanged. */
  lemma {:induction false} DedentFromUnindented(s: string, atLineStart: bool)
    requires atLineStart ==> s == [] || !IsSpace(s[0])
    requires forall i :: 0 < i < |s| && s[i - 1] == '\n' ==> !IsSpace(s[i])
    ensures DedentFrom(s, atLineStart) == s
    decreases |s|
  {
    if s != [] {
      assert forall i :: 0 < i < |s| - 1 ==> s[1..][i - 1] == s[i] && s[1..][i] == s[i + 1];
      DedentFromUnindented(s[1..], s[0] == '\n');
    }
  }

  /** Deleting line indentation twice is deleting it once. */
  lemma DedentIdempotent(s: string)
    ensures Dedent(Dedent(s)) == Dedent(s)
  {
    DedentFromUnindented(Dedent(s), true);
  }

  lemma {:induction false} VisibleTrimLeft(s: string)
    ensures Visible(TrimLeft(s)) == Visible(s)
    decreases |s|
  {
    if s != [] && IsSpace(s[0]) {
      VisibleTrimLeft(s[1..]);
    }
  }

  /** Only white space is deleted: the other characters all stay, in
      order. */
  lemma {:induction false} DedentFromKeepsText(s: string, atLineStart: bool)
    ensures Visible(DedentFrom(s, atLineStart)) == Visible(s)
    decreases |s|
  {
    if s == [] {
    } else if atLineStart && IsSpace(s[0]) {
      DedentFromKeepsText(TrimLeft(s[1..]), false);
      VisibleTrimLeft(s[1..]);
    } else {
      var rest := DedentFrom(s[1..], s[0] == '\n');
      DedentFromKeepsText(s[1..], s[0] == '\n');
      assert ([s[0]] + rest)[1..] == rest;
    }
  }

  lemma DedentKeepsText(s: string)
    ensures Visible(Dedent(s)) == Visible(s)
  {
    DedentFromKeepsText(s, true);
  }

  /** Within a line, nothing is deleted; the next line starts afresh. */
  lemma {:induction false} DedentFromLine(head: string, rest: string)
    requires '\n' !in head
    ensures DedentFrom(head + "\n" + rest, false) == head + "\n" + DedentFrom(rest, true)
    decreases |head|
  {
    var s := head + "\n" + rest;
    if head == [] {
      assert s[1..] == rest;
    } else {
      assert s[1..] == head[1..] + "\n" + rest;
      DedentFromLine(head[1..], rest);
    }
  }

  /** A first line that starts with a visible character is kept whole. */
  lemma DedentLine(head: string, rest: string)
    requires '\n' !in head && head != [] && !IsSpace(head[0])
    ensures Dedent(head + "\n" + rest) == head + "\n" + Dedent(rest)
  {
    var s := head + "\n" + rest;
    assert s[1..] == head[1..] + "\n" + rest;
    DedentFromLine(head[1..], rest);
  }

  // --------------------------------------------------- append_to_file

  /** `-u www-data` for the web server's user, nothing otherwise. */
  function WwwFlag(user: Option<string>): string
  {
    if user == Some(WwwUser) then "-u " + WwwUser else ""
  }

  /** The first line of the command `append_to_file` builds. */
  function AppendHeader(filename: string, user: Option<string>, append: bool): string
  {
    "echo | sudo " + WwwFlag(user) + " tee " + (if append then "-a" else "") + " \"" + filename + "\" <<EOF"
  }

  /** `append_to_file`'s here-document command, after every line's leading
      white space is removed. */
  function AppendCommand(filename: string, text: string, user: Option<string>, append: bool): string
  {
    Dedent(AppendHeader(filename, user, append) + "\n" + text + "\nEOF")
  }

  /** The backup copy: `sudo cp "<file>" "<file>.original-<now>"`. */
  function BackupCommand(filename: string, now: string): string
  {
    "sudo cp \"" + filename + "\" \"" + filename + ".original-" + now + "\""
  }

  /** The commands of `append_to_file`: the backup first when asked for,
      then the write. */
  function AppendCommands(filename: string, text: string, user: Option<string>,
                          backup: bool, append: bool, now: string): seq<string>
  {
    (if backup then [BackupCommand(filename, now)] else []) + [AppendCommand(filename, text, user, append)]
  }

  /** For a file name without a line break, the header line survives whole
      and only the text (and the closing `EOF`) lose their indentation. */
  lemma AppendCommandShape(filename: string, text: string, user: Option<string>, append: bool)
    requires '\n' !in filename
    ensures AppendCommand(filename, text, user, append)
            == AppendHeader(filename, user, append) + "\n" + Dedent(text + "\nEOF")
  {
    var head := AppendHeader(filename, user, append);
    assert head[0] == 'e';
    assert '\n' !in head;
    assert head + "\n" + text + "\nEOF" == head + "\n" + (text + "\nEOF");
    DedentLine(head, text + "\nEOF");
  }

  /** `-u www-data` is there exactly for the `www-data` user, and `-a`
      exactly when appending. */
  lemma AppendCommandFlags(filename: string, text: string, user: Option<string>, append: bool)
    requires '\n' !in filename
    ensures var cmd := AppendCommand(filename, text, user, append);
            ("echo | sudo -u www-data tee " <= cmd <==> user == Some(WwwUser))
            && ("echo | sudo " + WwwFlag(user) + " tee -a " <= cmd <==> append)
  {
    var head := AppendHeader(filename, user, append);
    var cmd := AppendCommand(filename, text, user, append);
    AppendCommandShape(filename, text, user, append);
    HeaderUser(filename, user, append);
    HeaderAppend(filename, user, append);
    PrefixOfHead("echo | sudo -u www-data tee ", head, cmd);
    PrefixOfHead("echo | sudo " + WwwFlag(user) + " tee -a ", head, cmd);
  }

  /** The `-u www-data` flag is there exactly for the web server user. */
  lemma HeaderUser(filename: string, user: Option<string>, append: bool)
    ensures "echo | sudo -u www-data tee " <= AppendHeader(filename, user, append) <==> user == Some(WwwUser)
  {
    var head := AppendHeader(filename, user, append);
    if user != Some(WwwUser) {
      assert head[12] == ' ';
      assert "echo | sudo -u www-data tee "[12] == '-';
    }
  }

  /** The `-a` flag of `tee` is there exactly when appending. */
  lemma HeaderAppend(filename: string, user: Option<string>, append: bool)
    ensures "echo | sudo " + WwwFlag(user) + " tee -a " <= AppendHeader(filename, user, append) <==> append
  {
    var head := AppendHeader(filename, user, append);
    var p := "echo | sudo " + WwwFlag(user) + " tee ";
    if !append {
      assert head[|p|] == ' ';
      assert (p + "-a ")[|p|] == '-';
    }
  }

  /** A one-line prefix is a prefix of the whole command exactly when it
      is one of the first line. */
  lemma PrefixOfHead(p: string, head: string, cmd: string)
    requires '\n' !in p && head + "\n" <= cmd
    ensures p <= cmd <==> p <= head
  {
    if |p| > |head| {
      assert cmd[|head|] == '\n';
      assert p[|head|] in p;
    }
  }

  /** The backup is made before the write, and only when asked for. */
  lemma AppendCommandsOrder(filename: string, text: string, user: Option<string>,
                            backup: bool, append: bool, now: string)
    ensures var cmds := AppendCommands(filename, text, user, backup, append, now);
            cmds[|cmds| - 1] == AppendCommand(filename, text, user, append)
            && (BackupCommand(filename, now) in cmds <==> backup)
            && (backup ==> cmds[0] == BackupCommand(filename, now))
  {
    var a := AppendCommand(filename, text, user, append);
    var b := BackupCommand(filename, now);
    assert a == [] || a[0] == 'e' by {
      var raw := AppendHeader(filename, user, append) + "\n" + text + "\nEOF";
      assert raw[0] == 'e';
    }
    assert b[0] == 's';
  }

  // -------------------------------------------------------------- log

  /** `Bash.log(name)` as written: it reads the lines, builds the set with
      the new record added, and then writes the lines it read. The file is
      rewritten unchanged (created empty when missing), so the record is
      there afterwards only if it was there before. */
  function LogAsWritten(file: Option<seq<string>>, name: string): (written: seq<string>)
    ensures forall x :: x in written <==> x in LegacyBash.LinesOf(file)
  {
    if file.Some? then file.value else []
  }

  /** The first module logged into a missing file is not recorded, against
      the promise that the file is created with the name in it. */
  lemma LogAsWrittenForgetsFirstModule()
    ensures "VirtualHost\n" !in LogAsWritten(None, "VirtualHost")
  {
  }

  /** `Bash.log(name)` as evidently intended: the record is added to the
      set of lines and the set written back. */
  method Log(proc: Process, name: string)
    modifies proc
    ensures proc.logFile.Some? && Distinct(proc.logFile.value)
    ensures name + "\n" in proc.logFile.value
    ensures forall x :: x != name + "\n" ==>
              (x in proc.logFile.value <==> x in LegacyBash.LinesOf(old(proc.logFile)))
    ensures proc.trace == old(proc.trace) && proc.executed == old(proc.executed)
    ensures proc.aptUpdated == old(proc.aptUpdated) && proc.infoMessages == old(proc.infoMessages)
  {
    LegacyBash.Log(proc, "install", name);
  }

  // ------------------------------------------------------------ class

  /** The rows under a title, none when the title has no entry yet. */
  function RowsOf(info: map<string, seq<InfoRow>>, title: string): seq<InfoRow>
  {
    if title in info then info[title] else []
  }

  class Bash {
    const proc: Process
    const args: Args
    const dryRun: bool
    /** The module's `title` class attribute: its key in the summary. */
    const title: string
    /** The timestamp taken at construction, used in backup names. */
    const now: string
    /** Whether the platform is Ubuntu. */
    const ubuntu: bool
    const aptPkgs: seq<string>
    const snapPkgs: seq<(string, SnapMode)>

    /** `Bash.__init__`: with arguments and outside a dry run, the module's
        class name is logged with the corrected `Log`; the `log` as written
        (`LogAsWritten`) would leave the file as it was. */
    constructor (proc: Process, args: Args, argsGiven: bool, dryRun: bool, name: string,
                 title: string, now: string, ubuntu: bool,
                 aptPkgs: seq<string>, snapPkgs: seq<(string, SnapMode)>)
      modifies proc
      ensures this.proc == proc && this.args == args && this.dryRun == dryRun
      ensures this.title == title && this.now == now && this.ubuntu == ubuntu
      ensures this.aptPkgs == aptPkgs && this.snapPkgs == snapPkgs
      ensures argsGiven && !dryRun ==> proc.logFile.Some? && name + "\n" in proc.logFile.value
      ensures !(argsGiven && !dryRun) ==> proc.logFile == old(proc.logFile)
      ensures proc.trace == old(proc.trace) && proc.executed == old(proc.executed)
      ensures proc.aptUpdated == old(proc.aptUpdated) && proc.infoMessages == old(proc.infoMessages)
    {
      this.proc := proc;
      this.args := args;
      this.dryRun := dryRun;
      this.title := title;
      this.now := now;
      this.ubuntu := ubuntu;
      this.aptPkgs := aptPkgs;
      this.snapPkgs := snapPkgs;
      new;
      if argsGiven && !dryRun {
        Log(proc, name);
      }
    }

    /** `Bash._apt(packages_list)`. */
    method Apt(packages: seq<string>)
      modifies proc
      ensures var cmds := AptCommands(old(proc.aptUpdated), dryRun, packages);
              proc.trace == old(proc.trace) + Commands(cmds) &&
              proc.executed == old(proc.executed) + Executed(cmds, args)
      ensures proc.aptUpdated == (old(proc.aptUpdated) || packages != [])
      ensures proc.infoMessages == old(proc.infoMessages) && proc.logFile == old(proc.logFile)
    {
      if packages == [] {
        return;
      }
      var cmds := AptCommands(proc.aptUpdated, dryRun, packages);
      proc.aptUpdated := true;
      proc.RunAll(cmds, args);
    }

    /** `Bash._snap(packages)`: one `snap install` per package, in order. */
    method Snap(packages: seq<(string, SnapMode)>)
      modifies proc
      ensures proc.trace == old(proc.trace) + Commands(SnapCommands(packages))
      ensures proc.executed == old(proc.executed) + Executed(SnapCommands(packages), args)
      ensures proc.aptUpdated == old(proc.aptUpdated) && proc.infoMessages == old(proc.infoMessages)
      ensures proc.logFile == old(proc.logFile)
    {
      ghost var all := SnapCommands(packages);
      for i := 0 to |packages|
        invariant proc.trace == old(proc.trace) + Commands(all[..i])
        invariant proc.executed == old(proc.executed) + Executed(all[..i], args)
        invariant proc.aptUpdated == old(proc.aptUpdated) && proc.infoMessages == old(proc.infoMessages)
        invariant proc.logFile == old(proc.logFile)
      {
        var (package, mode) := packages[i];
        var _ := proc.Run(SnapCommand(package, mode), args);
        assert all[..i + 1] == all[..i] + [SnapCommand(package, mode)];
        CommandsSnoc(all[..i], SnapCommand(package, mode));
      }
      assert all[..|packages|] == all;
    }

    /** `Bash.install`: the apt packages, then the snaps. */
    method Install()
      modifies proc
      ensures var cmds := AptCommands(old(proc.aptUpdated), dryRun, aptPkgs) + SnapCommands(snapPkgs);
              proc.trace == old(proc.trace) + Commands(cmds) &&
              proc.executed == old(proc.executed) + Executed(cmds, args)
      ensures proc.aptUpdated == (old(proc.aptUpdated) || aptPkgs != [])
      ensures proc.infoMessages == old(proc.infoMessages) && proc.logFile == old(proc.logFile)
    {
      ghost var t0, e0 := proc.trace, proc.executed;
      ghost var a, s := AptCommands(proc.aptUpdated, dryRun, aptPkgs), SnapCommands(snapPkgs);
      Apt(aptPkgs);
      Snap(snapPkgs);
      CommandsAppend(a, s);
      AppendAssoc(t0, Commands(a), Commands(s));
      AppendAssoc(e0, Executed(a, args), Executed(s, args));
      assert Executed(a + s, args) == Executed(a, args) + Executed(s, args);
    }

    /** `Bash.info(title, msg)`: one row appended to the list under this
        module's title, the list created when absent; nothing else in the
        shared summary changes. */
    method Info(rowTitle: string, msg: string)
      modifies proc
      ensures proc.infoMessages
              == old(proc.infoMessages)[title := RowsOf(old(proc.infoMessages), title) + [(InfoMarker, rowTitle, msg)]]
      ensures forall k :: k != title ==> RowsOf(proc.infoMessages, k) == RowsOf(old(proc.infoMessages), k)
      ensures proc.trace == old(proc.trace) && proc.executed == old(proc.executed)
      ensures proc.aptUpdated == old(proc.aptUpdated) && proc.logFile == old(proc.logFile)
    {
      var row := (InfoMarker, rowTitle, msg);
      if title in proc.infoMessages {
        proc.infoMessages := proc.infoMessages[title := proc.infoMessages[title] + [row]];
      } else {
        assert RowsOf(proc.infoMessages, title) + [row] == [row];
        proc.infoMessages := proc.infoMessages[title := [row]];
      }
    }

    /** `Bash.append_to_file`: the optional backup copy, then the
        here-document write; `nosudo` has no effect. */
    method AppendToFile(filename: string, text: string, user: Option<string>,
                        nosudo: bool, backup: bool, append: bool)
      modifies proc
      ensures var cmds := AppendCommands(filename, text, user, backup, append, now);
              proc.trace == old(proc.trace) + Commands(cmds) &&
              proc.executed == old(proc.executed) + Executed(cmds, args)
      ensures proc.aptUpdated == old(proc.aptUpdated) && proc.infoMessages == old(proc.infoMessages)
      ensures proc.logFile == old(proc.logFile)
    {
      var cmds := [];
      if backup {
        cmds := [BackupCommand(filename, now)];
      }
      var www := WwwFlag(user);
      var appendFlag := if append then "-a" else "";
      var addCmd := "echo | sudo " + www + " tee " + appendFlag + " \"" + filename + "\" <<EOF\n" + text + "\nEOF";
      assert addCmd == AppendHeader(filename, user, append) + "\n" + text + "\nEOF";
      cmds := cmds + [Dedent(addCmd)];
      proc.RunAll(cmds, args);
    }

    /** `Bash.restart_apache`: restart on Ubuntu, otherwise report the
        unknown platform and exit. */
    method RestartApache()
      modifies proc
      ensures proc.trace == old(proc.trace) + [if ubuntu then Command(RestartCommand) else Fatal(RestartError)]
      ensures proc.executed == old(proc.executed) + (if ubuntu then Executed([RestartCommand], args) else [])
      ensures proc.aptUpdated == old(proc.aptUpdated) && proc.infoMessages == old(proc.infoMessages)
      ensures proc.logFile == old(proc.logFile)
    {
      if ubuntu {
        var _ := proc.Run(RestartCommand, args);
      } else {
        proc.Error(RestartError);
      }
    }
  }

  /** Whether some module of `mods` has apt packages. */
  predicate HasApt(mods: seq<Bash>)
  {
    mods != [] && (HasApt(mods[..|mods| - 1]) || mods[|mods| - 1].aptPkgs != [])
  }

  lemma HasAptSnoc(mods: seq<Bash>, k: nat)
    requires k < |mods|
    ensures HasApt(mods[..k + 1]) <==> HasApt(mods[..k]) || mods[k].aptPkgs != []
  {
    assert mods[..k + 1][..k] == mods[..k];
  }

  /** `HasApt` holds exactly when some module has apt packages. */
  lemma {:induction false} HasAptExists(mods: seq<Bash>)
    ensures HasApt(mods) <==> exists i :: 0 <= i < |mods| && mods[i].aptPkgs != []
  {
    if mods != [] {
      var init := mods[..|mods| - 1];
      HasAptExists(init);
      if HasApt(init) {
        var i :| 0 <= i < |init| && init[i].aptPkgs != [];
        assert mods[i] == init[i];
      }
      if exists i :: 0 <= i < |mods| && mods[i].aptPkgs != [] {
        var i :| 0 <= i < |mods| && mods[i].aptPkgs != [];
        if i < |init| {
          assert init[i] == mods[i];
        }
      }
    }
  }

  /** One module's `install` adds an update to the trace exactly when the
      process had not updated and the module has apt packages. */
  lemma InstallUpdates(before: seq<Event>, updated: bool, dry: bool,
                       aptPkgs: seq<string>, snapPkgs: seq<(string, SnapMode)>)
    ensures var cmds := AptCommands(updated, dry, aptPkgs) + SnapCommands(snapPkgs);
            Count(before + Commands(cmds), Command(UpdateCommand))
            == Count(before, Command(UpdateCommand)) + (if !updated && aptPkgs != [] then 1 else 0)
  {
    var a, s := AptCommands(updated, dry, aptPkgs), SnapCommands(snapPkgs);
    var u := Command(UpdateCommand);
    CommandsAppend(a, s);
    assert before + Commands(a + s) == (before + Commands(a)) + Commands(s);
    CountAppend(before + Commands(a), Commands(s), u);
    CountAppend(before, Commands(a), u);
    AptCommandsUpdateOnce(updated, dry, aptPkgs);
    SnapCommandsNoUpdate(snapPkgs);
  }

  /** `app.install()` for each module of a run, all sharing one process:
      however many of them have apt packages, `apt-get update` is issued
      once if the process had not updated and some module has packages,
      and never otherwise. */
  method InstallEach(proc: Process, mods: seq<Bash>)
    requires forall i :: 0 <= i < |mods| ==> mods[i].proc == proc
    modifies proc
    ensures Count(proc.trace, Command(UpdateCommand))
            == old(Count(proc.trace, Command(UpdateCommand))) + (if !old(proc.aptUpdated) && HasApt(mods) then 1 else 0)
    ensures proc.aptUpdated == (old(proc.aptUpdated) || HasApt(mods))
  {
    var u := Command(UpdateCommand);
    for k := 0 to |mods|
      invariant Count(proc.trace, u)
                == old(Count(proc.trace, u)) + (if !old(proc.aptUpdated) && HasApt(mods[..k]) then 1 else 0)
      invariant proc.aptUpdated == (old(proc.aptUpdated) || HasApt(mods[..k]))
    {
      var m := mods[k];
      ghost var before := proc.trace;
      ghost var updated := proc.aptUpdated;
      m.Install();
      InstallUpdates(before, updated, m.dryRun, m.aptPkgs, m.snapPkgs);
      HasAptSnoc(mods, k);
    }
    assert mods[..|mods|] == mods;
  }
}
