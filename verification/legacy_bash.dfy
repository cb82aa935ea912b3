// Behaviour the two older `Bash` base classes (boss/bash.py and
// src/bash.py) share line for line: the installed-modules log, kept as a
// set of lines with add and remove, and the requirement check against the
// tags installed so far.

module LegacyBash {
  import opened Common
  import opened Shell

  // ------------------------------------------------------- installed log

  /** The lines a log file holds, as a set; a missing file holds none. */
  function LinesOf(file: Option<seq<string>>): set<string>
  {
    if file.Some? then Elements(file.value) else {}
  }

  /** The set of lines `log(action, name)` writes back: the record
      `name + "\n"` is added on install and removed on uninstall; every
      other line read stays, and duplicates collapse. */
  function LogLines(file: Option<seq<string>>, action: string, name: string): (r: set<string>)
    ensures name + "\n" in r <==>
            action == "install" || (action != "uninstall" && name + "\n" in LinesOf(file))
    ensures forall x :: x != name + "\n" ==> (x in r <==> x in LinesOf(file))
  {
    var read := LinesOf(file);
    if action == "install" then read + {name + "\n"}
    else if action == "uninstall" then read - {name + "\n"}
    else read
  }

  /** Removing a record that is not there changes nothing and is no error. */
  lemma UninstallAbsent(file: Option<seq<string>>, name: string)
    requires name + "\n" !in LinesOf(file)
    ensures LogLines(file, "uninstall", name) == LinesOf(file)
  {
  }

  /** Installing the same module twice leaves one record. */
  lemma {:induction false} InstallIdempotent(file: Option<seq<string>>, written: seq<string>, name: string)
    requires Elements(written) == LogLines(file, "install", name)
    ensures LogLines(Some(written), "install", name) == Elements(written)
  {
    assert name + "\n" in Elements(written);
  }

  /** Uninstalling right after installing leaves what uninstalling alone
      would have left: every other line is kept. */
  lemma {:induction false} InstallThenUninstall(file: Option<seq<string>>, written: seq<string>, name: string)
    requires Elements(written) == LogLines(file, "install", name)
    ensures LogLines(Some(written), "uninstall", name) == LogLines(file, "uninstall", name)
  {
    assert LinesOf(Some(written)) == LinesOf(file) + {name + "\n"};
  }

  /** `Bash.log(action, name)`: read the lines (none when the file is
      missing), apply the set update, and write the set back in whatever
      order the set yields. */
  method Log(proc: Process, action: string, name: string)
    modifies proc
    ensures proc.logFile.Some?
    ensures Elements(proc.logFile.value) == LogLines(old(proc.logFile), action, name)
    ensures Distinct(proc.logFile.value)
    ensures proc.trace == old(proc.trace) && proc.executed == old(proc.executed)
    ensures proc.aptUpdated == old(proc.aptUpdated) && proc.infoMessages == old(proc.infoMessages)
  {
    var lines := LogLines(proc.logFile, action, name);
    var written := Enumerate(lines);
    proc.logFile := Some(written);
  }

  // ------------------------------------------------- requirement check

  /** The requirements, in declared order, whose lower-case form is not
      among the installed tags. */
  function MissingRequirements(required: seq<string>, installed: seq<string>): (r: seq<string>)
    ensures |r| <= |required|
    ensures forall x :: x in r <==> x in required && Lower(x) !in installed
  {
    if required == [] then []
    else
      var last := required[|required| - 1];
      MissingRequirements(required[..|required| - 1], installed)
      + (if Lower(last) !in installed then [last] else [])
  }

  /** The text of the `DependencyError`. */
  function RequiresMessage(name: string, missing: seq<string>): string
  {
    "Module " + name + " requires: " + Join(", ", missing) + "."
  }

  /** `Bash.check_requirments(installed)`: the `DependencyError` message,
      naming every missing requirement, or `None` when nothing is missing. */
  method CheckRequirements(name: string, required: seq<string>, installed: seq<string>)
    returns (r: Option<string>)
    ensures r.None? <==> forall x :: x in required ==> Lower(x) in installed
    ensures r.Some? ==> r.value == RequiresMessage(name, MissingRequirements(required, installed))
  {
    var missing := [];
    for i := 0 to |required|
      invariant missing == MissingRequirements(required[..i], installed)
    {
      assert required[..i + 1][..i] == required[..i];
      if Lower(required[i]) !in installed {
        missing := missing + [required[i]];
      }
    }
    assert required[..|required|] == required;
    if missing != [] {
      assert missing[0] in missing;
      r := Some(RequiresMessage(name, missing));
    } else {
      r := None;
    }
  }
}
