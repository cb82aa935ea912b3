// The self-signed certificate module (`Cert` in src/boss/mods/cert.py and
// in boss/cert.py): where the certificate and key live, the openssl call
// and the two copies of `pre_install`, and the four guarded removals of
// `post_uninstall`. The home directory `os.path.expanduser('~')` is a
// parameter.

module Certs {
  import opened Common
  import opened Shell

  const CertLoc := "/etc/ssl"

  /** The four paths of `cert_names`, in the order the source returns them. */
  datatype CertPaths = CertPaths(homeCrt: string, homeKey: string, realCrt: string, realKey: string)

  /** `Cert.cert_names(cert_basename)`: the file names `<base>.crt` and
      `<base>.key`, joined onto the home directory and onto
      `/etc/ssl/certs` and `/etc/ssl/private`. */
  function CertNames(base: string, home: string): CertPaths
  {
    var crt := base + ".crt";
    var key := base + ".key";
    CertPaths(PathJoin(home, crt), PathJoin(home, key),
              PathJoin(PathJoin(CertLoc, "certs"), crt), PathJoin(PathJoin(CertLoc, "private"), key))
  }

  /** A relative base name lands in the system directories. */
  lemma CertNamesRelative(base: string, home: string)
    requires base == [] || base[0] != '/'
    ensures CertNames(base, home).realCrt == "/etc/ssl/certs/" + base + ".crt"
    ensures CertNames(base, home).realKey == "/etc/ssl/private/" + base + ".key"
  {
    var crt, key := base + ".crt", base + ".key";
    assert crt[0] != '/' && key[0] != '/' by {
      if base != [] {
        assert crt[0] == base[0] && key[0] == base[0];
      }
    }
    SystemDirs();
    assert "/etc/ssl/certs"[13] == 's' && "/etc/ssl/private"[15] == 'e';
    PathJoinRelative("/etc/ssl/certs", crt);
    PathJoinRelative("/etc/ssl/private", key);
  }

  /** With a relative base name, the home copies sit directly in the home
      directory, a `/` added when it has none at its end. */
  lemma CertNamesHome(base: string, home: string)
    requires base == [] || base[0] != '/'
    requires home != [] && home[|home| - 1] != '/'
    ensures CertNames(base, home).homeCrt == home + "/" + base + ".crt"
    ensures CertNames(base, home).homeKey == home + "/" + base + ".key"
  {
    var crt, key := base + ".crt", base + ".key";
    assert crt[0] != '/' && key[0] != '/' by {
      if base != [] {
        assert crt[0] == base[0] && key[0] == base[0];
      }
    }
    PathJoinRelative(home, crt);
    PathJoinRelative(home, key);
  }

  lemma SystemDirs()
    ensures PathJoin(CertLoc, "certs") == "/etc/ssl/certs"
    ensures PathJoin(CertLoc, "private") == "/etc/ssl/private"
  {
    assert CertLoc[|CertLoc| - 1] == 'l';
    assert "certs"[0] == 'c' && "private"[0] == 'p';
    PathJoinRelative(CertLoc, "certs");
    PathJoinRelative(CertLoc, "private");
  }

  /** `os.path.join` lets an absolute base name escape `/etc/ssl`. */
  lemma CertNamesAbsolute(base: string, home: string)
    requires base != [] && base[0] == '/'
    ensures CertNames(base, home) == CertPaths(base + ".crt", base + ".key", base + ".crt", base + ".key")
  {
    assert (base + ".crt")[0] == '/' && (base + ".key")[0] == '/';
  }

  /** Different relative base names never share a system path. */
  lemma CertNamesInjective(b1: string, b2: string, home: string)
    requires b1 == [] || b1[0] != '/'
    requires b2 == [] || b2[0] != '/'
    requires CertNames(b1, home).realCrt == CertNames(b2, home).realCrt
    ensures b1 == b2
  {
    CertNamesRelative(b1, home);
    CertNamesRelative(b2, home);
    var p := "/etc/ssl/certs/";
    assert (p + b1 + ".crt")[|p|..|p| + |b1|] == b1;
    assert (p + b2 + ".crt")[|p|..|p| + |b2|] == b2;
  }

  // ---------------------------------------------------------- pre_install

  /** The openssl request of `pre_install`, as the triple-quoted string
      reads once its backslash-newline continuations are removed. */
  function OpensslCommand(servername: string, base: string): string
  {
    var indent := "                 ";
    "\n            sudo openssl "
    + indent + "req "
    + indent + "-new "
    + indent + "-newkey rsa:4096 "
    + indent + "-days 10950 "
    + indent + "-nodes "
    + indent + "-x509 "
    + indent + "-subj \"/C=US/ST=Denial/L=Springfield/O=Dis/CN=" + servername + "\" "
    + indent + "-keyout " + base + ".key "
    + indent + "-out " + base + ".crt &>/dev/null\n        "
  }

  function CopyCommand(source: string, target: string): string
  {
    "sudo cp " + source + " " + target
  }

  /** The commands of `pre_install`: the request, then the two copies into
      `/etc/ssl`, the certificate first. */
  function PreInstallCommands(servername: string): seq<string>
  {
    [OpensslCommand(servername, servername),
     CopyCommand(servername + ".crt", "/etc/ssl/certs/" + servername + ".crt"),
     CopyCommand(servername + ".key", "/etc/ssl/private/" + servername + ".key")]
  }

  /** The copies go exactly to the system paths `cert_names` gives for the
      server name, and copy the files the request wrote. */
  lemma PreInstallTargets(servername: string, home: string)
    requires servername == [] || servername[0] != '/'
    ensures var cmds := PreInstallCommands(servername);
            var names := CertNames(servername, home);
            cmds[1] == CopyCommand(servername + ".crt", names.realCrt)
            && cmds[2] == CopyCommand(servername + ".key", names.realKey)
  {
    CertNamesRelative(servername, home);
  }

  /** The request ends by writing the certificate file the first copy
      reads. */
  lemma OpensslWritesCertificate(servername: string, base: string)
    ensures var cmd := OpensslCommand(servername, base);
            var tail := "-out " + base + ".crt &>/dev/null\n        ";
            |tail| <= |cmd| && cmd[|cmd| - |tail|..] == tail
  {
    var cmd := OpensslCommand(servername, base);
    var tail := "-out " + base + ".crt &>/dev/null\n        ";
    var head := cmd[..|cmd| - |tail|];
    assert cmd == head + tail;
  }

  /** `Cert.pre_install`, with the server name as the base name. */
  method PreInstall(proc: Process, args: Args, servername: string)
    modifies proc
    ensures proc.trace == old(proc.trace) + Commands(PreInstallCommands(servername))
    ensures proc.executed == old(proc.executed) + Executed(PreInstallCommands(servername), args)
    ensures proc.aptUpdated == old(proc.aptUpdated) && proc.infoMessages == old(proc.infoMessages)
    ensures proc.logFile == old(proc.logFile)
  {
    proc.RunAll(PreInstallCommands(servername), args);
  }

  // ------------------------------------------------------- post_uninstall

  /** A removal guarded by an existence test: `[[ -e f ]]` for files in the
      home directory, `sudo test -e f` for the root-owned ones. */
  function RemoveCommand(f: string, asRoot: bool): string
  {
    (if asRoot then "sudo test -e " + f else "[[ -e " + f + " ]]") + " && sudo rm " + f
  }

  /** Each removal tests and removes the same file. */
  lemma RemoveCommandTarget(f: string, asRoot: bool)
    ensures var cmd := RemoveCommand(f, asRoot);
            var guard := if asRoot then "sudo test -e " else "[[ -e ";
            var tail := " && sudo rm " + f;
            |guard + f| + |tail| <= |cmd|
            && cmd[..|guard + f|] == guard + f
            && cmd[|cmd| - |tail|..] == tail
  {
    var cmd := RemoveCommand(f, asRoot);
    var guard := if asRoot then "sudo test -e " else "[[ -e ";
    var tail := " && sudo rm " + f;
    var mid := if asRoot then "" else " ]]";
    assert cmd == guard + f + mid + tail;
  }

  /** The commands of `post_uninstall`: the four paths in tuple order, the
      home copies without `sudo` in the test. */
  function PostUninstallCommands(names: CertPaths): seq<string>
  {
    [RemoveCommand(names.homeCrt, false), RemoveCommand(names.homeKey, false),
     RemoveCommand(names.realCrt, true), RemoveCommand(names.realKey, true)]
  }

  /** `Cert.post_uninstall` (boss/cert.py) for `args.cert_basename`. */
  method PostUninstall(proc: Process, args: Args, base: string, home: string)
    modifies proc
    ensures proc.trace == old(proc.trace) + Commands(PostUninstallCommands(CertNames(base, home)))
    ensures proc.executed == old(proc.executed) + Executed(PostUninstallCommands(CertNames(base, home)), args)
    ensures proc.aptUpdated == old(proc.aptUpdated) && proc.infoMessages == old(proc.infoMessages)
    ensures proc.logFile == old(proc.logFile)
  {
    var names := CertNames(base, home);
    proc.RunAll(PostUninstallCommands(names), args);
  }

  /** Installing and then uninstalling with the same base name removes
      exactly the two files the copies created, and the two home copies. */
  lemma UninstallRemovesInstalled(servername: string, home: string)
    requires servername == [] || servername[0] != '/'
    ensures var names := CertNames(servername, home);
            var copies := PreInstallCommands(servername);
            var removals := PostUninstallCommands(names);
            copies[1] == CopyCommand(servername + ".crt", names.realCrt)
            && removals[2] == RemoveCommand(names.realCrt, true)
            && copies[2] == CopyCommand(servername + ".key", names.realKey)
            && removals[3] == RemoveCommand(names.realKey, true)
  {
    PreInstallTargets(servername, home);
  }
}
