// `post_install` of the effective `VirtualHost` class of the src/ tree
// (src/mods/virtualhost.py): two modules enabled, then for every site its
// configuration piped into `sudo tee` through a here-document and an
// `a2ensite`, and one unconditional restart at the end. The templates are
// those of the current tree without the CORS header line.

module OldVirtualHost {
  import opened Common
  import opened Shell
  import CurrentBash
  import Certs
  import VirtualHost

  /** A site of the older `--site-name-and-root`: name and document root. */
  type OldSite = (string, string)

  const OldModules := ["sudo a2enmod ssl", "sudo a2enmod rewrite"]

  /** The configuration of a site: `_http` and `_https` of the site name
      and its full document root, with the certificate of the server. */
  function OldConf(site: OldSite, servername: string, home: string): string
  {
    var root := PathJoin(VirtualHost.WwwRoot, site.1);
    var names := Certs.CertNames(servername, home);
    VirtualHost.Http(site.0, root, false) + VirtualHost.Https(site.0, root, names.realCrt, names.realKey, false)
  }

  /** The shell command that writes `conf` to `confFile`. */
  function TeeCommand(confFile: string, conf: string): string
  {
    "echo | sudo tee " + confFile + " <<EOF\n" + conf + "\nEOF"
  }

  /** The two commands of one site, for its configuration `conf`. */
  function OldSiteCommands(site: OldSite, conf: string): seq<string>
  {
    [TeeCommand(VirtualHost.ConfFile(site.0), conf), VirtualHost.EnsiteCommand(site.0)]
  }

  /** The configurations of the sites, in order. */
  function OldConfs(sites: seq<OldSite>, servername: string, home: string): (r: seq<string>)
    ensures |r| == |sites|
  {
    seq(|sites|, k requires 0 <= k < |sites| => OldConf(sites[k], servername, home))
  }

  /** The commands of the site loop, site `k` written with `confs[k]`. */
  function OldSitesCommands(sites: seq<OldSite>, confs: seq<string>): seq<string>
    requires |confs| == |sites|
  {
    if sites == [] then []
    else
      var n := |sites| - 1;
      OldSitesCommands(sites[..n], confs[..n]) + OldSiteCommands(sites[n], confs[n])
  }

  /** One pass of the site loop. */
  method OldInstallSite(proc: Process, args: Args, site: OldSite, conf: string)
    modifies proc
    ensures proc.trace == old(proc.trace) + Commands(OldSiteCommands(site, conf))
    ensures proc.executed == old(proc.executed) + Executed(OldSiteCommands(site, conf), args)
    ensures proc.aptUpdated == old(proc.aptUpdated) && proc.infoMessages == old(proc.infoMessages)
    ensures proc.logFile == old(proc.logFile)
  {
    var confFile := "/etc/apache2/sites-available/" + site.0 + ".conf";
    var _ := proc.Run(TeeCommand(confFile, conf), args);
    var _ := proc.Run("sudo a2ensite " + site.0, args);
    CommandsSnoc([TeeCommand(confFile, conf)], "sudo a2ensite " + site.0);
    assert [TeeCommand(confFile, conf)] == [] + [TeeCommand(confFile, conf)];
    CommandsSnoc([], TeeCommand(confFile, conf));
  }

  /** The site loop of `post_install`, the configuration of each site
      built in the loop. */
  method OldInstallSites(proc: Process, args: Args, sites: seq<OldSite>, servername: string, home: string)
    modifies proc
    ensures proc.trace == old(proc.trace) + Commands(OldSitesCommands(sites, OldConfs(sites, servername, home)))
    ensures proc.executed == old(proc.executed) + Executed(OldSitesCommands(sites, OldConfs(sites, servername, home)), args)
    ensures proc.aptUpdated == old(proc.aptUpdated) && proc.infoMessages == old(proc.infoMessages)
    ensures proc.logFile == old(proc.logFile)
  {
    ghost var trace0, executed0 := proc.trace, proc.executed;
    ghost var confs := OldConfs(sites, servername, home);
    for i := 0 to |sites|
      invariant proc.trace == trace0 + Commands(OldSitesCommands(sites[..i], confs[..i]))
      invariant proc.executed == executed0 + Executed(OldSitesCommands(sites[..i], confs[..i]), args)
      invariant proc.aptUpdated == old(proc.aptUpdated) && proc.infoMessages == old(proc.infoMessages)
      invariant proc.logFile == old(proc.logFile)
    {
      var conf := OldConf(sites[i], servername, home);
      OldSiteStep(proc, args, sites, confs, i, conf, trace0, executed0);
    }
    assert sites[..|sites|] == sites && confs[..|sites|] == confs;
  }

  /** One pass of the site loop, stated on the prefixes of `sites` before
      and after it. */
  method OldSiteStep(proc: Process, args: Args, sites: seq<OldSite>, ghost confs: seq<string>, i: nat, conf: string,
                     ghost trace0: seq<Event>, ghost executed0: seq<string>)
    requires |confs| == |sites| && i < |sites| && confs[i] == conf
    requires proc.trace == trace0 + Commands(OldSitesCommands(sites[..i], confs[..i]))
    requires proc.executed == executed0 + Executed(OldSitesCommands(sites[..i], confs[..i]), args)
    modifies proc
    ensures proc.trace == trace0 + Commands(OldSitesCommands(sites[..i + 1], confs[..i + 1]))
    ensures proc.executed == executed0 + Executed(OldSitesCommands(sites[..i + 1], confs[..i + 1]), args)
    ensures proc.aptUpdated == old(proc.aptUpdated) && proc.infoMessages == old(proc.infoMessages)
    ensures proc.logFile == old(proc.logFile)
  {
    var site := sites[i];
    OldInstallSite(proc, args, site, conf);
    ghost var before := OldSitesCommands(sites[..i], confs[..i]);
    OldSitesSnoc(sites, confs, i);
    CommandsAppend(before, OldSiteCommands(site, conf));
    AppendAssoc(trace0, Commands(before), Commands(OldSiteCommands(site, conf)));
    AppendAssoc(executed0, Executed(before, args), Executed(OldSiteCommands(site, conf), args));
  }

  lemma OldSitesSnoc(sites: seq<OldSite>, confs: seq<string>, i: nat)
    requires |confs| == |sites| && i < |sites|
    ensures OldSitesCommands(sites[..i + 1], confs[..i + 1])
            == OldSitesCommands(sites[..i], confs[..i]) + OldSiteCommands(sites[i], confs[i])
  {
    var prefix, confPrefix := sites[..i + 1], confs[..i + 1];
    assert prefix[..i] == sites[..i] && prefix[i] == sites[i];
    assert confPrefix[..i] == confs[..i] && confPrefix[i] == confs[i];
  }

  /** `post_install` of src/mods/virtualhost.py, with `os` taken as
      imported and `Cert` as the certificate module: the modules, the
      sites, then the restart. Without `--site-name-and-root` (`None`,
      which the parser allows unless `newsite` is on the command line) the
      loop over the sites raises `TypeError` right after the modules. */
  method OldPostInstall(proc: Process, args: Args, sites: Option<seq<OldSite>>, servername: string, home: string)
    modifies proc
    ensures sites.None? ==>
              proc.trace == old(proc.trace) + Commands(OldModules) + [Raised(VirtualHost.NotIterable)]
              && proc.executed == old(proc.executed) + Executed(OldModules, args)
    ensures sites.Some? ==>
              proc.trace == old(proc.trace) + Commands(OldModules)
                            + Commands(OldSitesCommands(sites.value, OldConfs(sites.value, servername, home)))
                            + [Command(CurrentBash.RestartCommand)]
    ensures sites.Some? ==>
              proc.executed == old(proc.executed) + Executed(OldModules, args)
                               + Executed(OldSitesCommands(sites.value, OldConfs(sites.value, servername, home)), args)
                               + Executed([CurrentBash.RestartCommand], args)
    ensures proc.aptUpdated == old(proc.aptUpdated) && proc.infoMessages == old(proc.infoMessages)
    ensures proc.logFile == old(proc.logFile)
  {
    proc.RunAll(OldModules, args);
    if sites.None? {
      proc.Raise(VirtualHost.NotIterable);
      return;
    }
    OldInstallSites(proc, args, sites.value, servername, home);
    var _ := proc.Run(CurrentBash.RestartCommand, args);
  }

  // ----------------------------------------------------------- properties

  /** The loop runs two commands per site, in site order: the `tee` of its
      configuration file, then its `a2ensite`. */
  lemma {:induction false} OldSiteCommandsAt(sites: seq<OldSite>, confs: seq<string>, k: nat)
    requires |confs| == |sites| && k < |sites|
    ensures |OldSitesCommands(sites, confs)| == 2 * |sites|
    ensures OldSitesCommands(sites, confs)[2 * k] == TeeCommand(VirtualHost.ConfFile(sites[k].0), confs[k])
    ensures OldSitesCommands(sites, confs)[2 * k + 1] == VirtualHost.EnsiteCommand(sites[k].0)
  {
    var n := |sites| - 1;
    var init, initConfs := sites[..n], confs[..n];
    if k < n {
      assert init[k] == sites[k] && initConfs[k] == confs[k];
      OldSiteCommandsAt(init, initConfs, k);
    } else if k > 0 {
      OldSiteCommandsAt(init, initConfs, k - 1);
    } else {
      assert init == [];
    }
  }

  /** A site's commands start with `echo` or `sudo a2`: neither restarts
      Apache. */
  lemma {:induction false} OldSitesNoRestart(sites: seq<OldSite>, confs: seq<string>)
    requires |confs| == |sites|
    ensures CurrentBash.RestartCommand !in OldSitesCommands(sites, confs)
  {
    if sites != [] {
      var n := |sites| - 1;
      OldSitesNoRestart(sites[..n], confs[..n]);
      var cmds := OldSiteCommands(sites[n], confs[n]);
      assert cmds[0][0] == 'e' && cmds[1][5] == 'a';
      assert CurrentBash.RestartCommand[0] == 's' && CurrentBash.RestartCommand[5] == 's';
    }
  }

  /** Apache is restarted exactly once, as the last command, with no check
      of the distribution. */
  lemma OldRestartOnceAtEnd(sites: seq<OldSite>, confs: seq<string>)
    requires |confs| == |sites|
    ensures var events := Commands(OldModules) + Commands(OldSitesCommands(sites, confs))
                          + [Command(CurrentBash.RestartCommand)];
            events[|events| - 1] == Command(CurrentBash.RestartCommand)
            && Count(events, Command(CurrentBash.RestartCommand)) == 1
  {
    var r := CurrentBash.RestartCommand;
    var head, body := Commands(OldModules), Commands(OldSitesCommands(sites, confs));
    OldSitesNoRestart(sites, confs);
    assert OldModules[0][5] == 'a' && OldModules[1][5] == 'a' && r[5] == 's';
    assert Command(r) !in head;
    assert Command(r) !in body;
    CountAppend(head, body, Command(r));
    CountAppend(head + body, [Command(r)], Command(r));
    assert [Command(r)][..0] == [];
  }

  /** Without sites, the run ends in the traceback after the two modules:
      Apache is not restarted. */
  lemma OldMissingSitesNoRestart()
    ensures var events := Commands(OldModules) + [Raised(VirtualHost.NotIterable)];
            |events| == 3 && events[2].Raised?
            && Count(events, Command(CurrentBash.RestartCommand)) == 0
  {
    var r := CurrentBash.RestartCommand;
    assert OldModules[0][5] == 'a' && OldModules[1][5] == 'a' && r[5] == 's';
    assert Command(r) !in Commands(OldModules);
  }

  /** The older configuration is the current one without the CORS header:
      the same `_http` and `_https` with the same certificate. */
  lemma OldConfIsCurrentWithoutCors(name: string, root: string, createDir: string, servername: string, home: string)
    ensures OldConf((name, root), servername, home) == VirtualHost.SiteConf((name, root, createDir), servername, home, false)
  {
  }
}
