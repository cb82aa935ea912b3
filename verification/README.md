# boss: the decision layer of a server-provisioning tool, in Dafny

`boss` installs and configures software on a Debian/Ubuntu server. It does so
by running "modules" (Lamp, Php, SelfCert, VirtualHost, ...), each a class
that issues shell commands through a common `Bash` base class. The repository
holds three generations of the program:

- the current package under `src/boss/`;
- an older single-script tree under `src/`;
- the oldest tree under `boss/`.

This project models the parts of those trees that decide something, as
opposed to the parts that only pass text to a shell:

- **Module selection** (`Registry`, src/boss/cli.py). Prefix matching of the
  requested names against an ordered registry of module descriptors, with
  ambiguity detection and the error message. The First/Last bracketing of the
  run list. The whole-set `requires - provides` dependency check.
- **The older entry point** (`LegacyInstall`, src/__main__.py). The
  invalid-name check, the cumulative dependency pre-check and the in-loop
  requirement check. Lemmas relate them to each other and to the current
  whole-set check.
- **Option parsers and validators** (`Params`, src/boss/cli.py and
  src/__main__.py): `is_server`, `is_email` (its regular expression as a
  string predicate), the comma- and colon-separated value parsers and
  `deps`, as written and as evidently intended. Round-trip lemmas cover
  each parser.
- **The `Bash` base classes.**
  - `Shell` holds the state the classes share in one process: the trace of
    commands shown, the commands actually executed, the "apt updated" flag,
    the summary rows and the installed-modules log. It also holds `run` and
    its dry-run short-circuit.
  - `CurrentBash` models src/boss/bash.py: `_apt`, `_snap`, `info`,
    `append_to_file`, `restart_apache` and `log`.
  - `OldBash` models boss/bash.py: install/purge `_apt` behind a module
    global, and `uninstall`.
  - `SrcBash` models src/bash.py: install-only `_apt` behind a class
    attribute.
  - `LegacyBash` holds what the two older classes share: the add/remove log
    and `check_requirments`.
- **Certificates** (`Certs`): `cert_names`, the commands of `pre_install` and
  of `post_uninstall`.
- **Virtual hosts.**
  - `VirtualHost` models src/boss/mods/virtualhost.py: the `_http` and
    `_https` templates with their 12-character slice dedent, and the full
    command/file/summary sequence of `post_install`.
  - `OldVirtualHost` models the effective class of src/mods/virtualhost.py.

Commands are never run. A `Process` object records every event (command
shown, file written, fatal error, uncaught exception) in order. Separately, it records the
commands that `run` would hand to `/bin/bash`, which it does unless
`--dry-run` or `--generate-script` is given. Everything the program learns
from the outside world is a parameter of the model:

- the output of `hostname -I`;
- whether a directory exists;
- the contents of `~/boss-installed-modules`;
- the home directory;
- whether the platform is Ubuntu;
- the timestamp.

## Model

| member | source | states |
|---|---|---|
| Common.Strip | src/boss/cli.py:147 | the stripped text has no white space at either end, and is empty exactly when the input is all white space |
| Common.StripIsSlice | src/boss/cli.py:147 | the stripped text is a contiguous slice of the input, and everything cut off before and after it is white space |
| Common.TrimLeftSuffix | src/boss/cli.py:147 | stripping the left end keeps a suffix of the input and removes only white space |
| Common.TrimRightPrefix | src/boss/cli.py:147 | stripping the right end keeps a prefix of the input and removes only white space |
| Common.StripIdempotent | src/boss/cli.py:152 | stripping an already stripped piece changes nothing, so the converters' second `strip()` is a no-op |
| Common.SplitN | src/boss/cli.py:147 | `str.split(sep, n)` gives between 1 and n+1 pieces; every piece but the last is free of the separator, and so is the last when fewer than n+1 came out |
| Common.JoinSplitN | src/boss/cli.py:147 | joining the pieces of a split at most n times with the separator gives the original text |
| Common.SplitNJoin | src/boss/cli.py:147 | splitting at most n times the join of n+1 pieces, all but the last separator-free, gives the pieces back |
| Common.SplitJoin | src/boss/cli.py:169 | splitting at ':' the join of colon-free pieces gives the pieces back |
| Common.JoinSplit | src/boss/cli.py:169 | joining the pieces of a split with the separator gives the original text |
| Common.NonBlankCount | src/boss/cli.py:147 | the `if i.strip()` filter keeps as many pieces as it is given exactly when no piece is blank |
| Common.NonBlankShort | src/boss/cli.py:147-148 | one blank piece makes the filtered list shorter, which is what makes the unpacking fail |
| Common.Enumerate | src/boss/cli.py:114 | `list(set)` holds each element of the set exactly once and nothing else |
| Common.PathJoinRelative | src/boss/mods/virtualhost.py:91 | `os.path.join(a, b)` with a relative `b` and `a` not ending in '/' is `a + "/" + b` |
| Registry.MatchesMembers | src/boss/cli.py:101-105 | a descriptor is among a token's matches exactly when it is registered and its lower-cased name starts with the token |
| Registry.TwoPrefixedNamesAmbiguous | src/boss/cli.py:103-107 | a token that starts two different registered names is ambiguous, even when it equals one of them |
| Registry.SelectedMembers | src/boss/cli.py:97-105 | a module is selected exactly when it is registered and some token starts its lower-cased name; tokens matching nothing contribute nothing |
| Registry.EnumerationIsPhrase | src/boss/cli.py:108-110 | the slicing expression joins quoted names with ", " and puts " and " before the last one |
| Registry.ScanRegistry | src/boss/cli.py:99-106 | one pass over the registry collects the names the token starts, in registry order and original case, counts them, and adds their modules to the set |
| Registry.GetMatchingModules | src/boss/cli.py:96-114 | succeeds exactly when no token is ambiguous, with the set of selected modules; otherwise it fails for the first ambiguous token with the message quoting every name it matches |
| Registry.MissingEmpty | src/boss/cli.py:406-407 | nothing is missing exactly when every tag some module of the run list requires is provided by some module of it |
| Registry.MissingIgnoresOrder | src/boss/cli.py:401-406 | the check depends only on which modules are in the run list, not on their order or repetition |
| Registry.LaterProviderAccepted | src/boss/cli.py:403-407 | a module whose requirement is provided only by a module after it passes the whole-set check |
| Registry.CheckDependencies | src/boss/cli.py:400-406 | the loop that concatenates `provides` and `requires` and subtracts computes the missing tags of the run list |
| Registry.SelectedRequested | src/boss/cli.py:388-392 | after lower-casing the requested names, a module is selected exactly when some requested name, lower-cased, starts its lower-cased name |
| Registry.Install | src/boss/cli.py:388-409 | `install` is refused exactly when some lower-cased requested name is ambiguous. Otherwise the selection holds each requested module once. The run list is First, the selection, Last, unless no-required is set. It stops exactly when dependency checking is on and tags are missing, naming those tags |
| Registry.PhpIsAmbiguous | src/boss/cli.py:49-73 | in the registry, `php` is the whole name of Php and still ambiguous, because it also starts PhpMyAdmin and PhpInfo |
| Registry.VirtualHostAloneRefused | src/boss/cli.py:396-409 | First, VirtualHost, Last lack `apache2` and `cert` |
| Registry.VirtualHostWithLampAndCertAccepted | src/boss/cli.py:396-409 | adding SelfCert and Lamp to the run list satisfies VirtualHost |
| Params.ServerName | src/boss/cli.py:125-130 | a value is accepted, unchanged, exactly when it contains '.'; otherwise the failure carries the servername message |
| Params.IsEmailMatches | src/boss/cli.py:82-85 | `is_email` holds exactly when some prefix of the text has the form non-'@'+ '@' non-'@'+ '.' non-'@'+ |
| Params.IsEmailSound | src/boss/cli.py:83 | an accepted address has a match of the regular expression at its start |
| Params.IsEmailComplete | src/boss/cli.py:83 | every match at the start is accepted |
| Params.IsEmailIgnoresSuffix | src/boss/cli.py:83 | text after a matching prefix is not checked |
| Params.Fields | src/boss/cli.py:147 | unpacking into n names succeeds exactly when splitting at the first n-1 separators gives n non-blank pieces, and yields those pieces stripped |
| Params.FieldsShape | src/boss/cli.py:147 | unpacked fields are stripped and non-empty, and all but the last are free of the separator |
| Params.FieldsJoin | src/boss/cli.py:147 | n stripped non-empty fields joined by the separator, all but the last separator-free, unpack to themselves |
| Params.Pair | src/boss/cli.py:143-152 | `UserPass.convert` and the older `userpass` accept exactly when the two-field unpacking succeeds, returning a comma-free name and a secret, both stripped; otherwise they fail with the message |
| Params.PairRoundTrip | src/__main__.py:246-253 | `name,secret` with a comma-free name comes back as the pair, the secret keeping any commas |
| Params.PairNeedsComma | src/boss/cli.py:146-151 | a value without a comma is refused |
| Params.PairBlankSide | src/boss/cli.py:146-151 | a value whose name or secret is blank is refused with the message, since the filter leaves one field to unpack into two |
| Params.Triple | src/__main__.py:255-262 | `userpassemail` accepts exactly when splitting at the first two commas gives three non-blank pieces, returned stripped; the address is not checked |
| Params.TripleRoundTrip | src/__main__.py:255-262 | three stripped fields, the first two comma-free, come back from their comma-joined text |
| Params.UserEmailPass | src/boss/cli.py:196-210 | accepts exactly when the three-field unpacking succeeds and the middle field passes `is_email` |
| Params.UserEmailPassRoundTrip | src/boss/cli.py:196-210 | three stripped fields with a comma-free name and a valid address come back from their comma-joined text |
| Params.ParseSite | src/boss/cli.py:174-184 | a segment is accepted exactly when it unpacks into three fields, the site name contains '.', and the answer is "y" or "n" in either case; the answer is kept as given |
| Params.ParseSiteRoundTrip | src/boss/cli.py:174-184 | a well-formed triple reads back from its text as itself |
| Params.ParseAllErrPrefix | src/boss/cli.py:173-183 | once a segment fails, the whole value fails with that segment's error |
| Params.ParseAllSpec | src/boss/cli.py:173-185 | the list parses exactly when every segment does, then to the segments' values in order; otherwise it fails with the error of the first bad segment |
| Params.ParseAllOk | src/boss/cli.py:173-185 | segments that each parse to a value parse together to the list of those values |
| Params.ParseSegments | src/boss/cli.py:173-185 | the loop over the segments computes the list parse |
| Params.SiteDocroot | src/boss/cli.py:166-185 | `SiteDocroot.convert` splits at ':' and parses every segment as a site triple |
| Params.SitesSplit | src/boss/cli.py:169 | splitting the text of colon-free sites at ':' gives the sites' texts |
| Params.SitesRoundTrip | src/boss/cli.py:166-185 | well-formed, colon-free sites read back from their ':'-joined text as themselves |
| Params.NewSite | src/__main__.py:264-276 | `newsite` splits at ':' and parses every segment as a (name, root) pair |
| Params.NewSiteNeedsComma | src/__main__.py:264-272 | any segment without a comma fails the whole value |
| Params.Positionals | src/boss/cli.py:232 | the kept arguments are exactly those not starting with '-', never more than given |
| Params.PositionalsAppend | src/boss/cli.py:232 | filtering distributes over concatenation |
| Params.Drop | src/boss/cli.py:232 | `s[3:]` has three elements fewer, or none |
| Params.DepsIgnoresOptions | src/boss/cli.py:229-236 | inserting an option anywhere in argv does not change `deps` |
| Params.DepsNeedsPositional | src/boss/cli.py:229-236 | with three positional arguments or fewer `deps` is false; when true, some dependency is a positional argument |
| Params.DepsMissesCapitalisedModule | src/boss/cli.py:229-236 | as written, `boss install example.com lamp selfcert VirtualHost` leaves `--site-name-and-root` optional, where the intended check requires it |
| Params.DepsIntendedExtends | src/boss/cli.py:229-236 | the intended check (lower-cased prefix of a dependency) requires the option whenever `deps` as written does |
| Registry.SelectedDependencyRequiresOption | src/boss/cli.py:229-236 | with the intended check, a run that selects a module named in `deps` always requires its option |
| Shell.Process.constructor | src/boss/bash.py:44-47 | a process starts with nothing shown, nothing executed, the apt flag clear and no summary rows |
| Shell.Process.Run | src/boss/bash.py:153-175 | every command is shown; it is executed exactly when neither dry-run nor generate-script is set; nothing else changes |
| Shell.Process.RunAll | src/boss/bash.py:153-175 | running commands in turn shows them all in order and executes them under the same rule |
| Shell.Process.WriteNewFile | src/boss/mods/virtualhost.py:117 | writing a file is one event, and no command is executed |
| Shell.Process.Error | src/boss/bash.py:193 | `error` is recorded as one fatal event; nothing is executed |
| Shell.Process.Raise | src/boss/cli.py:429-445 | an exception none of the `except` clauses names is recorded as one last event; nothing is executed |
| Shell.AptCommandDryRun | src/boss/bash.py:198-208 | the install command carries `--dry-run` exactly when the instance is a dry run |
| Shell.AptCommandPackages | src/boss/bash.py:199-207 | the package list reads back from the install command, space-joined in the given order |
| Shell.AptCommandNotUpdate | src/boss/bash.py:201-207 | no install or purge command is the update command |
| LegacyBash.LogLines | boss/bash.py:36-55 | after `log(action, name)` the record is in the file exactly when the action is install, or it was already there and the action is not uninstall; every other line stays |
| LegacyBash.UninstallAbsent | boss/bash.py:48-52 | uninstalling an absent record changes nothing and raises nothing |
| LegacyBash.InstallIdempotent | src/bash.py:39-40 | logging the same install twice leaves the same set of lines |
| LegacyBash.InstallThenUninstall | boss/bash.py:45-52 | install then uninstall of a module leaves what uninstall alone leaves |
| LegacyBash.Log | src/bash.py:29-48 | the file is rewritten as the set of lines, without duplicates; nothing else of the process changes |
| LegacyBash.MissingRequirements | boss/bash.py:84-88 | the missing requirements are those whose lower-cased form is not installed, in declared order |
| LegacyBash.CheckRequirements | src/bash.py:69-76 | no error exactly when every requirement, lower-cased, is installed; otherwise the message names every missing one |
| OldBash.AptCommandsUpdateOnce | boss/bash.py:117-131 | a non-empty call updates and upgrades only when the global flag was clear, and ends with the install or purge command |
| OldBash.AutoremoveOnlyAfterPurge | boss/bash.py:76-79 | `uninstall` issues `autoremove` exactly when the purge ran, that is when the joined package list is not empty |
| OldBash.Bash.constructor | boss/bash.py:22-34 | with arguments and outside a dry run the module is logged under the sub-command's action; `is_installed` starts false |
| OldBash.Bash.Apt | boss/bash.py:117-131 | an empty joined list returns False and does nothing. Otherwise it returns True, shows and executes the commands, sets the global flag and `is_installed` |
| OldBash.Bash.Install | boss/bash.py:66-68 | `install` runs `_apt` for the module's packages and returns True |
| OldBash.Bash.Uninstall | boss/bash.py:76-79 | `uninstall` purges the packages and autoremoves only after a purge, returning True |
| SrcBash.AptCommandsUpdateOnce | src/bash.py:107-113 | the update comes at most once, only while the class flag is clear, and there is no upgrade |
| SrcBash.Bash.constructor | src/bash.py:16-27 | with arguments and outside a dry run the module is logged under the sub-command's action |
| SrcBash.Bash.AptAsWritten | src/bash.py:102-113 | an empty list returns False. Otherwise the update is issued if needed, then the call fails with a NameError and the install command never appears |
| SrcBash.Bash.Apt | src/bash.py:102-113 | as intended: an empty list does nothing; otherwise the update is issued if needed, then the install command, and the flag is set |
| SrcBash.Bash.Install | src/bash.py:59-61 | `install` runs the intended `_apt` for the module's packages and returns True |
| CurrentBash.AptCommandsUpdateOnce | src/boss/bash.py:195-208 | an empty list issues nothing; otherwise the update comes once exactly when the flag was clear, and the last command installs the packages |
| CurrentBash.SnapCommands | src/boss/bash.py:212-214 | one `snap install` per package, in order |
| CurrentBash.SnapCommandClassic | src/boss/bash.py:213-214 | `--classic` is there exactly for classic snaps |
| CurrentBash.SnapCommandsNoUpdate | src/boss/bash.py:210-214 | installing snaps never issues the apt update |
| CurrentBash.Dedent | src/boss/bash.py:137 | after the substitution no line starts with white space |
| CurrentBash.DedentIdempotent | src/boss/bash.py:137 | removing line indentation twice is removing it once |
| CurrentBash.DedentKeepsText | src/boss/bash.py:137 | only white space is deleted: the visible characters stay, in order |
| CurrentBash.DedentLine | src/boss/bash.py:137 | a first line starting with a visible character is kept whole |
| CurrentBash.AppendCommandShape | src/boss/bash.py:135-137 | for a one-line file name, the `tee` header line survives whole and only the text and the closing `EOF` lose their indentation |
| CurrentBash.AppendCommandFlags | src/boss/bash.py:109-116 | the write command carries `-u www-data` exactly for the `www-data` user and `-a` exactly when appending |
| CurrentBash.HeaderUser | src/boss/bash.py:109-111 | the header names `-u www-data` exactly for the web server user |
| CurrentBash.HeaderAppend | src/boss/bash.py:113-115 | the header's `tee` has `-a` exactly when appending |
| CurrentBash.AppendCommandsOrder | src/boss/bash.py:102-107 | the backup copy is made before the write, and exactly when backup is asked for |
| CurrentBash.LogAsWritten | src/boss/bash.py:76-86 | as written, the file is rewritten with exactly the lines read, and empty when it was missing |
| CurrentBash.LogAsWrittenForgetsFirstModule | src/boss/bash.py:68-86 | against its documentation, logging into a missing file does not record the module |
| CurrentBash.Log | src/boss/bash.py:67-86 | as intended: the record is in the file, once, and every other line stays |
| CurrentBash.Bash.constructor | src/boss/bash.py:51-64 | as intended (the corrected `log` of Findings): with arguments and outside a dry run the class name is in the log, and otherwise the log is untouched |
| CurrentBash.Bash.Apt | src/boss/bash.py:195-208 | `_apt` shows and executes the update (once per process) and the install command, and sets the flag when there are packages |
| CurrentBash.Bash.Snap | src/boss/bash.py:210-217 | `_snap` runs one `snap install` per package in order |
| CurrentBash.Bash.Install | src/boss/bash.py:143-145 | `install` runs the apt commands, then the snaps |
| CurrentBash.Bash.Info | src/boss/bash.py:219-225 | `info` appends one (marker, title, message) row under the module's title, creating the list; the rows of other titles are unchanged |
| CurrentBash.Bash.AppendToFile | src/boss/bash.py:93-138 | `append_to_file` runs the optional backup, then the dedented here-document write; `nosudo` has no effect |
| CurrentBash.Bash.RestartApache | src/boss/bash.py:184-193 | on Ubuntu the restart command is run; otherwise the run ends with the unknown-platform error |
| CurrentBash.InstallUpdates | src/boss/bash.py:143-145 | one module's `install` adds an update exactly when the flag was clear and it has apt packages |
| CurrentBash.InstallEach | src/boss/cli.py:427-433 | over the `install()` calls of a run, `apt-get update` is shown once if the flag was clear and some module has apt packages, never otherwise |
| LegacyInstall.Keys | src/__main__.py:164 | the valid keys are the lower-cased module names, in registry order |
| LegacyInstall.InvalidModules | src/__main__.py:165 | the invalid names are exactly the requested names that are not keys |
| LegacyInstall.ModuleError | src/__main__.py:163-170 | there is an error exactly when some requested name is not a key; it lists every invalid name and every valid key |
| LegacyInstall.PrefixAndCaseAreInvalid | src/__main__.py:164-166 | names are compared exactly: a prefix or the original case of a name is invalid |
| LegacyInstall.PreCheck | src/__main__.py:173-195 | the pre-check passes exactly when every module's requirements are provided by it or the modules before it; otherwise it stops at the first module that fails, naming all its requirements |
| LegacyInstall.CoveredIff | src/__main__.py:189-193 | the source's non-empty set difference is the negation of "covered" |
| LegacyInstall.InstallLoop | src/__main__.py:204-225 | each module is checked against the provides of the modules before it only; the first failure stops the loop with the `DependencyError` message |
| LegacyInstall.InstallUninstall | src/__main__.py:150-238 | invalid names stop the run first; an install with dependency checking then runs the pre-check and the checked loop; otherwise every module runs |
| LegacyInstall.CumulativeImpliesWhole | src/__main__.py:176-195 | passing the cumulative pre-check implies passing the current whole-set check |
| LegacyInstall.WholeNotCumulative | src/__main__.py:176-195 | the converse fails: VirtualHost before Lamp and SelfCert passes the whole-set check and fails the pre-check |
| LegacyInstall.InLoopImpliesCumulative | src/__main__.py:219-225 | with lower-case requirements, passing the loop's checks implies passing the pre-check |
| LegacyInstall.SelfProviderRefusedInLoop | src/__main__.py:219-225 | a module providing its own requirement passes the pre-check and fails the loop check |
| Certs.CertNamesRelative | boss/cert.py:15-26 | for a relative base name the system paths are `/etc/ssl/certs/<base>.crt` and `/etc/ssl/private/<base>.key` |
| Certs.CertNamesHome | src/boss/mods/cert.py:23-34 | the home copies are `<home>/<base>.crt` and `<home>/<base>.key` |
| Certs.CertNamesAbsolute | boss/cert.py:19-24 | `os.path.join` lets an absolute base name replace every directory |
| Certs.CertNamesInjective | src/boss/mods/cert.py:30-32 | different relative base names never share a certificate path |
| Certs.PreInstallTargets | boss/cert.py:45-48 | the copies go exactly to the system paths `cert_names` gives for the server name |
| Certs.OpensslWritesCertificate | src/boss/mods/cert.py:38-52 | the request ends by writing the certificate file the first copy reads |
| Certs.PreInstall | src/boss/mods/cert.py:36-56 | `pre_install` runs the request, then the certificate copy, then the key copy |
| Certs.RemoveCommandTarget | boss/cert.py:54-57 | each removal tests and removes the same file |
| Certs.PostUninstall | boss/cert.py:50-57 | `post_uninstall` runs the four guarded removals of the `cert_names` paths, in tuple order |
| Certs.UninstallRemovesInstalled | boss/cert.py:28-57 | uninstalling with the server name removes exactly the two files the install copied |
| VirtualHost.Slice12 | src/boss/mods/virtualhost.py:44 | `i[12:]` is twelve characters shorter, or empty |
| VirtualHost.SliceIndented | src/boss/mods/virtualhost.py:28-44 | slicing a template line removes exactly its twelve-space indentation |
| VirtualHost.Dedent12Lines | src/boss/mods/virtualhost.py:44 | the dedent keeps one output line per template line, each sliced |
| VirtualHost.HttpSplit | src/boss/mods/virtualhost.py:28-44 | for one-line arguments the lines of `_http` are the template lines with twelve characters dropped |
| VirtualHost.HttpLines | src/boss/mods/virtualhost.py:24-45 | `_http` has the template's line count and starts empty. It names the server and the commented redirect to `https://<server>/`, has the document root in `DocumentRoot` and `<Directory>`, and ends with `</VirtualHost>`. With no header line this is also `_http` of src/mods/virtualhost.py |
| VirtualHost.HttpsSplit | src/boss/mods/virtualhost.py:48-71 | for one-line arguments the lines of `_https` are the template lines with twelve characters dropped |
| VirtualHost.HttpsLines | src/boss/mods/virtualhost.py:47-72 | `_https` starts with two empty lines, names the server and the document root, and ends with the certificate and key lines and `</VirtualHost>` |
| VirtualHost.ConfUsesServerCert | src/boss/mods/virtualhost.py:108-112 | every site's configuration is `_http` plus `_https` with the certificate and key of the server name, not the site name |
| VirtualHost.CreateDocRoot | src/boss/mods/virtualhost.py:89-94 | `mkdir` only when the directory is missing, then `chown` to `www-data` |
| VirtualHost.WriteSiteFiles | src/boss/mods/virtualhost.py:114-126 | the configuration file is written, then, for a "y" site, the document root is made and its index page written |
| VirtualHost.EnableSite | src/boss/mods/virtualhost.py:132-138 | `a2ensite` and `hostname -I` are run, and the four summary rows of the site are added |
| VirtualHost.ShowAddresses | src/boss/mods/virtualhost.py:132-136 | `a2ensite` and `hostname -I` are run, and the website and public IP rows are added |
| VirtualHost.ShowPlace | src/boss/mods/virtualhost.py:137-138 | the root and Apache conf rows are added after the earlier ones |
| VirtualHost.PostInstallSite | src/boss/mods/virtualhost.py:107-138 | one pass of the site loop records the site's events, executes its commands and adds its four rows |
| VirtualHost.PostInstallSites | src/boss/mods/virtualhost.py:106-138 | the loop records the events of every site in order, each doc root checked against the directories made so far |
| VirtualHost.PostInstall | src/boss/mods/virtualhost.py:96-140 | `post_install` enables the modules and disables all sites, handles every site, then restarts Apache; the summary gets four rows per site. Without `--site-name-and-root` the loop raises a `TypeError` right after the prelude and nothing else happens |
| VirtualHost.MissingSitesNoRestart | src/boss/mods/virtualhost.py:96-106 | without `--site-name-and-root`, every site has been disabled once, Apache is not restarted, and the run ends with the traceback |
| VirtualHost.SiteCommandsNoRestart | src/boss/mods/virtualhost.py:119-135 | no command of a site's pass restarts Apache |
| VirtualHost.SiteEventsCommands | src/boss/mods/virtualhost.py:114-135 | the commands among a site's events are exactly its commands |
| VirtualHost.SitesEventsNoRestart | src/boss/mods/virtualhost.py:106-138 | the site loop never restarts Apache nor stops the run |
| VirtualHost.PreludeNoRestart | src/boss/mods/virtualhost.py:97-104 | enabling the modules and disabling the sites does not restart Apache |
| VirtualHost.RestartOnceAtEnd | src/boss/mods/virtualhost.py:140 | the restart (or the platform error) comes once, as the last event |
| VirtualHost.DocRootOnlyForYes | src/boss/mods/virtualhost.py:119-121 | a `chown` of the doc root happens exactly when the answer is "y", a `mkdir` exactly when also the directory is missing |
| VirtualHost.UppercaseYesSkipsDocRoot | src/boss/mods/virtualhost.py:119 | an answer "Y" passes the parameter check and yet no document root is made |
| VirtualHost.SiteMkdir | src/boss/mods/virtualhost.py:119-132 | only the doc-root command of a site asking for it can be a `mkdir` of a directory |
| VirtualHost.DirsAfterGrows | src/boss/mods/virtualhost.py:92-93 | a directory once made stays made |
| VirtualHost.MkdirAtMostOnce | src/boss/mods/virtualhost.py:89-94 | when commands run, each directory is made at most once, never when it existed, and exists afterwards |
| VirtualHost.EverySiteWrittenAndEnabled | src/boss/mods/virtualhost.py:106-132 | every site gets its configuration file, with its own configuration, and its `a2ensite` |
| VirtualHost.SitesRowsBySite | src/boss/mods/virtualhost.py:134-138 | the summary holds four rows per site, in site order |
| OldVirtualHost.OldInstallSite | src/mods/virtualhost.py:232-244 | one site is written through `sudo tee` with a here-document, then enabled |
| OldVirtualHost.OldInstallSites | src/mods/virtualhost.py:223-244 | the loop runs the commands of every site in order, each with its own configuration |
| OldVirtualHost.OldPostInstall | src/mods/virtualhost.py:218-249 | `post_install` enables ssl and rewrite, handles every site, then restarts Apache; without `--site-name-and-root` (optional unless `newsite` is on the command line, src/__main__.py:359-360) it enables the two modules and then ends in an uncaught `TypeError`, with nothing else run |
| OldVirtualHost.OldMissingSitesNoRestart | src/mods/virtualhost.py:218-223 | without sites the run ends with the traceback after the two modules, and Apache is not restarted |
| OldVirtualHost.OldSiteCommandsAt | src/mods/virtualhost.py:223-244 | two commands per site, in site order: the `tee` of its configuration file, then its `a2ensite` |
| OldVirtualHost.OldSitesNoRestart | src/mods/virtualhost.py:223-244 | no command of the site loop restarts Apache |
| OldVirtualHost.OldRestartOnceAtEnd | src/mods/virtualhost.py:248-249 | Apache is restarted exactly once, as the last command |
| OldVirtualHost.OldConfIsCurrentWithoutCors | src/mods/virtualhost.py:140-195 | the older configuration equals the current one without the CORS header line |

## Left out

- Executing commands, capturing their output and `click.confirm`. `run` records what it would run. The output of `hostname -I` is a parameter, `hostIp`, standing for the text the f-string shows.
- The display form of `run`: with `wrap`, the shown text collapses runs of white space. The trace holds the command as built.
- The file system. Directory existence is the parameter `dirs`, and the installed-modules log is an optional sequence of lines. `write_new_file`, which no shown file defines, is recorded as a written-file event.
- Common.Lower: lower-cases ASCII letters only, and white space is the ASCII set; Unicode case folding and Unicode white space are not modelled.
- Registry.GetMatchingModules: the result is a set. `list(set)` gives it an order that depends on hashing, so no order is promised; `Common.Enumerate` states only what the list holds.
- Registry.Install: a token that prefixes several names is ambiguous even when it equals one of them (src/boss/cli.py:103-107; see `Registry.TwoPrefixedNamesAmbiguous`, `Registry.PhpIsAmbiguous`). The order of execution is the order of `list(set)`, not registry order.
- Registry: the current tree as shown cannot be imported. src/boss/cli.py:15 imports `ModuleRequestError`, which src/boss/errors.py:1-14 does not define. src/boss/cli.py:20-21 and src/boss/mods/virtualhost.py:5 import `SelfCert` and `LetsEncryptCert` from src/boss/mods/cert.py, which defines only `Cert` (line 10). src/boss/cli.py:31-32 imports `NewUserAsRoot` and `Personalize` from src/boss/mods/newuser.py, which defines only `NewUser`. src/boss/cli.py:22 imports `Craft` from src/boss/mods/craft.py, which defines `Craft2` and `Craft3`. The model assumes a revision where these names exist. `ModuleRequestError` is a plain exception class, and its message is what `Registry.GetMatchingModules` returns. `SelfCert` is the shown `Cert`, with its `cert` tag and with the `cert_names` that `existing_cert` (`VirtualHost.SiteConf`) relies on. `LetsEncryptCert`, `NewUserAsRoot`, `Personalize` and `Craft` are listed in `BossRegistry` with empty tag lists. So are the classes whose files are not part of this model: `Php`, `Composer`, `Xdebug` and `PhpInfo` (src/boss/mods/php.py), `FakeSMTP`, `Bashrc` and `Last`.
- `is_ipaddress`, `IpAddress.convert` and `file_exists` depend on the socket library and the file system.
- The module construction exceptions of both entry points (`CalledProcessError`, `PlatformError`, `SecurityError`) and `Dist`'s version comparison. The platform is a boolean parameter, `ubuntu`.
- LegacyInstall.InstallUninstall: the run list is a parameter. As written, `[i for i in mods if i in modules]` compares classes with strings and `mapping[1]` indexes a class; neither is modelled. Only the checks are.
- The older trees use names they do not import: `subprocess`, `datetime` and `DependencyError` in boss/bash.py and in src/bash.py, `os` in boss/cert.py, and `os` and `Cert` in src/mods/virtualhost.py. The first line of boss/bash.py, src/bash.py and src/mods/virtualhost.py names a `build.bash` script, which is not part of this model. The model assumes that script assembles the files so that these names are defined. `action` in src/bash.py is defined nowhere and is reported under Findings.
- src/mods/cert.py is not part of this model. The older virtual host takes its `cert_names` to be that of `Certs.CertNames`.
- The first `VirtualHost` class of src/mods/virtualhost.py (lines 7-130) is shadowed by the second and is not modelled.
- `new_cert` of both virtual-host modules is never called, and `info = "<?php phpinfo();"` is never used; neither is modelled.
- VirtualHost.PostInstall: `print(vhost_config)` is console output and is not modelled.
- VirtualHost.PostInstallSites: `os.path.exists` resolves aliases of a path (a trailing `/`, `.`, `..`, repeated slashes, symbolic links), while the model tracks directories by the exact joined string. Two sites whose roots are `www` and `www/` share one directory, yet the model issues a second `mkdir` for the second site; `VirtualHost.MkdirAtMostOnce` holds per path string only.
- CurrentBash.Bash.constructor: logs with the corrected `CurrentBash.Log`, as the Findings row on src/boss/bash.py:82-86 describes. As written, `__init__` (src/boss/bash.py:61-63) and the run loop (src/boss/cli.py:435) call the `log` that rewrites the file unchanged (`CurrentBash.LogAsWritten`), so nothing is ever recorded.
- SrcBash.Bash.Install: uses the corrected `SrcBash.Bash.Apt`. As written, `install` raises a NameError right after the update for any non-empty package list (src/bash.py:111-112), as the Findings row on that line describes.
- VirtualHost.IndexFile: `Path` arithmetic is modelled by `os.path.join` rules, without normalising `..` or repeated slashes.
- CurrentBash.Bash.Snap: the `ValueError` branch (a package entry that does not unpack into two values) cannot arise for the typed list of pairs.
- src/boss/mods/webmin.py assigns a module global `APTUPDATED`, not `Bash.APTUPDATED`. That leaves the class flag untouched, as the model's shared flag does.
- `sed`, `curl`, `password_gen`, the terminal formatting in util.py and the `list` and `help` commands.
- In a dry run, a doc root that several sites share is shown with `mkdir` for each of them, because nothing is created. `VirtualHost.MkdirAtMostOnce` states the real-run behaviour only.

## Findings

| source | as written | input that shows it | evidently intended | confidence | as-written member | corrected member |
|---|---|---|---|---|---|---|
| src/boss/bash.py:82-86 | `log` adds the record to a set, then writes the lines it read, so the set is discarded | no `~/boss-installed-modules` yet; logging `VirtualHost` writes an empty file (`CurrentBash.LogAsWrittenForgetsFirstModule`) | the record is added and the set written back, as the documentation at lines 68-73 says | high, not executed | CurrentBash.LogAsWritten | CurrentBash.Log |
| src/bash.py:111-112 | the install line's `format` call passes `action=action`, and `_apt(self, packages)` defines no `action` | `_apt(["git"])` in a fresh process: the update runs, then a NameError, and no install command is issued | format the install command from `dry` and `packages` only, as the other two trees do | high, not executed | SrcBash.Bash.AptAsWritten | SrcBash.Bash.Apt |
| src/boss/cli.py:229-236 | `deps` looks for a dependency exactly as written among the positional arguments, while modules are selected by lower-cased prefix, so `--site-name-and-root` (lines 345-350) stays optional for a virtual host requested as `VirtualHost` or `virt` | `boss install example.com lamp selfcert VirtualHost` without the option: `post_install` enables the modules, disables every site, then iterates `None` and raises a `TypeError` no handler catches, and Apache is not restarted (`Params.DepsMissesCapitalisedModule`, `VirtualHost.MissingSitesNoRestart`) | the option is required whenever the run selects the virtual-host or craft module, as `Registry.SelectedDependencyRequiresOption` proves of the corrected check | high, not executed | Params.Deps | Params.DepsIntended |
