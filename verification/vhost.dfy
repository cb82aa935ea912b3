// The virtual-host module (`VirtualHost` in src/boss/mods/virtualhost.py,
// and the second, effective class of that name in src/mods/virtualhost.py):
// the HTTP and HTTPS configuration texts, dedented by dropping the first
// twelve characters of every line, and the commands and files of
// `post_install`.

module VirtualHost {
  import opened Common
  import opened Shell
  import CurrentBash
  import Certs
  import Params

  // ------------------------------------------------------------ templates

  /** The indentation of the template lines inside the method bodies. */
  const Margin := "            "

  function Indented(line: string): string
  {
    Margin + line
  }

  lemma IndentedOneLine(line: string)
    requires OneLine(line)
    ensures OneLine(Indented(line))
  {
    Literal(Margin);
  }

  /** `i[12:]`: a line of at most twelve characters becomes empty. */
  function Slice12(line: string): (r: string)
    ensures |r| == if |line| <= 12 then 0 else |line| - 12
  {
    if |line| <= 12 then "" else line[12..]
  }

  lemma SliceIndented(line: string)
    ensures Slice12(Indented(line)) == line
  {
    assert |Margin| == 12;
    if line != "" {
      assert Indented(line)[12..] == line;
    }
  }

  function SliceAll(lines: seq<string>): (r: seq<string>)
    ensures |r| == |lines|
    ensures forall i :: 0 <= i < |lines| ==> r[i] == Slice12(lines[i])
  {
    seq(|lines|, i requires 0 <= i < |lines| => Slice12(lines[i]))
  }

  /** `"\n".join([i[12:] for i in text.split("\n")])`. */
  function Dedent12(text: string): string
  {
    Join("\n", SliceAll(Split(text, '\n')))
  }

  predicate OneLine(s: string)
  {
    '\n' !in s
  }

  predicate NotBreak(c: char)
  {
    c != '\n'
  }

  /** The position-by-position form of `OneLine`, which the verifier checks
      quickly on a short literal. */
  lemma Literal(s: string)
    requires forall i :: 0 <= i < |s| ==> NotBreak(s[i])
    ensures OneLine(s)
  {
  }

  /** Dedenting a template whose lines hold no line break keeps one output
      line per template line, each with its first twelve characters
      dropped. */
  lemma Dedent12Lines(lines: seq<string>)
    requires |lines| >= 1
    requires forall i :: 0 <= i < |lines| ==> OneLine(lines[i])
    ensures Split(Dedent12(Join("\n", lines)), '\n') == SliceAll(lines)
  {
    assert "\n" == ['\n'];
    SplitJoin(lines, '\n');
    SplitJoin(SliceAll(lines), '\n');
  }

  // The fixed text of the templates, one constant per template line or
  // line head.

  const ServerAdmin := "    ServerAdmin webmaster@localhost"
  const ServerNameKey := "    ServerName "
  const DocumentRootKey := "    DocumentRoot "
  const DirectoryOpen := "    <Directory \""
  const DirectoryClose := "    </Directory>"
  const AllowOverride := "        AllowOverride All"
  /** The header line the current tree adds inside `<Directory>`. */
  const CorsLine := "        Header Set Access-Control-Allow-Origin \"*\""
  /** Apache's variable for its log directory, left for Apache to expand. */
  const ApacheLogDir := "${APACHE_LOG_DIR}"
  const ErrorLog := "    # ErrorLog " + ApacheLogDir + "/error.log"
  const CustomLog := "    # CustomLog " + ApacheLogDir + "/access.log combined"
  const VirtualHostClose := "</VirtualHost>"
  const ServerAliasKey := "    # ServerAlias www."
  const SslEngine := "    SSLEngine on"
  const SslOptions := "    SSLOptions +StrictRequire"
  const SslCertKey := "    SSLCertificateFile "
  const SslKeyKey := "    SSLCertificateKeyFile "
  const RedirectKey := "# Redirect permanent \"/\" https://"

  /** `https_redirect`. */
  function Redirect(servername: string): string
  {
    RedirectKey + servername + "/"
  }

  /** The header line the current tree adds inside `<Directory>`, when
      `cors` is set. */
  function CorsLines(cors: bool): seq<string>
  {
    if cors then [Indented(CorsLine)] else []
  }

  /** The lines of `_http`'s template up to `AllowOverride`, placeholders
      filled. */
  function HttpHead(servername: string, documentRoot: string): seq<string>
  {
    ["",
     Indented("# HTTP"),
     Indented("<VirtualHost *:80>"),
     Indented(ServerAdmin),
     "",
     Indented(ServerNameKey + servername),
     Indented("    " + Redirect(servername)),
     Indented(DocumentRootKey + documentRoot),
     Indented(DirectoryOpen + documentRoot + "\">"),
     Indented(AllowOverride)]
  }

  const HttpTail := [Indented(DirectoryClose), "", Indented(ErrorLog), Indented(CustomLog),
                     Indented(VirtualHostClose)]

  /** The lines of `_http`'s template once the placeholders are filled. */
  function HttpTemplate(servername: string, documentRoot: string, cors: bool): seq<string>
  {
    HttpHead(servername, documentRoot) + CorsLines(cors) + HttpTail
  }

  function HttpsHead(servername: string, documentRoot: string): seq<string>
  {
    ["",
     "",
     Indented("# HTTPS"),
     Indented("<VirtualHost *:443>"),
     Indented(ServerAdmin),
     "",
     Indented(ServerNameKey + servername),
     Indented(ServerAliasKey + servername),
     "",
     Indented(DocumentRootKey + documentRoot),
     Indented(DirectoryOpen + documentRoot + "\">"),
     Indented(AllowOverride)]
  }

  function HttpsTail(cert: string, key: string): seq<string>
  {
    [Indented(DirectoryClose),
     "",
     Indented(ErrorLog),
     Indented(CustomLog),
     "",
     Indented(SslEngine),
     Indented(SslOptions),
     Indented(SslCertKey + cert),
     Indented(SslKeyKey + key),
     Indented(VirtualHostClose)]
  }

  /** The lines of `_https`'s template once the placeholders are filled. */
  function HttpsTemplate(servername: string, documentRoot: string, cert: string, key: string,
                         cors: bool): seq<string>
  {
    HttpsHead(servername, documentRoot) + CorsLines(cors) + HttpsTail(cert, key)
  }

  /** `VirtualHost._http`. */
  function Http(servername: string, documentRoot: string, cors: bool): string
  {
    Dedent12(Join("\n", HttpTemplate(servername, documentRoot, cors)))
  }

  /** `VirtualHost._https`. */
  function Https(servername: string, documentRoot: string, cert: string, key: string, cors: bool): string
  {
    Dedent12(Join("\n", HttpsTemplate(servername, documentRoot, cert, key, cors)))
  }

  /** No fixed line of the templates holds a line break. */
  lemma HeadingsOneLine()
    ensures OneLine("# HTTP") && OneLine("<VirtualHost *:80>")
    ensures OneLine("# HTTPS") && OneLine("<VirtualHost *:443>")
    ensures OneLine(VirtualHostClose) && OneLine(DirectoryClose)
  {
    Literal("# HTTP");
    Literal("<VirtualHost *:80>");
    Literal("# HTTPS");
    Literal("<VirtualHost *:443>");
    Literal(VirtualHostClose);
    Literal(DirectoryClose);
  }

  lemma KeysOneLine()
    ensures OneLine(ServerNameKey) && OneLine(DocumentRootKey) && OneLine(DirectoryOpen)
    ensures OneLine(ServerAliasKey) && OneLine(RedirectKey)
    ensures OneLine("    ") && OneLine("\">") && OneLine("/")
  {
    Literal(ServerNameKey);
    Literal(DocumentRootKey);
    Literal(DirectoryOpen);
    Literal(ServerAliasKey);
    Literal(RedirectKey);
    Literal("    ");
    Literal("\">");
    Literal("/");
  }

  lemma DirectoryOneLine()
    ensures OneLine(ServerAdmin) && OneLine(AllowOverride) && OneLine(CorsLine)
  {
    Literal(ServerAdmin);
    Literal(AllowOverride);
    Literal(CorsLine);
  }

  lemma LogsOneLine()
    ensures OneLine(ErrorLog) && OneLine(CustomLog)
  {
    Literal("    # ErrorLog ");
    Literal("    # CustomLog ");
    Literal(ApacheLogDir);
    Literal("/error.log");
    Literal("/access.log combined");
  }

  lemma SslOneLine()
    ensures OneLine(SslEngine) && OneLine(SslOptions) && OneLine(SslCertKey) && OneLine(SslKeyKey)
  {
    Literal(SslEngine);
    Literal(SslOptions);
    Literal(SslCertKey);
    Literal(SslKeyKey);
  }

  lemma HttpTemplateOneLine(servername: string, documentRoot: string, cors: bool)
    requires OneLine(servername) && OneLine(documentRoot)
    ensures forall i :: 0 <= i < |HttpTemplate(servername, documentRoot, cors)| ==>
              OneLine(HttpTemplate(servername, documentRoot, cors)[i])
  {
    HeadingsOneLine();
    KeysOneLine();
    DirectoryOneLine();
    LogsOneLine();
    IndentedOneLine("# HTTP");
    IndentedOneLine("<VirtualHost *:80>");
    IndentedOneLine(ServerAdmin);
    IndentedOneLine(ServerNameKey + servername);
    IndentedOneLine("    " + Redirect(servername));
    IndentedOneLine(DocumentRootKey + documentRoot);
    IndentedOneLine(DirectoryOpen + documentRoot + "\">");
    IndentedOneLine(AllowOverride);
    IndentedOneLine(CorsLine);
    IndentedOneLine(DirectoryClose);
    IndentedOneLine(ErrorLog);
    IndentedOneLine(CustomLog);
    IndentedOneLine(VirtualHostClose);
  }

  lemma HttpsTemplateOneLine(servername: string, documentRoot: string, cert: string, key: string, cors: bool)
    requires OneLine(servername) && OneLine(documentRoot) && OneLine(cert) && OneLine(key)
    ensures forall i :: 0 <= i < |HttpsTemplate(servername, documentRoot, cert, key, cors)| ==>
              OneLine(HttpsTemplate(servername, documentRoot, cert, key, cors)[i])
  {
    HeadingsOneLine();
    KeysOneLine();
    DirectoryOneLine();
    LogsOneLine();
    SslOneLine();
    IndentedOneLine("# HTTPS");
    IndentedOneLine("<VirtualHost *:443>");
    IndentedOneLine(ServerAdmin);
    IndentedOneLine(ServerNameKey + servername);
    IndentedOneLine(ServerAliasKey + servername);
    IndentedOneLine(DocumentRootKey + documentRoot);
    IndentedOneLine(DirectoryOpen + documentRoot + "\">");
    IndentedOneLine(AllowOverride);
    IndentedOneLine(CorsLine);
    IndentedOneLine(DirectoryClose);
    IndentedOneLine(ErrorLog);
    IndentedOneLine(CustomLog);
    IndentedOneLine(SslEngine);
    IndentedOneLine(SslOptions);
    IndentedOneLine(SslCertKey + cert);
    IndentedOneLine(SslKeyKey + key);
    IndentedOneLine(VirtualHostClose);
  }

  lemma HttpSplit(servername: string, documentRoot: string, cors: bool)
    requires OneLine(servername) && OneLine(documentRoot)
    ensures Split(Http(servername, documentRoot, cors), '\n') == SliceAll(HttpTemplate(servername, documentRoot, cors))
  {
    HttpTemplateOneLine(servername, documentRoot, cors);
    Dedent12Lines(HttpTemplate(servername, documentRoot, cors));
  }

  lemma HttpSlicedHead(servername: string, documentRoot: string, cors: bool)
    ensures var ls := SliceAll(HttpTemplate(servername, documentRoot, cors));
            |ls| == (if cors then 16 else 15) && ls[0] == ""
            && ls[5] == ServerNameKey + servername
            && ls[6] == "    " + Redirect(servername)
  {
    var t, h := HttpTemplate(servername, documentRoot, cors), HttpHead(servername, documentRoot);
    assert t == h + (CorsLines(cors) + HttpTail);
    assert t[0] == h[0] == "";
    assert t[5] == h[5] == Indented(ServerNameKey + servername);
    assert t[6] == h[6] == Indented("    " + Redirect(servername));
    SliceIndented(ServerNameKey + servername);
    SliceIndented("    " + Redirect(servername));
  }

  lemma HttpSlicedRoot(servername: string, documentRoot: string, cors: bool)
    ensures var ls := SliceAll(HttpTemplate(servername, documentRoot, cors));
            |ls| >= 15
            && ls[7] == DocumentRootKey + documentRoot
            && ls[8] == DirectoryOpen + documentRoot + "\">"
  {
    var t, h := HttpTemplate(servername, documentRoot, cors), HttpHead(servername, documentRoot);
    assert t == h + (CorsLines(cors) + HttpTail);
    assert t[7] == h[7] == Indented(DocumentRootKey + documentRoot);
    assert t[8] == h[8] == Indented(DirectoryOpen + documentRoot + "\">");
    SliceIndented(DocumentRootKey + documentRoot);
    SliceIndented(DirectoryOpen + documentRoot + "\">");
  }

  lemma HttpSlicedEnd(servername: string, documentRoot: string, cors: bool)
    ensures var ls := SliceAll(HttpTemplate(servername, documentRoot, cors));
            |ls| >= 15
            && (cors ==> ls[10] == CorsLine)
            && ls[|ls| - 1] == VirtualHostClose
  {
    SliceIndented(CorsLine);
    SliceIndented(VirtualHostClose);
  }

  /** `_http` has the template's line count and starts with an empty line;
      it names the server, the commented redirect to HTTPS, and the
      document root twice, once in `DocumentRoot` and once in
      `<Directory>`. */
  lemma HttpLines(servername: string, documentRoot: string, cors: bool)
    requires OneLine(servername) && OneLine(documentRoot)
    ensures var ls := Split(Http(servername, documentRoot, cors), '\n');
            |ls| == (if cors then 16 else 15)
            && ls[0] == ""
            && ls[5] == ServerNameKey + servername
            && ls[6] == "    " + Redirect(servername)
            && ls[7] == DocumentRootKey + documentRoot
            && ls[8] == DirectoryOpen + documentRoot + "\">"
            && (cors ==> ls[10] == CorsLine)
            && ls[|ls| - 1] == VirtualHostClose
  {
    HttpSplit(servername, documentRoot, cors);
    HttpSlicedHead(servername, documentRoot, cors);
    HttpSlicedRoot(servername, documentRoot, cors);
    HttpSlicedEnd(servername, documentRoot, cors);
  }

  lemma HttpsSplit(servername: string, documentRoot: string, cert: string, key: string, cors: bool)
    requires OneLine(servername) && OneLine(documentRoot) && OneLine(cert) && OneLine(key)
    ensures Split(Https(servername, documentRoot, cert, key, cors), '\n')
            == SliceAll(HttpsTemplate(servername, documentRoot, cert, key, cors))
  {
    HttpsTemplateOneLine(servername, documentRoot, cert, key, cors);
    Dedent12Lines(HttpsTemplate(servername, documentRoot, cert, key, cors));
  }

  lemma HttpsSlicedHead(servername: string, documentRoot: string, cert: string, key: string, cors: bool)
    ensures var ls := SliceAll(HttpsTemplate(servername, documentRoot, cert, key, cors));
            |ls| == (if cors then 23 else 22) && ls[0] == "" && ls[1] == ""
            && ls[6] == ServerNameKey + servername
            && ls[9] == DocumentRootKey + documentRoot
  {
    var t, h := HttpsTemplate(servername, documentRoot, cert, key, cors), HttpsHead(servername, documentRoot);
    assert t == h + (CorsLines(cors) + HttpsTail(cert, key));
    assert t[0] == h[0] == "" && t[1] == h[1] == "";
    assert t[6] == h[6] == Indented(ServerNameKey + servername);
    assert t[9] == h[9] == Indented(DocumentRootKey + documentRoot);
    SliceIndented(ServerNameKey + servername);
    SliceIndented(DocumentRootKey + documentRoot);
  }

  lemma HttpsSlicedEnd(servername: string, documentRoot: string, cert: string, key: string, cors: bool)
    ensures var ls := SliceAll(HttpsTemplate(servername, documentRoot, cert, key, cors));
            var n := |ls|;
            n >= 22
            && ls[n - 3] == SslCertKey + cert
            && ls[n - 2] == SslKeyKey + key
            && ls[n - 1] == VirtualHostClose
  {
    SliceIndented(SslCertKey + cert);
    SliceIndented(SslKeyKey + key);
    SliceIndented(VirtualHostClose);
  }

  /** `_https` starts with two empty lines, names the server and the
      document root, and ends by pointing at the given certificate and
      key. */
  lemma HttpsLines(servername: string, documentRoot: string, cert: string, key: string, cors: bool)
    requires OneLine(servername) && OneLine(documentRoot) && OneLine(cert) && OneLine(key)
    ensures var ls := Split(Https(servername, documentRoot, cert, key, cors), '\n');
            var n := |ls|;
            n == (if cors then 23 else 22)
            && ls[0] == "" && ls[1] == ""
            && ls[6] == ServerNameKey + servername
            && ls[9] == DocumentRootKey + documentRoot
            && ls[n - 3] == SslCertKey + cert
            && ls[n - 2] == SslKeyKey + key
            && ls[n - 1] == VirtualHostClose
  {
    HttpsSplit(servername, documentRoot, cert, key, cors);
    HttpsSlicedHead(servername, documentRoot, cert, key, cors);
    HttpsSlicedEnd(servername, documentRoot, cert, key, cors);
  }

  // ------------------------------------------- post_install, current tree

  const WwwRoot := "/var/www"

  /** The modules `a2enmod` enables, then the command that disables every
      site in `sites-available`. */
  const Prelude := ["sudo a2enmod ssl", "sudo a2enmod rewrite", "sudo a2enmod headers", DissiteAll]

  /** Disables every site in `sites-available`. */
  const DissiteAll := "find " + "/etc/apache2/sites-available/ -type f -exec basename '{}' \\; | xargs -n 1 sudo a2dissite"

  const HostnameCommand := "hostname -I"

  function ConfFile(siteName: string): string
  {
    "/etc/apache2/sites-available/" + siteName + ".conf"
  }

  function DocRoot(site: Params.SiteSpec): string
  {
    PathJoin(WwwRoot, site.1)
  }

  /** The configuration written for a site: `_http` and `_https` of the
      site name and its full document root, the certificate being the one
      `cert_names` gives for the server name given on the command line. */
  function SiteConf(site: Params.SiteSpec, servername: string, home: string, cors: bool): string
  {
    var names := Certs.CertNames(servername, home);
    Http(site.0, DocRoot(site), cors) + Https(site.0, DocRoot(site), names.realCrt, names.realKey, cors)
  }

  function ChownCommand(docRoot: string): string
  {
    "sudo chown www-data:www-data " + docRoot
  }

  function EnsiteCommand(siteName: string): string
  {
    "sudo a2ensite " + siteName
  }

  /** `create_doc_root`: `mkdir` only when the directory is missing, then
      `chown` to the web server's user. */
  function DocRootCommands(docRoot: string, present: bool): seq<string>
  {
    (if present then [] else ["sudo mkdir " + docRoot]) + [ChownCommand(docRoot)]
  }

  function IndexFile(site: Params.SiteSpec): string
  {
    PathJoin(DocRoot(site), "index.html")
  }

  function IndexHtml(site: Params.SiteSpec): string
  {
    "<h1>Site: " + site.0 + "</h1>\n<p>Document root: " + site.1 + "</p>"
  }

  /** Whether a site asks for its document root: exactly `"y"`. */
  predicate CreatesDocRoot(site: Params.SiteSpec)
  {
    site.2 == "y"
  }

  /** The commands run for one site; `present` says whether its document
      root is already there. */
  function SiteCommands(site: Params.SiteSpec, present: bool): seq<string>
  {
    (if CreatesDocRoot(site) then DocRootCommands(DocRoot(site), present) else [])
    + [EnsiteCommand(site.0), HostnameCommand]
  }

  /** Everything recorded for one site, in order: the configuration file,
      the document root and its index page when asked for, the `a2ensite`
      and the `hostname -I`. */
  function SiteEvents(site: Params.SiteSpec, conf: string, present: bool): seq<Event>
  {
    SiteFiles(site, conf, present) + Commands([EnsiteCommand(site.0), HostnameCommand])
  }

  /** The first part of a site's events: its configuration file, then its
      document root and index page when asked for. */
  function SiteFiles(site: Params.SiteSpec, conf: string, present: bool): seq<Event>
  {
    [WriteFile(ConfFile(site.0), conf)]
    + (if CreatesDocRoot(site)
       then Commands(DocRootCommands(DocRoot(site), present)) + [WriteFile(IndexFile(site), IndexHtml(site))]
       else [])
  }

  /** What the f-string shows for the captured `hostname -I`: `None` when
      `run` did not execute it, otherwise the text of its output. */
  function IpText(args: Args, hostIp: string): string
  {
    if args.dryRun || args.generateScript then "None" else hostIp
  }

  /** The four summary rows of a site: its two addresses, then where it
      lives. */
  function SiteRows(site: Params.SiteSpec, ip: string): seq<InfoRow>
  {
    AddressRows(site, ip) + PlaceRows(site)
  }

  function AddressRows(site: Params.SiteSpec, ip: string): seq<InfoRow>
  {
    [(CurrentBash.InfoMarker, "Website", "https://" + site.0),
     (CurrentBash.InfoMarker, "Public IP", "http://" + ip)]
  }

  function PlaceRows(site: Params.SiteSpec): seq<InfoRow>
  {
    [(CurrentBash.InfoMarker, "Root", DocRoot(site)),
     (CurrentBash.InfoMarker, "Apache conf", ConfFile(site.0))]
  }

  /** The summary after `rows` were added under `title` one `info` call at
      a time. */
  function AddRows(info: map<string, seq<InfoRow>>, title: string, rows: seq<InfoRow>): map<string, seq<InfoRow>>
  {
    if rows == [] then info else info[title := CurrentBash.RowsOf(info, title) + rows]
  }

  lemma AddRowsAppend(info: map<string, seq<InfoRow>>, title: string, a: seq<InfoRow>, b: seq<InfoRow>)
    ensures AddRows(AddRows(info, title, a), title, b) == AddRows(info, title, a + b)
  {
    if a == [] {
      assert a + b == b;
    } else if b == [] {
      assert a + b == a;
    } else {
      var rows := CurrentBash.RowsOf(info, title);
      assert CurrentBash.RowsOf(AddRows(info, title, a), title) == rows + a;
      assert rows + a + b == rows + (a + b);
    }
  }

  /** The directories that exist after the sites were handled: a created
      document root exists from then on, unless nothing was executed. */
  function DirsAfter(sites: seq<Params.SiteSpec>, dirs: set<string>, args: Args): set<string>
  {
    if sites == [] then dirs
    else
      var last := sites[|sites| - 1];
      var before := DirsAfter(sites[..|sites| - 1], dirs, args);
      if CreatesDocRoot(last) && !args.dryRun && !args.generateScript then before + {DocRoot(last)} else before
  }

  function SitesEvents(sites: seq<Params.SiteSpec>, servername: string, home: string,
                       dirs: set<string>, args: Args): seq<Event>
  {
    if sites == [] then []
    else
      var init := sites[..|sites| - 1];
      var last := sites[|sites| - 1];
      SitesEvents(init, servername, home, dirs, args)
      + SiteEvents(last, SiteConf(last, servername, home, true), DocRoot(last) in DirsAfter(init, dirs, args))
  }

  function SitesCommands(sites: seq<Params.SiteSpec>, dirs: set<string>, args: Args): seq<string>
  {
    if sites == [] then []
    else
      var init := sites[..|sites| - 1];
      var last := sites[|sites| - 1];
      SitesCommands(init, dirs, args) + SiteCommands(last, DocRoot(last) in DirsAfter(init, dirs, args))
  }

  function SitesRows(sites: seq<Params.SiteSpec>, ip: string): seq<InfoRow>
  {
    if sites == [] then [] else SitesRows(sites[..|sites| - 1], ip) + SiteRows(sites[|sites| - 1], ip)
  }

  /** `create_doc_root` and the index page that follows it. */
  method CreateDocRoot(proc: Process, args: Args, site: Params.SiteSpec, present: bool)
    modifies proc
    ensures proc.trace == old(proc.trace) + Commands(DocRootCommands(DocRoot(site), present))
                          + [WriteFile(IndexFile(site), IndexHtml(site))]
    ensures proc.executed == old(proc.executed) + Executed(DocRootCommands(DocRoot(site), present), args)
    ensures proc.aptUpdated == old(proc.aptUpdated) && proc.infoMessages == old(proc.infoMessages)
    ensures proc.logFile == old(proc.logFile)
  {
    var docRoot := PathJoin(WwwRoot, site.1);
    proc.RunAll(DocRootCommands(docRoot, present), args);
    proc.WriteNewFile(IndexFile(site), IndexHtml(site));
  }

  /** One `info` call adds one row to the rows added so far. */
  lemma AddRowsSnoc(info: map<string, seq<InfoRow>>, title: string, rows: seq<InfoRow>, row: InfoRow)
    ensures var m := AddRows(info, title, rows);
            m[title := CurrentBash.RowsOf(m, title) + [row]] == AddRows(info, title, rows + [row])
  {
    if rows == [] {
      assert rows + [row] == [row];
    } else {
      assert CurrentBash.RowsOf(info, title) + rows + [row] == CurrentBash.RowsOf(info, title) + (rows + [row]);
    }
  }

  /** The end of one pass of the site loop: the site is enabled and its
      four summary rows recorded, the public address captured on the way. */
  method EnableSite(b: CurrentBash.Bash, site: Params.SiteSpec, hostIp: string)
    modifies b.proc
    ensures b.proc.trace == old(b.proc.trace) + Commands([EnsiteCommand(site.0), HostnameCommand])
    ensures b.proc.executed == old(b.proc.executed) + Executed([EnsiteCommand(site.0), HostnameCommand], b.args)
    ensures b.proc.infoMessages == AddRows(old(b.proc.infoMessages), b.title, SiteRows(site, IpText(b.args, hostIp)))
    ensures b.proc.aptUpdated == old(b.proc.aptUpdated) && b.proc.logFile == old(b.proc.logFile)
  {
    ghost var info0 := b.proc.infoMessages;
    ShowAddresses(b, site, hostIp);
    ShowPlace(b, site, AddressRows(site, IpText(b.args, hostIp)), info0);
  }

  /** `a2ensite`, then the website row, the `hostname -I` capture and the
      public address row. */
  method ShowAddresses(b: CurrentBash.Bash, site: Params.SiteSpec, hostIp: string)
    modifies b.proc
    ensures b.proc.trace == old(b.proc.trace) + Commands([EnsiteCommand(site.0), HostnameCommand])
    ensures b.proc.executed == old(b.proc.executed) + Executed([EnsiteCommand(site.0), HostnameCommand], b.args)
    ensures b.proc.infoMessages == AddRows(old(b.proc.infoMessages), b.title, AddressRows(site, IpText(b.args, hostIp)))
    ensures b.proc.aptUpdated == old(b.proc.aptUpdated) && b.proc.logFile == old(b.proc.logFile)
  {
    var proc, args := b.proc, b.args;
    ghost var info0 := proc.infoMessages;
    var _ := proc.Run(EnsiteCommand(site.0), args);
    ghost var website := (CurrentBash.InfoMarker, "Website", "https://" + site.0);
    AddRowsSnoc(info0, b.title, [], website);
    b.Info("Website", "https://" + site.0);
    var ran := proc.Run(HostnameCommand, args);
    var ip := if ran then hostIp else "None";
    ghost var address := (CurrentBash.InfoMarker, "Public IP", "http://" + ip);
    assert [] + [website] == [website];
    AddRowsSnoc(info0, b.title, [website], address);
    b.Info("Public IP", "http://" + ip);
    assert [website] + [address] == AddressRows(site, IpText(args, hostIp));
  }

  /** The rows of the document root and of the configuration file. */
  method ShowPlace(b: CurrentBash.Bash, site: Params.SiteSpec, ghost before: seq<InfoRow>,
                   ghost info0: map<string, seq<InfoRow>>)
    requires b.proc.infoMessages == AddRows(info0, b.title, before)
    modifies b.proc
    ensures b.proc.infoMessages == AddRows(info0, b.title, before + PlaceRows(site))
    ensures b.proc.trace == old(b.proc.trace) && b.proc.executed == old(b.proc.executed)
    ensures b.proc.aptUpdated == old(b.proc.aptUpdated) && b.proc.logFile == old(b.proc.logFile)
  {
    var root := (CurrentBash.InfoMarker, "Root", DocRoot(site));
    AddRowsSnoc(info0, b.title, before, root);
    b.Info("Root", PathJoin(WwwRoot, site.1));
    AddRowsSnoc(info0, b.title, before + [root], (CurrentBash.InfoMarker, "Apache conf", ConfFile(site.0)));
    b.Info("Apache conf", ConfFile(site.0));
    assert before + [root] + [(CurrentBash.InfoMarker, "Apache conf", ConfFile(site.0))] == before + PlaceRows(site);
  }

  /** The files of one pass of the site loop: the configuration `conf`,
      then `create_doc_root` and the index page for a site that asks for
      them. */
  method WriteSiteFiles(proc: Process, args: Args, site: Params.SiteSpec, conf: string, present: bool)
    modifies proc
    ensures proc.trace == old(proc.trace) + SiteFiles(site, conf, present)
    ensures proc.executed
            == old(proc.executed) + Executed(if CreatesDocRoot(site) then DocRootCommands(DocRoot(site), present) else [], args)
    ensures proc.aptUpdated == old(proc.aptUpdated) && proc.infoMessages == old(proc.infoMessages)
    ensures proc.logFile == old(proc.logFile)
  {
    proc.WriteNewFile(ConfFile(site.0), conf);
    if site.2 == "y" {
      CreateDocRoot(proc, args, site, present);
    }
  }

  /** One pass of the site loop of `post_install`, for the configuration
      `conf` built from the site. */
  method PostInstallSite(b: CurrentBash.Bash, site: Params.SiteSpec, conf: string, present: bool, hostIp: string)
    modifies b.proc
    ensures b.proc.trace == old(b.proc.trace) + SiteEvents(site, conf, present)
    ensures b.proc.executed == old(b.proc.executed) + Executed(SiteCommands(site, present), b.args)
    ensures b.proc.infoMessages == AddRows(old(b.proc.infoMessages), b.title, SiteRows(site, IpText(b.args, hostIp)))
    ensures b.proc.aptUpdated == old(b.proc.aptUpdated) && b.proc.logFile == old(b.proc.logFile)
  {
    ghost var trace0 := b.proc.trace;
    WriteSiteFiles(b.proc, b.args, site, conf, present);
    EnableSite(b, site, hostIp);
    AppendAssoc(trace0, SiteFiles(site, conf, present), Commands([EnsiteCommand(site.0), HostnameCommand]));
  }

  function RestartEvent(ubuntu: bool): Event
  {
    if ubuntu then Command(CurrentBash.RestartCommand) else Fatal(CurrentBash.RestartError)
  }

  /** What iterating over a missing `--site-name-and-root` raises. */
  const NotIterable := "TypeError: 'NoneType' object is not iterable"

  /** `VirtualHost.post_install` of the current tree. `sites` is the value
      of `--site-name-and-root`, `None` when the option was not given;
      `dirs` are the directories that exist beforehand and `hostIp` the
      text of `hostname -I`. Without sites the loop raises a `TypeError`
      that `install` does not catch, so the run ends before the restart. */
  method PostInstall(b: CurrentBash.Bash, sites: Option<seq<Params.SiteSpec>>, servername: string, home: string,
                     dirs: set<string>, hostIp: string)
    modifies b.proc
    ensures sites.None? ==>
              b.proc.trace == old(b.proc.trace) + Commands(Prelude) + [Raised(NotIterable)]
              && b.proc.executed == old(b.proc.executed) + Executed(Prelude, b.args)
              && b.proc.infoMessages == old(b.proc.infoMessages)
    ensures sites.Some? ==>
              b.proc.trace == old(b.proc.trace) + Commands(Prelude)
                              + SitesEvents(sites.value, servername, home, dirs, b.args) + [RestartEvent(b.ubuntu)]
    ensures sites.Some? ==>
              b.proc.executed == old(b.proc.executed) + Executed(Prelude, b.args)
                                 + Executed(SitesCommands(sites.value, dirs, b.args), b.args)
                                 + (if b.ubuntu then Executed([CurrentBash.RestartCommand], b.args) else [])
    ensures sites.Some? ==>
              b.proc.infoMessages
              == AddRows(old(b.proc.infoMessages), b.title, SitesRows(sites.value, IpText(b.args, hostIp)))
    ensures b.proc.aptUpdated == old(b.proc.aptUpdated) && b.proc.logFile == old(b.proc.logFile)
  {
    b.proc.RunAll(Prelude, b.args);
    if sites.None? {
      b.proc.Raise(NotIterable);
      return;
    }
    PostInstallSites(b, sites.value, servername, home, dirs, hostIp);
    b.RestartApache();
  }

  /** The site loop of `post_install`; `existing` follows the directories
      the loop creates. */
  method PostInstallSites(b: CurrentBash.Bash, sites: seq<Params.SiteSpec>, servername: string, home: string,
                          dirs: set<string>, hostIp: string)
    modifies b.proc
    ensures b.proc.trace == old(b.proc.trace) + SitesEvents(sites, servername, home, dirs, b.args)
    ensures b.proc.executed == old(b.proc.executed) + Executed(SitesCommands(sites, dirs, b.args), b.args)
    ensures b.proc.infoMessages
            == AddRows(old(b.proc.infoMessages), b.title, SitesRows(sites, IpText(b.args, hostIp)))
    ensures b.proc.aptUpdated == old(b.proc.aptUpdated) && b.proc.logFile == old(b.proc.logFile)
  {
    var proc, args := b.proc, b.args;
    ghost var trace0, executed0, info0 := proc.trace, proc.executed, proc.infoMessages;
    var existing := dirs;
    for i := 0 to |sites|
      invariant proc.trace == trace0 + SitesEvents(sites[..i], servername, home, dirs, args)
      invariant proc.executed == executed0 + Executed(SitesCommands(sites[..i], dirs, args), args)
      invariant proc.infoMessages == AddRows(info0, b.title, SitesRows(sites[..i], IpText(args, hostIp)))
      invariant existing == DirsAfter(sites[..i], dirs, args)
      invariant proc.aptUpdated == old(proc.aptUpdated) && proc.logFile == old(proc.logFile)
    {
      existing := SiteStep(b, sites, i, servername, home, dirs, hostIp, existing, trace0, executed0, info0);
    }
    assert sites[..|sites|] == sites;
  }

  /** One pass of the site loop, stated on the prefixes of `sites` before
      and after it. */
  method SiteStep(b: CurrentBash.Bash, sites: seq<Params.SiteSpec>, i: nat, servername: string, home: string,
                  dirs: set<string>, hostIp: string, existing: set<string>,
                  ghost trace0: seq<Event>, ghost executed0: seq<string>, ghost info0: map<string, seq<InfoRow>>)
    returns (after: set<string>)
    requires i < |sites|
    requires existing == DirsAfter(sites[..i], dirs, b.args)
    requires b.proc.trace == trace0 + SitesEvents(sites[..i], servername, home, dirs, b.args)
    requires b.proc.executed == executed0 + Executed(SitesCommands(sites[..i], dirs, b.args), b.args)
    requires b.proc.infoMessages == AddRows(info0, b.title, SitesRows(sites[..i], IpText(b.args, hostIp)))
    modifies b.proc
    ensures after == DirsAfter(sites[..i + 1], dirs, b.args)
    ensures b.proc.trace == trace0 + SitesEvents(sites[..i + 1], servername, home, dirs, b.args)
    ensures b.proc.executed == executed0 + Executed(SitesCommands(sites[..i + 1], dirs, b.args), b.args)
    ensures b.proc.infoMessages == AddRows(info0, b.title, SitesRows(sites[..i + 1], IpText(b.args, hostIp)))
    ensures b.proc.aptUpdated == old(b.proc.aptUpdated) && b.proc.logFile == old(b.proc.logFile)
  {
    var site := sites[i];
    var conf := SiteConf(site, servername, home, true);
    var present := DocRoot(site) in existing;
    PostInstallSite(b, site, conf, present, hostIp);
    after := if site.2 == "y" && !b.args.dryRun && !b.args.generateScript then existing + {DocRoot(site)} else existing;
    EventsStep(sites, i, servername, home, dirs, b.args);
    AppendAssoc(trace0, SitesEvents(sites[..i], servername, home, dirs, b.args), SiteEvents(site, conf, present));
    CommandsStep(executed0, sites, i, dirs, b.args);
    RowsStep(info0, b.title, sites, i, IpText(b.args, hostIp));
  }

  lemma EventsStep(sites: seq<Params.SiteSpec>, i: nat, servername: string, home: string,
                   dirs: set<string>, args: Args)
    requires i < |sites|
    ensures SitesEvents(sites[..i + 1], servername, home, dirs, args)
            == SitesEvents(sites[..i], servername, home, dirs, args)
               + SiteEvents(sites[i], SiteConf(sites[i], servername, home, true), DocRoot(sites[i]) in DirsAfter(sites[..i], dirs, args))
  {
    var prefix := sites[..i + 1];
    assert prefix[..i] == sites[..i] && prefix[i] == sites[i];
  }

  lemma CommandsStep(executed0: seq<string>, sites: seq<Params.SiteSpec>, i: nat, dirs: set<string>, args: Args)
    requires i < |sites|
    ensures executed0 + Executed(SitesCommands(sites[..i], dirs, args), args)
              + Executed(SiteCommands(sites[i], DocRoot(sites[i]) in DirsAfter(sites[..i], dirs, args)), args)
            == executed0 + Executed(SitesCommands(sites[..i + 1], dirs, args), args)
    ensures DirsAfter(sites[..i + 1], dirs, args)
            == if CreatesDocRoot(sites[i]) && !args.dryRun && !args.generateScript
               then DirsAfter(sites[..i], dirs, args) + {DocRoot(sites[i])} else DirsAfter(sites[..i], dirs, args)
  {
    assert sites[..i + 1][..i] == sites[..i];
  }

  lemma RowsStep(info0: map<string, seq<InfoRow>>, title: string, sites: seq<Params.SiteSpec>, i: nat, ip: string)
    requires i < |sites|
    ensures AddRows(AddRows(info0, title, SitesRows(sites[..i], ip)), title, SiteRows(sites[i], ip))
            == AddRows(info0, title, SitesRows(sites[..i + 1], ip))
  {
    assert sites[..i + 1][..i] == sites[..i];
    AddRowsAppend(info0, title, SitesRows(sites[..i], ip), SiteRows(sites[i], ip));
  }

  // ------------------------------------------- properties of post_install

  function MkdirCommand(docRoot: string): string
  {
    "sudo mkdir " + docRoot
  }

  /** No command of a site's pass is the restart: each begins with a word
      other than `sudo service`. */
  lemma SiteCommandsNoRestart(site: Params.SiteSpec, present: bool)
    ensures CurrentBash.RestartCommand !in SiteCommands(site, present)
  {
    var r := CurrentBash.RestartCommand;
    assert r[5] == 's';
    assert MkdirCommand(DocRoot(site))[5] == 'm';
    assert ChownCommand(DocRoot(site))[5] == 'c';
    assert EnsiteCommand(site.0)[5] == 'a';
    assert HostnameCommand[0] != r[0];
  }

  /** The events of a site are the commands of `SiteCommands` and two
      written files. */
  lemma SiteEventsCommands(site: Params.SiteSpec, conf: string, present: bool, c: string)
    ensures Command(c) in SiteEvents(site, conf, present) <==> c in SiteCommands(site, present)
  {
    var docCmds := if CreatesDocRoot(site) then DocRootCommands(DocRoot(site), present) else [];
    var tail := [EnsiteCommand(site.0), HostnameCommand];
    var files := SiteFiles(site, conf, present);
    if Command(c) in files {
      var k :| 0 <= k < |files| && files[k] == Command(c);
      assert CreatesDocRoot(site) && 1 <= k <= |docCmds|;
      assert docCmds[k - 1] == c;
    }
    if c in docCmds {
      var k :| 0 <= k < |docCmds| && docCmds[k] == c;
      assert files[k + 1] == Command(c);
    }
    if c in tail {
      var k :| 0 <= k < 2 && tail[k] == c;
      assert Commands(tail)[k] == Command(c);
    }
  }

  /** A site's pass never restarts Apache nor stops the run. */
  lemma SiteEventsNoRestart(site: Params.SiteSpec, conf: string, present: bool)
    ensures Command(CurrentBash.RestartCommand) !in SiteEvents(site, conf, present)
    ensures Fatal(CurrentBash.RestartError) !in SiteEvents(site, conf, present)
  {
    SiteCommandsNoRestart(site, present);
    SiteEventsCommands(site, conf, present, CurrentBash.RestartCommand);
  }

  lemma {:induction false} SitesEventsNoRestart(sites: seq<Params.SiteSpec>, servername: string, home: string,
                                                dirs: set<string>, args: Args)
    ensures Command(CurrentBash.RestartCommand) !in SitesEvents(sites, servername, home, dirs, args)
    ensures Fatal(CurrentBash.RestartError) !in SitesEvents(sites, servername, home, dirs, args)
  {
    if sites != [] {
      var init, last := sites[..|sites| - 1], sites[|sites| - 1];
      SitesEventsNoRestart(init, servername, home, dirs, args);
      SiteEventsNoRestart(last, SiteConf(last, servername, home, true), DocRoot(last) in DirsAfter(init, dirs, args));
    }
  }

  lemma PreludeNoRestart()
    ensures Command(CurrentBash.RestartCommand) !in Commands(Prelude)
    ensures Fatal(CurrentBash.RestartError) !in Commands(Prelude)
  {
    var r := CurrentBash.RestartCommand;
    assert r[5] == 's';
    assert Prelude[0][5] == 'a' && Prelude[1][5] == 'a' && Prelude[2][5] == 'a' && DissiteAll[0] == 'f';
  }

  /** `restart_apache` is called once, after all sites: on Ubuntu the
      restart command is the last event of `post_install` and occurs
      nowhere else; elsewhere the error that ends the run is. */
  lemma RestartOnceAtEnd(sites: seq<Params.SiteSpec>, servername: string, home: string,
                         dirs: set<string>, args: Args, ubuntu: bool)
    ensures var events := Commands(Prelude) + SitesEvents(sites, servername, home, dirs, args) + [RestartEvent(ubuntu)];
            events[|events| - 1] == RestartEvent(ubuntu) && Count(events, RestartEvent(ubuntu)) == 1
  {
    var head := Commands(Prelude);
    var body := SitesEvents(sites, servername, home, dirs, args);
    var e := RestartEvent(ubuntu);
    PreludeNoRestart();
    SitesEventsNoRestart(sites, servername, home, dirs, args);
    CountAppend(head, body, e);
    CountAppend(head + body, [e], e);
    assert Count([e], e) == 1 by {
      assert [e][..0] == [];
    }
  }

  /** Without `--site-name-and-root` the run stops after enabling the
      modules and disabling every site: Apache is neither restarted nor
      reported as unsupported, and the last event is the traceback. */
  lemma MissingSitesNoRestart(ubuntu: bool)
    ensures var events := Commands(Prelude) + [Raised(NotIterable)];
            events[|events| - 1].Raised? && Count(events, RestartEvent(ubuntu)) == 0
            && Count(events, Command(DissiteAll)) == 1
  {
    var head := Commands(Prelude);
    var e := RestartEvent(ubuntu);
    PreludeNoRestart();
    CountAppend(head, [Raised(NotIterable)], e);
    CountAppend(head, [Raised(NotIterable)], Command(DissiteAll));
    assert [Raised(NotIterable)][..0] == [];
    assert head == Commands(Prelude[..3]) + [Command(DissiteAll)] by {
      CommandsSnoc(Prelude[..3], DissiteAll);
      assert Prelude[..3] + [DissiteAll] == Prelude;
    }
    assert Command(DissiteAll) !in Commands(Prelude[..3]) by {
      assert DissiteAll[0] == 'f' && Prelude[0][0] == 's' && Prelude[1][0] == 's' && Prelude[2][0] == 's';
    }
    CountAppend(Commands(Prelude[..3]), [Command(DissiteAll)], Command(DissiteAll));
    assert [Command(DissiteAll)][..0] == [];
  }

  /** The document root is created and handed to `www-data` exactly when
      the third field is `"y"`, and `mkdir` runs only when it is missing. */
  lemma DocRootOnlyForYes(site: Params.SiteSpec, present: bool)
    ensures ChownCommand(DocRoot(site)) in SiteCommands(site, present) <==> CreatesDocRoot(site)
    ensures MkdirCommand(DocRoot(site)) in SiteCommands(site, present) <==> CreatesDocRoot(site) && !present
  {
    var d := DocRoot(site);
    assert ChownCommand(d)[5] == 'c' && MkdirCommand(d)[5] == 'm';
    assert EnsiteCommand(site.0)[5] == 'a' && HostnameCommand[0] == 'h';
    assert ChownCommand(d)[0] == 's' && MkdirCommand(d)[0] == 's';
    if CreatesDocRoot(site) {
      assert ChownCommand(d) in DocRootCommands(d, present);
      if !present {
        assert DocRootCommands(d, present)[0] == MkdirCommand(d);
      } else {
        assert MkdirCommand(d) != ChownCommand(d);
      }
    }
  }

  /** An answer of `"Y"` passes the parameter check, and yet no document
      root is made for it: the loop compares with `"y"` exactly. */
  lemma UppercaseYesSkipsDocRoot(name: string, root: string, present: bool)
    requires Params.WellFormedSite((name, root, "Y"))
    ensures Params.ParseSite(Params.SiteText((name, root, "Y"))) == Ok((name, root, "Y"))
    ensures SiteCommands((name, root, "Y"), present) == [EnsiteCommand(name), HostnameCommand]
  {
    Params.ParseSiteRoundTrip((name, root, "Y"));
    assert "Y" != "y";
  }

  /** A `mkdir` is none of the other commands of a site, and names its
      directory. */
  lemma MkdirDistinct(d: string, root: string, siteName: string)
    ensures MkdirCommand(d) != ChownCommand(root)
    ensures MkdirCommand(d) != EnsiteCommand(siteName) && MkdirCommand(d) != HostnameCommand
    ensures MkdirCommand(d) == MkdirCommand(root) <==> d == root
  {
    var m := MkdirCommand(d);
    assert m[5] == 'm' && ChownCommand(root)[5] == 'c' && EnsiteCommand(siteName)[5] == 'a';
    assert m[0] == 's' && HostnameCommand[0] == 'h';
    if m == MkdirCommand(root) {
      assert m[11..] == d && MkdirCommand(root)[11..] == root;
    }
  }

  /** Only the doc-root command of a site asking for it can be a `mkdir`. */
  lemma SiteMkdir(site: Params.SiteSpec, present: bool, d: string)
    ensures multiset(SiteCommands(site, present))[MkdirCommand(d)]
            == if CreatesDocRoot(site) && !present && d == DocRoot(site) then 1 else 0
  {
    var root := DocRoot(site);
    MkdirDistinct(d, root, site.0);
    var m := MkdirCommand(d);
    var tail := [EnsiteCommand(site.0), HostnameCommand];
    assert multiset(tail)[m] == 0;
    if CreatesDocRoot(site) {
      assert multiset([ChownCommand(root)])[m] == 0;
      if !present {
        assert DocRootCommands(root, present) == [MkdirCommand(root)] + [ChownCommand(root)];
      }
    }
  }

  /** A document root is only ever added to the directories that exist. */
  lemma {:induction false} DirsAfterGrows(sites: seq<Params.SiteSpec>, dirs: set<string>, args: Args)
    ensures dirs <= DirsAfter(sites, dirs, args)
  {
    if sites != [] {
      DirsAfterGrows(sites[..|sites| - 1], dirs, args);
    }
  }

  /** When commands really run, a directory is made at most once, and
      never when it existed beforehand, however many sites share it. */
  lemma {:induction false} MkdirAtMostOnce(sites: seq<Params.SiteSpec>, dirs: set<string>, args: Args, d: string)
    requires !args.dryRun && !args.generateScript
    ensures multiset(SitesCommands(sites, dirs, args))[MkdirCommand(d)] <= 1
    ensures d in dirs ==> multiset(SitesCommands(sites, dirs, args))[MkdirCommand(d)] == 0
    ensures multiset(SitesCommands(sites, dirs, args))[MkdirCommand(d)] == 1 ==> d in DirsAfter(sites, dirs, args)
  {
    if sites != [] {
      var init, last := sites[..|sites| - 1], sites[|sites| - 1];
      var before := DirsAfter(init, dirs, args);
      MkdirAtMostOnce(init, dirs, args, d);
      DirsAfterGrows(init, dirs, args);
      SiteMkdir(last, DocRoot(last) in before, d);
    }
  }

  /** Every site of the list gets its configuration file, written with
      CORS headers and the server's certificate, and is enabled. */
  lemma {:induction false} EverySiteWrittenAndEnabled(sites: seq<Params.SiteSpec>, servername: string, home: string,
                                                      dirs: set<string>, args: Args, k: nat)
    requires k < |sites|
    ensures WriteFile(ConfFile(sites[k].0), SiteConf(sites[k], servername, home, true))
            in SitesEvents(sites, servername, home, dirs, args)
    ensures Command(EnsiteCommand(sites[k].0)) in SitesEvents(sites, servername, home, dirs, args)
  {
    var init, last := sites[..|sites| - 1], sites[|sites| - 1];
    if k < |sites| - 1 {
      assert init[k] == sites[k];
      EverySiteWrittenAndEnabled(init, servername, home, dirs, args, k);
    } else {
      var conf, present := SiteConf(last, servername, home, true), DocRoot(last) in DirsAfter(init, dirs, args);
      var events := SiteEvents(last, conf, present);
      assert events[0] == WriteFile(ConfFile(last.0), conf);
      SiteEventsCommands(last, conf, present, EnsiteCommand(last.0));
      assert EnsiteCommand(last.0) in SiteCommands(last, present);
    }
  }

  /** The configuration of every site names the certificate and key of
      the server given on the command line, whatever the site is called. */
  lemma ConfUsesServerCert(site: Params.SiteSpec, servername: string, home: string, cors: bool)
    requires servername == [] || servername[0] != '/'
    ensures SiteConf(site, servername, home, cors)
            == Http(site.0, DocRoot(site), cors)
               + Https(site.0, DocRoot(site), "/etc/ssl/certs/" + servername + ".crt",
                       "/etc/ssl/private/" + servername + ".key", cors)
  {
    Certs.CertNamesRelative(servername, home);
  }

  /** The summary holds four rows per site, in site order. */
  lemma {:induction false} SitesRowsBySite(sites: seq<Params.SiteSpec>, ip: string, k: nat)
    requires k < |sites|
    ensures |SitesRows(sites, ip)| == 4 * |sites|
    ensures SitesRows(sites, ip)[4 * k..4 * k + 4] == SiteRows(sites[k], ip)
  {
    var init := sites[..|sites| - 1];
    if k < |sites| - 1 {
      assert init[k] == sites[k];
      SitesRowsBySite(init, ip, k);
      assert SitesRows(sites, ip)[4 * k..4 * k + 4] == SitesRows(init, ip)[4 * k..4 * k + 4];
    } else if k > 0 {
      SitesRowsBySite(init, ip, k - 1);
    } else {
      assert init == [];
    }
  }
}
