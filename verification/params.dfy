/** The option-value parsers and validators of the command line: the
    `click` parameter types of the current tool and the `argparse` type
    functions of the older entry point. A failing conversion (`self.fail`
    or `ArgumentTypeError`) is the `Err` case, carrying the message shown
    to the user. */
module Params {
  import opened Common

  // ------------------------------------------------------------ servers

  /** `is_server`: a server name only has to contain a dot. */
  predicate IsServer(server: string)
  {
    '.' in server
  }

  const ServerMsg := "the servername must have a \".\" in it, eg. something.local"

  /** `Server.convert` and the older `url`: the value is passed through
      unchanged when it looks like a server name and refused otherwise. */
  function ServerName(value: string): (r: Result<string>)
    ensures r.Ok? <==> exists i :: 0 <= i < |value| && value[i] == '.'
    ensures r.Ok? ==> r.value == value
    ensures r.Err? ==> r.msg == ServerMsg
  {
    if IsServer(value) then Ok(value) else Err(ServerMsg)
  }

  // ------------------------------------------------------------- e-mail

  /** `re.match(r"[^@]+@[^@]+\.[^@]+", s)` succeeds with the match ending
      at `end`: `s[..at]`, `s[at + 1..dot]` and `s[dot + 1..end]` are
      non-empty runs without '@', `s[at]` is '@' and `s[dot]` is '.'.
      Text after `end` is not looked at. */
  predicate EmailMatchAt(s: string, at: int, dot: int, end: int)
  {
    0 < at && at + 1 < dot && dot + 1 < end <= |s| &&
    s[at] == '@' && s[dot] == '.' &&
    '@' !in s[..at] && '@' !in s[at + 1..dot] && '@' !in s[dot + 1..end]
  }

  /** `is_email`, decided by one scan: the first '@' must be preceded by
      something, and the text up to the next '@' (or the end) must hold a
      '.' with at least one character on each side. */
  function IsEmail(email: string): bool
  {
    if '@' !in email then false
    else
      var at := IndexOf(email, '@');
      var rest := email[at + 1..];
      var stop := if '@' in rest then IndexOf(rest, '@') else |rest|;
      at > 0 && stop >= 3 && '.' in rest[1..stop - 1]
  }

  /** The scan accepts exactly the strings the regular expression matches
      at their start. */
  lemma IsEmailMatches(email: string)
    ensures IsEmail(email) <==> exists at, dot, end :: EmailMatchAt(email, at, dot, end)
  {
    if IsEmail(email) {
      var at, dot := IsEmailSound(email);
      assert EmailMatchAt(email, at, dot, dot + 2);
    }
    if exists at, dot, end :: EmailMatchAt(email, at, dot, end) {
      var at, dot, end :| EmailMatchAt(email, at, dot, end);
      IsEmailComplete(email, at, dot, end);
    }
  }

  /** An accepted address has a match, ending one character after its dot. */
  lemma IsEmailSound(email: string) returns (at: int, dot: int)
    requires IsEmail(email)
    ensures EmailMatchAt(email, at, dot, dot + 2)
  {
    at := IndexOf(email, '@');
    var rest := email[at + 1..];
    var stop := if '@' in rest then IndexOf(rest, '@') else |rest|;
    assert '@' !in rest[..stop];
    var k :| 0 <= k < stop - 2 && rest[1..stop - 1][k] == '.';
    dot := at + 2 + k;
    assert email[at + 1..dot] == rest[..k + 1];
    assert rest[..k + 1] == rest[..stop][..k + 1];
    assert email[dot + 1..dot + 2] == [rest[k + 2]];
    assert rest[k + 2] == rest[..stop][k + 2];
  }

  /** Every match is found by the scan. */
  lemma IsEmailComplete(email: string, at: int, dot: int, end: int)
    requires EmailMatchAt(email, at, dot, end)
    ensures IsEmail(email)
  {
    IndexOfAt(email, '@', at);
    var rest := email[at + 1..];
    var d := dot - at - 1;
    assert '@' !in rest[..d + 2] by {
      assert rest[..d] == email[at + 1..dot];
      assert rest[d] == '.' && rest[d + 1] == email[dot + 1];
      assert email[dot + 1] == email[dot + 1..end][0];
      assert rest[..d + 2] == rest[..d] + [rest[d], rest[d + 1]];
    }
    var stop := if '@' in rest then IndexOf(rest, '@') else |rest|;
    assert forall m :: 0 <= m < d + 2 ==> rest[m] == rest[..d + 2][m];
    assert stop >= d + 2;
    assert rest[1..stop - 1][d - 1] == '.';
  }

  /** The start of the text is all that counts: anything may follow a
      matching address. */
  lemma IsEmailIgnoresSuffix(email: string, suffix: string)
    requires IsEmail(email)
    ensures IsEmail(email + suffix)
  {
    IsEmailMatches(email);
    var at, dot, end :| EmailMatchAt(email, at, dot, end);
    var s := email + suffix;
    assert s[..at] == email[..at] && s[at + 1..dot] == email[at + 1..dot] && s[dot + 1..end] == email[dot + 1..end];
    assert EmailMatchAt(s, at, dot, end);
    IsEmailMatches(s);
  }

  // ------------------------------------------------------------- fields

  /** Unpacking `[i.strip() for i in value.split(sep, n - 1) if i.strip()]`
      into `n` names: the stripped pieces, or `None` where Python raises
      `ValueError` because their number is not `n`. */
  function Fields(value: string, sep: char, n: nat): (r: Option<seq<string>>)
    requires n >= 1
    ensures var parts := SplitN(value, sep, n - 1);
            r.Some? <==> |parts| == n && forall i :: 0 <= i < n ==> Strip(parts[i]) != ""
    ensures var parts := SplitN(value, sep, n - 1);
            r.Some? ==> |r.value| == n && forall i :: 0 <= i < n ==> r.value[i] == Strip(parts[i])
  {
    var parts := SplitN(value, sep, n - 1);
    NonBlankCount(parts);
    if |NonBlank(parts)| == n then
      NonBlankAll(parts);
      Some(NonBlank(parts))
    else
      None
  }

  /** Every field is non-empty and stripped, and all but the last are
      free of the separator. */
  lemma FieldsShape(value: string, sep: char, n: nat)
    requires n >= 1 && Fields(value, sep, n).Some?
    ensures forall i :: 0 <= i < n ==> Trimmed(Fields(value, sep, n).value[i])
    ensures forall i :: 0 <= i < n - 1 ==> sep !in Fields(value, sep, n).value[i]
  {
    var parts := SplitN(value, sep, n - 1);
    var f := Fields(value, sep, n).value;
    forall i | 0 <= i < n - 1 ensures sep !in f[i] {
      assert Excludes(parts[i], sep);
      StripExcludes(parts[i], sep);
    }
  }

  /** Joining `n` stripped, non-empty fields with the separator, all but the
      last free of it, and unpacking again gives them back. */
  lemma FieldsJoin(pieces: seq<string>, sep: char)
    requires |pieces| >= 1
    requires forall i :: 0 <= i < |pieces| - 1 ==> sep !in pieces[i]
    requires forall i :: 0 <= i < |pieces| ==> Trimmed(pieces[i])
    ensures Fields(Join([sep], pieces), sep, |pieces|) == Some(pieces)
  {
    SplitNJoin(pieces, sep);
    NonBlankTrimmed(pieces);
  }

  // ------------------------------------------------ user name and secret

  const UserPassMsg := "must be a username and password seperated by a comma\n            (the password can have a comma in it, but not the username)."

  /** Two comma-separated fields, split at the first comma only, as in
      `UserPass.convert`, the older `userpass` and each segment of the
      older `newsite`; `msg` is the message the caller fails with. (The
      callers strip the unpacked fields once more, which changes nothing.) */
  function Pair(value: string, msg: string): (r: Result<(string, string)>)
    ensures r.Ok? <==> Fields(value, ',', 2).Some?
    ensures r.Ok? ==> [r.value.0, r.value.1] == Fields(value, ',', 2).value
    ensures r.Ok? ==> Trimmed(r.value.0) && Trimmed(r.value.1) && ',' !in r.value.0
    ensures r.Err? ==> r.msg == msg
  {
    match Fields(value, ',', 2)
    case None => Err(msg)
    case Some(f) =>
      FieldsShape(value, ',', 2);
      Ok((f[0], f[1]))
  }

  /** `name,secret` with a comma-free name is read back as the two parts;
      the secret may itself contain commas. */
  lemma PairRoundTrip(name: string, secret: string, msg: string)
    requires Trimmed(name) && Trimmed(secret) && ',' !in name
    ensures Pair(name + "," + secret, msg) == Ok((name, secret))
  {
    assert Join([','], [name, secret]) == name + "," + secret;
    FieldsJoin([name, secret], ',');
  }

  /** A value without a comma is refused. */
  lemma PairNeedsComma(value: string, msg: string)
    requires ',' !in value
    ensures Pair(value, msg) == Err(msg)
  {
  }

  /** A value whose name or secret is blank is refused: the blank side is
      filtered out and one field is left to unpack into two. */
  lemma PairBlankSide(name: string, secret: string, msg: string)
    requires ',' !in name && (Strip(name) == "" || Strip(secret) == "")
    ensures Pair(name + "," + secret, msg) == Err(msg)
  {
    SplitNCons(name, secret, ',', 1);
    assert SplitN(name + "," + secret, ',', 1) == [name, secret];
  }

  const OldUserPassEmailMsg := "must be a username, email and password seperated by a comma\n            (the password can have a comma in it, but not the username or email)."

  /** Three comma-separated fields, split at the first two commas, as in
      the older `userpassemail`; the address is not checked. */
  function Triple(value: string, msg: string): (r: Result<(string, string, string)>)
    ensures r.Ok? <==> Fields(value, ',', 3).Some?
    ensures r.Ok? ==> [r.value.0, r.value.1, r.value.2] == Fields(value, ',', 3).value
    ensures r.Ok? ==> Trimmed(r.value.0) && Trimmed(r.value.1) && Trimmed(r.value.2)
    ensures r.Ok? ==> ',' !in r.value.0 && ',' !in r.value.1
    ensures r.Err? ==> r.msg == msg
  {
    match Fields(value, ',', 3)
    case None => Err(msg)
    case Some(f) =>
      FieldsShape(value, ',', 3);
      Ok((f[0], f[1], f[2]))
  }

  lemma JoinThree(a: string, b: string, c: string)
    ensures Join([','], [a, b, c]) == a + "," + b + "," + c
  {
    assert [a, b, c][1..] == [b, c];
    assert [b, c][1..] == [c];
    assert Join([','], [b, c]) == b + "," + c;
  }

  lemma TripleRoundTrip(name: string, email: string, secret: string, msg: string)
    requires Trimmed(name) && Trimmed(email) && Trimmed(secret)
    requires ',' !in name && ',' !in email
    ensures Triple(name + "," + email + "," + secret, msg) == Ok((name, email, secret))
  {
    JoinThree(name, email, secret);
    FieldsJoin([name, email, secret], ',');
  }

  const UserEmailPassMsg := "must be a username, email and password seperated by a comma (the password can have a comma in it, but not the username or email)."

  /** `UserEmailPass.convert`: three fields as in `Triple`, and the second
      must pass `is_email`. */
  function UserEmailPass(value: string): (r: Result<(string, string, string)>)
    ensures r.Ok? <==> Triple(value, UserEmailPassMsg).Ok? && IsEmail(Triple(value, UserEmailPassMsg).value.1)
    ensures r.Ok? ==> r == Triple(value, UserEmailPassMsg)
    ensures r.Ok? ==> exists at, dot, end :: EmailMatchAt(r.value.1, at, dot, end)
    ensures r.Err? ==> r.msg == UserEmailPassMsg
  {
    match Triple(value, UserEmailPassMsg)
    case Err(m) => Err(m)
    case Ok(t) =>
      IsEmailMatches(t.1);
      if IsEmail(t.1) then Ok(t) else Err(UserEmailPassMsg)
  }

  lemma UserEmailPassRoundTrip(name: string, email: string, secret: string)
    requires Trimmed(name) && Trimmed(email) && Trimmed(secret)
    requires ',' !in name && ',' !in email && IsEmail(email)
    ensures UserEmailPass(name + "," + email + "," + secret) == Ok((name, email, secret))
  {
    TripleRoundTrip(name, email, secret, UserEmailPassMsg);
  }

  // -------------------------------------------------------------- sites

  /** (site name, document root, create-directory answer) */
  type SiteSpec = (string, string, string)

  const SiteDocrootMsg := "must be a sitename, document root and a \"y\" or \"n\" (create site dir) seperated by a comma, and sitename must have a . in it"

  /** The create-directory answer: "y" or "n" in either case. */
  predicate YesNo(answer: string)
  {
    Lower(answer) == "y" || Lower(answer) == "n"
  }

  /** One `SITENAME,DOCROOT,CREATEDIR` segment of `SiteDocroot.convert`:
      three fields, a site name with a dot, and an answer accepted by
      `YesNo`, kept as written. */
  function ParseSite(site: string): (r: Result<SiteSpec>)
    ensures r.Ok? <==> var f := Fields(site, ',', 3); f.Some? && IsServer(f.value[0]) && YesNo(f.value[2])
    ensures r.Ok? ==> [r.value.0, r.value.1, r.value.2] == Fields(site, ',', 3).value
    ensures r.Ok? ==> ',' !in r.value.0 && ',' !in r.value.1
    ensures r.Err? ==> r.msg == SiteDocrootMsg
  {
    match Fields(site, ',', 3)
    case None => Err(SiteDocrootMsg)
    case Some(f) =>
      FieldsShape(site, ',', 3);
      if !IsServer(f[0]) then Err(SiteDocrootMsg)
      else if !YesNo(f[2]) then Err(SiteDocrootMsg)
      else Ok((f[0], f[1], f[2]))
  }

  /** The text of one segment. */
  function SiteText(s: SiteSpec): string
  {
    s.0 + "," + s.1 + "," + s.2
  }

  /** A segment `SiteDocroot` reads back as itself. */
  predicate WellFormedSite(s: SiteSpec)
  {
    Trimmed(s.0) && Trimmed(s.1) && Trimmed(s.2) &&
    ',' !in s.0 && ',' !in s.1 && '.' in s.0 && YesNo(s.2)
  }

  lemma ParseSiteRoundTrip(s: SiteSpec)
    requires WellFormedSite(s)
    ensures ParseSite(SiteText(s)) == Ok(s)
  {
    JoinThree(s.0, s.1, s.2);
    FieldsJoin([s.0, s.1, s.2], ',');
  }

  /** The per-segment loop of `SiteDocroot.convert` and of the older
      `newsite`, as a value: the parsed segments in order, or the failure
      of the first segment that does not parse. */
  function ParseAll<T>(segments: seq<string>, parse: string -> Result<T>): Result<seq<T>>
  {
    if segments == [] then Ok([])
    else
      match ParseAll(segments[..|segments| - 1], parse)
      case Err(m) => Err(m)
      case Ok(xs) =>
        match parse(segments[|segments| - 1])
        case Err(m) => Err(m)
        case Ok(x) => Ok(xs + [x])
  }

  /** Once a prefix fails, the whole list fails the same way. */
  lemma {:induction false} ParseAllErrPrefix<T>(segments: seq<string>, k: nat, parse: string -> Result<T>)
    requires k <= |segments| && ParseAll(segments[..k], parse).Err?
    ensures ParseAll(segments, parse) == ParseAll(segments[..k], parse)
    decreases |segments|
  {
    if k < |segments| {
      var init := segments[..|segments| - 1];
      assert init[..k] == segments[..k];
      ParseAllErrPrefix(init, k, parse);
    } else {
      assert segments[..k] == segments;
    }
  }

  /** The list parses exactly when every segment does; then there is one
      value per segment, in order. Otherwise the failure is that of the
      first segment that does not parse. */
  lemma {:induction false} ParseAllSpec<T>(segments: seq<string>, parse: string -> Result<T>)
    ensures ParseAll(segments, parse).Ok? <==> forall i :: 0 <= i < |segments| ==> parse(segments[i]).Ok?
    ensures ParseAll(segments, parse).Ok? ==>
              |ParseAll(segments, parse).value| == |segments| &&
              forall i :: 0 <= i < |segments| ==> parse(segments[i]) == Ok(ParseAll(segments, parse).value[i])
    ensures ParseAll(segments, parse).Err? ==>
              exists i :: 0 <= i < |segments| && parse(segments[i]).Err? &&
                          ParseAll(segments, parse).msg == parse(segments[i]).msg &&
                          forall j :: 0 <= j < i ==> parse(segments[j]).Ok?
  {
    if segments != [] {
      var n := |segments|;
      var init := segments[..n - 1];
      ParseAllSpec(init, parse);
      assert forall i :: 0 <= i < n - 1 ==> init[i] == segments[i];
      if ParseAll(init, parse).Err? {
        var i :| 0 <= i < n - 1 && parse(init[i]).Err? && ParseAll(init, parse).msg == parse(init[i]).msg &&
                 forall j :: 0 <= j < i ==> parse(init[j]).Ok?;
        assert parse(segments[i]).Err?;
      }
    }
  }

  /** Segments that each parse to the corresponding value parse as a
      list to those values. */
  lemma {:induction false} ParseAllOk<T>(segments: seq<string>, values: seq<T>, parse: string -> Result<T>)
    requires |segments| == |values|
    requires forall i :: 0 <= i < |segments| ==> parse(segments[i]) == Ok(values[i])
    ensures ParseAll(segments, parse) == Ok(values)
    decreases |segments|
  {
    if segments != [] {
      var n := |segments|;
      ParseAllOk(segments[..n - 1], values[..n - 1], parse);
      assert values == values[..n - 1] + [values[n - 1]];
    }
  }

  /** The loop itself: parse each segment in turn, stop at the first
      failure. */
  method ParseSegments<T>(segments: seq<string>, parse: string -> Result<T>) returns (r: Result<seq<T>>)
    ensures r == ParseAll(segments, parse)
  {
    var cleaned: seq<T> := [];
    assert segments[..0] == [];
    for i := 0 to |segments|
      invariant ParseAll(segments[..i], parse) == Ok(cleaned)
    {
      assert segments[..i + 1][..i] == segments[..i];
      var item := parse(segments[i]);
      if item.Err? {
        ParseAllErrPrefix(segments, i + 1, parse);
        return Err(item.msg);
      }
      cleaned := cleaned + [item.value];
    }
    assert segments[..|segments|] == segments;
    return Ok(cleaned);
  }

  /** `SiteDocroot.convert`: one triple per ':'-separated segment, in
      order; the first bad segment fails the whole value. */
  method SiteDocroot(value: string) returns (r: Result<seq<SiteSpec>>)
    ensures r == ParseAll(Split(value, ':'), ParseSite)
  {
    r := ParseSegments(Split(value, ':'), ParseSite);
  }

  /** The text of a list of sites, segments joined with ':'. */
  function SitesText(specs: seq<SiteSpec>): string
  {
    Join(":", seq(|specs|, i requires 0 <= i < |specs| => SiteText(specs[i])))
  }

  /** The segments of the text of a list of colon-free sites are the
      texts of the sites. */
  lemma SitesSplit(specs: seq<SiteSpec>)
    requires |specs| >= 1
    requires forall i :: 0 <= i < |specs| ==> ':' !in SiteText(specs[i])
    ensures Split(SitesText(specs), ':') == seq(|specs|, i requires 0 <= i < |specs| => SiteText(specs[i]))
  {
    var texts := seq(|specs|, i requires 0 <= i < |specs| => SiteText(specs[i]));
    SplitJoin(texts, ':');
  }

  /** Splitting the text of well-formed, colon-free sites and parsing
      each segment gives the sites back: with the contract of
      `SiteDocroot` this makes it the inverse of `SitesText`. */
  lemma SitesRoundTrip(specs: seq<SiteSpec>)
    requires |specs| >= 1
    requires forall i :: 0 <= i < |specs| ==> WellFormedSite(specs[i]) && ':' !in SiteText(specs[i])
    ensures ParseAll(Split(SitesText(specs), ':'), ParseSite) == Ok(specs)
  {
    var texts := seq(|specs|, i requires 0 <= i < |specs| => SiteText(specs[i]));
    SitesSplit(specs);
    forall i | 0 <= i < |specs| ensures ParseSite(texts[i]) == Ok(specs[i]) {
      ParseSiteRoundTrip(specs[i]);
    }
    ParseAllOk(texts, specs, ParseSite);
  }

  const NewSiteMsg := "must be a sitename and document root seperated by a comma."

  /** One segment of the older `newsite`. */
  function ParseNewSite(site: string): Result<(string, string)>
  {
    Pair(site, NewSiteMsg)
  }

  /** The older `newsite`: one (site name, document root) pair per
      ':'-separated segment; the site name is not checked. */
  method NewSite(value: string) returns (r: Result<seq<(string, string)>>)
    ensures r == ParseAll(Split(value, ':'), ParseNewSite)
  {
    r := ParseSegments(Split(value, ':'), ParseNewSite);
  }

  /** Any segment without a comma makes `newsite` fail. */
  lemma NewSiteNeedsComma(value: string, i: nat)
    requires i < |Split(value, ':')| && ',' !in Split(value, ':')[i]
    ensures ParseAll(Split(value, ':'), ParseNewSite) == Err(NewSiteMsg)
  {
    var segs := Split(value, ':');
    PairNeedsComma(segs[i], NewSiteMsg);
    ParseAllSpec(segs, ParseNewSite);
  }

  // ---------------------------------------------------------------- deps

  /** The arguments that do not start with '-', in order. */
  function Positionals(argv: seq<string>): (r: seq<string>)
    ensures |r| <= |argv|
    ensures forall x :: x in r <==> x in argv && !("-" <= x)
  {
    if argv == [] then []
    else
      var init := Positionals(argv[..|argv| - 1]);
      var last := argv[|argv| - 1];
      assert argv == argv[..|argv| - 1] + [last];
      if "-" <= last then init else init + [last]
  }

  lemma {:induction false} PositionalsAppend(a: seq<string>, b: seq<string>)
    ensures Positionals(a + b) == Positionals(a) + Positionals(b)
    decreases |b|
  {
    if b != [] {
      var b' := b[..|b| - 1];
      assert (a + b)[..|a + b| - 1] == a + b';
      PositionalsAppend(a, b');
    } else {
      assert a + b == a;
    }
  }

  /** Python's `s[n:]`: empty when `s` is shorter than `n`. */
  function Drop<T>(s: seq<T>, n: nat): (r: seq<T>)
    ensures |r| == if |s| <= n then 0 else |s| - n
  {
    if |s| <= n then [] else s[n..]
  }

  /** `deps`: whether some dependency is named, exactly as written, among
      the positional arguments after the first three (program, command and
      server name). Option values that do not start with '-' count as
      positional arguments too. */
  function Deps(argv: seq<string>, dependencies: seq<string>): bool
  {
    exists d :: d in dependencies && d in Drop(Positionals(argv), 3)
  }

  /** Options are ignored: inserting one anywhere in the argument vector
      does not change the verdict. */
  lemma DepsIgnoresOptions(argv: seq<string>, k: nat, option: string, dependencies: seq<string>)
    requires k <= |argv| && "-" <= option
    ensures Deps(argv[..k] + [option] + argv[k..], dependencies) == Deps(argv, dependencies)
  {
    PositionalsAppend(argv[..k] + [option], argv[k..]);
    PositionalsAppend(argv[..k], [option]);
    PositionalsAppend(argv[..k], argv[k..]);
    assert argv[..k] + argv[k..] == argv;
    assert Positionals([option]) == [];
    assert Positionals(argv[..k] + [option]) == Positionals(argv[..k]);
  }

  /** With three positional arguments or fewer nothing counts, and what
      counts is a positional argument that is also a dependency. */
  lemma DepsNeedsPositional(argv: seq<string>, dependencies: seq<string>)
    ensures |Positionals(argv)| <= 3 ==> !Deps(argv, dependencies)
    ensures Deps(argv, dependencies) ==> exists d :: d in dependencies && d in argv && !("-" <= d)
  {
    if Deps(argv, dependencies) {
      var d :| d in dependencies && d in Drop(Positionals(argv), 3);
      assert d in Positionals(argv);
    }
  }

  /** `deps` as evidently intended: an option is required when the run
      selects one of the dependencies, and a module is selected by every
      requested name that, lower-cased, starts its lower-cased name. The
      dependencies are lower-cased module names. */
  predicate DepsIntended(argv: seq<string>, dependencies: seq<string>)
  {
    exists d, m :: d in dependencies && m in Drop(Positionals(argv), 3) && Lower(m) <= d
  }

  /** The intended check asks for the option whenever `deps` does. */
  lemma DepsIntendedExtends(argv: seq<string>, dependencies: seq<string>)
    requires forall d :: d in dependencies ==> Lower(d) == d
    ensures Deps(argv, dependencies) ==> DepsIntended(argv, dependencies)
  {
    if Deps(argv, dependencies) {
      var d :| d in dependencies && d in Drop(Positionals(argv), 3);
      assert Lower(d) <= d;
    }
  }

  /** A virtual host requested with its class name's capitals leaves
      `--site-name-and-root` optional as written, where the intended check
      requires it. */
  lemma DepsMissesCapitalisedModule()
    ensures var argv := ["boss", "install", "example.com", "lamp", "selfcert", "VirtualHost"];
            !Deps(argv, ["virtualhost", "craft"]) && DepsIntended(argv, ["virtualhost", "craft"])
  {
    var argv := ["boss", "install", "example.com", "lamp", "selfcert", "VirtualHost"];
    var mods := ["lamp", "selfcert", "VirtualHost"];
    assert Positionals(argv) == argv by {
      forall k | 0 <= k < |argv| ensures !("-" <= argv[k]) {
        assert argv[k][0] != '-';
      }
      PositionalsAll(argv);
    }
    assert Drop(argv, 3) == mods;
    assert "virtualhost" != mods[0] && "virtualhost" != mods[1] && "virtualhost"[0] != mods[2][0];
    assert "craft"[0] != mods[0][0] && "craft"[0] != mods[1][0] && "craft"[0] != mods[2][0];
    var deps := ["virtualhost", "craft"];
    assert Lower(mods[2]) == deps[0];
    assert deps[0] in deps && mods[2] in Drop(Positionals(argv), 3) && Lower(mods[2]) <= deps[0];
  }

  lemma {:induction false} PositionalsAll(argv: seq<string>)
    requires forall k :: 0 <= k < |argv| ==> !("-" <= argv[k])
    ensures Positionals(argv) == argv
  {
    if argv != [] {
      PositionalsAll(argv[..|argv| - 1]);
    }
  }
}
