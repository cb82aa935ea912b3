/** The module registry of the `install` command and what the command does
    with it before any module runs (src/boss/cli.py): resolve the requested
    names by case-insensitive prefix, reject an ambiguous name, bracket the
    selection with the required first and last modules, and refuse a run
    whose required tags are not all provided. */
module Registry {
  import opened Common
  import Params

  /** What the program knows of a module class before running it: its class
      name and its `provides` and `requires` tag lists. */
  datatype Descriptor = Descriptor(name: string, provided: seq<string>, required: seq<string>)

  // ------------------------------------------------------ name matching

  /** The registry entries, in registry order, whose lower-cased name starts
      with `token`. */
  function Matches(reg: seq<Descriptor>, token: string): (r: seq<Descriptor>)
    ensures |r| <= |reg|
  {
    if reg == [] then []
    else
      var last := reg[|reg| - 1];
      Matches(reg[..|reg| - 1], token) + (if token <= Lower(last.name) then [last] else [])
  }

  /** A descriptor is matched exactly when it is registered and its
      lower-cased name starts with the token. */
  lemma {:induction false} MatchesMembers(reg: seq<Descriptor>, token: string, d: Descriptor)
    ensures d in Matches(reg, token) <==> d in reg && token <= Lower(d.name)
  {
    if reg != [] {
      var init := reg[..|reg| - 1];
      MatchesMembers(init, token, d);
      assert reg == init + [reg[|reg| - 1]];
    }
  }

  /** A token is ambiguous when it starts two or more lower-cased names. */
  predicate Ambiguous(reg: seq<Descriptor>, token: string)
  {
    |Matches(reg, token)| > 1
  }

  /** There is no exact-match exemption: a token that starts two different
      registered names is ambiguous even if it equals one of them. */
  lemma TwoPrefixedNamesAmbiguous(reg: seq<Descriptor>, token: string, d1: Descriptor, d2: Descriptor)
    requires d1 in reg && d2 in reg && d1 != d2
    requires token <= Lower(d1.name) && token <= Lower(d2.name)
    ensures Ambiguous(reg, token)
  {
    MatchesMembers(reg, token, d1);
    MatchesMembers(reg, token, d2);
    var m := Matches(reg, token);
    var i :| 0 <= i < |m| && m[i] == d1;
    var j :| 0 <= j < |m| && m[j] == d2;
    assert i != j;
  }

  /** The registry entries that some token starts, as a set: the
      `matching_mods` set the loop fills. */
  function Selected(reg: seq<Descriptor>, tokens: seq<string>): set<Descriptor>
  {
    if tokens == [] then {}
    else Selected(reg, tokens[..|tokens| - 1]) + Elements(Matches(reg, tokens[|tokens| - 1]))
  }

  /** A module is selected exactly when it is registered and some token is
      a prefix of its lower-cased name; tokens matching nothing add nothing. */
  lemma {:induction false} SelectedMembers(reg: seq<Descriptor>, tokens: seq<string>, d: Descriptor)
    ensures d in Selected(reg, tokens) <==> d in reg && exists t :: t in tokens && t <= Lower(d.name)
  {
    if tokens != [] {
      var init := tokens[..|tokens| - 1];
      var t := tokens[|tokens| - 1];
      SelectedMembers(reg, init, d);
      MatchesMembers(reg, t, d);
      assert tokens == init + [t];
      if exists u :: u in tokens && u <= Lower(d.name) {
        var u :| u in tokens && u <= Lower(d.name);
        assert u == t || u in init;
      }
      if exists u :: u in init && u <= Lower(d.name) {
        var u :| u in init && u <= Lower(d.name);
        assert u in tokens;
      }
      assert t in tokens;
    }
  }

  // ---------------------------------------------------- ambiguity message

  function Names(ds: seq<Descriptor>): (r: seq<string>)
    ensures |r| == |ds|
  {
    seq(|ds|, i requires 0 <= i < |ds| => ds[i].name)
  }

  function Quoted(xs: seq<string>): (r: seq<string>)
    ensures |r| == |xs|
  {
    seq(|xs|, i requires 0 <= i < |xs| => "\"" + xs[i] + "\"")
  }

  /** The program's expression `", ".join(q[:-2] + [" and ".join(q[-2:])])`. */
  function Enumeration(q: seq<string>): string
    requires |q| >= 2
  {
    Join(", ", q[..|q| - 2] + [Join(" and ", q[|q| - 2..])])
  }

  /** The enumeration the comment promises: "a and b", "a, b and c", ... */
  function Phrase(q: seq<string>): string
    requires |q| >= 2
  {
    if |q| == 2 then q[0] + " and " + q[1] else q[0] + ", " + Phrase(q[1..])
  }

  /** The slicing expression produces the promised phrase: items separated
      by ", " except for " and " before the last. */
  lemma {:induction false} EnumerationIsPhrase(q: seq<string>)
    requires |q| >= 2
    ensures Enumeration(q) == Phrase(q)
  {
    var n := |q|;
    var pair := Join(" and ", q[n - 2..]);
    assert pair == q[n - 2] + " and " + q[n - 1] by {
      var last2 := q[n - 2..];
      assert |last2| == 2 && last2[0] == q[n - 2] && last2[1..] == [q[n - 1]];
      assert Join(" and ", last2[1..]) == q[n - 1];
    }
    if n == 2 {
      assert q[..n - 2] + [pair] == [pair];
    } else {
      var items := q[..n - 2] + [pair];
      var tail := q[1..];
      assert tail[|tail| - 2..] == q[n - 2..];
      assert items[1..] == tail[..|tail| - 2] + [pair];
      assert items[0] == q[0];
      EnumerationIsPhrase(tail);
    }
  }

  function AmbiguityMessage(token: string, names: seq<string>): string
    requires |names| >= 2
  {
    "Module name \"" + token + "\" is ambiguous, it matches: " + Enumeration(Quoted(names))
  }

  lemma MatchesSnoc(reg: seq<Descriptor>, k: nat, token: string)
    requires k < |reg|
    ensures Matches(reg[..k + 1], token)
            == Matches(reg[..k], token) + (if token <= Lower(reg[k].name) then [reg[k]] else [])
  {
    assert reg[..k + 1][..k] == reg[..k];
  }

  lemma SelectedSnoc(reg: seq<Descriptor>, wanted: seq<string>, w: nat)
    requires w < |wanted|
    ensures Selected(reg, wanted[..w + 1]) == Selected(reg, wanted[..w]) + Elements(Matches(reg, wanted[w]))
  {
    assert wanted[..w + 1][..w] == wanted[..w];
  }

  lemma NamesSnoc(ds: seq<Descriptor>, d: Descriptor)
    ensures Names(ds + [d]) == Names(ds) + [d.name]
  {
  }

  /** One pass of `get_matching_modules` over the registry for one token:
      the names it starts, in registry order, and the set grown by their
      modules. */
  method ScanRegistry(reg: seq<Descriptor>, token: string, matching: set<Descriptor>)
    returns (errorMatches: seq<string>, matchedCount: nat, grown: set<Descriptor>)
    ensures errorMatches == Names(Matches(reg, token))
    ensures matchedCount == |Matches(reg, token)|
    ensures grown == matching + Elements(Matches(reg, token))
  {
    errorMatches, matchedCount, grown := [], 0, matching;
    var k := 0;
    while k < |reg|
      invariant 0 <= k <= |reg|
      invariant errorMatches == Names(Matches(reg[..k], token))
      invariant matchedCount == |errorMatches|
      invariant grown == matching + Elements(Matches(reg[..k], token))
    {
      var d := reg[k];
      MatchesSnoc(reg, k, token);
      if token <= Lower(d.name) {
        NamesSnoc(Matches(reg[..k], token), d);
        ElementsAppend(Matches(reg[..k], token), [d]);
        errorMatches := errorMatches + [d.name];
        grown := grown + {d};
        matchedCount := matchedCount + 1;
      }
      k := k + 1;
    }
    assert reg[..|reg|] == reg;
  }

  /** `get_matching_modules`: for each token in turn, collect the names it
      starts (in registry order) and add their modules to the set; the
      first token that starts two or more names aborts with a message
      listing them. */
  method GetMatchingModules(reg: seq<Descriptor>, wanted: seq<string>) returns (r: Result<set<Descriptor>>)
    ensures r.Ok? <==> forall i :: 0 <= i < |wanted| ==> !Ambiguous(reg, wanted[i])
    ensures r.Ok? ==> r.value == Selected(reg, wanted)
    ensures r.Err? ==> exists i :: 0 <= i < |wanted| && FirstAmbiguous(reg, wanted, i)
                                   && r.msg == AmbiguityMessage(wanted[i], Names(Matches(reg, wanted[i])))
  {
    var matching: set<Descriptor> := {};
    for w := 0 to |wanted|
      invariant forall j :: 0 <= j < w ==> !Ambiguous(reg, wanted[j])
      invariant matching == Selected(reg, wanted[..w])
    {
      var token := wanted[w];
      var errorMatches, matchedCount, grown := ScanRegistry(reg, token, matching);
      if matchedCount > 1 {
        assert FirstAmbiguous(reg, wanted, w);
        r := Err(AmbiguityMessage(token, errorMatches));
        return;
      }
      SelectedSnoc(reg, wanted, w);
      matching := grown;
    }
    assert wanted[..|wanted|] == wanted;
    r := Ok(matching);
  }

  /** Token `i` is ambiguous and none before it is: the one the loop
      reports. */
  predicate FirstAmbiguous(reg: seq<Descriptor>, wanted: seq<string>, i: nat)
    requires i < |wanted|
  {
    Ambiguous(reg, wanted[i]) && forall j :: 0 <= j < i ==> !Ambiguous(reg, wanted[j])
  }

  // ------------------------------------------------ run list and check

  /** Every tag provided, or required, by some module of the run list. */
  function ProvidedTags(run: seq<Descriptor>): set<string>
  {
    set d, t | d in run && t in d.provided :: t
  }

  function RequiredTags(run: seq<Descriptor>): set<string>
  {
    set d, t | d in run && t in d.required :: t
  }

  /** The requirements no module of the run list provides. */
  function Missing(run: seq<Descriptor>): set<string>
  {
    RequiredTags(run) - ProvidedTags(run)
  }

  /** Nothing is missing exactly when every tag some module requires is
      provided by some module of the list, before or after it. */
  lemma MissingEmpty(run: seq<Descriptor>)
    ensures Missing(run) == {} <==>
            forall d, t :: d in run && t in d.required ==> exists e :: e in run && t in e.provided
  {
    if Missing(run) == {} {
      forall d, t | d in run && t in d.required ensures exists e :: e in run && t in e.provided {
        assert t in RequiredTags(run);
        assert t !in Missing(run);
      }
    }
  }

  /** The check only looks at which modules are in the list: neither their
      order nor repetitions change its verdict. */
  lemma MissingIgnoresOrder(a: seq<Descriptor>, b: seq<Descriptor>)
    requires forall d :: d in a <==> d in b
    ensures Missing(a) == Missing(b)
  {
  }

  /** The whole-set check accepts a module that requires a tag only a later
      module provides. */
  lemma LaterProviderAccepted(a: Descriptor, b: Descriptor, tag: string)
    requires a.required == [tag] && a.provided == [] && b.provided == [tag]
    ensures tag !in Missing([a, b])
  {
    assert tag in ProvidedTags([a, b]) by {
      assert b in [a, b] && tag in b.provided;
    }
  }

  lemma TagsSnoc(run: seq<Descriptor>, i: nat)
    requires i < |run|
    ensures ProvidedTags(run[..i + 1]) == ProvidedTags(run[..i]) + Elements(run[i].provided)
    ensures RequiredTags(run[..i + 1]) == RequiredTags(run[..i]) + Elements(run[i].required)
  {
    var p, q := run[..i], run[..i + 1];
    assert q == p + [run[i]];
    forall t | t in ProvidedTags(q) ensures t in ProvidedTags(p) + Elements(run[i].provided) {
      var e :| e in q && t in e.provided;
      assert e == run[i] || e in p;
    }
    forall t | t in RequiredTags(q) ensures t in RequiredTags(p) + Elements(run[i].required) {
      var e :| e in q && t in e.required;
      assert e == run[i] || e in p;
    }
    assert run[i] in q;
    forall t | t in ProvidedTags(p) ensures t in ProvidedTags(q) {
      var e :| e in p && t in e.provided;
      assert e in q;
    }
    forall t | t in RequiredTags(p) ensures t in RequiredTags(q) {
      var e :| e in p && t in e.required;
      assert e in q;
    }
  }

  /** The dependency check of `install`: concatenate the `provides` and the
      `requires` lists of the run list and subtract. */
  method CheckDependencies(run: seq<Descriptor>) returns (missing: set<string>)
    ensures missing == Missing(run)
  {
    var allProvides: seq<string> := [];
    var allRequires: seq<string> := [];
    assert run[..0] == [];
    for i := 0 to |run|
      invariant Elements(allProvides) == ProvidedTags(run[..i])
      invariant Elements(allRequires) == RequiredTags(run[..i])
    {
      TagsSnoc(run, i);
      ElementsAppend(allProvides, run[i].provided);
      ElementsAppend(allRequires, run[i].required);
      allProvides := allProvides + run[i].provided;
      allRequires := allRequires + run[i].required;
    }
    assert run[..|run|] == run;
    missing := Elements(allRequires) - Elements(allProvides);
  }

  // ------------------------------------------------------------ install

  /** What `install` decides before running any module. */
  datatype Plan =
    | Refused(msg: string)                                                          // ambiguous module name
    | Unmet(selected: seq<Descriptor>, run: seq<Descriptor>, missing: set<string>) // requirements not met
    | Proceed(selected: seq<Descriptor>, run: seq<Descriptor>)                     // the modules run in this order

  function LowerAll(modules: seq<string>): (r: seq<string>)
    ensures |r| == |modules| && forall i :: 0 <= i < |r| ==> r[i] == Lower(modules[i])
  {
    seq(|modules|, i requires 0 <= i < |modules| => Lower(modules[i]))
  }

  /** A module is requested when some lower-cased requested name starts its
      lower-cased class name. */
  predicate Requested(d: Descriptor, modules: seq<string>)
  {
    exists i :: 0 <= i < |modules| && Lower(modules[i]) <= Lower(d.name)
  }

  lemma SelectedRequested(reg: seq<Descriptor>, modules: seq<string>, d: Descriptor)
    ensures d in Selected(reg, LowerAll(modules)) <==> d in reg && Requested(d, modules)
  {
    var wanted := LowerAll(modules);
    SelectedMembers(reg, wanted, d);
    if exists t :: t in wanted && t <= Lower(d.name) {
      var t :| t in wanted && t <= Lower(d.name);
      var i :| 0 <= i < |wanted| && wanted[i] == t;
    }
    if Requested(d, modules) {
      var i :| 0 <= i < |modules| && Lower(modules[i]) <= Lower(d.name);
      assert wanted[i] in wanted;
    }
  }

  /** The part of `install` that precedes the execution loop: lower-case
      the requested names, resolve them, put `first` before and `last` after
      the selection unless `noRequired`, and stop if a required tag is not
      provided unless `noDependencies`. */
  method Install(reg: seq<Descriptor>, first: Descriptor, last: Descriptor, modules: seq<string>,
                 noRequired: bool, noDependencies: bool) returns (plan: Plan)
    ensures plan.Refused? <==> exists i :: 0 <= i < |modules| && Ambiguous(reg, Lower(modules[i]))
    ensures !plan.Refused? ==> Distinct(plan.selected)
    ensures !plan.Refused? ==> forall d :: d in plan.selected <==> d in reg && Requested(d, modules)
    ensures !plan.Refused? && noRequired ==> plan.run == plan.selected
    ensures !plan.Refused? && !noRequired ==> plan.run == [first] + plan.selected + [last]
    ensures plan.Unmet? <==> !plan.Refused? && !noDependencies && Missing(plan.run) != {}
    ensures plan.Unmet? ==> plan.missing == Missing(plan.run)
  {
    var wanted := LowerAll(modules);
    var matched := GetMatchingModules(reg, wanted);
    if matched.Err? {
      return Refused(matched.msg);
    }
    var selected := Enumerate(matched.value);
    forall d ensures d in selected <==> d in reg && Requested(d, modules) {
      SelectedRequested(reg, modules, d);
    }
    var run := if noRequired then selected else [first] + selected + [last];
    if !noDependencies {
      var missing := CheckDependencies(run);
      if missing != {} {
        return Unmet(selected, run, missing);
      }
    }
    plan := Proceed(selected, run);
  }

  // ------------------------------------------- the registry as shipped

  const AptProxyMod := Descriptor("AptProxy", ["aptproxy"], [])
  const FirstMod := Descriptor("First", ["first"], [])
  const SelfCertMod := Descriptor("SelfCert", ["cert"], [])
  const LampMod := Descriptor("Lamp", ["apache2", "php", "mysql", "lamp"], [])
  const PhpMod := Descriptor("Php", [], [])
  const PhpMyAdminMod := Descriptor("PhpMyAdmin", ["phpmyadmin"], ["apache2", "php", "mysql"])
  const VirtualHostMod := Descriptor("VirtualHost", ["virtualhost"], ["apache2", "cert"])
  const PhpInfoMod := Descriptor("PhpInfo", [], [])
  const LastMod := Descriptor("Last", [], [])

  /** The registry of src/boss/cli.py in run order. Tags are those declared
      by the module classes whose definitions are part of this model. The
      imported names that no modelled file defines (LetsEncryptCert,
      NewUserAsRoot, Personalize, Php, Composer, Xdebug, PhpInfo, Craft,
      FakeSMTP, Bashrc, Last) are listed with empty tag lists. SelfCert,
      which src/boss/mods/cert.py does not define under that name, carries
      the tags of its self-signed `Cert` class. */
  const BossRegistry: seq<Descriptor> := [
    AptProxyMod,
    FirstMod,
    Descriptor("NewUserAsRoot", [], []),
    Descriptor("Personalize", [], []),
    Descriptor("LetsEncryptCert", [], []),
    SelfCertMod,
    LampMod,
    Descriptor("Apache2", ["apache2"], []),
    Descriptor("Nginx", ["nginx"], []),
    PhpMod,
    Descriptor("Mysql", ["mysql"], []),
    Descriptor("Composer", [], []),
    Descriptor("Xdebug", [], []),
    PhpMyAdminMod,
    Descriptor("Adminer", ["adminer"], ["apache2", "php", "mysql"]),
    VirtualHostMod,
    PhpInfoMod,
    Descriptor("Craft", [], []),
    Descriptor("FakeSMTP", [], []),
    Descriptor("Netdata", ["netdata"], ["apache2"]),
    Descriptor("Webmin", ["webmin"], ["apache2", "php", "cert"]),
    Descriptor("Bashrc", [], []),
    LastMod
  ]

  /** `php` is the whole name of Php and still ambiguous, because it also
      starts PhpMyAdmin. */
  lemma PhpIsAmbiguous()
    ensures Ambiguous(BossRegistry, "php")
  {
    assert BossRegistry[9] == PhpMod && BossRegistry[13] == PhpMyAdminMod;
    assert Lower("Php") == "php";
    assert "php" <= Lower("PhpMyAdmin");
    TwoPrefixedNamesAmbiguous(BossRegistry, "php", PhpMod, PhpMyAdminMod);
  }

  /** Virtual hosts need Apache and a certificate: alone between the
      bracketing modules they are refused for lack of both. */
  lemma VirtualHostAloneRefused()
    ensures Missing([FirstMod, VirtualHostMod, LastMod]) == {"apache2", "cert"}
  {
    var run := [FirstMod, VirtualHostMod, LastMod];
    assert VirtualHostMod in run;
    forall t | t in RequiredTags(run) ensures t == "apache2" || t == "cert" {
      var d :| d in run && t in d.required;
    }
    forall t | t in ProvidedTags(run) ensures t == "first" || t == "virtualhost" {
      var d :| d in run && t in d.provided;
    }
    assert "apache2" in VirtualHostMod.required && "cert" in VirtualHostMod.required;
  }

  /** With Lamp (Apache) and SelfCert (a certificate) in the run list, the
      same virtual host passes the check. */
  lemma VirtualHostWithLampAndCertAccepted()
    ensures Missing([FirstMod, SelfCertMod, LampMod, VirtualHostMod, LastMod]) == {}
  {
    var run := [FirstMod, SelfCertMod, LampMod, VirtualHostMod, LastMod];
    MissingEmpty(run);
    forall d, t | d in run && t in d.required ensures exists e :: e in run && t in e.provided {
      assert d == VirtualHostMod;
      assert t == "apache2" || t == "cert";
      if t == "apache2" {
        assert LampMod in run && t in LampMod.provided;
      } else {
        assert SelfCertMod in run && t in SelfCertMod.provided;
      }
    }
  }

  /** With the intended `deps`, an option is required whenever the run
      selects a module it belongs to: the requested names are positional
      arguments after the server name, and the module is selected through
      one of them. */
  lemma SelectedDependencyRequiresOption(reg: seq<Descriptor>, argv: seq<string>, modules: seq<string>,
                                         dependencies: seq<string>, d: Descriptor)
    requires forall i :: 0 <= i < |modules| ==> modules[i] in Params.Drop(Params.Positionals(argv), 3)
    requires d in Selected(reg, LowerAll(modules)) && Lower(d.name) in dependencies
    ensures Params.DepsIntended(argv, dependencies)
  {
    SelectedRequested(reg, modules, d);
    var i :| 0 <= i < |modules| && Lower(modules[i]) <= Lower(d.name);
    assert Lower(d.name) in dependencies && modules[i] in Params.Drop(Params.Positionals(argv), 3);
  }
}
