// The checks of the older entry point (`install_uninstall` in
// src/__main__.py) over an ordered list of module descriptors: every
// requested name must be a lower-cased module name; before anything runs,
// each module's requirements must be covered by what it and the modules
// before it provide; and inside the install loop each module is checked
// again, against what the modules before it provided.

module LegacyInstall {
  import opened Common
  import opened Registry
  import LegacyBash

  // ------------------------------------------------------ invalid names

  /** `mapping_keys`: the lower-cased module names, in registry order. */
  function Keys(mods: seq<Descriptor>): (r: seq<string>)
    ensures |r| == |mods|
    ensures forall i :: 0 <= i < |mods| ==> r[i] == Lower(mods[i].name)
  {
    seq(|mods|, i requires 0 <= i < |mods| => Lower(mods[i].name))
  }

  /** `invalid_modules`: the requested names, in request order, that are
      not exactly one of the keys. */
  function InvalidModules(modules: seq<string>, keys: seq<string>): (r: seq<string>)
    ensures |r| <= |modules|
    ensures forall x :: x in r <==> x in modules && x !in keys
  {
    if modules == [] then []
    else
      var last := modules[|modules| - 1];
      InvalidModules(modules[..|modules| - 1], keys) + (if last in keys then [] else [last])
  }

  function InvalidMessage(invalid: seq<string>, keys: seq<string>): string
  {
    "module(s) \"" + Join(", ", invalid) + "\" does not exist.\nValid modules are:\n" + Join(", ", keys)
  }

  /** The invalid-module check: an error naming every unknown name and
      listing the valid ones, or nothing when every name is a key. */
  function ModuleError(mods: seq<Descriptor>, modules: seq<string>): (r: Option<string>)
    ensures r.None? <==> forall m :: m in modules ==> m in Keys(mods)
    ensures r.Some? ==> r.value == InvalidMessage(InvalidModules(modules, Keys(mods)), Keys(mods))
  {
    var invalid := InvalidModules(modules, Keys(mods));
    if invalid == [] then None
    else
      assert invalid[0] in invalid;
      Some(InvalidMessage(invalid, Keys(mods)))
  }

  /** Names are compared exactly: a prefix of a module name, or a name in
      its original case, is unknown here. */
  lemma PrefixAndCaseAreInvalid()
    ensures ModuleError([FirstMod, LampMod], ["lam"]).Some?
    ensures ModuleError([FirstMod, LampMod], ["Lamp"]).Some?
    ensures ModuleError([FirstMod, LampMod], ["lamp"]).None?
  {
    var keys := Keys([FirstMod, LampMod]);
    assert keys[0] == Lower("First") && keys[1] == Lower("Lamp");
    assert keys[0][0] == 'f' && keys[1][0] == 'l';
    assert keys[1] == "lamp";
    assert |keys| == 2;
    assert "Lamp"[0] == 'L';
  }

  // ------------------------------------------------------- the pre-check

  /** The module at `i` needs nothing that it and the modules before it do
      not provide. */
  predicate CoveredAt(apps: seq<Descriptor>, i: nat)
    requires i < |apps|
  {
    Elements(apps[i].required) <= ProvidedTags(apps[..i + 1])
  }

  predicate CumulativeOk(apps: seq<Descriptor>)
  {
    forall i :: 0 <= i < |apps| ==> CoveredAt(apps, i)
  }

  function UnmetMessage(d: Descriptor): string
  {
    "Requirements not met for " + d.name + ": " + Join(", ", d.required) + "."
  }

  /** The dependency check before the install loop: `install_reqs` grows
      by each module's `provides`, and the first module whose `requires`
      are not all in it stops the run with a message naming every one of
      its requirements. */
  method PreCheck(apps: seq<Descriptor>) returns (r: Option<string>)
    ensures r.None? <==> CumulativeOk(apps)
    ensures r.Some? ==>
              exists i :: 0 <= i < |apps| && !CoveredAt(apps, i)
                          && (forall j :: 0 <= j < i ==> CoveredAt(apps, j))
                          && r.value == UnmetMessage(apps[i])
  {
    var installReqs: seq<string> := [];
    for i := 0 to |apps|
      invariant installReqs == InstalledBefore(apps, i)
      invariant forall j :: 0 <= j < i ==> CoveredAt(apps, j)
    {
      installReqs := installReqs + apps[i].provided;
      var provided := Elements(installReqs);
      var required := Elements(apps[i].required);
      CoveredIff(apps, i, provided);
      if |required - provided| != 0 {
        return Some(UnmetMessage(apps[i]));
      }
    }
    return None;
  }

  /** The source's test, a non-empty difference of sets, is the negation
      of `CoveredAt`. */
  lemma CoveredIff(apps: seq<Descriptor>, i: nat, provided: set<string>)
    requires i < |apps| && provided == Elements(InstalledBefore(apps, i + 1))
    ensures CoveredAt(apps, i) <==> |Elements(apps[i].required) - provided| == 0
  {
    InstalledBeforeTags(apps, i + 1);
    var required := Elements(apps[i].required);
    if |required - provided| != 0 {
      var t :| t in required - provided;
    } else {
      assert required - provided == {};
      forall t | t in required ensures t in provided {
        assert t !in required - provided;
      }
    }
  }

  // ------------------------------------------------------ the loop check

  /** `installed` when the loop reaches module `i`: the `provides` of the
      modules before it, concatenated. */
  function InstalledBefore(apps: seq<Descriptor>, i: nat): seq<string>
    requires i <= |apps|
  {
    if i == 0 then [] else InstalledBefore(apps, i - 1) + apps[i - 1].provided
  }

  /** The loop's check passes for module `i`: the lower-cased form of each
      requirement was provided by an earlier module. */
  predicate InLoopOk(apps: seq<Descriptor>, i: nat)
    requires i < |apps|
  {
    forall x :: x in apps[i].required ==> Lower(x) in InstalledBefore(apps, i)
  }

  /** The install loop's checks: before each module, `check_requirments`
      against `installed`; after it, its `provides` join `installed`. The
      first failure ends the run, so `ran` modules have run. */
  method InstallLoop(apps: seq<Descriptor>) returns (ran: nat, err: Option<string>)
    ensures ran <= |apps|
    ensures err.None? <==> ran == |apps|
    ensures forall j :: 0 <= j < ran ==> InLoopOk(apps, j)
    ensures err.Some? ==>
              !InLoopOk(apps, ran)
              && err.value == LegacyBash.RequiresMessage(
                   apps[ran].name,
                   LegacyBash.MissingRequirements(apps[ran].required, InstalledBefore(apps, ran)))
  {
    var installed: seq<string> := [];
    for i := 0 to |apps|
      invariant installed == InstalledBefore(apps, i)
      invariant forall j :: 0 <= j < i ==> InLoopOk(apps, j)
    {
      var r := LegacyBash.CheckRequirements(apps[i].name, apps[i].required, installed);
      if r.Some? {
        return i, r;
      }
      installed := installed + apps[i].provided;
    }
    return |apps|, None;
  }

  /** How `install_uninstall` ends: refused before any module runs, or
      after `count` modules ran, with the error that stopped the loop. */
  datatype Outcome = Stopped(msg: string) | Ran(count: nat, err: Option<string>)

  /** `install_uninstall` over the run list `apps`: the invalid-name check
      first, then, for an install with dependency checking, the pre-check,
      and then the loop, which checks requirements only for such an
      install; an uninstall runs every module. */
  method InstallUninstall(mods: seq<Descriptor>, modules: seq<string>, apps: seq<Descriptor>,
                          install: bool, noDependencies: bool)
    returns (o: Outcome)
    ensures var checked := install && !noDependencies;
            o.Stopped? <==> ModuleError(mods, modules).Some? || (checked && !CumulativeOk(apps))
    ensures ModuleError(mods, modules).Some? ==> o == Stopped(ModuleError(mods, modules).value)
    ensures o.Ran? ==> o.count <= |apps| && (o.err.None? <==> o.count == |apps|)
    ensures o.Ran? && install && !noDependencies ==> forall j :: 0 <= j < o.count ==> InLoopOk(apps, j)
    ensures o.Ran? && !(install && !noDependencies) ==> o == Ran(|apps|, None)
  {
    var invalid := ModuleError(mods, modules);
    if invalid.Some? {
      return Stopped(invalid.value);
    }
    if install && !noDependencies {
      var unmet := PreCheck(apps);
      if unmet.Some? {
        return Stopped(unmet.value);
      }
      var ran, err := InstallLoop(apps);
      return Ran(ran, err);
    }
    return Ran(|apps|, None);
  }

  // ----------------------------------------------------------- relations

  lemma {:induction false} InstalledBeforeTags(apps: seq<Descriptor>, i: nat)
    requires i <= |apps|
    ensures Elements(InstalledBefore(apps, i)) == ProvidedTags(apps[..i])
  {
    if i == 0 {
      assert apps[..0] == [];
    } else {
      InstalledBeforeTags(apps, i - 1);
      TagsSnoc(apps, i - 1);
      ElementsAppend(InstalledBefore(apps, i - 1), apps[i - 1].provided);
    }
  }

  /** Passing the pre-check implies passing the whole-set check of the
      current entry point. */
  lemma CumulativeImpliesWhole(apps: seq<Descriptor>)
    requires CumulativeOk(apps)
    ensures Missing(apps) == {}
  {
    forall t | t in RequiredTags(apps) ensures t in ProvidedTags(apps) {
      var d :| d in apps && t in d.required;
      var i :| 0 <= i < |apps| && apps[i] == d;
      assert CoveredAt(apps, i) && t in Elements(apps[i].required);
      var e :| e in apps[..i + 1] && t in e.provided;
      assert e in apps;
    }
  }

  /** The converse fails: a module whose provider comes later passes the
      whole-set check and fails the pre-check. */
  lemma WholeNotCumulative()
    ensures Missing([VirtualHostMod, LampMod, SelfCertMod]) == {}
    ensures !CumulativeOk([VirtualHostMod, LampMod, SelfCertMod])
  {
    var apps := [VirtualHostMod, LampMod, SelfCertMod];
    forall d, t | d in apps && t in d.required ensures exists e :: e in apps && t in e.provided {
      assert t == "apache2" || t == "cert";
      assert "apache2" in LampMod.provided && "cert" in SelfCertMod.provided;
    }
    MissingEmpty(apps);
    assert apps[..1] == [VirtualHostMod];
    assert "apache2" in Elements(apps[0].required);
    forall d, t | d in apps[..1] && t in d.provided ensures t != "apache2" {
      assert d == VirtualHostMod && t == "virtualhost";
    }
    assert "apache2" !in ProvidedTags(apps[..1]);
    assert !CoveredAt(apps, 0);
  }

  /** When every requirement is written in lower case, passing the loop's
      checks implies passing the pre-check. */
  lemma InLoopImpliesCumulative(apps: seq<Descriptor>)
    requires forall d, x :: d in apps && x in d.required ==> Lower(x) == x
    requires forall i :: 0 <= i < |apps| ==> InLoopOk(apps, i)
    ensures CumulativeOk(apps)
  {
    forall i | 0 <= i < |apps| ensures CoveredAt(apps, i) {
      assert InLoopOk(apps, i);
      InstalledBeforeTags(apps, i);
      TagsSnoc(apps, i);
      forall x | x in Elements(apps[i].required) ensures x in ProvidedTags(apps[..i + 1]) {
        assert apps[i] in apps && x in apps[i].required;
        assert Lower(x) == x;
        assert x in Elements(InstalledBefore(apps, i));
      }
    }
  }

  /** The loop's check is stricter: a module that provides its own
      requirement passes the pre-check and fails the loop's check. */
  lemma SelfProviderRefusedInLoop()
    ensures CumulativeOk([Descriptor("Self", ["x"], ["x"])])
    ensures !InLoopOk([Descriptor("Self", ["x"], ["x"])], 0)
  {
    var apps := [Descriptor("Self", ["x"], ["x"])];
    assert apps[..1] == apps;
    assert apps[0] in apps && "x" in apps[0].provided;
    assert "x" in ProvidedTags(apps);
    assert Lower("x") == "x";
    assert InstalledBefore(apps, 0) == [];
  }
}
