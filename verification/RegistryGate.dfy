// What the deny-list lets through below `HKLM`: declared service keys under
// `SYSTEM`, and the same keys of `SOFTWARE` in both WOW64 views.
module RegistryGate {
  import opened Prelude
  import opened Text
  import opened PathLaws
  import opened RegKeys
  import opened DenyList

  lemma NotProtectedHive(first: string)
    requires EqFold(first, "SYSTEM") || EqFold(first, "SOFTWARE")
    ensures !("BCD" <= first) && !AnyFold(ProtectedMachineHives(), first)
  {
    hide LowerAll;
    if EqFold(first, "SYSTEM") {
      FoldIndex(first, "SYSTEM", 0);
      FoldIndex(first, "SYSTEM", 1);
    } else {
      FoldIndex(first, "SOFTWARE", 0);
      FoldIndex(first, "SOFTWARE", 1);
    }
    forall i | 0 <= i < |ProtectedMachineHives()| && EqFold(ProtectedMachineHives()[i], first) ensures false {
      FoldIndex(ProtectedMachineHives()[i], first, 0);
      FoldIndex(ProtectedMachineHives()[i], first, 1);
    }
  }

  /** Under `HKLM\SYSTEM` a key is allowed exactly when it is a service the
      carve-outs name, one level below a control set's `Services`. */
  lemma SystemKeysAreServices(components: seq<string>, exceptions: Exceptions)
    requires components != [] && EqFold(components[0], "SYSTEM")
    ensures EvaluateMachineKey(components, exceptions) == Allowed <==>
      && |components| == 4 && IsControlSet(components[1]) && EqFold(components[2], "SERVICES")
      && UpperAll(components[3]) in exceptions.serviceNames
  {
    NotProtectedHive(components[0]);
  }

  /** And then its name is one the entry declared, and not one of Windows'. */
  lemma AllowedServiceIsDeclared(inbox: Inbox, drivers: seq<string>, services: seq<string>, components: seq<string>)
    requires components != [] && EqFold(components[0], "SYSTEM")
    requires EvaluateMachineKey(components, NewExceptions(inbox, drivers, services)) == Allowed
    ensures !IsInboxService(inbox, UpperAll(components[3]))
    ensures exists s :: s in services && ServiceName(s) == UpperAll(components[3])
  {
    SystemKeysAreServices(components, NewExceptions(inbox, drivers, services));
    ExceptionsAreDeclared(inbox, drivers, services);
  }

  // ----- the two views of SOFTWARE -----

  const WOW := "WOW6432NODE"

  ghost predicate SoftwarePattern(p: seq<string>) {
    && |p| >= 2 && p[0] == "SOFTWARE"
    && (|p| > 2 ==> p[1] == "CLASSES" || p[1] == "MICROSOFT" || p[1] == "POLICIES")
  }

  lemma TablesAreOfSoftware()
    ensures forall i :: 0 <= i < |MachineContainerKeys()| ==> SoftwarePattern(MachineContainerKeys()[i])
    ensures forall i :: 0 <= i < |MachineProtectedKeys()| ==>
              SoftwarePattern(MachineProtectedKeys()[i]) && |MachineProtectedKeys()[i]| > 2
  {
  }

  lemma NotWow(name: string)
    requires |name| < 11
    ensures !EqFold(WOW, name)
  {
    assert |LowerAll(WOW)| == 11 && |LowerAll(name)| == |name|;
  }

  ghost predicate SoftwarePatterns(patterns: seq<seq<string>>) {
    forall i :: 0 <= i < |patterns| ==> SoftwarePattern(patterns[i])
  }

  lemma WowMatchesNone(components: seq<string>, patterns: seq<seq<string>>)
    requires |components| > 2 && EqFold(components[1], WOW) && SoftwarePatterns(patterns)
    ensures !EqualsAny(components, patterns)
    ensures (forall i :: 0 <= i < |patterns| ==> |patterns[i]| > 2) ==> !StartsWithAny(components, patterns)
  {
    hide LowerAll;
    forall p | SoftwarePattern(p) && |p| > 2 ensures !StartsWithPattern(components, p) {
      NotWow(p[1]);
    }
  }

  /** No table reaches below `SOFTWARE\WOW6432Node` by name. */
  lemma WowIsInNoTable(components: seq<string>)
    requires |components| > 2 && EqFold(components[1], WOW)
    ensures !InProtectedKeys(components) && !IsContainerKey(components)
  {
    TablesAreOfSoftware();
    WowMatchesNone(components, MachineProtectedKeys());
    WowMatchesNone(components, MachineContainerKeys());
  }

  lemma ProtectedNeedsThree(components: seq<string>)
    requires |components| <= 2
    ensures !InProtectedKeys(components)
  {
    TablesAreOfSoftware();
  }

  /** Below `HKLM\SOFTWARE` only the tables refuse, for a key or its native one. */
  lemma SoftwareVerdict(components: seq<string>, exceptions: Exceptions)
    requires |components| >= 2 && components[0] == "SOFTWARE"
    ensures EvaluateMachineKey(components, exceptions) == Allowed <==>
      !InProtectedKeys(components) && !IsContainerKey(components) && !IsMirrored(components)
  {
    NotProtectedHive("SOFTWARE");
    assert |LowerAll("SOFTWARE")| == 8 && |LowerAll("SYSTEM")| == 6;
  }

  lemma MirrorOf(tail: seq<string>)
    requires tail != []
    ensures Native(["SOFTWARE", WOW] + tail) == Some(["SOFTWARE"] + tail)
    ensures IsMirrored(["SOFTWARE", WOW] + tail)
       <==> InProtectedKeys(["SOFTWARE"] + tail) || IsContainerKey(["SOFTWARE"] + tail)
  {
    var mirror := ["SOFTWARE", WOW] + tail;
    assert ["SOFTWARE"] + mirror[2..] == ["SOFTWARE"] + tail;
  }

  lemma MirroredIsBelowWow(tail: seq<string>)
    requires tail != [] && IsMirrored(["SOFTWARE"] + tail)
    ensures EqFold(tail[0], WOW) && |tail| > 1
    ensures !InProtectedKeys(["SOFTWARE"] + tail) && !IsContainerKey(["SOFTWARE"] + tail)
  {
    var key := ["SOFTWARE"] + tail;
    if |tail| == 1 {
      assert ["SOFTWARE"] + key[2..] == ["SOFTWARE"];
      ProtectedNeedsThree(["SOFTWARE"]);
    } else {
      WowIsInNoTable(key);
    }
  }

  /** A key of `HKLM\SOFTWARE` is refused exactly when its mirror under
      `WOW6432Node` is — except that only one `WOW6432Node` is unfolded, so the
      law fails for a key that is itself the mirror of a refused one. */
  lemma ViewsAreJudgedAlike(tail: seq<string>, exceptions: Exceptions)
    requires tail != []
    ensures var key, mirror := ["SOFTWARE"] + tail, ["SOFTWARE", WOW] + tail;
            (EvaluateMachineKey(key, exceptions) == Allowed <==> EvaluateMachineKey(mirror, exceptions) == Allowed)
            <==> !IsMirrored(key)
    ensures IsMirrored(["SOFTWARE"] + tail) ==> EqFold(tail[0], WOW) && |tail| > 1
  {
    var key, mirror := ["SOFTWARE"] + tail, ["SOFTWARE", WOW] + tail;
    SoftwareVerdict(key, exceptions);
    SoftwareVerdict(mirror, exceptions);
    WowIsInNoTable(mirror);
    MirrorOf(tail);
    if IsMirrored(key) {
      MirroredIsBelowWow(tail);
    }
  }

  lemma MicrosoftIsContainer()
    ensures IsContainerKey(["SOFTWARE", "MICROSOFT"])
  {
    var microsoft := ["SOFTWARE", "MICROSOFT"];
    assert MachineContainerKeys()[6] == microsoft;
    assert EqualsPattern(microsoft, MachineContainerKeys()[6]);
  }

  /** Where it fails: `SOFTWARE\WOW6432Node\Microsoft` is refused, and its own
      mirror is not. */
  lemma OnlyOneViewIsUnfolded()
    ensures EvaluateMachineKey(["SOFTWARE"] + [WOW, "MICROSOFT"], NO_EXCEPTIONS) != Allowed
    ensures EvaluateMachineKey(["SOFTWARE", WOW] + [WOW, "MICROSOFT"], NO_EXCEPTIONS) == Allowed
  {
    var key := ["SOFTWARE"] + [WOW, "MICROSOFT"];
    MicrosoftIsContainer();
    assert ["SOFTWARE"] + key[2..] == ["SOFTWARE", "MICROSOFT"];
    assert IsMirrored(key);
    SoftwareVerdict(key, NO_EXCEPTIONS);
    ViewsAreJudgedAlike([WOW, "MICROSOFT"], NO_EXCEPTIONS);
  }

  // ----- from the text of a key -----

  const SOFTWARE_KEY: string := "HKLM\\SOFTWARE"
  const WOW_KEY: string := "HKLM\\SOFTWARE\\WOW6432Node"

  /** What a text names below a key. */
  function SubkeysOf(tail: string): seq<string> {
    Subkeys(Split(Unified(tail), '\\'))
  }

  lemma PlainSubkeys(a: string, upper: string)
    requires Trim(a) == a && UpperAll(a) == upper && upper != ""
    ensures Subkeys([a]) == [upper]
  {
    assert [a][1..] == [];
  }

  lemma HeadsSpelled()
    ensures SOFTWARE_KEY == "HKLM" + ['\\'] + "SOFTWARE" && WOW_KEY == SOFTWARE_KEY + ['\\'] + "WOW6432Node"
    ensures '\\' !in "HKLM" && '\\' !in "SOFTWARE" && '\\' !in "WOW6432Node"
  {
  }

  lemma HeadsArePlain()
    ensures PlainKey(SOFTWARE_KEY) && PlainKey(WOW_KEY)
  {
  }

  lemma HeadsSplit()
    ensures Split(SOFTWARE_KEY, '\\') == ["HKLM", "SOFTWARE"]
    ensures Split(WOW_KEY, '\\') == ["HKLM", "SOFTWARE", "WOW6432Node"]
  {
    HeadsSpelled();
    hide Split;
    SplitPiece("HKLM", '\\');
    SplitPiece("SOFTWARE", '\\');
    SplitPiece("WOW6432Node", '\\');
    SplitAt("HKLM", "SOFTWARE", '\\');
    SplitAt(SOFTWARE_KEY, "WOW6432Node", '\\');
  }

  lemma HeadsNamed()
    ensures Subkeys(["SOFTWARE"]) == ["SOFTWARE"] && Subkeys(["SOFTWARE", "WOW6432Node"]) == ["SOFTWARE", WOW]
    ensures HiveNamed(UpperAll("HKLM")) == Some(Hklm)
  {
    hide UpperAll; hide Trim;
    Uppers("SOFTWARE", "SOFTWARE");
    Uppers("WOW6432Node", WOW);
    Uppers("HKLM", "HKLM");
    NothingToTrim("SOFTWARE");
    NothingToTrim("WOW6432Node");
    PlainSubkeys("SOFTWARE", "SOFTWARE");
    PlainSubkeys("WOW6432Node", WOW);
    SubkeysConcat(["SOFTWARE"], ["WOW6432Node"]);
    assert ["SOFTWARE"] + ["WOW6432Node"] == ["SOFTWARE", "WOW6432Node"];
  }

  lemma ViewsAreRead(tail: string)
    ensures CanonicalKey(SOFTWARE_KEY + "\\" + tail).Ok? && CanonicalKey(WOW_KEY + "\\" + tail).Ok?
    ensures var key := CanonicalKey(SOFTWARE_KEY + "\\" + tail).value;
            key.hive == Hklm && key.components == ["SOFTWARE"] + SubkeysOf(tail)
    ensures var key := CanonicalKey(WOW_KEY + "\\" + tail).value;
            key.hive == Hklm && key.components == ["SOFTWARE", WOW] + SubkeysOf(tail)
  {
    HeadsArePlain();
    HeadsSplit();
    HeadsNamed();
    hide Split; hide Subkeys; hide UpperAll; hide HiveNamed; hide PlainKey; hide CanonicalKey;
    assert ["HKLM", "SOFTWARE"][1..] == ["SOFTWARE"];
    assert ["HKLM", "SOFTWARE", "WOW6432Node"][1..] == ["SOFTWARE", "WOW6432Node"];
    KeyBelow(SOFTWARE_KEY, tail, Hklm);
    KeyBelow(WOW_KEY, tail, Hklm);
  }

  lemma RootsAreRefused(exceptions: Exceptions)
    ensures EvaluateMachineKey(["SOFTWARE"], exceptions) != Allowed
    ensures EvaluateMachineKey(["SOFTWARE", WOW], exceptions) != Allowed
    ensures !IsMirrored(["SOFTWARE"])
  {
    hide AnyFold; hide InProtectedKeys; hide IsControlSet; hide IsMirrored; hide IsContainerKey;
    WowIsContainer();
    OneIsNoMirror();
    NotServices();
    hide EqFold;
  }

  lemma NotServices()
    ensures !EqFold("SOFTWARE", "SYSTEM")
  {
    assert |LowerAll("SOFTWARE")| != |LowerAll("SYSTEM")|;
  }

  lemma WowIsContainer()
    ensures IsContainerKey(["SOFTWARE", WOW])
  {
    FoldsItself("SOFTWARE");
    FoldsItself(WOW);
    hide EqFold;
    assert MachineContainerKeys()[21] == ["SOFTWARE", WOW];
    hide MachineContainerKeys;
    assert EqualsPattern(["SOFTWARE", WOW], MachineContainerKeys()[21]);
  }

  lemma OneIsNoMirror()
    ensures !IsMirrored(["SOFTWARE"])
  {
    hide EqFold; hide InProtectedKeys; hide IsContainerKey;
  }

  /** Whatever is written after them, and however, `HKLM\SOFTWARE\` and
      `HKLM\SOFTWARE\WOW6432Node\` are allowed together or refused together,
      exactly when what it names is not itself the mirror of a refused key. */
  lemma ViewTextsAreJudgedAlike(tail: string, exceptions: Exceptions)
    ensures (KeySafe(SOFTWARE_KEY + "\\" + tail, exceptions) <==> KeySafe(WOW_KEY + "\\" + tail, exceptions))
       <==> !IsMirrored(["SOFTWARE"] + SubkeysOf(tail))
  {
    hide CanonicalKey; hide EvaluateMachineKey; hide IsMirrored; hide SubkeysOf;
    ViewsAreRead(tail);
    if SubkeysOf(tail) == [] {
      RootsAreRefused(exceptions);
      assert ["SOFTWARE"] + [] == ["SOFTWARE"] && ["SOFTWARE", WOW] + [] == ["SOFTWARE", WOW];
    } else {
      ViewsAreJudgedAlike(SubkeysOf(tail), exceptions);
    }
  }

  /** A key text of `HKLM\SYSTEM` is allowed exactly when it names a service the
      carve-outs do, right below a control set's `Services`. */
  lemma SystemTextsAreServices(input: string, exceptions: Exceptions)
    requires CanonicalKey(input).Ok? && CanonicalKey(input).value.hive == Hklm
    requires CanonicalKey(input).value.components != [] && CanonicalKey(input).value.components[0] == "SYSTEM"
    ensures KeySafe(input, exceptions) <==>
              exists controlSet, service :: IsControlSet(controlSet) && service in exceptions.serviceNames
                && CanonicalKey(input).value.components == ["SYSTEM", controlSet, "SERVICES", service]
  {
    hide CanonicalKey; hide EvaluateMachineKey; hide IsControlSet; hide CleanKey;
    KeyParts(input);
    SystemComponents(CanonicalKey(input).value.components, exceptions);
  }

  lemma SystemComponents(c: seq<string>, exceptions: Exceptions)
    requires c != [] && c[0] == "SYSTEM" && forall name :: name in c ==> CleanKey(name)
    ensures EvaluateMachineKey(c, exceptions) == Allowed <==>
              exists controlSet, service :: IsControlSet(controlSet) && service in exceptions.serviceNames
                && c == ["SYSTEM", controlSet, "SERVICES", service]
  {
    FoldsItself("SYSTEM");
    FoldsItself("SERVICES");
    hide EvaluateMachineKey; hide IsControlSet; hide EqFold; hide CleanKey;
    SystemKeysAreServices(c, exceptions);
    if |c| == 4 {
      CleanIsUpper(c[2]);
      CleanIsUpper(c[3]);
      UpperServices(c[2]);
      assert c == [c[0], c[1], c[2], c[3]];
    }
  }

  lemma CleanIsUpper(name: string)
    requires CleanKey(name)
    ensures UpperAll(name) == name
  {
  }

  lemma UpperServices(name: string)
    requires UpperAll(name) == name
    ensures EqFold(name, "SERVICES") <==> name == "SERVICES"
  {
    hide UpperAll; hide EqFold;
    EqFoldIsUpper(name, "SERVICES");
    Uppers("SERVICES", "SERVICES");
  }
}
