// What a catalog entry's own words mean to the gate: the drivers and services it
// may name, the values its variables take, and the problems it is told of.
// core/src/safety/denylist.rs, core/src/catalog/expand.rs, core/src/catalog/validate.rs.
module Declarations {
  import opened Prelude
  import opened Text
  import opened Paths
  import opened PathLaws
  import opened RegKeys
  import opened DenyList
  import opened Expand
  import opened TemplatePercents
  import opened Catalog
  import opened CatalogGate

  // ----- drivers and services -----

  predicate IsFileName(name: string) {
    '\\' !in name && '/' !in name
  }

  /** A driver declared with a folder is the file in it, by either separator. */
  lemma DriverIsItsFile(folder: string, separator: char, name: string)
    requires (separator == '\\' || separator == '/') && IsFileName(name)
    ensures BaseName(folder + ([separator] + name)) == name
    ensures BaseName(name) == name
  {
    var raw := folder + ([separator] + name);
    UnifiedAt(raw);
    UnifiedAt(name);
    var u := Unified(raw);
    assert u[|folder|] == '\\';
    forall j | |folder| < j < |u| ensures u[j] != '\\' {
      assert raw[j] == name[j - |folder| - 1] && name[j - |folder| - 1] in name;
    }
    assert LastIndexOf(u, '\\') == |folder|;
    assert raw[|folder| + 1..] == name;
    forall j | 0 <= j < |name| ensures Unified(name)[j] != '\\' {
      assert name[j] in name;
    }
    assert name[0..] == name;
  }

  /** The files an entry unlocks are those of the drivers it declares, and the
      services those it declares, in upper case, unless Windows ships one of that
      name in any case. */
  lemma UnlockedExactly(inbox: Inbox, drivers: seq<string>, services: seq<string>, name: string)
    ensures AllowsDriverFile(NewExceptions(inbox, drivers, services), name) <==>
              && name != "" && (forall shipped :: shipped in inbox.drivers ==> !EqFold(shipped, Trim(name)))
              && exists d :: d in drivers && EqFold(name, Trim(BaseName(d)))
    ensures AllowsService(NewExceptions(inbox, drivers, services), name) <==>
              && name != "" && (forall shipped :: shipped in inbox.services ==> !EqFold(shipped, Trim(name)))
              && exists s :: s in services && EqFold(name, Trim(s))
  {
    hide EqFold; hide UpperAll; hide Trim; hide BaseName;
    var exceptions := NewExceptions(inbox, drivers, services);
    forall d | d in drivers ensures BaseFileName(d) == UpperAll(name) <==> EqFold(name, Trim(BaseName(d))) {
      EqFoldIsUpper(name, Trim(BaseName(d)));
    }
    forall s | s in services ensures ServiceName(s) == UpperAll(name) <==> EqFold(name, Trim(s)) {
      EqFoldIsUpper(name, Trim(s));
    }
    ShippedInAnyCase(inbox, name);
    assert UpperAll(name) == "" <==> name == "" by { assert |UpperAll(name)| == |name|; }
  }

  lemma ShippedInAnyCase(inbox: Inbox, name: string)
    ensures IsInboxDriver(inbox, UpperAll(name)) <==> exists shipped :: shipped in inbox.drivers && EqFold(shipped, Trim(name))
    ensures IsInboxService(inbox, UpperAll(name)) <==> exists shipped :: shipped in inbox.services && EqFold(shipped, Trim(name))
  {
    hide EqFold; hide UpperAll; hide Trim;
    UpperTrimmed(name);
    forall shipped: string ensures EqFold(shipped, Trim(UpperAll(name))) <==> EqFold(shipped, Trim(name)) {
      EqFoldIsUpper(shipped, UpperAll(Trim(name)));
      EqFoldIsUpper(shipped, Trim(name));
      CaseOfCase(Trim(name));
    }
  }

  lemma UpperTrimmed(s: string)
    ensures Trim(UpperAll(s)) == UpperAll(Trim(s))
  {
    UpperTrimStart(s);
    UpperTrimEnd(TrimStart(s));
  }

  lemma {:induction false} UpperTrimStart(s: string)
    ensures TrimStart(UpperAll(s)) == UpperAll(TrimStart(s))
  {
    if s != "" {
      UpperAllAt(s);
      UpperPrefix(s, 1);
      if IsWhitespace(s[0]) {
        UpperTrimStart(s[1..]);
      }
    }
  }

  lemma {:induction false} UpperTrimEnd(s: string)
    ensures TrimEnd(UpperAll(s)) == UpperAll(TrimEnd(s))
    decreases |s|
  {
    if s != "" {
      var n := |s| - 1;
      UpperAllAt(s);
      UpperPrefix(s, n);
      hide UpperAll;
      if IsWhitespace(s[n]) {
        UpperTrimEnd(s[..n]);
      }
    }
  }

  // ----- variables -----

  /** The variables a catalog may use, with what they stand for when it is
      validated: one place of the machine, or the two a library may be in. */
  const VARIABLES: seq<(string, seq<string>)> :=
    [ ("ProgramFiles", ["C:\\Program Files"]), ("ProgramFiles(x86)", ["C:\\Program Files (x86)"]),
      ("ProgramData", ["C:\\ProgramData"]), ("LOCALAPPDATA", ["C:\\Users\\ExampleUser\\AppData\\Local"]),
      ("APPDATA", ["C:\\Users\\ExampleUser\\AppData\\Roaming"]), ("USERPROFILE", ["C:\\Users\\ExampleUser"]),
      ("SystemRoot", ["C:\\Windows"]), ("PUBLIC", ["C:\\Users\\Public"]),
      ("STEAM_LIBRARY", ["C:\\Program Files (x86)\\Steam", "D:\\SteamLibrary"]),
      ("EPIC_LIBRARY", ["C:\\Program Files\\Epic Games", "D:\\Epic Games"]) ]

  lemma VariablesAreNamed()
    ensures |VARIABLES| == |KnownVariables()| && forall i :: 0 <= i < |VARIABLES| ==> VARIABLES[i].0 == KnownVariables()[i]
  {
  }

  lemma FirstValues(i: nat)
    requires i < 5
    ensures CandidatesFor(UpperNames()[i]) == Some(VARIABLES[i].1)
  {
  }

  lemma OtherValues(i: nat)
    requires 5 <= i < |VARIABLES|
    ensures CandidatesFor(UpperNames()[i]) == Some(VARIABLES[i].1)
  {
  }

  /** A variable is known exactly when it is one of those, in any case, and then
      stands for just those places. */
  lemma VariablesAre(name: string)
    ensures IsKnown(name) <==> exists i :: 0 <= i < |VARIABLES| && EqFold(VARIABLES[i].0, name)
    ensures forall i :: 0 <= i < |VARIABLES| && EqFold(VARIABLES[i].0, name) ==> Candidates(name) == Some(VARIABLES[i].1)
  {
    VariablesAreNamed();
    hide KnownVariables; hide VARIABLES; hide EqFold; hide UpperAll; hide CandidatesFor; hide UpperNames;
    assert IsKnown(name) ==> exists i :: 0 <= i < |VARIABLES| && EqFold(VARIABLES[i].0, name) by {
      if IsKnown(name) {
        var i :| 0 <= i < |KnownVariables()| && EqFold(KnownVariables()[i], name);
        assert EqFold(VARIABLES[i].0, name);
      }
    }
    forall i | 0 <= i < |VARIABLES| && EqFold(VARIABLES[i].0, name) ensures Candidates(name) == Some(VARIABLES[i].1) {
      EqFoldIsUpper(VARIABLES[i].0, name);
      NamesInUpperCase(i);
      if i < 5 { FirstValues(i); } else { OtherValues(i); }
    }
  }

  // ----- problems -----

  lemma {:induction false} PlacedExactly(owner: Owner, field: Field, index: nat, faults: seq<Fault>, p: Problem)
    ensures p in Placed(owner, field, index, faults) <==>
              p.owner == owner && p.field == field && p.index == index && p.fault in faults
  {
    if faults != [] {
      var n := |faults| - 1;
      PlacedExactly(owner, field, index, faults[..n], p);
      assert faults == faults[..n] + [faults[n]];
    }
  }

  /** A problem of a list is a fault of one entry, at its place. */
  lemma {:induction false} ListProblemsExactly(owner: Owner, field: Field, entries: seq<string>, check: Check, p: Problem)
    ensures p in ListProblems(owner, field, entries, check) <==>
              p.owner == owner && p.field == field && p.index < |entries| && p.fault in FaultsOf(check, entries[p.index])
  {
    hide FaultsOf; hide Placed;
    if entries != [] {
      var n := |entries| - 1;
      ListProblemsExactly(owner, field, entries[..n], check, p);
      PlacedExactly(owner, field, n, FaultsOf(check, entries[n]), p);
    }
  }

  lemma {:induction false} ExpansionFaultsExactly(expansions: seq<string>, exceptions: Exceptions, fault: Fault)
    ensures fault in ExpansionFaults(expansions, exceptions) <==>
              exists path :: path in expansions && PathFault(path, exceptions) == Some(fault)
  {
    hide PathFault;
    if expansions != [] {
      var n := |expansions| - 1;
      ExpansionFaultsExactly(expansions[..n], exceptions, fault);
      assert expansions == expansions[..n] + [expansions[n]];
    }
  }

  /** What is wrong with a path, if anything: that it cannot be read, or the
      reason it is denied for. */
  lemma PathFaultExactly(path: string, exceptions: Exceptions, fault: Fault)
    ensures PathFault(path, exceptions) == Some(fault) <==>
              || (Canonical(path).Err? && fault == CannotCanonicalise(Canonical(path).error))
              || (Canonical(path).Ok? && fault.IsDenied?
                  && EvaluatePath(Canonical(path).value, exceptions, CatalogLoad) == Denied(fault.reason))
  {
    hide Canonical; hide EvaluatePath;
  }

  lemma KeyFaultExactly(key: string, exceptions: Exceptions, fault: Fault)
    ensures fault in Noted(KeyFault(key, exceptions)) <==>
              || (CanonicalKey(key).Err? && fault == CannotReadKey(CanonicalKey(key).error))
              || (CanonicalKey(key).Ok? && fault.IsDenied?
                  && EvaluateKey(CanonicalKey(key).value, exceptions) == Denied(fault.reason))
  {
    hide CanonicalKey; hide EvaluateKey;
  }

  /** What a template is told of: that it cannot be expanded, or a fault of a path
      it expands to. */
  ghost predicate IsTemplateFault(template: string, exceptions: Exceptions, fault: Fault) {
    var expanded := ValidationExpansions(template);
    || (expanded.Err? && fault == CannotExpand(expanded.error))
    || (expanded.Ok? && exists path :: path in expanded.value && PathFault(path, exceptions) == Some(fault))
  }

  lemma TemplateFaultsExactly(template: string, exceptions: Exceptions, fault: Fault)
    ensures fault in TemplateFaults(template, exceptions) <==> IsTemplateFault(template, exceptions, fault)
  {
    hide ValidationExpansions; hide PathFault; hide ExpansionFaults;
    if ValidationExpansions(template).Ok? {
      ExpansionFaultsExactly(ValidationExpansions(template).value, exceptions, fault);
    }
  }

  /** Every problem of an anti-cheat entry names its list, its place and what is
      wrong there: a shipped driver or service by its name, a path and a key by
      their own faults. */
  lemma AntiCheatProblemsExactly(inbox: Inbox, ac: AntiCheat, p: Problem)
    ensures p in AntiCheatProblems(inbox, ac) <==>
              && p.owner == OfAntiCheat(ac.id)
              && match p.field
                 case Drivers =>
                   p.index < |ac.drivers| && IsInboxDriver(inbox, ac.drivers[p.index])
                   && p.fault == ShipsWithWindows(ac.drivers[p.index])
                 case Services =>
                   p.index < |ac.services| && IsInboxService(inbox, ac.services[p.index])
                   && p.fault == ShipsWithWindows(ac.services[p.index])
                 case PathsField =>
                   p.index < |ac.paths| && IsTemplateFault(ac.paths[p.index], ExceptionsFor(inbox, ac), p.fault)
                 case Registry =>
                   p.index < |ac.registry|
                   && p.fault in Noted(KeyFault(ac.registry[p.index].key, ExceptionsFor(inbox, ac)))
                 case _ => false
  {
    hide ListProblems; hide IsInboxDriver; hide IsInboxService; hide TemplateFaults; hide KeyFault; hide ExceptionsFor;
    hide IsTemplateFault; hide Noted;
    var owner, exceptions := OfAntiCheat(ac.id), ExceptionsFor(inbox, ac);
    ListProblemsExactly(owner, Drivers, ac.drivers, InboxDrivers(inbox), p);
    ListProblemsExactly(owner, Services, ac.services, InboxServices(inbox), p);
    ListProblemsExactly(owner, PathsField, ac.paths, Templates(exceptions), p);
    ListProblemsExactly(owner, Registry, KeysOf(ac.registry), Keys(exceptions), p);
    if p.index < |ac.paths| {
      TemplateFaultsExactly(ac.paths[p.index], exceptions, p.fault);
    }
  }

  /** And of a game, whose paths and keys no carve-out moves. */
  lemma GameProblemsExactly(game: Game, p: Problem)
    ensures p in GameProblems(game) <==>
              && p.owner == OfGame(game.id)
              && match p.field
                 case InstallHints =>
                   p.index < |game.installHints| && IsTemplateFault(game.installHints[p.index], Exceptions({}, {}), p.fault)
                 case Residue => p.index < |game.residue| && IsTemplateFault(game.residue[p.index], Exceptions({}, {}), p.fault)
                 case Saves => p.index < |game.saves| && IsTemplateFault(game.saves[p.index], Exceptions({}, {}), p.fault)
                 case Registry =>
                   p.index < |game.registry| && p.fault in Noted(KeyFault(game.registry[p.index].key, Exceptions({}, {})))
                 case _ => false
  {
    hide ListProblems; hide TemplateFaults; hide KeyFault; hide IsTemplateFault; hide Noted;
    var owner := OfGame(game.id);
    ListProblemsExactly(owner, InstallHints, game.installHints, Templates(NO_EXCEPTIONS), p);
    ListProblemsExactly(owner, Residue, game.residue, Templates(NO_EXCEPTIONS), p);
    ListProblemsExactly(owner, Saves, game.saves, Templates(NO_EXCEPTIONS), p);
    ListProblemsExactly(owner, Registry, KeysOf(game.registry), Keys(NO_EXCEPTIONS), p);
    if p.index < |game.installHints| { TemplateFaultsExactly(game.installHints[p.index], NO_EXCEPTIONS, p.fault); }
    if p.index < |game.residue| { TemplateFaultsExactly(game.residue[p.index], NO_EXCEPTIONS, p.fault); }
    if p.index < |game.saves| { TemplateFaultsExactly(game.saves[p.index], NO_EXCEPTIONS, p.fault); }
  }
}
