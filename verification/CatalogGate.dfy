// The deny-list check every catalog passes before it is trusted:
// core/src/catalog/validate.rs, and what a catalog with no problems may name.
module CatalogGate {
  import opened Prelude
  import opened Text
  import opened Paths
  import opened PathLaws
  import opened RegKeys
  import opened DenyList
  import opened Expand
  import opened Catalog

  datatype Fault =
    | ShipsWithWindows(name: string)
    | CannotExpand(expandError: ExpandError)
    | CannotCanonicalise(pathError: PathError)
    | CannotReadKey(keyError: RegKeyError)
    | IsDenied(reason: DenyReason)

  datatype Owner = OfAntiCheat(id: string) | OfGame(id: string)

  datatype Field = Drivers | Services | PathsField | Registry | InstallHints | Residue | Saves

  datatype Problem = Problem(owner: Owner, field: Field, index: nat, fault: Fault)

  function ExceptionsFor(inbox: Inbox, ac: AntiCheat): Exceptions {
    NewExceptions(inbox, ac.drivers, ac.services)
  }

  /** What is wrong with one concrete path, if anything. */
  function PathFault(path: string, exceptions: Exceptions): Option<Fault> {
    match Canonical(path)
    case Err(error) => Some(CannotCanonicalise(error))
    case Ok(canonical) => (match EvaluatePath(canonical, exceptions, CatalogLoad)
                           case Allowed => None
                           case Denied(reason) => Some(IsDenied(reason)))
  }

  function KeyFault(key: string, exceptions: Exceptions): Option<Fault> {
    match CanonicalKey(key)
    case Err(error) => Some(CannotReadKey(error))
    case Ok(canonical) => (match EvaluateKey(canonical, exceptions)
                           case Allowed => None
                           case Denied(reason) => Some(IsDenied(reason)))
  }

  function Noted(fault: Option<Fault>): seq<Fault> {
    match fault case None => [] case Some(f) => [f]
  }

  function ExpansionFaults(expansions: seq<string>, exceptions: Exceptions): seq<Fault> {
    if expansions == [] then []
    else
      var n := |expansions| - 1;
      ExpansionFaults(expansions[..n], exceptions) + Noted(PathFault(expansions[n], exceptions))
  }

  function TemplateFaults(template: string, exceptions: Exceptions): seq<Fault> {
    match ValidationExpansions(template)
    case Err(error) => [CannotExpand(error)]
    case Ok(expansions) => ExpansionFaults(expansions, exceptions)
  }

  function Placed(owner: Owner, field: Field, index: nat, faults: seq<Fault>): seq<Problem> {
    if faults == [] then []
    else
      var n := |faults| - 1;
      Placed(owner, field, index, faults[..n]) + [Problem(owner, field, index, faults[n])]
  }

  /** What a list of entries is checked for. */
  datatype Check =
    | InboxDrivers(inbox: Inbox)
    | InboxServices(inbox: Inbox)
    | Templates(exceptions: Exceptions)
    | Keys(exceptions: Exceptions)

  function FaultsOf(check: Check, entry: string): seq<Fault> {
    match check
    case InboxDrivers(inbox) => if IsInboxDriver(inbox, entry) then [ShipsWithWindows(entry)] else []
    case InboxServices(inbox) => if IsInboxService(inbox, entry) then [ShipsWithWindows(entry)] else []
    case Templates(exceptions) => TemplateFaults(entry, exceptions)
    case Keys(exceptions) => Noted(KeyFault(entry, exceptions))
  }

  function ListProblems(owner: Owner, field: Field, entries: seq<string>, check: Check): seq<Problem> {
    if entries == [] then []
    else
      var n := |entries| - 1;
      ListProblems(owner, field, entries[..n], check) + Placed(owner, field, n, FaultsOf(check, entries[n]))
  }

  function KeysOf(entries: seq<RegistryEntry>): (keys: seq<string>)
    ensures |keys| == |entries| && forall i :: 0 <= i < |keys| ==> keys[i] == entries[i].key
  {
    if entries == [] then [] else [entries[0].key] + KeysOf(entries[1..])
  }

  function AntiCheatProblems(inbox: Inbox, ac: AntiCheat): seq<Problem> {
    var owner, exceptions := OfAntiCheat(ac.id), ExceptionsFor(inbox, ac);
    ListProblems(owner, Drivers, ac.drivers, InboxDrivers(inbox))
    + ListProblems(owner, Services, ac.services, InboxServices(inbox))
    + ListProblems(owner, PathsField, ac.paths, Templates(exceptions))
    + ListProblems(owner, Registry, KeysOf(ac.registry), Keys(exceptions))
  }

  function GameProblems(game: Game): seq<Problem> {
    var owner := OfGame(game.id);
    ListProblems(owner, InstallHints, game.installHints, Templates(NO_EXCEPTIONS))
    + ListProblems(owner, Residue, game.residue, Templates(NO_EXCEPTIONS))
    + ListProblems(owner, Saves, game.saves, Templates(NO_EXCEPTIONS))
    + ListProblems(owner, Registry, KeysOf(game.registry), Keys(NO_EXCEPTIONS))
  }

  function AllAntiCheatProblems(inbox: Inbox, entries: seq<AntiCheat>): seq<Problem> {
    if entries == [] then []
    else
      var n := |entries| - 1;
      AllAntiCheatProblems(inbox, entries[..n]) + AntiCheatProblems(inbox, entries[n])
  }

  function AllGameProblems(games: seq<Game>): seq<Problem> {
    if games == [] then []
    else
      var n := |games| - 1;
      AllGameProblems(games[..n]) + GameProblems(games[n])
  }

  function DenylistProblems(inbox: Inbox, catalog: Catalog): seq<Problem> {
    AllAntiCheatProblems(inbox, catalog.anticheat) + AllGameProblems(catalog.games)
  }

  // ----- the loops that push problems -----

  /** The faults of one path template. */
  method TemplateFaultList(template: string, exceptions: Exceptions) returns (faults: seq<Fault>)
    ensures faults == TemplateFaults(template, exceptions)
  {
    var expanded := ExpandWith(template, Candidates);
    if expanded.Err? {
      return [CannotExpand(expanded.error)];
    }
    var expansions := expanded.value;
    faults := [];
    for i := 0 to |expansions|
      invariant faults == ExpansionFaults(expansions[..i], exceptions)
    {
      var fault := PathFault(expansions[i], exceptions);
      assert expansions[..i + 1][..i] == expansions[..i];
      faults := faults + Noted(fault);
    }
    assert expansions[..|expansions|] == expansions;
  }

  /** The body of each of the loops over entries: push what is wrong with one. */
  method Push(owner: Owner, field: Field, index: nat, faults: seq<Fault>, problems: seq<Problem>)
    returns (after: seq<Problem>)
    ensures after == problems + Placed(owner, field, index, faults)
  {
    after := problems;
    for i := 0 to |faults|
      invariant after == problems + Placed(owner, field, index, faults[..i])
    {
      assert faults[..i + 1][..i] == faults[..i];
      after := after + [Problem(owner, field, index, faults[i])];
    }
    assert faults[..|faults|] == faults;
  }

  /** `check_denylist_paths`, `check_denylist_keys` and the two loops over what
      may ship with Windows. */
  method CheckList(owner: Owner, field: Field, entries: seq<string>, check: Check, problems: seq<Problem>)
    returns (after: seq<Problem>)
    ensures after == problems + ListProblems(owner, field, entries, check)
  {
    hide TemplateFaults; hide KeyFault; hide IsInboxDriver; hide IsInboxService; hide ListProblems; hide Placed;
    after := problems;
    assert ListProblems(owner, field, entries[..0], check) == [] by { NoEntries(owner, field, check); }
    for index := 0 to |entries|
      invariant after == problems + ListProblems(owner, field, entries[..index], check)
    {
      MoreEntries(owner, field, entries[..index], entries[index], check);
      var faults;
      if check.Templates? {
        faults := TemplateFaultList(entries[index], check.exceptions);
      } else {
        faults := FaultsOf(check, entries[index]);
      }
      after := Push(owner, field, index, faults, after);
      assert entries[..index + 1] == entries[..index] + [entries[index]];
    }
    assert entries[..|entries|] == entries;
  }

  lemma NoEntries(owner: Owner, field: Field, check: Check)
    ensures ListProblems(owner, field, [], check) == []
  {
  }

  lemma MoreEntries(owner: Owner, field: Field, entries: seq<string>, entry: string, check: Check)
    ensures ListProblems(owner, field, entries + [entry], check)
         == ListProblems(owner, field, entries, check) + Placed(owner, field, |entries|, FaultsOf(check, entry))
  {
    hide FaultsOf; hide Placed;
    assert (entries + [entry])[..|entries|] == entries;
  }

  method CheckAntiCheat(inbox: Inbox, ac: AntiCheat, problems: seq<Problem>) returns (after: seq<Problem>)
    ensures after == problems + AntiCheatProblems(inbox, ac)
  {
    hide ListProblems;
    var owner, exceptions := OfAntiCheat(ac.id), ExceptionsFor(inbox, ac);
    after := CheckList(owner, Drivers, ac.drivers, InboxDrivers(inbox), problems);
    after := CheckList(owner, Services, ac.services, InboxServices(inbox), after);
    after := CheckList(owner, PathsField, ac.paths, Templates(exceptions), after);
    after := CheckList(owner, Registry, KeysOf(ac.registry), Keys(exceptions), after);
  }

  method CheckGame(game: Game, problems: seq<Problem>) returns (after: seq<Problem>)
    ensures after == problems + GameProblems(game)
  {
    hide ListProblems;
    var owner := OfGame(game.id);
    after := CheckList(owner, InstallHints, game.installHints, Templates(NO_EXCEPTIONS), problems);
    after := CheckList(owner, Residue, game.residue, Templates(NO_EXCEPTIONS), after);
    after := CheckList(owner, Saves, game.saves, Templates(NO_EXCEPTIONS), after);
    after := CheckList(owner, Registry, KeysOf(game.registry), Keys(NO_EXCEPTIONS), after);
  }

  /** `check_denylist`. */
  method CheckDenylist(inbox: Inbox, catalog: Catalog) returns (problems: seq<Problem>)
    ensures problems == DenylistProblems(inbox, catalog)
  {
    hide AntiCheatProblems;
    hide GameProblems;
    problems := [];
    for i := 0 to |catalog.anticheat|
      invariant problems == AllAntiCheatProblems(inbox, catalog.anticheat[..i])
    {
      problems := CheckAntiCheat(inbox, catalog.anticheat[i], problems);
      assert catalog.anticheat[..i + 1][..i] == catalog.anticheat[..i];
    }
    assert catalog.anticheat[..|catalog.anticheat|] == catalog.anticheat;
    for i := 0 to |catalog.games|
      invariant problems == AllAntiCheatProblems(inbox, catalog.anticheat) + AllGameProblems(catalog.games[..i])
    {
      problems := CheckGame(catalog.games[i], problems);
      assert catalog.games[..i + 1][..i] == catalog.games[..i];
    }
    assert catalog.games[..|catalog.games|] == catalog.games;
  }

  // ----- what a catalog with no problems may name -----

  /** Nothing wrong with one entry, in terms of what the deny-list protects. */
  ghost predicate EntrySafe(check: Check, entry: string) {
    match check
    case InboxDrivers(inbox) => !IsInboxDriver(inbox, entry)
    case InboxServices(inbox) => !IsInboxService(inbox, entry)
    case Templates(exceptions) =>
      && ValidationExpansions(entry).Ok?
      && forall path :: path in ValidationExpansions(entry).value ==> PathSafe(path, exceptions)
    case Keys(exceptions) => KeySafe(entry, exceptions)
  }

  ghost predicate ListSafe(entries: seq<string>, check: Check) {
    forall entry :: entry in entries ==> EntrySafe(check, entry)
  }

  ghost predicate AntiCheatSafe(inbox: Inbox, ac: AntiCheat) {
    var exceptions := ExceptionsFor(inbox, ac);
    && ListSafe(ac.drivers, InboxDrivers(inbox)) && ListSafe(ac.services, InboxServices(inbox))
    && ListSafe(ac.paths, Templates(exceptions)) && ListSafe(KeysOf(ac.registry), Keys(exceptions))
  }

  ghost predicate GameSafe(game: Game) {
    && ListSafe(game.installHints, Templates(NO_EXCEPTIONS)) && ListSafe(game.residue, Templates(NO_EXCEPTIONS))
    && ListSafe(game.saves, Templates(NO_EXCEPTIONS)) && ListSafe(KeysOf(game.registry), Keys(NO_EXCEPTIONS))
  }

  lemma PathFaultNone(path: string, exceptions: Exceptions)
    ensures Noted(PathFault(path, exceptions)) == [] <==> PathSafe(path, exceptions)
  {
    hide Canonical;
    hide EvaluatePath;
  }

  lemma {:induction false} ExpansionsSafe(expansions: seq<string>, exceptions: Exceptions)
    ensures ExpansionFaults(expansions, exceptions) == []
       <==> forall path :: path in expansions ==> PathSafe(path, exceptions)
  {
    hide PathFault;
    hide PathSafe;
    if expansions != [] {
      ExpansionsSafe(expansions[..|expansions| - 1], exceptions);
      PathFaultNone(expansions[|expansions| - 1], exceptions);
      assert expansions == expansions[..|expansions| - 1] + [expansions[|expansions| - 1]];
    }
  }

  lemma {:induction false} PlacedNone(owner: Owner, field: Field, index: nat, faults: seq<Fault>)
    ensures Placed(owner, field, index, faults) == [] <==> faults == []
  {
  }

  lemma EntryIsSafe(check: Check, entry: string)
    ensures FaultsOf(check, entry) == [] <==> EntrySafe(check, entry)
  {
    if check.Templates? && ValidationExpansions(entry).Ok? {
      ExpansionsSafe(ValidationExpansions(entry).value, check.exceptions);
    }
  }

  lemma {:induction false} ListIsSafe(owner: Owner, field: Field, entries: seq<string>, check: Check)
    ensures ListProblems(owner, field, entries, check) == [] <==> ListSafe(entries, check)
  {
    hide FaultsOf;
    hide EntrySafe;
    hide Placed;
    if entries != [] {
      var n := |entries| - 1;
      ListIsSafe(owner, field, entries[..n], check);
      EntryIsSafe(check, entries[n]);
      PlacedNone(owner, field, n, FaultsOf(check, entries[n]));
      assert entries == entries[..n] + [entries[n]];
    }
  }

  lemma AntiCheatIsSafe(inbox: Inbox, ac: AntiCheat)
    ensures AntiCheatProblems(inbox, ac) == [] <==> AntiCheatSafe(inbox, ac)
  {
    hide ListProblems;
    hide ListSafe;
    var owner, exceptions := OfAntiCheat(ac.id), ExceptionsFor(inbox, ac);
    ListIsSafe(owner, Drivers, ac.drivers, InboxDrivers(inbox));
    ListIsSafe(owner, Services, ac.services, InboxServices(inbox));
    ListIsSafe(owner, PathsField, ac.paths, Templates(exceptions));
    ListIsSafe(owner, Registry, KeysOf(ac.registry), Keys(exceptions));
  }

  lemma GameIsSafe(game: Game)
    ensures GameProblems(game) == [] <==> GameSafe(game)
  {
    hide ListProblems;
    hide ListSafe;
    var owner := OfGame(game.id);
    ListIsSafe(owner, InstallHints, game.installHints, Templates(NO_EXCEPTIONS));
    ListIsSafe(owner, Residue, game.residue, Templates(NO_EXCEPTIONS));
    ListIsSafe(owner, Saves, game.saves, Templates(NO_EXCEPTIONS));
    ListIsSafe(owner, Registry, KeysOf(game.registry), Keys(NO_EXCEPTIONS));
  }

  lemma {:induction false} AllAntiCheatsSafe(inbox: Inbox, entries: seq<AntiCheat>)
    ensures AllAntiCheatProblems(inbox, entries) == [] <==> forall ac :: ac in entries ==> AntiCheatSafe(inbox, ac)
  {
    hide AntiCheatProblems;
    hide AntiCheatSafe;
    if entries != [] {
      var n := |entries| - 1;
      AllAntiCheatsSafe(inbox, entries[..n]);
      AntiCheatIsSafe(inbox, entries[n]);
      assert entries == entries[..n] + [entries[n]];
    }
  }

  lemma {:induction false} AllGamesSafe(games: seq<Game>)
    ensures AllGameProblems(games) == [] <==> forall game :: game in games ==> GameSafe(game)
  {
    hide GameProblems;
    hide GameSafe;
    if games != [] {
      var n := |games| - 1;
      AllGamesSafe(games[..n]);
      GameIsSafe(games[n]);
      assert games == games[..n] + [games[n]];
    }
  }

  /** The check reports nothing exactly when every entry of every list is safe
      under the carve-outs of its own owner. */
  lemma NoProblemsIsSafe(inbox: Inbox, catalog: Catalog)
    ensures DenylistProblems(inbox, catalog) == [] <==>
      && (forall ac :: ac in catalog.anticheat ==> AntiCheatSafe(inbox, ac))
      && (forall game :: game in catalog.games ==> GameSafe(game))
  {
    hide AllAntiCheatProblems; hide AllGameProblems; hide AntiCheatSafe; hide GameSafe;
    AllAntiCheatsSafe(inbox, catalog.anticheat);
    AllGamesSafe(catalog.games);
  }

  const DRIVER_FOLDER: seq<string> := ["WINDOWS", "SYSTEM32", "DRIVERS"]

  /** The one file an entry may name below a protected top-level folder:
      `X:\\WINDOWS\\SYSTEM32\\DRIVERS\\f`, with `f` a driver it declared. */
  ghost predicate DeclaredDriver(inbox: Inbox, drivers: seq<string>, path: CanonicalPath) {
    && |path.components| == 4 && path.drive.Some?
    && path.components[..3] == DRIVER_FOLDER
    && path.text == RenderedPath(DriveRooted, [path.drive.value, ':'], path.components)
    && !IsInboxDriver(inbox, path.components[3])
    && exists d :: d in drivers && BaseFileName(d) == path.components[3]
  }

  lemma FolderNames()
    ensures UpperAll(DRIVER_FOLDER[0]) == DRIVER_FOLDER[0]
    ensures UpperAll(DRIVER_FOLDER[1]) == DRIVER_FOLDER[1]
    ensures UpperAll(DRIVER_FOLDER[2]) == DRIVER_FOLDER[2]
  {
    hide UpperAll;
    UpperName("WINDOWS");
    UpperName("SYSTEM32");
    UpperName("DRIVERS");
  }

  lemma UpperName(name: string)
    requires forall c :: c in name ==> Upper(c) == c
    ensures UpperAll(name) == name
  {
    UpperAllAt(name);
    assert forall i :: 0 <= i < |name| ==> UpperAll(name)[i] == Upper(name[i]) && name[i] in name;
  }

  lemma FoldedComponent(c: string, name: string)
    requires EqFold(c, name) && UpperAll(c) == c && UpperAll(name) == name
    ensures c == name
  {
    EqFoldIsUpper(c, name);
  }

  /** A folded match of upper-case components is an exact one. */
  lemma DriverFolder(cs: seq<string>)
    requires IsDriverFile(cs) && forall c :: c in cs ==> UpperAll(c) == c
    ensures cs[..3] == DRIVER_FOLDER
  {
    hide UpperAll; hide EqFold;
    assert cs[0] in cs && cs[1] in cs && cs[2] in cs;
    FolderNames();
    FoldedComponent(cs[0], DRIVER_FOLDER[0]);
    FoldedComponent(cs[1], DRIVER_FOLDER[1]);
    FoldedComponent(cs[2], DRIVER_FOLDER[2]);
  }

  lemma DriverFileText(input: string)
    requires Canonical(input).Ok? && Canonical(input).value.kind == DriveRooted
    requires IsDriverFile(Canonical(input).value.components)
    ensures var p := Canonical(input).value;
            && p.drive.Some? && p.components[..3] == DRIVER_FOLDER && UpperAll(p.components[3]) == p.components[3]
            && p.text == RenderedPath(DriveRooted, [p.drive.value, ':'], p.components)
  {
    var letter := DriveResult(input);
    CanonicalComponentsAreClean(input);
    hide Canonical;
    var cs := Stack(Canonical(input).value.components, Canonical(input).value.shortName).components;
    assert forall c :: c in cs ==> Clean(c, DriveRooted);
    DriverFolder(cs);
  }

  /** A local path, at least two deep, with no 8.3 alias in it. */
  ghost predicate Ordinary(path: CanonicalPath) {
    && path.kind == DriveRooted && !path.shortName && |path.components| >= 2
    && forall c :: c in path.components ==> !IsShortName(c)
  }

  lemma SafePathIsOrdinary(path: string, exceptions: Exceptions)
    requires PathSafe(path, exceptions)
    ensures Ordinary(Canonical(path).value)
  {
    var p := Canonical(path).value;
    AllowedPaths(p, exceptions, CatalogLoad);
    CanonicalComponentsAreClean(path);
    assert forall c :: c in Stack(p.components, p.shortName).components ==> (IsShortName(c) ==> p.shortName);
  }

  lemma SafePathIsOutside(inbox: Inbox, drivers: seq<string>, services: seq<string>, path: string)
    requires PathSafe(path, NewExceptions(inbox, drivers, services))
    ensures var p := Canonical(path).value;
            p.components != [] && (IsProtectedTop(p.components[0]) ==> DeclaredDriver(inbox, drivers, p))
  {
    var p, exceptions := Canonical(path).value, NewExceptions(inbox, drivers, services);
    AllowedPaths(p, exceptions, CatalogLoad);
    if IsProtectedTop(p.components[0]) {
      DriverFileText(path);
      ExceptionsAreDeclared(inbox, drivers, services);
    }
  }

  /** From the raw template to the verdict: if the check reports nothing, every
      template of an anti-cheat entry expands, and every expansion is an
      ordinary local path, outside the protected top-level folders but for
      `System32\drivers\f`, with `f` a driver that same entry declared and
      Windows does not ship. */
  lemma AntiCheatPathsAreSafe(inbox: Inbox, catalog: Catalog, ac: AntiCheat, template: string, path: string)
    requires DenylistProblems(inbox, catalog) == []
    requires ac in catalog.anticheat && template in ac.paths
    ensures ValidationExpansions(template).Ok?
    ensures path in ValidationExpansions(template).value ==>
              && Canonical(path).Ok? && Ordinary(Canonical(path).value)
              && (IsProtectedTop(Canonical(path).value.components[0]) ==>
                    DeclaredDriver(inbox, ac.drivers, Canonical(path).value))
  {
    hide DenylistProblems; hide ValidationExpansions; hide Canonical; hide EvaluatePath; hide KeySafe; hide IsProtectedTop;
    hide DeclaredDriver; hide Ordinary; hide IsInboxDriver; hide IsInboxService; hide NewExceptions;
    NoProblemsIsSafe(inbox, catalog);
    assert AntiCheatSafe(inbox, ac);
    assert EntrySafe(Templates(ExceptionsFor(inbox, ac)), template);
    if path in ValidationExpansions(template).value {
      assert PathSafe(path, ExceptionsFor(inbox, ac));
      SafePathIsOrdinary(path, ExceptionsFor(inbox, ac));
      SafePathIsOutside(inbox, ac.drivers, ac.services, path);
    }
  }

  /** And no path of a game is below a protected top-level folder at all. */
  lemma GamePathsAreSafe(inbox: Inbox, catalog: Catalog, game: Game, template: string, path: string)
    requires DenylistProblems(inbox, catalog) == []
    requires game in catalog.games && (template in game.installHints || template in game.residue || template in game.saves)
    ensures ValidationExpansions(template).Ok?
    ensures path in ValidationExpansions(template).value ==>
              && Canonical(path).Ok? && Ordinary(Canonical(path).value)
              && !IsProtectedTop(Canonical(path).value.components[0])
  {
    hide DenylistProblems; hide ValidationExpansions; hide Canonical; hide EvaluatePath; hide KeySafe; hide IsProtectedTop;
    NoProblemsIsSafe(inbox, catalog);
    assert GameSafe(game);
    assert EntrySafe(Templates(NO_EXCEPTIONS), template);
    if path in ValidationExpansions(template).value {
      assert PathSafe(path, NO_EXCEPTIONS);
      SafePathIsOrdinary(path, NO_EXCEPTIONS);
      AllowedPaths(Canonical(path).value, NO_EXCEPTIONS, CatalogLoad);
    }
  }
}
