// Replacing a known prefix of an observed path with its `%VAR%` template, and
// back: tools/observe/src/suggest.rs, core/src/catalog/expand.rs.
module Templates {
  import opened Prelude
  import opened Text
  import opened Expand

  datatype Location = Location(variable: string, prefix: string)

  const MACHINE: seq<Location> :=
    [ Location("ProgramFiles(x86)", "C:\\Program Files (x86)"),
      Location("ProgramFiles", "C:\\Program Files"),
      Location("ProgramData", "C:\\ProgramData"),
      Location("SystemRoot", "C:\\Windows") ]

  const PROFILE: seq<Location> :=
    [ Location("LOCALAPPDATA", "AppData\\Local"),
      Location("APPDATA", "AppData\\Roaming") ]

  /** `strip_component_prefix`: without a prefix, matched in any case and only
      up to a separator. */
  function WithoutComponents(path: string, prefix: string): Option<string> {
    if |prefix| <= |path| && EqFold(path[..|prefix|], prefix) && (|path| == |prefix| || path[|prefix|] == '\\')
    then Some(path[|prefix|..]) else None
  }

  /** `X:\Users\<name>\rest` as the name, and what follows it. */
  function SplitProfile(path: string): Option<(string, string)> {
    if |path| < 3 || !IsLetter(path[0]) || path[1] != ':' || path[2] != '\\' then None
    else
      match WithoutComponents(path[3..], "Users")
      case None => None
      case Some(tail) =>
        if tail == "" then None
        else
          var below := tail[1..];
          var cut := IndexOf(below, '\\');
          if cut == 0 then None else Some((below[..cut], below[cut..]))
  }

  /** `%name%rest`. */
  function InVariable(name: string, rest: string): string {
    "%" + (name + ("%" + rest))
  }

  /** The first location a path lies in, as its template. */
  function InLocation(path: string, locations: seq<Location>): Option<string> {
    if locations == [] then None
    else
      match WithoutComponents(path, locations[0].prefix)
      case Some(tail) => Some(InVariable(locations[0].variable, tail))
      case None => InLocation(path, locations[1..])
  }

  function WithoutSeparator(rest: string): string {
    if rest != "" && rest[0] == '\\' then rest[1..] else rest
  }

  /** `templated`. */
  function Templated(path: string): string {
    match SplitProfile(path)
    case Some((profile, rest)) =>
      if EqFold(profile, "public") then InVariable("PUBLIC", rest)
      else
        (match InLocation(WithoutSeparator(rest), PROFILE)
         case Some(template) => template
         case None => InVariable("USERPROFILE", rest))
    case None =>
      match InLocation(path, MACHINE)
      case Some(template) => template
      case None => path
  }

  // ----- and back -----

  /** Where a template leads on the machine a catalog is validated against: the
      same path, but for the profile, which is `Public` or the example user. */
  function Relocated(path: string): string {
    match SplitProfile(path)
    case None => path
    case Some((profile, rest)) =>
      (if EqFold(profile, "public") then "C:\\Users\\Public" else "C:\\Users\\ExampleUser") + rest
  }

  lemma OneVariableExpands(name: string, tail: string, value: string)
    requires '%' !in name && '%' !in tail && IsKnown(name) && Candidates(name) == Some([value])
    ensures ValidationExpansions(InVariable(name, tail)) == Ok([value + tail])
  {
    hide IsKnown; hide Candidates;
    var template := InVariable(name, tail);
    CutOne(name, tail);
    assert Pieces(tail) == Ok([Literal(tail)]) by { NoPercent(tail); }
    FilledTwo(Literal(""), Variable(name), [Literal(tail)], Candidates);
    assert Pieces(template) == Ok([Literal(""), Variable(name)] + [Literal(tail)]);
    FilledOne(tail);
    assert Choices(Variable(name), Candidates) == [value];
    ProductOfOne(value, [tail]);
    assert Prefixed(value, [tail]) == [value + tail] by { assert [tail][1..] == []; }
    ProductOfOne("", [value + tail]);
  }

  lemma NoPercent(tail: string)
    requires '%' !in tail
    ensures CutAt(tail) == NoVariable
  {
    IndexOfFinds(tail, '%');
  }

  lemma FilledOne(tail: string)
    ensures Filled([Literal(tail)], Candidates) == [tail]
  {
    assert [Literal(tail)][1..] == [];
    ProductOfOne(tail, [""]);
    assert Prefixed(tail, [""]) == [tail] by { assert tail + "" == tail && [""][1..] == []; }
  }

  lemma CutOne(name: string, tail: string)
    requires '%' !in name && IsKnown(name)
    ensures CutAt(InVariable(name, tail)) == Cut("", name, tail)
  {
    hide IsKnown;
    var template := InVariable(name, tail);
    var after := name + ("%" + tail);
    assert template[0] == '%' && IndexOf(template, '%') == 0;
    assert template[1..] == after;
    assert after[|name|] == '%';
    var end := IndexOf(after, '%');
    assert forall j :: 0 <= j < |name| ==> after[j] == name[j] && name[j] in name;
    assert end == |name|;
    assert after[..end] == name && after[end + 1..] == tail;
  }

  lemma Resolved(name: string, upper: string, i: nat, value: string)
    requires i < |KnownVariables()| && KnownVariables()[i] == name
    requires |name| == |upper| && forall j :: 0 <= j < |name| ==> Upper(name[j]) == upper[j]
    requires CandidatesFor(upper) == Some([value])
    ensures Resolves(name, value)
  {
    hide CandidatesFor; hide KnownVariables; hide LowerAll;
    Uppers(name, upper);
  }

  /** A variable the schema knows, with one value when a catalog is validated. */
  predicate Resolves(name: string, value: string) {
    IsKnown(name) && Candidates(name) == Some([value])
  }

  lemma ProgramFilesX86Resolves()
    ensures Resolves("ProgramFiles(x86)", "C:\\Program Files (x86)")
  {
    hide UpperAll; hide LowerAll;
    Resolved("ProgramFiles(x86)", "PROGRAMFILES(X86)", 1, "C:\\Program Files (x86)");
  }

  lemma ProgramFilesResolves()
    ensures Resolves("ProgramFiles", "C:\\Program Files")
  {
    hide UpperAll; hide LowerAll;
    Resolved("ProgramFiles", "PROGRAMFILES", 0, "C:\\Program Files");
  }

  lemma ProgramDataResolves()
    ensures Resolves("ProgramData", "C:\\ProgramData")
  {
    hide UpperAll; hide LowerAll;
    Resolved("ProgramData", "PROGRAMDATA", 2, "C:\\ProgramData");
  }

  lemma SystemRootResolves()
    ensures Resolves("SystemRoot", "C:\\Windows")
  {
    hide UpperAll; hide LowerAll;
    Resolved("SystemRoot", "SYSTEMROOT", 6, "C:\\Windows");
  }

  lemma LocalAppDataResolves()
    ensures Resolves("LOCALAPPDATA", "C:\\Users\\ExampleUser\\AppData\\Local")
  {
    hide UpperAll; hide LowerAll;
    Resolved("LOCALAPPDATA", "LOCALAPPDATA", 3, "C:\\Users\\ExampleUser\\AppData\\Local");
  }

  lemma AppDataResolves()
    ensures Resolves("APPDATA", "C:\\Users\\ExampleUser\\AppData\\Roaming")
  {
    hide UpperAll; hide LowerAll;
    Resolved("APPDATA", "APPDATA", 4, "C:\\Users\\ExampleUser\\AppData\\Roaming");
  }

  lemma UserProfileResolves()
    ensures Resolves("USERPROFILE", "C:\\Users\\ExampleUser")
  {
    hide UpperAll; hide LowerAll;
    Resolved("USERPROFILE", "USERPROFILE", 5, "C:\\Users\\ExampleUser");
  }

  lemma PublicResolves()
    ensures Resolves("PUBLIC", "C:\\Users\\Public")
  {
    hide UpperAll; hide LowerAll;
    Resolved("PUBLIC", "PUBLIC", 7, "C:\\Users\\Public");
  }

  const EXAMPLE_USER: string := "C:\\Users\\ExampleUser"

  lemma MachineResolves(location: Location)
    requires location in MACHINE
    ensures Resolves(location.variable, location.prefix)
  {
    hide Resolves;
    ProgramFilesX86Resolves();
    ProgramFilesResolves();
    ProgramDataResolves();
    SystemRootResolves();
  }

  lemma ProfileResolves(location: Location)
    requires location in PROFILE
    ensures Resolves(location.variable, EXAMPLE_USER + ("\\" + location.prefix))
  {
    hide Resolves;
    LocalAppDataResolves();
    AppDataResolves();
    LocationsSpelled();
  }

  lemma LocationsSpelled()
    ensures EXAMPLE_USER + ("\\" + "AppData\\Local") == "C:\\Users\\ExampleUser\\AppData\\Local"
    ensures EXAMPLE_USER + ("\\" + "AppData\\Roaming") == "C:\\Users\\ExampleUser\\AppData\\Roaming"
  {
  }

  lemma NoPercentIn(location: Location)
    requires location in MACHINE || location in PROFILE
    ensures '%' !in location.variable
  {
    assert '%' !in "ProgramFiles(x86)" && '%' !in "ProgramFiles" && '%' !in "ProgramData";
    assert '%' !in "SystemRoot" && '%' !in "LOCALAPPDATA" && '%' !in "APPDATA";
  }

  /** A path with a prefix taken off is that prefix, in some case, and the rest. */
  lemma WithoutIsTail(path: string, prefix: string)
    requires WithoutComponents(path, prefix).Some?
    ensures var tail := WithoutComponents(path, prefix).value;
            EqFold(path, prefix + tail) && forall c :: c in tail ==> c in path
  {
    var tail := path[|prefix|..];
    assert path == path[..|prefix|] + tail;
    LowerConcat(path[..|prefix|], tail);
    LowerConcat(prefix, tail);
  }

  lemma {:induction false} InLocationHolds(path: string, locations: seq<Location>) returns (location: Location, tail: string)
    requires InLocation(path, locations).Some?
    ensures location in locations && WithoutComponents(path, location.prefix) == Some(tail)
    ensures InLocation(path, locations).value == InVariable(location.variable, tail)
  {
    match WithoutComponents(path, locations[0].prefix)
    case Some(t) => location, tail := locations[0], t;
    case None => location, tail := InLocationHolds(path, locations[1..]);
  }

  /** The one place a template leads to. */
  ghost predicate LeadsTo(template: string, path: string) {
    exists e :: ValidationExpansions(template) == Ok([e]) && EqFold(e, path)
  }

  lemma MachineLeadsBack(path: string)
    requires '%' !in path && InLocation(path, MACHINE).Some?
    ensures LeadsTo(InLocation(path, MACHINE).value, path)
  {
    hide LowerAll; hide Candidates; hide IsKnown; hide InLocation; hide ValidationExpansions;
    var location, tail := InLocationHolds(path, MACHINE);
    MachineResolves(location);
    NoPercentIn(location);
    WithoutIsTail(path, location.prefix);
    OneVariableExpands(location.variable, tail, location.prefix);
  }

  lemma Unchanged(path: string)
    requires '%' !in path
    ensures LeadsTo(path, path)
  {
    NoPercent(path);
    NoVariables(path, Candidates);
    hide CutAt;
    assert EqFold(path, path);
  }

  lemma FoldedConcat(a: string, b: string, c: string)
    requires EqFold(b, c)
    ensures EqFold(a + b, a + c)
  {
    LowerConcat(a, b);
    LowerConcat(a, c);
  }

  lemma Nested(user: string, prefix: string, tail: string)
    ensures (user + ("\\" + prefix)) + tail == user + ("\\" + (prefix + tail))
  {
  }

  lemma ProfileLeadsBack(rest: string)
    requires '%' !in rest && (rest != "" ==> rest[0] == '\\')
    requires InLocation(WithoutSeparator(rest), PROFILE).Some?
    ensures LeadsTo(InLocation(WithoutSeparator(rest), PROFILE).value, EXAMPLE_USER + rest)
  {
    hide LowerAll; hide Candidates; hide IsKnown; hide InLocation; hide ValidationExpansions;
    var inner := WithoutSeparator(rest);
    var location, tail := InLocationHolds(inner, PROFILE);
    ProfileResolves(location);
    NoPercentIn(location);
    WithoutIsTail(inner, location.prefix);
    OneVariableExpands(location.variable, tail, EXAMPLE_USER + ("\\" + location.prefix));
    Nested(EXAMPLE_USER, location.prefix, tail);
    assert rest != "" by { assert |location.prefix| > 0; }
    assert rest == "\\" + inner;
    FoldedConcat("\\", location.prefix + tail, inner);
    FoldedConcat(EXAMPLE_USER, "\\" + (location.prefix + tail), "\\" + inner);
  }

  lemma VariableLeadsTo(name: string, value: string, rest: string)
    requires Resolves(name, value) && '%' !in name && '%' !in rest
    ensures LeadsTo(InVariable(name, rest), value + rest)
  {
    hide Candidates; hide IsKnown; hide ValidationExpansions; hide LowerAll;
    OneVariableExpands(name, rest, value);
    assert EqFold(value + rest, value + rest);
  }

  lemma ProfileParts(path: string)
    requires SplitProfile(path).Some?
    ensures var (profile, rest) := SplitProfile(path).value; rest != "" ==> rest[0] == '\\'
  {
  }

  /** No `%` in what a template keeps of a path: all of it, or what follows the
      profile's name. The name itself may be the redactor's `%USER%`. */
  predicate KeepsNoPercent(path: string) {
    match SplitProfile(path)
    case None => '%' !in path
    case Some((_, rest)) => '%' !in rest
  }

  lemma PercentInAnyCase(a: string, b: string)
    requires EqFold(a, b) && '%' in b
    ensures '%' in a
  {
    var i :| 0 <= i < |b| && b[i] == '%';
    FoldIndex(a, b, i);
    assert a[i] == '%';
  }

  lemma PercentLeadsNowhere(path: string)
    requires !KeepsNoPercent(path)
    ensures !LeadsTo(Templated(path), Relocated(path))
  {
    assert '%' in Relocated(path) by {
      hide LowerAll;
    }
    hide Templated; hide Relocated; hide KeepsNoPercent; hide ValidationExpansions; hide EqFold;
    if LeadsTo(Templated(path), Relocated(path)) {
      var e :| ValidationExpansions(Templated(path)) == Ok([e]) && EqFold(e, Relocated(path));
      assert e in [e];
      ExpansionsArePlain(Templated(path), e);
      PercentInAnyCase(e, Relocated(path));
    }
  }

  lemma PlainLeadsBack(path: string)
    requires KeepsNoPercent(path)
    ensures LeadsTo(Templated(path), Relocated(path))
  {
    hide LeadsTo; hide InLocation; hide Resolves; hide LowerAll; hide WithoutSeparator; hide InVariable;
    match SplitProfile(path)
    case None =>
      if InLocation(path, MACHINE).Some? { MachineLeadsBack(path); } else { Unchanged(path); }
    case Some((profile, rest)) =>
      ProfileParts(path);
      hide SplitProfile;
      if EqFold(profile, "public") {
        PublicResolves();
        VariableLeadsTo("PUBLIC", "C:\\Users\\Public", rest);
      } else if InLocation(WithoutSeparator(rest), PROFILE).Some? {
        ProfileLeadsBack(rest);
      } else {
        UserProfileResolves();
        VariableLeadsTo("USERPROFILE", EXAMPLE_USER, rest);
      }
  }

  /** The template of a path leads back to it, up to letter case, on the machine
      a catalog is validated against: exactly one expansion, with only the
      profile's name and drive replaced. It does so exactly when what the
      template keeps of the path holds no `%` of its own. */
  lemma TemplatedLeadsBack(path: string)
    ensures LeadsTo(Templated(path), Relocated(path)) <==> KeepsNoPercent(path)
  {
    hide LeadsTo; hide Templated; hide Relocated; hide KeepsNoPercent;
    if KeepsNoPercent(path) {
      PlainLeadsBack(path);
    } else {
      PercentLeadsNowhere(path);
    }
  }
}
