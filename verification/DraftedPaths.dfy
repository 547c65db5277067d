// A path in a user's profile and the path its template leads to: the same
// verdict for every name Windows gives a profile.
// tools/observe/src/suggest.rs, core/src/safety/denylist.rs.
module DraftedPaths {
  import opened Prelude
  import opened Text
  import opened Paths
  import opened PathLaws
  import opened PathSpellings
  import opened DenyList
  import opened Templates

  /** The name of a directory: not one of the two that mean another, and without
      the separator Windows also reads. */
  predicate PlainProfile(profile: string) {
    profile != "." && profile != ".." && '/' !in profile
  }

  // ----- two stacks that differ in the profile's name -----

  predicate Resident(name: string) {
    name == "EXAMPLEUSER" || name == "PUBLIC"
  }

  /** Below `Users`, the same but for the name of the profile. */
  ghost predicate Moved(a: seq<string>, b: seq<string>) {
    && |a| == |b| >= 2 && a[0] == b[0] == "USERS" && Resident(b[1])
    && forall i :: 2 <= i < |a| ==> a[i] == b[i]
  }

  ghost predicate Alike(a: Stack, b: Stack) {
    (b.shortName ==> a.shortName) && (a.components == b.components || Moved(a.components, b.components))
  }

  lemma PopKeepsAlike(a: Stack, b: Stack)
    requires Alike(a, b) && a.components != [] && b.components != []
    ensures Alike(a.(components := a.components[..|a.components| - 1]), b.(components := b.components[..|b.components| - 1]))
  {
    if Moved(a.components, b.components) && |a.components| == 2 {
      assert a.components[..1] == ["USERS"] && b.components[..1] == ["USERS"];
    }
  }

  lemma PushKeepsAlike(a: Stack, b: Stack, raw: string)
    requires Alike(a, b)
    ensures var ra, rb := Push(a, raw, DriveRooted), Push(b, raw, DriveRooted);
            ra.Ok? ==> rb.Ok? && Alike(ra.value, rb.value)
  {
    hide IsShortName; hide Stem; hide UpperAll;
    if raw == ".." && a.components != [] {
      PopKeepsAlike(a, b);
    }
  }

  lemma {:induction false} PushAllKeepsAlike(a: Stack, b: Stack, segments: seq<string>)
    requires Alike(a, b)
    ensures var ra, rb := PushAll(a, segments, DriveRooted), PushAll(b, segments, DriveRooted);
            ra.Ok? ==> rb.Ok? && Alike(ra.value, rb.value)
    decreases |segments|
  {
    hide Push; hide Alike;
    if segments != [] {
      PushKeepsAlike(a, b, segments[0]);
      if Push(a, segments[0], DriveRooted).Ok? {
        PushAllKeepsAlike(Push(a, segments[0], DriveRooted).value, Push(b, segments[0], DriveRooted).value, segments[1..]);
      }
    }
  }

  // ----- one verdict -----

  /** A pattern that says nothing of a profile's name: nothing below `Users`, or
      whatever the name. */
  predicate WildProfile(pattern: seq<string>) {
    pattern != [] && (|pattern| == 1 || pattern[1] == "*" || (pattern[0] != "" && pattern[0][0] == 'P'))
  }

  ghost predicate AllWild(patterns: seq<seq<string>>) {
    forall i :: 0 <= i < |patterns| ==> WildProfile(patterns[i])
  }

  lemma TablesAreWild()
    ensures AllWild(Containers()) && AllWild(WindowsData())
  {
  }

  lemma NotUsers(name: string)
    requires name != "" && name[0] == 'P'
    ensures !EqFold("USERS", name)
  {
    if EqFold("USERS", name) {
      FoldIndex("USERS", name, 0);
    }
  }

  lemma PatternMoved(a: seq<string>, b: seq<string>, pattern: seq<string>)
    requires Moved(a, b) && WildProfile(pattern)
    ensures StartsWithPattern(a, pattern) <==> StartsWithPattern(b, pattern)
    ensures EqualsPattern(a, pattern) <==> EqualsPattern(b, pattern)
  {
    if |pattern| > 1 && pattern[1] != "*" {
      NotUsers(pattern[0]);
    }
    hide LowerAll;
  }

  lemma AnyMoved(a: seq<string>, b: seq<string>, patterns: seq<seq<string>>)
    requires Moved(a, b) && AllWild(patterns)
    ensures StartsWithAny(a, patterns) <==> StartsWithAny(b, patterns)
    ensures EqualsAny(a, patterns) <==> EqualsAny(b, patterns)
  {
    hide Moved; hide WildProfile; hide StartsWithPattern; hide EqualsPattern;
    forall i | 0 <= i < |patterns|
      ensures StartsWithPattern(a, patterns[i]) <==> StartsWithPattern(b, patterns[i])
      ensures EqualsPattern(a, patterns[i]) <==> EqualsPattern(b, patterns[i])
    {
      PatternMoved(a, b, patterns[i]);
    }
  }

  lemma ResidentIsNoLibrary(name: string)
    requires Resident(name)
    ensures !EqFold(name, "STEAMAPPS")
  {
    assert |LowerAll(name)| != |LowerAll("STEAMAPPS")|;
  }

  lemma ContainerMoved(a: seq<string>, b: seq<string>)
    requires Moved(a, b) && |a| > 2 && IsContainer(b)
    ensures IsContainer(a)
  {
    hide AnyFold; hide EqFold; hide EqualsAny; hide Resident; hide LibraryLeaves; hide SteamappsContainers; hide AllWild;
    TablesAreWild();
    hide Containers; hide WindowsData;
    AnyMoved(a, b, Containers());
    ResidentIsNoLibrary(b[1]);
  }

  lemma ProfileIsContainer(a: seq<string>)
    requires |a| == 2 && a[0] == "USERS"
    ensures IsContainer(a)
  {
    assert EqualsPattern(a, Containers()[0]);
  }

  lemma OrdinaryMoved(a: seq<string>, b: seq<string>)
    requires Moved(a, b) && EvaluateOrdinary(a) == Allowed
    ensures EvaluateOrdinary(b) == Allowed
  {
    hide IsContainer; hide StartsWithAny; hide StartsWithPattern; hide AnyFold; hide IsUserHive; hide Resident; hide AllWild;
    hide Containers; hide WindowsData; hide WildProfile;
    if |a| == 2 { ProfileIsContainer(a); }
    TablesAreWild();
    AnyMoved(a, b, WindowsData());
    StartsMoved(a, b);
    if |a| > 2 && IsContainer(b) { ContainerMoved(a, b); }
  }

  lemma StartsMoved(a: seq<string>, b: seq<string>)
    requires Moved(a, b)
    ensures StartsWithPattern(a, ["ProgramData", "Microsoft"]) <==> StartsWithPattern(b, ["ProgramData", "Microsoft"])
  {
    PatternMoved(a, b, ["ProgramData", "Microsoft"]);
    hide StartsWithPattern;
  }

  lemma UsersIsNoWindows()
    ensures !EqFold("USERS", "WINDOWS")
  {
  }

  lemma VerdictMoved(p: CanonicalPath, q: CanonicalPath, exceptions: Exceptions)
    requires EvaluatePath(p, exceptions, CatalogLoad) == Allowed
    requires q.kind == DriveRooted && Alike(Stack(p.components, p.shortName), Stack(q.components, q.shortName))
    ensures EvaluatePath(q, exceptions, CatalogLoad) == Allowed
  {
    hide AnyFold; hide EvaluateOrdinary; hide ProtectedTopLevel; hide EqFold; hide WindowsDirectoryException;
    AllowedPaths(p, exceptions, CatalogLoad);
    UsersIsNoWindows();
    if Moved(p.components, q.components) {
      assert !IsProtectedTop(p.components[0]);
      OrdinaryMoved(p.components, q.components);
    } else {
      hide Moved; hide IsProtectedTop;
    }
  }

  // ----- from the text of a path -----

  /** A name of letters, which is pushed as it stands, in upper case. */
  predicate Pushes(name: string, upper: string) {
    name != "" && UpperAll(name) == upper && forall c :: c in name ==> IsLetter(c)
  }

  lemma PushPlain(stack: Stack, name: string, upper: string)
    requires Pushes(name, upper)
    ensures Push(stack, name, DriveRooted) == Ok(Stack(stack.components + [upper], stack.shortName))
    ensures '/' !in name && '\\' !in name && '\0' !in name
  {
    hide UpperAll;
    assert name[|name| - 1] in name;
    assert Stem(name) == name;
    var stem := name[..IndexOf(name, '.')];
    forall i | 0 <= i < |stem| ensures stem[i] != '~' {
      assert name[i] in name;
    }
    assert LastIndexOf(stem, '~') < 0;
  }

  lemma UsersPushes(u: string)
    requires EqFold(u, "Users")
    ensures Pushes(u, "USERS") && |u| == 5
  {
    EqFoldIsUpper(u, "Users");
    Uppers("Users", "USERS");
    hide UpperAll; hide EqFold;
    forall i | 0 <= i < |u| ensures IsLetter(u[i]) {
      FoldIndex(u, "Users", i);
    }
    FoldIndex(u, "Users", 0);
  }

  lemma OneSegment(name: string)
    requires '/' !in name && '\\' !in name
    ensures Split(Unified(name), '\\') == [name]
  {
    UnifiedIsPlain(name);
    SplitPiece(name, '\\');
  }

  /** What is pushed for `X:\Users\name\post`. */
  function ProfileStack(name: string, post: string): Result<Stack, PathError> {
    Continued(Push(Stack(["USERS"], false), name, DriveRooted), Tail(post), DriveRooted)
  }

  lemma UsersBelow(pre: string)
    requires Drive(pre) && |pre| == 8 && EqFold(pre[3..], "Users")
    ensures BelowDrive(pre) == [pre[3..]]
    ensures PushAll(Stack([], false), BelowDrive(pre), DriveRooted) == Ok(Stack(["USERS"], false))
  {
    var u := pre[3..];
    UsersPushes(u);
    OneSegment(u);
    UnifiedAt(pre);
    UnifiedAt(u);
    assert Unified(pre)[3..] == Unified(u);
    PushPlain(Stack([], false), u, "USERS");
    PushOne(Stack([], false), u);
    assert [] + ["USERS"] == ["USERS"];
  }

  lemma ProfileForm(pre: string, name: string, post: string)
    requires Drive(pre) && |pre| == 8 && EqFold(pre[3..], "Users") && '\0' !in pre
    requires '/' !in name && '\\' !in name && '\0' !in name && '\0' !in post
    ensures Canonical(pre + "\\" + name + "\\" + post) == DrivePath(pre[0], ProfileStack(name, post))
  {
    UsersBelow(pre);
    OneSegment(name);
    Inserted(pre, name, post);
    PushOne(Stack(["USERS"], false), name);
    hide Tail; hide Push;
  }

  /** The parts of a path in a profile, and that they spell it. */
  lemma ProfileSpelled(path: string)
    requires SplitProfile(path).Some?
    ensures var (profile, rest) := SplitProfile(path).value;
            && |path| > 8 && Drive(path[..8]) && EqFold(path[..8][3..], "Users")
            && '\\' !in profile && profile != "" && path == path[..8] + "\\" + profile + rest
            && (rest == "" || rest[0] == '\\')
  {
    hide EqFold;
    var below := path[9..];
    var cut := IndexOf(below, '\\');
    hide IndexOf;
    assert path[3..][..5] == path[..8][3..] && path[3..][5..][1..] == below;
    assert below == below[..cut] + below[cut..];
    assert path == path[..8] + "\\" + below;
  }

  lemma WithSeparator(pre: string, name: string, rest: string)
    requires rest != "" && rest[0] == '\\'
    ensures pre + "\\" + name + rest == pre + "\\" + name + "\\" + rest[1..]
  {
    assert rest == "\\" + rest[1..];
  }

  lemma CanonicalHasNoNul(path: string)
    requires Canonical(path).Ok?
    ensures '\0' !in path
  {
  }

  // ----- a profile with nothing below it -----

  lemma BareProfileIsRefused(pre: string, profile: string, exceptions: Exceptions)
    requires Drive(pre) && |pre| == 8 && EqFold(pre[3..], "Users") && '\\' !in profile && '/' !in profile
    ensures !PathSafe(pre + "\\" + profile, exceptions)
  {
    var path := pre + "\\" + profile;
    hide EqFold; hide Canonical; hide EvaluatePath; hide Push; hide TrimEnd; hide Unified; hide BelowDrive; hide PushAll;
    if PathSafe(path, exceptions) {
      BareForm(pre, profile);
      BareStack(TrimEnd(profile));
      BareIsRefused(Canonical(path).value, exceptions);
      assert false;
    }
  }

  lemma BareForm(pre: string, profile: string)
    requires Drive(pre) && |pre| == 8 && EqFold(pre[3..], "Users") && '\\' !in profile && '/' !in profile
    requires Canonical(pre + "\\" + profile).Ok?
    ensures Canonical(pre + "\\" + profile) == DrivePath(pre[0], Push(Stack(["USERS"], false), TrimEnd(profile), DriveRooted))
  {
    hide EqFold; hide Push; hide Unified; hide DrivePath;
    CanonicalHasNoNul(pre + "\\" + profile);
    hide Canonical;
    UsersBelow(pre);
    assert '\0' !in pre && '\0' !in profile;
    DriveForm(pre, profile);
    UnifiedIsPlain(profile);
    var last := TrimEnd(profile);
    SplitPiece(last, '\\');
    PushAllConcat(Stack([], false), BelowDrive(pre), [last], DriveRooted);
    PushOne(Stack(["USERS"], false), last);
  }

  lemma BareIsRefused(p: CanonicalPath, exceptions: Exceptions)
    requires |p.components| <= 2 && (|p.components| == 2 ==> p.components[0] == "USERS")
    ensures EvaluatePath(p, exceptions, CatalogLoad) != Allowed
  {
    hide IsContainer; hide IsUserHive; hide StartsWithAny; hide StartsWithPattern; hide AnyFold; hide EqFold;
    if |p.components| == 2 {
      UsersIsNoWindows();
      ProfileIsContainer(p.components);
    }
  }

  lemma BareStack(last: string)
    ensures var r := Push(Stack(["USERS"], false), last, DriveRooted);
            r.Ok? ==> |r.value.components| <= 2 && (|r.value.components| == 2 ==> r.value.components[0] == "USERS")
  {
    hide IsShortName; hide Stem; hide UpperAll;
  }

  // ----- the law -----

  lemma ResidentPushes()
    ensures Pushes("ExampleUser", "EXAMPLEUSER") && Pushes("Public", "PUBLIC")
  {
    hide UpperAll;
    Uppers("ExampleUser", "EXAMPLEUSER");
    Uppers("Public", "PUBLIC");
  }

  lemma SafeProfile(pre: string, profile: string, post: string, name: string, upper: string, exceptions: Exceptions)
    requires Drive(pre) && |pre| == 8 && EqFold(pre[3..], "Users")
    requires '\\' !in profile && profile != "" && PlainProfile(profile)
    requires Pushes(name, upper) && Resident(upper)
    requires PathSafe(pre + "\\" + profile + "\\" + post, exceptions)
    ensures PathSafe("C:\\Users" + "\\" + name + "\\" + post, exceptions)
  {
    var path, home, users := pre + "\\" + profile + "\\" + post, "C:\\Users", Stack(["USERS"], false);
    HomeIsUsers();
    hide EqFold; hide Tail; hide EvaluatePath; hide Alike; hide Push; hide PushAll; hide Stem; hide Pushes; hide Resident;
    hide PlainProfile; hide Drive; hide BelowDrive;
    CanonicalHasNoNul(path);
    hide Canonical;
    assert '\0' !in pre && '\0' !in profile && '\0' !in post;
    PlainHasNoSlash(profile);
    ProfileForm(pre, profile, post);
    PushPlain(users, name, upper);
    ProfileForm(home, name, post);
    ProfilePushed(profile, upper);
    PushAllKeepsAlike(Push(users, profile, DriveRooted).value, Push(users, name, DriveRooted).value, Tail(post));
    VerdictMoved(Canonical(path).value, Canonical(home + "\\" + name + "\\" + post).value, exceptions);
  }

  lemma PlainHasNoSlash(profile: string)
    requires PlainProfile(profile)
    ensures '/' !in profile
  {
  }

  lemma HomeIsUsers()
    ensures Drive("C:\\Users") && EqFold("C:\\Users"[3..], "Users") && '\0' !in "C:\\Users"
  {
    assert "C:\\Users"[3..] == "Users";
  }

  lemma ProfilePushed(profile: string, upper: string)
    requires profile != "" && PlainProfile(profile) && Resident(upper)
    ensures var r := Push(Stack(["USERS"], false), profile, DriveRooted);
            r.Ok? ==> Alike(r.value, Stack(["USERS"] + [upper], false))
  {
    hide IsShortName; hide Stem; hide UpperAll;
  }

  /** A path in a profile that the deny-list allows is allowed in any other. */
  lemma RelocatedIsSafe(path: string, exceptions: Exceptions)
    requires SplitProfile(path).Some? && PlainProfile(SplitProfile(path).value.0) && PathSafe(path, exceptions)
    ensures PathSafe(Relocated(path), exceptions)
  {
    hide PathSafe; hide EqFold; hide Pushes; hide LowerAll; hide Drive;
    ProfileSpelled(path);
    hide SplitProfile;
    var (profile, rest) := SplitProfile(path).value;
    var pre := path[..8];
    if rest == "" {
      assert pre + "\\" + profile + rest == pre + "\\" + profile;
      BareProfileIsRefused(pre, profile, exceptions);
    } else {
      hide PlainProfile;
      SafeInAny(pre, profile, rest, exceptions);
    }
  }

  lemma SafeInAny(pre: string, profile: string, rest: string, exceptions: Exceptions)
    requires Drive(pre) && |pre| == 8 && EqFold(pre[3..], "Users")
    requires '\\' !in profile && profile != "" && PlainProfile(profile) && rest != "" && rest[0] == '\\'
    requires PathSafe(pre + "\\" + profile + rest, exceptions)
    ensures PathSafe("C:\\Users\\ExampleUser" + rest, exceptions)
    ensures PathSafe("C:\\Users\\Public" + rest, exceptions)
  {
    var post, home := rest[1..], "C:\\Users";
    ResidentPushes();
    HomesSpelled();
    assert Resident("EXAMPLEUSER") && Resident("PUBLIC");
    hide PathSafe; hide EqFold; hide Pushes; hide LowerAll; hide Drive; hide PlainProfile; hide Resident;
    WithSeparator(pre, profile, rest);
    SafeProfile(pre, profile, post, "ExampleUser", "EXAMPLEUSER", exceptions);
    SafeProfile(pre, profile, post, "Public", "PUBLIC", exceptions);
    assert home + "\\" + "ExampleUser" + rest == home + "\\" + "ExampleUser" + "\\" + post by {
      WithSeparator(home, "ExampleUser", rest);
    }
    assert home + "\\" + "Public" + rest == home + "\\" + "Public" + "\\" + post by {
      WithSeparator(home, "Public", rest);
    }
  }

  lemma HomesSpelled()
    ensures "C:\\Users" + "\\" + "ExampleUser" == "C:\\Users\\ExampleUser"
    ensures "C:\\Users" + "\\" + "Public" == "C:\\Users\\Public"
  {
  }

  // ----- the two names that are not plain -----

  const SCRATCH: string := "AppData\\Local\\Temp"
  const SCRATCH_PARTS: seq<string> := ["AppData", "Local", "Temp"]
  const SCRATCH_COMPONENTS: seq<string> := ["APPDATA", "LOCAL", "TEMP"]

  lemma ScratchPushes()
    ensures Pushes("AppData", "APPDATA") && Pushes("Local", "LOCAL") && Pushes("Temp", "TEMP")
  {
    hide UpperAll;
    Uppers("AppData", "APPDATA");
    Uppers("Local", "LOCAL");
    Uppers("Temp", "TEMP");
  }

  lemma ThreePieces(a: string, b: string, c: string)
    requires '\\' !in a && '\\' !in b && '\\' !in c
    ensures Split(a + ['\\'] + (b + ['\\'] + c), '\\') == [a, b, c]
  {
    hide Split;
    SplitAt(a, b + ['\\'] + c, '\\');
    SplitAt(b, c, '\\');
    SplitPiece(a, '\\');
    SplitPiece(b, '\\');
    SplitPiece(c, '\\');
  }

  lemma ScratchSpelled()
    ensures SCRATCH == "AppData" + ['\\'] + ("Local" + ['\\'] + "Temp")
    ensures '\\' !in "AppData" && '\\' !in "Local" && '\\' !in "Temp"
  {
  }

  lemma ScratchTail()
    ensures Tail(SCRATCH) == SCRATCH_PARTS && '\0' !in SCRATCH
  {
    ScratchPlain();
    ScratchSpelled();
    hide Unified; hide TrimEnd; hide Split;
    ThreePieces("AppData", "Local", "Temp");
  }

  lemma ScratchPlain()
    ensures Unified(SCRATCH) == SCRATCH && TrimEnd(SCRATCH) == SCRATCH && '\0' !in SCRATCH
  {
    UnifiedIsPlain(SCRATCH);
    hide Unified;
  }

  lemma PushScratch(stack: Stack)
    ensures PushAll(stack, SCRATCH_PARTS, DriveRooted) == Ok(Stack(stack.components + SCRATCH_COMPONENTS, stack.shortName))
  {
    ScratchPushes();
    hide Pushes; hide Push;
    PushPlain(stack, "AppData", "APPDATA");
    var one := Stack(stack.components + ["APPDATA"], stack.shortName);
    PushPlain(one, "Local", "LOCAL");
    var two := Stack(one.components + ["LOCAL"], stack.shortName);
    PushPlain(two, "Temp", "TEMP");
    assert SCRATCH_PARTS[1..] == ["Local", "Temp"] && SCRATCH_PARTS[1..][1..] == ["Temp"];
    assert ["Temp"][1..] == [];
    assert two.components + ["TEMP"] == stack.components + SCRATCH_COMPONENTS;
  }

  lemma ScratchForm(name: string, stack: Stack)
    requires '/' !in name && '\\' !in name && '\0' !in name
    requires Push(Stack(["USERS"], false), name, DriveRooted) == Ok(stack)
    ensures Canonical("C:\\Users" + "\\" + name + "\\" + SCRATCH)
         == DrivePath('C', Ok(Stack(stack.components + SCRATCH_COMPONENTS, stack.shortName)))
  {
    HomeIsUsers();
    ScratchTail();
    hide EqFold; hide Push; hide Drive; hide Tail; hide DrivePath; hide Canonical;
    ProfileForm("C:\\Users", name, SCRATCH);
    PushScratch(stack);
  }

  lemma FirstDiffers(a: string, b: string)
    requires a != "" && b != "" && Lower(a[0]) != Lower(b[0])
    ensures !EqFold(a, b)
  {
    if EqFold(a, b) {
      FoldIndex(a, b, 0);
    }
  }

  /** Names none of which begins with a given letter. */
  ghost predicate NoneBegins(names: seq<string>, c: char) {
    forall i :: 0 <= i < |names| ==> names[i] != "" && Lower(names[i][0]) != Lower(c)
  }

  lemma NoneIs(names: seq<string>, name: string)
    requires name != "" && NoneBegins(names, name[0])
    ensures !AnyFold(names, name)
  {
    hide EqFold;
    forall i | 0 <= i < |names| ensures !EqFold(names[i], name) {
      FirstDiffers(names[i], name);
    }
  }

  lemma TablesBegin()
    ensures NoneBegins(ProtectedTopLevel(), 'A') && NoneBegins(ProtectedTopLevel(), 'U') && NoneBegins(LibraryLeaves(), 'T')
  {
  }

  /** Every pattern of a table differs from a list at one place. */
  lemma PatternDiffers(c: seq<string>, pattern: seq<string>, i: nat)
    requires i < |pattern| && pattern[i] != "*" && pattern[i] != ""
    requires i < |c| ==> c[i] != "" && Lower(c[i][0]) != Lower(pattern[i][0])
    ensures !StartsWithPattern(c, pattern)
  {
    if i < |c| {
      FirstDiffers(c[i], pattern[i]);
    }
  }

  /** A pattern that leaves the scratch directory alone, in or out of `Users`. */
  predicate Spares(pattern: seq<string>) {
    && pattern != [] && pattern[0] != "" && (pattern[0][0] == 'U' || pattern[0][0] == 'P')
    && (pattern[0][0] == 'P' || |pattern| != 4 || (pattern[2] != "" && pattern[2] != "*" && Lower(pattern[2][0]) != 'l'))
  }

  lemma TablesSpare()
    ensures forall i :: 0 <= i < |Containers()| ==> Spares(Containers()[i])
    ensures forall i :: 0 <= i < |WindowsData()| ==> Spares(WindowsData()[i]) && |WindowsData()[i]| != 4
    ensures forall i :: 0 <= i < |WindowsData()| ==> WindowsData()[i][0][0] == 'P' || |WindowsData()[i]| > 4
  {
  }

  lemma SparedAbove(c: seq<string>, pattern: seq<string>)
    requires c == SCRATCH_COMPONENTS && Spares(pattern)
    ensures !StartsWithPattern(c, pattern)
  {
    PatternDiffers(c, pattern, 0);
    hide StartsWithPattern;
  }

  lemma SparedBelow(c: seq<string>, pattern: seq<string>)
    requires c == ["USERS"] + SCRATCH_COMPONENTS && Spares(pattern)
    ensures !EqualsPattern(c, pattern)
    ensures pattern[0][0] == 'P' ==> !StartsWithPattern(c, pattern)
  {
    if pattern[0][0] == 'P' {
      PatternDiffers(c, pattern, 0);
    } else if |pattern| == 4 {
      PatternDiffers(c, pattern, 2);
    }
    hide StartsWithPattern;
  }

  lemma ScratchIsSpared(c: seq<string>)
    requires c == SCRATCH_COMPONENTS || c == ["USERS"] + SCRATCH_COMPONENTS
    ensures !EqualsAny(c, Containers()) && !StartsWithAny(c, WindowsData())
    ensures !StartsWithPattern(c, ["ProgramData", "Microsoft"])
  {
    TablesSpare();
    hide Containers; hide WindowsData; hide Spares; hide StartsWithPattern;
    forall i | 0 <= i < |Containers()| ensures !EqualsPattern(c, Containers()[i]) {
      if c == SCRATCH_COMPONENTS { SparedAbove(c, Containers()[i]); } else { SparedBelow(c, Containers()[i]); }
    }
    forall i | 0 <= i < |WindowsData()| ensures !StartsWithPattern(c, WindowsData()[i]) {
      if c == SCRATCH_COMPONENTS {
        SparedAbove(c, WindowsData()[i]);
      } else if |WindowsData()[i]| > 4 {
        TooLong(c, WindowsData()[i]);
      } else {
        SparedBelow(c, WindowsData()[i]);
      }
    }
    PatternDiffers(c, ["ProgramData", "Microsoft"], 0);
  }

  lemma TooLong(c: seq<string>, pattern: seq<string>)
    requires |pattern| > |c|
    ensures !StartsWithPattern(c, pattern)
  {
  }

  lemma ScratchIsAllowed(p: CanonicalPath, exceptions: Exceptions)
    requires p.components == SCRATCH_COMPONENTS || p.components == ["USERS"] + SCRATCH_COMPONENTS
    requires p.kind == DriveRooted && !p.shortName
    ensures EvaluatePath(p, exceptions, CatalogLoad) == Allowed
  {
    hide Containers; hide WindowsData; hide AnyFold; hide StartsWithPattern; hide StartsWithAny; hide EqualsAny; hide EqFold;
    hide ProtectedTopLevel; hide LibraryLeaves; hide SteamappsContainers;
    var c := p.components;
    ScratchIsSpared(c);
    TablesBegin();
    NoneIs(ProtectedTopLevel(), c[0]);
    assert c[|c| - 1] == "TEMP" && c[|c| - 2] == "LOCAL";
    NoneIs(LibraryLeaves(), "TEMP");
    FirstDiffers("LOCAL", "STEAMAPPS");
    assert UserHiveFiles() == ["NTUSER.DAT", "USRCLASS.DAT"];
    assert "NTUSER.DAT"[0] == 'N' && "USRCLASS.DAT"[0] == 'U' && "TEMP"[0] == 'T';
    assert !IsUserHive("TEMP");
  }

  lemma HomeScratchIsContainer(c: seq<string>)
    requires |c| == 5 && c[0] == "USERS" && c[2] == "APPDATA" && c[3] == "LOCAL" && c[4] == "TEMP"
    ensures IsContainer(c)
  {
    hide LowerAll; hide LibraryLeaves; hide SteamappsContainers;
    assert Containers()[7] == ["USERS", "*", "APPDATA", "LOCAL", "TEMP"];
    hide Containers;
    assert EqualsPattern(c, Containers()[7]);
  }

  lemma ContainersAreRefused(p: CanonicalPath, exceptions: Exceptions)
    requires IsContainer(p.components) && p.components != [] && p.components[0] == "USERS"
    ensures EvaluatePath(p, exceptions, CatalogLoad) != Allowed
  {
    UsersIsNoWindows();
    hide IsContainer; hide IsUserHive; hide StartsWithAny; hide StartsWithPattern; hide AnyFold; hide EqFold;
  }

  lemma ScratchAtHomeIsRefused(p: CanonicalPath, exceptions: Exceptions)
    requires p.components == ["USERS", "EXAMPLEUSER"] + SCRATCH_COMPONENTS
    ensures EvaluatePath(p, exceptions, CatalogLoad) != Allowed
  {
    hide IsContainer; hide EvaluatePath;
    var c := p.components;
    assert c[0] == "USERS" && c[2] == "APPDATA" && c[3] == "LOCAL" && c[4] == "TEMP";
    HomeScratchIsContainer(c);
    ContainersAreRefused(p, exceptions);
  }

  lemma RelativePushed(profile: string)
    requires profile == "." || profile == ".."
    ensures Push(Stack(["USERS"], false), profile, DriveRooted)
         == Ok(if profile == "." then Stack(["USERS"], false) else Stack([], false))
    ensures '/' !in profile && '\\' !in profile && '\0' !in profile
    ensures |LowerAll(profile)| != |LowerAll("public")|
  {
    assert ["USERS"][..0] == [];
  }

  /** A path in a profile, of its parts. */
  lemma SplitsAsSpelled(pre: string, profile: string, rest: string)
    requires Drive(pre) && |pre| == 8 && EqFold(pre[3..], "Users") && pre[2] == '\\'
    requires profile != "" && '\\' !in profile && rest != "" && rest[0] == '\\'
    ensures SplitProfile(pre + "\\" + profile + rest) == Some((profile, rest))
  {
    hide EqFold;
    var path, below := pre + "\\" + profile + rest, profile + rest;
    CutOfProfile(profile, rest);
    hide IndexOf;
    assert path == pre + ("\\" + below);
    assert path[3..] == pre[3..] + ("\\" + below);
    TakenOff(pre[3..], "\\" + below);
    assert ("\\" + below)[1..] == below;
  }

  lemma CutOfProfile(profile: string, rest: string)
    requires profile != "" && '\\' !in profile && rest != "" && rest[0] == '\\'
    ensures var below := profile + rest;
            IndexOf(below, '\\') == |profile| && below[..|profile|] == profile && below[|profile|..] == rest
  {
    var below := profile + rest;
    assert below[|profile|] == '\\';
    assert forall j :: 0 <= j < |profile| ==> below[j] == profile[j] && profile[j] in profile;
  }

  lemma TakenOff(users: string, tail: string)
    requires EqFold(users, "Users") && |users| == 5 && tail != "" && tail[0] == '\\'
    ensures WithoutComponents(users + tail, "Users") == Some(tail)
  {
    hide EqFold;
    assert (users + tail)[..5] == users && (users + tail)[5..] == tail;
  }

  lemma ScratchBelow()
    ensures var rest := "\\" + SCRATCH; rest[0] == '\\' && rest[1..] == SCRATCH && '%' !in rest
  {
  }

  lemma RelativeIsSafe(home: string, profile: string, exceptions: Exceptions)
    requires home == "C:\\Users" && (profile == "." || profile == "..")
    ensures PathSafe(home + "\\" + profile + "\\" + SCRATCH, exceptions)
  {
    hide Canonical; hide EvaluatePath; hide Push;
    RelativePushed(profile);
    ScratchForm(profile, if profile == "." then Stack(["USERS"], false) else Stack([], false));
    assert [] + SCRATCH_COMPONENTS == SCRATCH_COMPONENTS;
    ScratchIsAllowed(Canonical(home + "\\" + profile + "\\" + SCRATCH).value, exceptions);
  }

  lemma HomeScratchIsRefused(home: string, exceptions: Exceptions)
    requires home == "C:\\Users"
    ensures !PathSafe(home + "\\" + "ExampleUser" + "\\" + SCRATCH, exceptions)
  {
    hide Canonical; hide EvaluatePath; hide Push; hide Pushes;
    ResidentPushes();
    PushPlain(Stack(["USERS"], false), "ExampleUser", "EXAMPLEUSER");
    assert ["USERS"] + ["EXAMPLEUSER"] == ["USERS", "EXAMPLEUSER"];
    ScratchForm("ExampleUser", Stack(["USERS", "EXAMPLEUSER"], false));
    ScratchAtHomeIsRefused(Canonical(home + "\\" + "ExampleUser" + "\\" + SCRATCH).value, exceptions);
  }

  /** `.` and `..` are not plain: each gives a path that is allowed and whose
      relocation, which is what its template stands for, is not. */
  lemma RelativeProfileFails(profile: string, exceptions: Exceptions) returns (path: string)
    requires profile == "." || profile == ".."
    ensures SplitProfile(path) == Some((profile, "\\" + SCRATCH)) && KeepsNoPercent(path)
    ensures PathSafe(path, exceptions) && !PathSafe(Relocated(path), exceptions)
  {
    hide SplitProfile; hide PathSafe; hide LowerAll; hide Drive;
    var home, rest := "C:\\Users", "\\" + SCRATCH;
    path := home + "\\" + profile + rest;
    HomeIsUsers();
    HomesSpelled();
    ScratchBelow();
    RelativePushed(profile);
    RelativeIsSafe(home, profile, exceptions);
    HomeScratchIsRefused(home, exceptions);
    WithSeparator(home, profile, rest);
    WithSeparator(home, "ExampleUser", rest);
    SplitsAsSpelled(home, profile, rest);
  }
}
