// The exact verdicts of the deny-list, in terms of the names they are about:
// core/src/safety/denylist.rs. What is refused, what it is refused for, and
// that nothing else is.
module Verdicts {
  import opened Prelude
  import opened Text
  import opened Paths
  import opened PathLaws
  import opened PathSpellings
  import opened RegKeys
  import opened DenyList

  // ----- names in any letter case -----

  /** The same names, in any case. */
  ghost predicate Are(c: seq<string>, names: seq<string>) {
    |c| == |names| && forall i :: 0 <= i < |c| ==> EqFold(c[i], names[i])
  }

  /** These names first, in any case. */
  ghost predicate Begin(c: seq<string>, names: seq<string>) {
    |names| <= |c| && Are(c[..|names|], names)
  }

  ghost predicate AreAny(c: seq<string>, lists: seq<seq<string>>) {
    exists i :: 0 <= i < |lists| && Are(c, lists[i])
  }

  ghost predicate BeginAny(c: seq<string>, lists: seq<seq<string>>) {
    exists i :: 0 <= i < |lists| && Begin(c, lists[i])
  }

  predicate IsAny(name: string, names: seq<string>) {
    exists i :: 0 <= i < |names| && EqFold(name, names[i])
  }

  /** Names, none of which is the wildcard. */
  predicate Written(names: seq<string>) {
    forall i :: 0 <= i < |names| ==> |names[i]| > 1
  }

  predicate AllWritten(lists: seq<seq<string>>) {
    forall i :: 0 <= i < |lists| ==> Written(lists[i])
  }

  lemma StartsIsBegin(c: seq<string>, names: seq<string>)
    requires Written(names)
    ensures StartsWithPattern(c, names) <==> Begin(c, names)
    ensures EqualsPattern(c, names) <==> Are(c, names)
  {
    hide EqFold;
    assert forall i :: 0 <= i < |names| ==> names[i] != "*";
    if |names| <= |c| {
      assert forall i :: 0 <= i < |names| ==> c[..|names|][i] == c[i];
    }
    if |names| == |c| {
      assert c[..|names|] == c;
    }
  }

  lemma StartsAtHome(c: seq<string>, names: seq<string>)
    requires Written(names)
    ensures StartsWithPattern(c, ["USERS", "*"] + names) <==> |c| >= 2 && EqFold(c[0], "USERS") && Begin(c[2..], names)
    ensures EqualsPattern(c, ["USERS", "*"] + names) <==> |c| >= 2 && EqFold(c[0], "USERS") && Are(c[2..], names)
  {
    hide EqFold; hide StartsWithPattern; hide EqualsPattern;
    if |c| >= 2 {
      assert c == [c[0], c[1]] + c[2..];
      BelowHome(c[0], c[1], c[2..], names);
      StartsIsBegin(c[2..], names);
    } else {
      TooShort(c, ["USERS", "*"] + names);
    }
    LengthsMatch(c, ["USERS", "*"] + names);
    if |c| >= 2 {
      LengthsMatch(c[2..], names);
    }
  }

  lemma LengthsMatch(c: seq<string>, pattern: seq<string>)
    ensures EqualsPattern(c, pattern) <==> |c| == |pattern| && StartsWithPattern(c, pattern)
  {
  }

  lemma TooShort(c: seq<string>, pattern: seq<string>)
    requires |c| < |pattern|
    ensures !StartsWithPattern(c, pattern)
  {
  }

  lemma BelowHome(a: string, b: string, c: seq<string>, names: seq<string>)
    ensures StartsWithPattern([a, b] + c, ["USERS", "*"] + names) <==> EqFold(a, "USERS") && StartsWithPattern(c, names)
  {
    hide EqFold;
    var whole, pattern := [a, b] + c, ["USERS", "*"] + names;
    assert "USERS" != "*";
    assert pattern[0] == "USERS" && pattern[1] == "*" && whole[0] == a;
    if StartsWithPattern(whole, pattern) {
      forall i | 0 <= i < |names| ensures names[i] == "*" || EqFold(c[i], names[i]) {
        assert pattern[i + 2] == names[i] && whole[i + 2] == c[i];
      }
    }
    if EqFold(a, "USERS") && StartsWithPattern(c, names) {
      forall i | 0 <= i < |pattern| ensures pattern[i] == "*" || EqFold(whole[i], pattern[i]) {
        if i >= 2 {
          assert pattern[i] == names[i - 2] && whole[i] == c[i - 2];
        }
      }
    }
  }

  // ----- the folders of a machine that are everybody's -----

  /** Folders of a profile that hold other software's files or the user's own. */
  const HOME_FOLDERS: seq<seq<string>> :=
    [ [], ["APPDATA"], ["APPDATA", "LOCAL"], ["APPDATA", "LOCALLOW"], ["APPDATA", "ROAMING"],
      ["APPDATA", "LOCAL", "PROGRAMS"], ["APPDATA", "LOCAL", "PACKAGES"], ["APPDATA", "LOCAL", "TEMP"],
      ["CONTACTS"], ["DESKTOP"], ["DOCUMENTS"], ["DOCUMENTS", "MY GAMES"], ["DOWNLOADS"], ["FAVORITES"], ["LINKS"],
      ["MUSIC"], ["ONEDRIVE"], ["PICTURES"], ["SAVED GAMES"], ["SEARCHES"], ["VIDEOS"] ]

  const SHARED_FOLDERS: seq<seq<string>> :=
    [ ["PROGRAM FILES", "COMMON FILES"], ["PROGRAM FILES (X86)", "COMMON FILES"], ["PROGRAMDATA", "PACKAGE CACHE"],
      ["PROGRAM FILES", "STEAM"], ["PROGRAM FILES (X86)", "STEAM"] ]

  /** Windows' own data in a profile, and in the program folders. */
  const HOME_DATA: seq<seq<string>> :=
    [ ["APPDATA", "LOCAL", "MICROSOFT"], ["APPDATA", "LOCALLOW", "MICROSOFT"], ["APPDATA", "ROAMING", "MICROSOFT"] ]

  const PROGRAM_DATA: seq<seq<string>> :=
    [ ["PROGRAM FILES", "WINDOWSAPPS"], ["PROGRAM FILES", "WINDOWS DEFENDER"],
      ["PROGRAM FILES", "WINDOWS DEFENDER ADVANCED THREAT PROTECTION"], ["PROGRAM FILES (X86)", "WINDOWS DEFENDER"] ]

  /** Exactly a shared folder, of a profile or of the machine. */
  ghost predicate IsSharedFolder(c: seq<string>) {
    (|c| >= 2 && EqFold(c[0], "USERS") && AreAny(c[2..], HOME_FOLDERS)) || AreAny(c, SHARED_FOLDERS)
  }

  /** In or at Windows' own data. */
  ghost predicate InWindowsData(c: seq<string>) {
    (|c| >= 2 && EqFold(c[0], "USERS") && BeginAny(c[2..], HOME_DATA)) || BeginAny(c, PROGRAM_DATA)
  }

  /** A game library's root, or a folder Steam keeps beside its games. */
  ghost predicate IsLibraryFolder(c: seq<string>)
    requires c != []
  {
    var last := c[|c| - 1];
    || EqFold(last, "STEAMLIBRARY") || EqFold(last, "STEAMAPPS") || EqFold(last, "EPIC GAMES")
    || (|c| >= 2 && EqFold(c[|c| - 2], "STEAMAPPS")
        && IsAny(last, ["COMMON", "COMPATDATA", "DOWNLOADING", "SHADERCACHE", "SOURCEMODS", "TEMP", "WORKSHOP"]))
  }

  predicate IsHive(name: string) {
    "NTUSER.DAT" <= name || "USRCLASS.DAT" <= name
  }

  predicate IsTopFolder(name: string) {
    IsAny(name, ["USERS", "PROGRAMDATA", "PROGRAM FILES", "PROGRAM FILES (X86)", "DOCUMENTS AND SETTINGS"])
  }

  predicate IsWindowsFolder(name: string) {
    IsAny(name, ["WINDOWS", "WINNT", "$RECYCLE.BIN", "SYSTEM VOLUME INFORMATION", "RECOVERY", "BOOT", "EFI", "PERFLOGS",
                 "$WINDOWS.~BT", "$WINDOWS.~WS"])
  }

  // ----- the tables say that -----

  lemma AnyFoldIsAny(names: seq<string>, name: string)
    ensures AnyFold(names, name) <==> IsAny(name, names)
  {
    hide LowerAll;
  }

  lemma FolderTables()
    ensures |Containers()| == |HOME_FOLDERS| + |SHARED_FOLDERS| && |WindowsData()| == |HOME_DATA| + |PROGRAM_DATA|
    ensures forall i :: 0 <= i < |HOME_FOLDERS| ==> Containers()[i] == ["USERS", "*"] + HOME_FOLDERS[i]
    ensures forall i :: 0 <= i < |SHARED_FOLDERS| ==> Containers()[i + |HOME_FOLDERS|] == SHARED_FOLDERS[i]
    ensures forall i :: 0 <= i < |HOME_DATA| ==> WindowsData()[i] == ["USERS", "*"] + HOME_DATA[i]
    ensures forall i :: 0 <= i < |PROGRAM_DATA| ==> WindowsData()[i + |HOME_DATA|] == PROGRAM_DATA[i]
  {
  }

  lemma FoldersAreWritten()
    ensures AllWritten(HOME_FOLDERS) && AllWritten(SHARED_FOLDERS) && AllWritten(HOME_DATA) && AllWritten(PROGRAM_DATA)
  {
  }

  /** A table of patterns at home, and then of written names. */
  ghost predicate TableOf(table: seq<seq<string>>, home: seq<seq<string>>, rest: seq<seq<string>>) {
    && |table| == |home| + |rest| && AllWritten(home) && AllWritten(rest)
    && (forall i :: 0 <= i < |home| ==> table[i] == ["USERS", "*"] + home[i])
    && (forall i :: 0 <= i < |rest| ==> table[i + |home|] == rest[i])
  }

  lemma TableEquals(table: seq<seq<string>>, home: seq<seq<string>>, rest: seq<seq<string>>, c: seq<string>)
    requires TableOf(table, home, rest)
    ensures EqualsAny(c, table) <==> (|c| >= 2 && EqFold(c[0], "USERS") && AreAny(c[2..], home)) || AreAny(c, rest)
  {
    hide EqualsPattern; hide Are; hide EqFold; hide StartsWithPattern;
    forall i | 0 <= i < |home|
      ensures EqualsPattern(c, table[i]) <==> |c| >= 2 && EqFold(c[0], "USERS") && Are(c[2..], home[i])
    {
      StartsAtHome(c, home[i]);
    }
    forall i | 0 <= i < |rest| ensures EqualsPattern(c, table[i + |home|]) <==> Are(c, rest[i]) {
      StartsIsBegin(c, rest[i]);
    }
    if EqualsAny(c, table) {
      var i :| 0 <= i < |table| && EqualsPattern(c, table[i]);
      if i >= |home| {
        assert table[i - |home| + |home|] == rest[i - |home|];
      }
    }
  }

  lemma TableStarts(table: seq<seq<string>>, home: seq<seq<string>>, rest: seq<seq<string>>, c: seq<string>)
    requires TableOf(table, home, rest)
    ensures StartsWithAny(c, table) <==> (|c| >= 2 && EqFold(c[0], "USERS") && BeginAny(c[2..], home)) || BeginAny(c, rest)
  {
    hide Begin; hide EqFold; hide StartsWithPattern;
    forall i | 0 <= i < |home|
      ensures StartsWithPattern(c, table[i]) <==> |c| >= 2 && EqFold(c[0], "USERS") && Begin(c[2..], home[i])
    {
      StartsAtHome(c, home[i]);
    }
    forall i | 0 <= i < |rest| ensures StartsWithPattern(c, table[i + |home|]) <==> Begin(c, rest[i]) {
      StartsIsBegin(c, rest[i]);
    }
    if StartsWithAny(c, table) {
      var i :| 0 <= i < |table| && StartsWithPattern(c, table[i]);
      if i >= |home| {
        assert table[i - |home| + |home|] == rest[i - |home|];
      }
    }
  }

  lemma FoldersAre(c: seq<string>)
    ensures EqualsAny(c, Containers()) <==> IsSharedFolder(c)
    ensures StartsWithAny(c, WindowsData()) <==> InWindowsData(c)
  {
    FolderTables();
    FoldersAreWritten();
    hide Containers; hide WindowsData; hide HOME_FOLDERS; hide SHARED_FOLDERS; hide HOME_DATA; hide PROGRAM_DATA;
    hide AreAny; hide BeginAny; hide EqualsAny; hide StartsWithAny; hide EqFold; hide AllWritten;
    TableEquals(Containers(), HOME_FOLDERS, SHARED_FOLDERS, c);
    TableStarts(WindowsData(), HOME_DATA, PROGRAM_DATA, c);
  }

  lemma LibrariesAre(c: seq<string>)
    requires c != []
    ensures IsContainer(c) <==> IsSharedFolder(c) || IsLibraryFolder(c)
  {
    hide EqFold; hide EqualsAny; hide IsSharedFolder; hide Containers;
    FoldersAre(c);
    var last := c[|c| - 1];
    AnyFoldIsAny(SteamappsContainers(), last);
    AnyFoldIsAny(LibraryLeaves(), last);
    LeavesAre(last);
    hide AnyFold; hide IsAny; hide LibraryLeaves;
  }

  lemma LeavesAre(name: string)
    ensures IsAny(name, LibraryLeaves()) <==> EqFold(name, "STEAMLIBRARY") || EqFold(name, "STEAMAPPS") || EqFold(name, "EPIC GAMES")
  {
    hide EqFold;
    assert EqFold(name, "STEAMLIBRARY") ==> EqFold(name, LibraryLeaves()[0]);
    assert EqFold(name, "STEAMAPPS") ==> EqFold(name, LibraryLeaves()[1]);
    assert EqFold(name, "EPIC GAMES") ==> EqFold(name, LibraryLeaves()[2]);
  }

  lemma HivesAre(name: string)
    ensures IsUserHive(name) <==> IsHive(name)
  {
    assert UserHiveFiles()[0] == "NTUSER.DAT" && UserHiveFiles()[1] == "USRCLASS.DAT";
    if "NTUSER.DAT" <= name { assert UserHiveFiles()[0] <= name; }
    if "USRCLASS.DAT" <= name { assert UserHiveFiles()[1] <= name; }
  }

  lemma TopsAre(name: string)
    ensures IsProtectedTop(name) <==> IsWindowsFolder(name)
    ensures AnyFold(ContainerTopLevel(), name) <==> IsTopFolder(name)
  {
    AnyFoldIsAny(ProtectedTopLevel(), name);
    AnyFoldIsAny(ContainerTopLevel(), name);
    hide AnyFold; hide IsAny;
  }

  lemma ProgramDataIs(c: seq<string>)
    ensures StartsWithPattern(c, ["ProgramData", "Microsoft"]) <==> Begin(c, ["PROGRAMDATA", "MICROSOFT"])
  {
    hide EqFold;
    StartsIsBegin(c, ["ProgramData", "Microsoft"]);
    if |c| >= 2 {
      SameInEither(c[0], "ProgramData", "PROGRAMDATA");
      SameInEither(c[1], "Microsoft", "MICROSOFT");
      assert c[..2][0] == c[0] && c[..2][1] == c[1];
    }
  }

  lemma SameInEither(name: string, mixed: string, upper: string)
    requires |mixed| == |upper| && forall i :: 0 <= i < |mixed| ==> Upper(mixed[i]) == upper[i]
    ensures EqFold(name, mixed) <==> EqFold(name, upper)
  {
    hide UpperAll; hide LowerAll;
    Uppers(mixed, upper);
    CaseOfCase(mixed);
    EqFoldIsUpper(name, mixed);
    EqFoldIsUpper(name, upper);
  }

  // ----- paths -----

  /** What is nobody's to remove below no folder of Windows' own. */
  ghost predicate Spared(c: seq<string>)
    requires c != []
  {
    || IsHive(c[|c| - 1])
    || Begin(c, ["PROGRAMDATA", "MICROSOFT"])
    || InWindowsData(c)
    || IsSharedFolder(c)
    || IsLibraryFolder(c)
  }

  /** A declared driver's file: `Windows\System32\drivers\f`. */
  ghost predicate IsDeclaredDriver(c: seq<string>, exceptions: Exceptions) {
    |c| == 4 && Are(c[..3], ["WINDOWS", "SYSTEM32", "DRIVERS"]) && UpperAll(c[3]) in exceptions.driverFiles
  }

  /** What the deny-list allows when a catalog is loaded, exactly: a local path
      with no alias in it, at least two deep, that is a declared driver's file
      or lies in none of Windows' folders and is nothing that is spared. */
  lemma AllowedExactly(p: CanonicalPath, exceptions: Exceptions)
    ensures EvaluatePath(p, exceptions, CatalogLoad) == Allowed <==>
              && !p.shortName && p.kind == DriveRooted && |p.components| >= 2
              && if IsWindowsFolder(p.components[0]) then IsDeclaredDriver(p.components, exceptions)
                 else !Spared(p.components)
  {
    hide IsWindowsFolder; hide IsContainer; hide IsHive; hide Begin; hide InWindowsData; hide IsSharedFolder; hide IsLibraryFolder;
    hide AnyFold; hide StartsWithPattern; hide StartsWithAny; hide IsUserHive; hide IsProtectedTop; hide WindowsData; hide EqFold;
    if p.components != [] {
      TopsAre(p.components[0]);
      OrdinaryVerdict(p.components);
      DriversAre(p.components, exceptions);
    }
  }

  lemma DriversAre(c: seq<string>, exceptions: Exceptions)
    requires c != []
    ensures IsDriverFile(c) && AllowsDriverFile(exceptions, c[3]) <==> IsDeclaredDriver(c, exceptions)
  {
    hide EqFold; hide UpperAll;
    if |c| == 4 {
      assert c[..3][0] == c[0] && c[..3][1] == c[1] && c[..3][2] == c[2];
    }
  }

  /** Below no folder of Windows' own, each refusal has one reason: the first of
      these that applies. */
  lemma OrdinaryVerdict(c: seq<string>)
    requires c != []
    ensures EvaluateOrdinary(c) ==
              if |c| == 1 && IsTopFolder(c[0]) then Denied(ProtectedTopLevelDirectory)
              else if IsHive(c[|c| - 1]) then Denied(ProtectedUserHive)
              else if Begin(c, ["PROGRAMDATA", "MICROSOFT"]) then Denied(ProtectedProgramData)
              else if InWindowsData(c) then Denied(ProtectedWindowsData)
              else if IsSharedFolder(c) || IsLibraryFolder(c) then Denied(ProtectedContainer)
              else if |c| == 1 then Denied(TooShallow)
              else Allowed
  {
    hide AnyFold; hide IsUserHive; hide StartsWithPattern; hide StartsWithAny; hide IsContainer; hide WindowsData; hide IsTopFolder;
    hide IsHive; hide Begin; hide InWindowsData; hide IsSharedFolder; hide IsLibraryFolder; hide ContainerTopLevel;
    TopsAre(c[0]);
    HivesAre(c[|c| - 1]);
    ProgramDataIs(c);
    FoldersAre(c);
    LibrariesAre(c);
  }

  /** The reasons before those, when a catalog is loaded. */
  lemma FirstReasons(p: CanonicalPath, exceptions: Exceptions)
    ensures var c, verdict := p.components, EvaluatePath(p, exceptions, CatalogLoad);
            && (p.shortName ==> verdict == Denied(EightDotThreeUnresolved))
            && (!p.shortName && p.kind != DriveRooted ==> verdict == Denied(NonLocalNamespace))
            && (!p.shortName && p.kind == DriveRooted ==>
                  && (c == [] ==> verdict == Denied(VolumeRoot))
                  && (c != [] && IsWindowsFolder(c[0]) && !IsDeclaredDriver(c, exceptions) ==>
                        verdict == Denied(if |c| == 1 then ProtectedTopLevelDirectory else ProtectedSystemPath))
                  && (c != [] && !IsWindowsFolder(c[0]) ==> verdict == EvaluateOrdinary(c)))
  {
    hide EvaluateOrdinary; hide IsWindowsFolder; hide IsProtectedTop; hide EqFold; hide IsDeclaredDriver; hide IsDriverFile;
    hide AllowsDriverFile;
    if p.components != [] {
      TopsAre(p.components[0]);
      DriversAre(p.components, exceptions);
    }
  }

  /** On disk the question is the same, of a path read back from a handle and
      through no link. */
  lemma OnDiskVerdict(p: CanonicalPath, exceptions: Exceptions, throughLink: bool)
    ensures EvaluatePath(p, exceptions, OnDisk(throughLink)) ==
              if throughLink then Denied(ReparsePointInPath)
              else if !p.resolvedViaHandle then Denied(UnresolvedAtExecution)
              else EvaluatePath(p, exceptions, CatalogLoad)
  {
    hide EvaluateOrdinary; hide IsProtectedTop; hide WindowsDirectoryException;
  }

  /** A user's hive, by its name in any case, is refused wherever it is: from
      the text of a path to the verdict. */
  lemma HivesAreRefused(pre: string, name: string, exceptions: Exceptions)
    requires Drive(pre) && Name(name) && TrimEnd(name) == name && IsHive(UpperAll(Stem(name)))
    ensures var path := pre + "\\" + name;
            PathSafe(path, exceptions) ==> IsDeclaredDriver(Canonical(path).value.components, exceptions)
  {
    var path := pre + "\\" + name;
    hide IsHive; hide IsWindowsFolder; hide EvaluatePath; hide IsSharedFolder; hide InWindowsData; hide IsLibraryFolder;
    hide Canonical; hide TrimEnd; hide IsDeclaredDriver;
    if PathSafe(path, exceptions) {
      LastComponent(pre, name);
      AllowedExactly(Canonical(path).value, exceptions);
    }
  }

  lemma LastComponent(pre: string, name: string)
    requires Drive(pre) && Name(name) && TrimEnd(name) == name && Canonical(pre + "\\" + name).Ok?
    ensures var c := Canonical(pre + "\\" + name).value.components;
            c != [] && c[|c| - 1] == UpperAll(Stem(name))
  {
    hide TrimEnd; hide Trim; hide Unified; hide SplitRoot; hide Split; hide RenderedPath; hide BelowDrive; hide Push;
    assert '\0' !in pre + "\\" + name;
    assert '\0' !in pre && '\0' !in name;
    Ending(pre, name);
    var below := PushAll(Stack([], false), BelowDrive(pre), DriveRooted);
    if below.Ok? {
      var next := PushedName(below.value, name);
      PushOne(below.value, name);
    }
  }
}
