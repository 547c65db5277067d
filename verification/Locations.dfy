// Which template an observed path is drafted as, and which view an observed key
// is drafted in, from their text: tools/observe/src/suggest.rs.
module Locations {
  import opened Prelude
  import opened Text
  import opened PathLaws
  import opened PathSpellings
  import opened Keyed
  import opened Changes
  import opened RegistryDiff
  import opened Templates
  import opened DraftedPaths
  import opened Catalog
  import opened Draft

  // ----- the machine's own folders -----

  /** What may follow a folder's name. */
  predicate IsBelow(tail: string) {
    tail == "" || tail[0] == '\\'
  }

  lemma TakenAway(folder: string, prefix: string, tail: string)
    requires EqFold(folder, prefix) && IsBelow(tail)
    ensures WithoutComponents(folder + tail, prefix) == Some(tail)
  {
    assert |LowerAll(folder)| == |LowerAll(prefix)|;
    hide EqFold;
    assert (folder + tail)[..|prefix|] == folder && (folder + tail)[|prefix|..] == tail;
  }

  lemma NotTaken(path: string, prefix: string, i: nat)
    requires i < |prefix| && i < |path| && Lower(path[i]) != Lower(prefix[i])
    ensures WithoutComponents(path, prefix) == None
  {
    hide LowerAll;
    if |prefix| <= |path| && EqFold(path[..|prefix|], prefix) {
      FoldIndex(path[..|prefix|], prefix, i);
    }
  }

  /** Below a drive, a path whose first folder does not begin as `Users` does. */
  lemma NoProfile(path: string)
    requires |path| > 3 && Lower(path[3]) != 'u'
    ensures SplitProfile(path) == None
  {
    assert path[3..][0] == path[3] && Lower("Users"[0]) == 'u';
    if path[1] == ':' {
      NotTaken(path[3..], "Users", 0);
    }
    hide WithoutComponents;
  }

  /** A folder of the machine's is drafted as its variable, in whatever case it
      was observed, with what is below it as it is. */
  lemma MachineFolders(folder: string, tail: string)
    requires IsBelow(tail)
    ensures EqFold(folder, "C:\\Program Files (x86)") ==> Templated(folder + tail) == "%ProgramFiles(x86)%" + tail
    ensures EqFold(folder, "C:\\Program Files") ==> Templated(folder + tail) == "%ProgramFiles%" + tail
    ensures EqFold(folder, "C:\\ProgramData") ==> Templated(folder + tail) == "%ProgramData%" + tail
    ensures EqFold(folder, "C:\\Windows") ==> Templated(folder + tail) == "%SystemRoot%" + tail
  {
    hide EqFold;
    if EqFold(folder, "C:\\Program Files (x86)") { ProgramFilesX86(folder, tail); }
    if EqFold(folder, "C:\\Program Files") { ProgramFiles(folder, tail); }
    if EqFold(folder, "C:\\ProgramData") { ProgramData(folder, tail); }
    if EqFold(folder, "C:\\Windows") { Windows(folder, tail); }
  }

  lemma Spelled(name: string, tail: string)
    ensures InVariable(name, tail) == ("%" + name + "%") + tail
  {
  }

  lemma Tables()
    ensures MACHINE[0] == Location("ProgramFiles(x86)", "C:\\Program Files (x86)")
    ensures MACHINE[1] == Location("ProgramFiles", "C:\\Program Files")
    ensures MACHINE[2] == Location("ProgramData", "C:\\ProgramData")
    ensures MACHINE[3] == Location("SystemRoot", "C:\\Windows")
    ensures PROFILE[0] == Location("LOCALAPPDATA", "AppData\\Local") && PROFILE[1] == Location("APPDATA", "AppData\\Roaming")
  {
  }

  /** The location a path is in, when it is in none before. */
  lemma {:induction false} InLocationIs(path: string, locations: seq<Location>, i: nat, tail: string)
    requires i < |locations| && WithoutComponents(path, locations[i].prefix) == Some(tail)
    requires forall j :: 0 <= j < i ==> WithoutComponents(path, locations[j].prefix) == None
    ensures InLocation(path, locations) == Some(InVariable(locations[i].variable, tail))
  {
    hide WithoutComponents; hide InVariable;
    if i > 0 {
      InLocationIs(path, locations[1..], i - 1, tail);
    }
  }

  lemma At(folder: string, prefix: string, tail: string, i: nat)
    requires EqFold(folder, prefix) && i < |prefix|
    ensures |folder| == |prefix| && i < |folder + tail| && Lower((folder + tail)[i]) == Lower(prefix[i])
  {
    FoldIndex(folder, prefix, i);
  }

  lemma ProgramFilesX86(folder: string, tail: string)
    requires IsBelow(tail) && EqFold(folder, "C:\\Program Files (x86)")
    ensures Templated(folder + tail) == "%ProgramFiles(x86)%" + tail
  {
    hide EqFold;
    var path := folder + tail;
    At(folder, "C:\\Program Files (x86)", tail, 3);
    NoProfile(path);
    TakenAway(folder, "C:\\Program Files (x86)", tail);
    Tables();
    InLocationIs(path, MACHINE, 0, tail);
    hide SplitProfile; hide InLocation; hide WithoutComponents;
    Spelled("ProgramFiles(x86)", tail);
    assert "%" + "ProgramFiles(x86)" + "%" == "%ProgramFiles(x86)%";
  }

  lemma ProgramFiles(folder: string, tail: string)
    requires IsBelow(tail) && EqFold(folder, "C:\\Program Files")
    ensures Templated(folder + tail) == "%ProgramFiles%" + tail
  {
    hide EqFold;
    var path := folder + tail;
    At(folder, "C:\\Program Files", tail, 3);
    NoProfile(path);
    TakenAway(folder, "C:\\Program Files", tail);
    NoX86(folder, tail);
    Tables();
    InLocationIs(path, MACHINE, 1, tail);
    hide SplitProfile; hide InLocation; hide WithoutComponents;
    Spelled("ProgramFiles", tail);
    assert "%" + "ProgramFiles" + "%" == "%ProgramFiles%";
  }

  lemma NoX86(folder: string, tail: string)
    requires IsBelow(tail) && |folder| == 16
    ensures WithoutComponents(folder + tail, "C:\\Program Files (x86)") == None
  {
    var path := folder + tail;
    assert "C:\\Program Files (x86)"[16] == ' ';
    if |path| > 16 {
      assert path[16] == '\\';
      NotTaken(path, "C:\\Program Files (x86)", 16);
    }
  }

  lemma ProgramData(folder: string, tail: string)
    requires IsBelow(tail) && EqFold(folder, "C:\\ProgramData")
    ensures Templated(folder + tail) == "%ProgramData%" + tail
  {
    hide EqFold;
    var path := folder + tail;
    At(folder, "C:\\ProgramData", tail, 3);
    At(folder, "C:\\ProgramData", tail, 10);
    NoProfile(path);
    TakenAway(folder, "C:\\ProgramData", tail);
    assert "C:\\ProgramData"[10] == 'D' && "C:\\Program Files"[10] == ' ' && "C:\\Program Files (x86)"[10] == ' ';
    NotTaken(path, "C:\\Program Files (x86)", 10);
    NotTaken(path, "C:\\Program Files", 10);
    Tables();
    InLocationIs(path, MACHINE, 2, tail);
    hide SplitProfile; hide InLocation; hide WithoutComponents;
    Spelled("ProgramData", tail);
    assert "%" + "ProgramData" + "%" == "%ProgramData%";
  }

  lemma Windows(folder: string, tail: string)
    requires IsBelow(tail) && EqFold(folder, "C:\\Windows")
    ensures Templated(folder + tail) == "%SystemRoot%" + tail
  {
    hide EqFold;
    var path := folder + tail;
    At(folder, "C:\\Windows", tail, 3);
    NoProfile(path);
    TakenAway(folder, "C:\\Windows", tail);
    assert "C:\\Windows"[3] == 'W' && "C:\\Program Files (x86)"[3] == 'P' && "C:\\Program Files"[3] == 'P' && "C:\\ProgramData"[3] == 'P';
    NotTaken(path, "C:\\Program Files (x86)", 3);
    NotTaken(path, "C:\\Program Files", 3);
    NotTaken(path, "C:\\ProgramData", 3);
    Tables();
    InLocationIs(path, MACHINE, 3, tail);
    hide SplitProfile; hide InLocation; hide WithoutComponents;
    Spelled("SystemRoot", tail);
    assert "%" + "SystemRoot" + "%" == "%SystemRoot%";
  }

  // ----- a user's folders -----

  /** A path in a profile: `X:\Users\name`, and what is below it. */
  predicate InProfile(pre: string, profile: string) {
    Drive(pre) && |pre| == 8 && pre[2] == '\\' && EqFold(pre[3..], "Users") && profile != "" && '\\' !in profile
  }

  lemma ProfileIs(pre: string, profile: string, rest: string)
    requires InProfile(pre, profile) && IsBelow(rest)
    ensures SplitProfile(pre + "\\" + profile + rest) == Some((profile, rest))
  {
    hide EqFold;
    if rest != "" {
      SplitsAsSpelled(pre, profile, rest);
    } else {
      BareProfile(pre, profile);
      assert pre + "\\" + profile + rest == pre + "\\" + profile;
    }
  }

  lemma BareProfile(pre: string, profile: string)
    requires InProfile(pre, profile)
    ensures SplitProfile(pre + "\\" + profile) == Some((profile, ""))
  {
    hide EqFold;
    var path := pre + "\\" + profile;
    assert path == pre + ("\\" + profile);
    assert path[3..] == pre[3..] + ("\\" + profile);
    TakenOff(pre[3..], "\\" + profile);
    assert ("\\" + profile)[1..] == profile;
    IndexOfFinds(profile, '\\');
    assert profile[..|profile|] == profile && profile[|profile|..] == "";
  }

  /** In the public profile all is below `%PUBLIC%`. In any other the two
      application folders have variables of their own, in whatever case they were
      observed, and all else is below `%USERPROFILE%`: the name is never kept. */
  lemma ProfileFolders(pre: string, profile: string, folder: string, tail: string)
    requires InProfile(pre, profile) && IsBelow(tail) && !EqFold(profile, "public")
    ensures EqFold(folder, "AppData\\Local") ==>
              Templated(pre + "\\" + profile + ("\\" + (folder + tail))) == "%LOCALAPPDATA%" + tail
    ensures EqFold(folder, "AppData\\Roaming") ==>
              Templated(pre + "\\" + profile + ("\\" + (folder + tail))) == "%APPDATA%" + tail
  {
    hide EqFold; hide InProfile;
    if EqFold(folder, "AppData\\Local") { LocalFolder(pre, profile, folder, tail); }
    if EqFold(folder, "AppData\\Roaming") { RoamingFolder(pre, profile, folder, tail); }
  }

  lemma LocalFolder(pre: string, profile: string, folder: string, tail: string)
    requires InProfile(pre, profile) && IsBelow(tail) && !EqFold(profile, "public") && EqFold(folder, "AppData\\Local")
    ensures Templated(pre + "\\" + profile + ("\\" + (folder + tail))) == "%LOCALAPPDATA%" + tail
  {
    hide EqFold; hide InProfile;
    ProfileIs(pre, profile, "\\" + (folder + tail));
    TakenAway(folder, "AppData\\Local", tail);
    Tables();
    assert ("\\" + (folder + tail))[1..] == folder + tail;
    InLocationIs(folder + tail, PROFILE, 0, tail);
    hide SplitProfile; hide InLocation; hide WithoutComponents;
    Spelled("LOCALAPPDATA", tail);
    assert "%" + "LOCALAPPDATA" + "%" == "%LOCALAPPDATA%";
  }

  lemma RoamingFolder(pre: string, profile: string, folder: string, tail: string)
    requires InProfile(pre, profile) && IsBelow(tail) && !EqFold(profile, "public") && EqFold(folder, "AppData\\Roaming")
    ensures Templated(pre + "\\" + profile + ("\\" + (folder + tail))) == "%APPDATA%" + tail
  {
    hide EqFold; hide InProfile;
    ProfileIs(pre, profile, "\\" + (folder + tail));
    TakenAway(folder, "AppData\\Roaming", tail);
    At(folder, "AppData\\Roaming", tail, 8);
    assert "AppData\\Roaming"[8] == 'R' && "AppData\\Local"[8] == 'L';
    NotTaken(folder + tail, "AppData\\Local", 8);
    Tables();
    assert ("\\" + (folder + tail))[1..] == folder + tail;
    InLocationIs(folder + tail, PROFILE, 1, tail);
    hide SplitProfile; hide InLocation; hide WithoutComponents;
    Spelled("APPDATA", tail);
    assert "%" + "APPDATA" + "%" == "%APPDATA%";
  }

  lemma OtherProfileFolders(pre: string, profile: string, rest: string)
    requires InProfile(pre, profile) && IsBelow(rest)
    ensures EqFold(profile, "public") ==> Templated(pre + "\\" + profile + rest) == "%PUBLIC%" + rest
    ensures !EqFold(profile, "public") && InLocation(WithoutSeparator(rest), PROFILE).None? ==>
              Templated(pre + "\\" + profile + rest) == "%USERPROFILE%" + rest
  {
    hide EqFold; hide InProfile;
    ProfileIs(pre, profile, rest);
    hide SplitProfile; hide InLocation; hide WithoutComponents;
    Spelled("PUBLIC", rest);
    Spelled("USERPROFILE", rest);
    assert "%" + "PUBLIC" + "%" == "%PUBLIC%" && "%" + "USERPROFILE" + "%" == "%USERPROFILE%";
  }

  /** And any other path is drafted as it is. */
  lemma OtherPaths(path: string)
    requires SplitProfile(path).None? && forall i :: 0 <= i < |MACHINE| ==> WithoutComponents(path, MACHINE[i].prefix).None?
    ensures Templated(path) == path
  {
    hide SplitProfile; hide WithoutComponents;
    InNoLocation(path, MACHINE);
    hide InLocation;
  }

  lemma {:induction false} InNoLocation(path: string, locations: seq<Location>)
    requires forall i :: 0 <= i < |locations| ==> WithoutComponents(path, locations[i].prefix).None?
    ensures InLocation(path, locations).None?
  {
    hide WithoutComponents;
    if locations != [] {
      InNoLocation(path, locations[1..]);
    }
  }

  // ----- the view of a key -----

  /** Below `HKLM\SOFTWARE\WOW6432Node`, in any case, and what is below it. */
  ghost predicate IsAliased(key: string, rest: string) {
    rest != "" && exists alias :: key == alias + rest && EqFold(alias, "HKLM\\SOFTWARE\\WOW6432Node\\")
  }

  /** A key of the 64-bit view below `WOW6432Node` is the key of the 32-bit view
      it stands for; any other is itself. */
  lemma ViewOfKey(key: string, view: string)
    ensures forall rest :: IsAliased(key, rest) && view == "64" ==> NativeView(key, view) == ("HKLM\\SOFTWARE\\" + rest, "32")
    ensures (forall rest :: !IsAliased(key, rest)) || view != "64" ==> NativeView(key, view) == (key, view)
  {
    hide EqFold;
    forall rest | IsAliased(key, rest) && view == "64" ensures NativeView(key, view) == ("HKLM\\SOFTWARE\\" + rest, "32") {
      var alias :| key == alias + rest && EqFold(alias, "HKLM\\SOFTWARE\\WOW6432Node\\");
      AliasLength(alias);
      assert key[..|ALIAS|] == alias && key[|ALIAS|..] == rest;
    }
    if view == "64" && |key| > |ALIAS| && EqFold(key[..|ALIAS|], ALIAS) {
      assert key == key[..|ALIAS|] + key[|ALIAS|..];
      assert IsAliased(key, key[|ALIAS|..]);
    }
  }

  lemma AliasLength(alias: string)
    requires EqFold(alias, "HKLM\\SOFTWARE\\WOW6432Node\\")
    ensures |alias| == |ALIAS|
  {
    FoldIndex(alias, "HKLM\\SOFTWARE\\WOW6432Node\\", 0);
  }

  /** Something at or below a root was seen in a view. */
  ghost predicate SeenIn(added: Views, root: string, view: string) {
    exists key :: key in added && IsUnder(key, root) && view in added[key]
  }

  /** An entry is given the one view all it covers was seen in, and both if it was
      seen in both or in neither. */
  lemma ViewExactly(added: Views, root: string)
    ensures var view := ViewOf(ViewsUnder(added, root));
            && (view == Bits32 <==> SeenIn(added, root, "32") && !SeenIn(added, root, "64"))
            && (view == Bits64 <==> SeenIn(added, root, "64") && !SeenIn(added, root, "32"))
  {
    hide IsUnder;
    assert "32" in ViewsUnder(added, root) <==> SeenIn(added, root, "32");
    assert "64" in ViewsUnder(added, root) <==> SeenIn(added, root, "64");
    assert "32"[0] != "64"[0];
  }

  /** The key and the view an added change is drafted under. */
  ghost predicate DraftedAs(c: RegistryChange, key: string, view: string) {
    if c.view == "64" && exists rest :: IsAliased(c.key, rest) then
      view == "32" && exists rest :: IsAliased(c.key, rest) && key == "HKLM\\SOFTWARE\\" + rest
    else key == c.key && view == c.view
  }

  /** A key is seen in a view exactly when some added change the draft claims, by
      its key in lower case, is drafted so. */
  lemma AddedExactly(changes: seq<RegistryChange>, claims: string -> bool, key: string, view: string)
    ensures key in AddedKeys(changes, claims) && view in AddedKeys(changes, claims)[key] <==>
              exists c :: c in changes && c.kind == ChangeKind.Added && claims(LowerAll(c.key)) && DraftedAs(c, key, view)
  {
    hide LowerAll; hide NativeView; hide AddedKeys; hide IsAliased;
    AddedHolds(changes, claims, key, view);
    forall c: RegistryChange ensures NativeView(c.key, c.view) == (key, view) <==> DraftedAs(c, key, view) {
      ViewOfKey(c.key, c.view);
    }
    hide DraftedAs;
  }
}
