// The exact verdicts of the deny-list on registry keys, in terms of the names
// they are about: core/src/safety/denylist.rs.
module KeyVerdicts {
  import opened Prelude
  import opened Text
  import opened RegKeys
  import opened DenyList
  import opened Aliases
  import opened Verdicts

  // ----- the keys that are everybody's, below `SOFTWARE` -----

  /** Keys of a user that hold other software's, exactly. */
  const USER_KEYS: seq<seq<string>> :=
    [ ["CLASSES"], ["CLASSES", "CLSID"], ["MICROSOFT"], ["MICROSOFT", "WINDOWS"],
      ["MICROSOFT", "WINDOWS", "CURRENTVERSION"], ["MICROSOFT", "WINDOWS", "CURRENTVERSION", "RUN"],
      ["MICROSOFT", "WINDOWS", "CURRENTVERSION", "RUNONCE"], ["MICROSOFT", "WINDOWS", "CURRENTVERSION", "UNINSTALL"],
      ["POLICIES"], ["WOW6432NODE"] ]

  /** And of the machine. */
  const MACHINE_KEYS: seq<seq<string>> :=
    [ ["CLASSES"], ["CLASSES", "APPID"], ["CLASSES", "CLSID"], ["CLASSES", "INTERFACE"], ["CLASSES", "TYPELIB"],
      ["CLIENTS"], ["MICROSOFT"], ["MICROSOFT", "WINDOWS"], ["MICROSOFT", "WINDOWS", "CURRENTVERSION"],
      ["MICROSOFT", "WINDOWS", "CURRENTVERSION", "APP PATHS"], ["MICROSOFT", "WINDOWS", "CURRENTVERSION", "EXPLORER"],
      ["MICROSOFT", "WINDOWS", "CURRENTVERSION", "RUN"], ["MICROSOFT", "WINDOWS", "CURRENTVERSION", "RUNONCE"],
      ["MICROSOFT", "WINDOWS", "CURRENTVERSION", "SHAREDDLLS"], ["MICROSOFT", "WINDOWS", "CURRENTVERSION", "UNINSTALL"],
      ["MICROSOFT", "WINDOWS NT"], ["MICROSOFT", "WINDOWS NT", "CURRENTVERSION"],
      ["MICROSOFT", "WINDOWS NT", "CURRENTVERSION", "IMAGE FILE EXECUTION OPTIONS"],
      ["POLICIES"], ["POLICIES", "MICROSOFT"], ["REGISTEREDAPPLICATIONS"], ["WOW6432NODE"] ]

  /** Keys of the machine that are Windows' own, with all that is below them. */
  const GUARDED_KEYS: seq<seq<string>> :=
    [ ["MICROSOFT", "CRYPTOGRAPHY"], ["MICROSOFT", "WINDOWS NT", "CURRENTVERSION", "WINLOGON"],
      ["MICROSOFT", "WINDOWS DEFENDER"], ["POLICIES", "MICROSOFT", "WINDOWS DEFENDER"] ]

  ghost predicate InSoftware(c: seq<string>) {
    c != [] && EqFold(c[0], "SOFTWARE")
  }

  /** In the 32-bit half of `SOFTWARE`. */
  ghost predicate InMirror(c: seq<string>) {
    InSoftware(c) && |c| >= 2 && EqFold(c[1], "WOW6432NODE")
  }

  ghost predicate IsSharedUserKey(c: seq<string>) {
    InSoftware(c) && AreAny(c[1..], USER_KEYS)
  }

  /** A shared or guarded key of the machine, or its mirror in the 32-bit half. */
  ghost predicate IsMachineProtected(c: seq<string>) {
    || (InSoftware(c) && (BeginAny(c[1..], GUARDED_KEYS) || AreAny(c[1..], MACHINE_KEYS)))
    || (InMirror(c) && |c| > 2 && (BeginAny(c[2..], GUARDED_KEYS) || AreAny(c[2..], MACHINE_KEYS)))
  }

  predicate IsProtectedHive(name: string) {
    "BCD" <= name || IsAny(name, ["SAM", "SECURITY", "HARDWARE", "COMPONENTS", "DRIVERS"])
  }

  /** The control set in use, or a numbered one. */
  ghost predicate NamesControlSet(name: string) {
    || EqFold(name, "CURRENTCONTROLSET")
    || exists set_, number :: name == set_ + number && EqFold(set_, "CONTROLSET") && IsNumber(number)
  }

  /** `SYSTEM\<control set>\Services`, or below it. */
  ghost predicate InServices(c: seq<string>) {
    |c| >= 3 && EqFold(c[0], "SYSTEM") && NamesControlSet(c[1]) && EqFold(c[2], "SERVICES")
  }

  /** The key of a service a catalog declares, and not one below it. */
  ghost predicate IsDeclaredService(c: seq<string>, exceptions: Exceptions) {
    InServices(c) && |c| == 4 && UpperAll(c[3]) in exceptions.serviceNames
  }

  // ----- the tables say that -----

  ghost predicate SoftwareTable(table: seq<seq<string>>, rows: seq<seq<string>>) {
    |table| == |rows| && AllWritten(rows) && forall i :: 0 <= i < |rows| ==> table[i] == ["SOFTWARE"] + rows[i]
  }

  lemma RowIs(c: seq<string>, row: seq<string>)
    requires Written(row)
    ensures EqualsPattern(c, ["SOFTWARE"] + row) <==> InSoftware(c) && Are(c[1..], row)
    ensures StartsWithPattern(c, ["SOFTWARE"] + row) <==> InSoftware(c) && Begin(c[1..], row)
  {
    var pattern := ["SOFTWARE"] + row;
    assert |"SOFTWARE"| > 1;
    hide EqFold;
    assert forall i :: 0 <= i < |row| ==> pattern[i + 1] == row[i];
    assert Written(pattern);
    StartsIsBegin(c, pattern);
    if c != [] {
      BeginAfter(c, pattern);
    }
  }

  lemma BeginAfter(c: seq<string>, names: seq<string>)
    requires c != [] && names != []
    ensures Are(c, names) <==> EqFold(c[0], names[0]) && Are(c[1..], names[1..])
    ensures Begin(c, names) <==> EqFold(c[0], names[0]) && Begin(c[1..], names[1..])
  {
    hide EqFold;
    AreAfter(c, names);
    if |names| <= |c| {
      AreAfter(c[..|names|], names);
      assert c[..|names|][1..] == c[1..][..|names| - 1];
    }
  }

  lemma AreAfter(c: seq<string>, names: seq<string>)
    requires c != [] && names != []
    ensures Are(c, names) <==> EqFold(c[0], names[0]) && Are(c[1..], names[1..])
  {
    hide EqFold;
    if |c| == |names| && EqFold(c[0], names[0]) && Are(c[1..], names[1..]) {
      forall i | 0 <= i < |c| ensures EqFold(c[i], names[i]) {
        if i > 0 {
          assert EqFold(c[1..][i - 1], names[1..][i - 1]);
        }
      }
    }
  }

  lemma SoftwareTableIs(table: seq<seq<string>>, rows: seq<seq<string>>, c: seq<string>)
    requires SoftwareTable(table, rows)
    ensures EqualsAny(c, table) <==> InSoftware(c) && AreAny(c[1..], rows)
    ensures StartsWithAny(c, table) <==> InSoftware(c) && BeginAny(c[1..], rows)
  {
    hide EqualsPattern; hide StartsWithPattern; hide Are; hide Begin; hide EqFold;
    forall i | 0 <= i < |rows|
      ensures EqualsPattern(c, table[i]) <==> InSoftware(c) && Are(c[1..], rows[i])
      ensures StartsWithPattern(c, table[i]) <==> InSoftware(c) && Begin(c[1..], rows[i])
    {
      RowIs(c, rows[i]);
    }
  }

  lemma UserTable()
    ensures SoftwareTable(UserContainerKeys(), USER_KEYS)
  {
  }

  lemma GuardedTable()
    ensures SoftwareTable(MachineProtectedKeys(), GUARDED_KEYS)
  {
  }

  lemma MachineTable()
    ensures SoftwareTable(MachineContainerKeys(), MACHINE_KEYS)
  {
    MachineRows();
    assert AllWritten(MACHINE_KEYS);
  }

  lemma MachineRows()
    ensures |MachineContainerKeys()| == |MACHINE_KEYS|
    ensures forall i :: 0 <= i < |MACHINE_KEYS| ==> MachineContainerKeys()[i] == ["SOFTWARE"] + MACHINE_KEYS[i]
  {
  }

  lemma MachineKeysAre(c: seq<string>)
    ensures InProtectedKeys(c) <==> InSoftware(c) && BeginAny(c[1..], GUARDED_KEYS)
    ensures IsContainerKey(c) <==> InSoftware(c) && AreAny(c[1..], MACHINE_KEYS)
  {
    hide SoftwareTable; hide InSoftware; hide AreAny; hide BeginAny; hide EqualsAny; hide StartsWithAny;
    GuardedTable();
    MachineTable();
    SoftwareTableIs(MachineProtectedKeys(), GUARDED_KEYS, c);
    SoftwareTableIs(MachineContainerKeys(), MACHINE_KEYS, c);
  }

  lemma UserKeysAre(c: seq<string>)
    ensures EqualsAny(c, UserContainerKeys()) <==> IsSharedUserKey(c)
  {
    hide SoftwareTable; hide InSoftware; hide AreAny; hide BeginAny; hide EqualsAny; hide StartsWithAny;
    UserTable();
    SoftwareTableIs(UserContainerKeys(), USER_KEYS, c);
  }

  lemma NothingGuarded()
    ensures !BeginAny([], GUARDED_KEYS)
  {
  }

  lemma MirrorIs(c: seq<string>)
    ensures IsMirrored(c) <==> InMirror(c) && |c| > 2 && (BeginAny(c[2..], GUARDED_KEYS) || AreAny(c[2..], MACHINE_KEYS))
  {
    hide EqFold; hide InProtectedKeys; hide IsContainerKey; hide AreAny; hide BeginAny;
    if InMirror(c) {
      var native := [c[0]] + c[2..];
      MachineKeysAre(native);
      assert native[1..] == c[2..];
      if |c| == 2 {
        NothingGuarded();
        assert c[2..] == [];
      }
    }
  }

  lemma HivesOfMachine(name: string)
    ensures "BCD" <= name || AnyFold(ProtectedMachineHives(), name) <==> IsProtectedHive(name)
  {
    AnyFoldIsAny(ProtectedMachineHives(), name);
    hide AnyFold; hide IsAny;
  }

  lemma ControlSetsAre(name: string)
    ensures IsControlSet(name) <==> NamesControlSet(name)
  {
    hide EqFold;
    if IsControlSet(name) && !EqFold(name, "CURRENTCONTROLSET") {
      assert name == name[..10] + name[10..] && IsNumber(name[10..]);
    }
    if set_, number :| name == set_ + number && EqFold(set_, "CONTROLSET") && IsNumber(number) {
      FoldIndex(set_, "CONTROLSET", 0);
      NumberedSet(name, set_, number);
    }
  }

  lemma NumberedSet(name: string, set_: string, number: string)
    requires name == set_ + number && |set_| == 10 && IsNumber(number)
    ensures |name| > 10 && name[..10] == set_ && name[10..] == number && AllDigits(name[10..])
  {
  }

  lemma ServicesAre(c: seq<string>)
    ensures IsServicesKey(c) <==> InServices(c)
  {
    hide EqFold; hide IsControlSet; hide NamesControlSet;
    if |c| >= 3 {
      ControlSetsAre(c[1]);
    }
  }

  // ----- verdicts -----

  /** The one reason a key of the machine is refused for, or none. */
  lemma MachineVerdict(c: seq<string>, exceptions: Exceptions)
    ensures EvaluateMachineKey(c, exceptions) ==
              if c == [] then Denied(RegistryKeyTooShallow)
              else if IsProtectedHive(c[0]) then Denied(ProtectedRegistryHive)
              else if IsDeclaredService(c, exceptions) then Allowed
              else if InServices(c) then Denied(UnknownServiceKey)
              else if EqFold(c[0], "SYSTEM") then Denied(ProtectedSystemKey)
              else if IsMachineProtected(c) then Denied(ProtectedRegistryKey)
              else if |c| == 1 then Denied(RegistryKeyTooShallow)
              else Allowed
  {
    hide EqFold; hide InServices; hide IsServicesKey; hide IsMirrored; hide InProtectedKeys; hide IsContainerKey; hide UpperAll;
    hide IsProtectedHive; hide AnyFold; hide AreAny; hide BeginAny;
    MachineKeysAre(c);
    MirrorIs(c);
    ServicesAre(c);
    ServicesAreInSystem(c);
    if c != [] {
      HivesOfMachine(c[0]);
    }
  }

  lemma UserVerdict(c: seq<string>)
    ensures EvaluateUserKey(c) ==
              if IsSharedUserKey(c) then Denied(ProtectedRegistryKey)
              else if |c| < 2 then Denied(RegistryKeyTooShallow)
              else Allowed
  {
    hide EqualsAny; hide IsSharedUserKey;
    UserKeysAre(c);
  }

  /** What the deny-list allows of a key, by the hive it is in: in the machine's,
      a declared service or what is deep enough and protected by no rule; in a
      user's, by whichever name, what is deep enough and not shared; nothing of
      the current configuration, and of the merged classes what is not on top. */
  ghost predicate KeyAllowed(key: CanonicalRegKey, exceptions: Exceptions) {
    var c := key.components;
    match key.hive
    case Hklm =>
      || (IsDeclaredService(c, exceptions) && !IsProtectedHive(c[0]))
      || (|c| >= 2 && !IsProtectedHive(c[0]) && !EqFold(c[0], "SYSTEM") && !IsMachineProtected(c))
    case Hkcu => |c| >= 2 && !IsSharedUserKey(c)
    case Hku =>
      |c| >= 2
      && if EndsWith(c[0], "_CLASSES") then !Are(c[1..], ["CLSID"]) else |c| >= 3 && !IsSharedUserKey(c[1..])
    case Hkcc => false
    case Hkcr => |c| >= 2
  }

  lemma KeyAllowedExactly(key: CanonicalRegKey, exceptions: Exceptions)
    ensures EvaluateKey(key, exceptions) == Allowed <==> KeyAllowed(key, exceptions)
  {
    var c := key.components;
    hide EqFold; hide InServices; hide IsProtectedHive; hide IsMachineProtected; hide IsSharedUserKey; hide Are; hide UpperAll;
    hide EvaluateMachineKey; hide EvaluateUserKey;
    match key.hive
    case Hklm =>
      MachineVerdict(c, exceptions);
      ServicesAreInSystem(c);
    case Hkcu => UserVerdict(c);
    case Hku =>
      if |c| >= 2 && EndsWith(c[0], "_CLASSES") {
        ClassesVerdict(c[1..]);
      } else if |c| >= 2 {
        UserVerdict(c[1..]);
      }
    case _ =>
  }

  lemma ServicesAreInSystem(c: seq<string>)
    ensures InServices(c) ==> EqFold(c[0], "SYSTEM") && |c| >= 3
  {
    hide EqFold; hide NamesControlSet;
  }

  /** A user's classes hold one shared key below their own root. */
  lemma ClassesVerdict(rest: seq<string>)
    requires rest != []
    ensures EvaluateUserKey(["SOFTWARE", "CLASSES"] + rest) == Allowed <==> !Are(rest, ["CLSID"])
  {
    var c := ["SOFTWARE", "CLASSES"] + rest;
    UserVerdict(c);
    FoldsItself("SOFTWARE");
    assert c[1..] == ["CLASSES"] + rest;
    ClassesRows(rest);
    hide EqFold; hide AreAny; hide Are; hide EvaluateUserKey;
  }

  lemma ClassesRows(rest: seq<string>)
    requires rest != []
    ensures AreAny(["CLASSES"] + rest, USER_KEYS) <==> Are(rest, ["CLSID"])
  {
    var c := ["CLASSES"] + rest;
    FoldsItself("CLASSES");
    NotClasses();
    hide EqFold;
    assert c[1..] == rest;
    AreAfter(c, USER_KEYS[1]);
    assert USER_KEYS[1][1..] == ["CLSID"];
    assert Are(c, USER_KEYS[1]) <==> Are(rest, ["CLSID"]);
    forall i | 0 <= i < |USER_KEYS| && i != 1 ensures !Are(c, USER_KEYS[i]) {
      if i == 0 {
        assert |USER_KEYS[0]| == 1;
      } else {
        assert c[0] == "CLASSES";
      }
    }
  }

  lemma NotClasses()
    ensures !EqFold("CLASSES", "MICROSOFT") && !EqFold("CLASSES", "POLICIES") && !EqFold("CLASSES", "WOW6432NODE")
  {
    assert |LowerAll("CLASSES")| == 7 && |LowerAll("MICROSOFT")| == 9;
    assert |LowerAll("POLICIES")| == 8 && |LowerAll("WOW6432NODE")| == 11;
  }

  /** From the text of a key to its verdict. */
  lemma KeySafeExactly(text: string, exceptions: Exceptions)
    ensures KeySafe(text, exceptions) <==> CanonicalKey(text).Ok? && KeyAllowed(CanonicalKey(text).value, exceptions)
  {
    hide CanonicalKey; hide EvaluateKey; hide KeyAllowed;
    if CanonicalKey(text).Ok? {
      KeyAllowedExactly(CanonicalKey(text).value, exceptions);
    }
  }

  /** And the reason, in every hive but the machine's: a user's keys by whichever
      name, a user's classes, the merged classes, and the current configuration. */
  lemma OtherHives(key: CanonicalRegKey, exceptions: Exceptions)
    ensures var c, verdict := key.components, EvaluateKey(key, exceptions);
            match key.hive
            case Hklm => true
            case Hkcu =>
              verdict == if IsSharedUserKey(c) then Denied(ProtectedRegistryKey)
                         else if |c| < 2 then Denied(RegistryKeyTooShallow) else Allowed
            case Hku =>
              verdict == if |c| < 2 then Denied(RegistryKeyTooShallow)
                         else if EndsWith(c[0], "_CLASSES") then
                           if Are(c[1..], ["CLSID"]) then Denied(ProtectedRegistryKey) else Allowed
                         else if IsSharedUserKey(c[1..]) then Denied(ProtectedRegistryKey)
                         else if |c| < 3 then Denied(RegistryKeyTooShallow) else Allowed
            case Hkcc => verdict == Denied(ProtectedSystemKey)
            case Hkcr => verdict == if |c| < 2 then Denied(RegistryKeyTooShallow) else Allowed
  {
    var c := key.components;
    hide EvaluateMachineKey; hide EvaluateUserKey; hide IsSharedUserKey; hide Are; hide EndsWith;
    match key.hive
    case Hkcu => UserVerdict(c);
    case Hku =>
      if |c| >= 2 {
        UserVerdict(c[1..]);
        ClassesVerdict(c[1..]);
        NeverShallow(c[1..]);
      }
    case _ =>
  }

  lemma NeverShallow(rest: seq<string>)
    requires rest != []
    ensures EvaluateUserKey(["SOFTWARE", "CLASSES"] + rest) != Allowed ==>
              EvaluateUserKey(["SOFTWARE", "CLASSES"] + rest) == Denied(ProtectedRegistryKey)
  {
    hide EqualsAny;
  }
}
