// The compiled-in deny-list of core/src/safety/denylist.rs: verdicts on
// canonical paths and registry keys, and the two carve-outs a catalog unlocks.
module DenyList {
  import opened Prelude
  import opened Text
  import opened Paths
  import opened RegKeys

  // ----- the tables -----

  function ProtectedTopLevel(): seq<string> {
    ["WINDOWS", "WINNT", "$RECYCLE.BIN", "SYSTEM VOLUME INFORMATION", "RECOVERY", "BOOT", "EFI", "PERFLOGS",
     "$WINDOWS.~BT", "$WINDOWS.~WS"]
  }

  function ContainerTopLevel(): seq<string> {
    ["USERS", "PROGRAMDATA", "PROGRAM FILES", "PROGRAM FILES (X86)", "DOCUMENTS AND SETTINGS"]
  }

  function Containers(): seq<seq<string>> {
    [["USERS", "*"],
     ["USERS", "*", "APPDATA"],
     ["USERS", "*", "APPDATA", "LOCAL"],
     ["USERS", "*", "APPDATA", "LOCALLOW"],
     ["USERS", "*", "APPDATA", "ROAMING"],
     ["USERS", "*", "APPDATA", "LOCAL", "PROGRAMS"],
     ["USERS", "*", "APPDATA", "LOCAL", "PACKAGES"],
     ["USERS", "*", "APPDATA", "LOCAL", "TEMP"],
     ["USERS", "*", "CONTACTS"],
     ["USERS", "*", "DESKTOP"],
     ["USERS", "*", "DOCUMENTS"],
     ["USERS", "*", "DOCUMENTS", "MY GAMES"],
     ["USERS", "*", "DOWNLOADS"],
     ["USERS", "*", "FAVORITES"],
     ["USERS", "*", "LINKS"],
     ["USERS", "*", "MUSIC"],
     ["USERS", "*", "ONEDRIVE"],
     ["USERS", "*", "PICTURES"],
     ["USERS", "*", "SAVED GAMES"],
     ["USERS", "*", "SEARCHES"],
     ["USERS", "*", "VIDEOS"],
     ["PROGRAM FILES", "COMMON FILES"],
     ["PROGRAM FILES (X86)", "COMMON FILES"],
     ["PROGRAMDATA", "PACKAGE CACHE"],
     ["PROGRAM FILES", "STEAM"],
     ["PROGRAM FILES (X86)", "STEAM"]]
  }

  function LibraryLeaves(): seq<string> {
    ["STEAMLIBRARY", "STEAMAPPS", "EPIC GAMES"]
  }

  function SteamappsContainers(): seq<string> {
    ["COMMON", "COMPATDATA", "DOWNLOADING", "SHADERCACHE", "SOURCEMODS", "TEMP", "WORKSHOP"]
  }

  function WindowsData(): seq<seq<string>> {
    [["USERS", "*", "APPDATA", "LOCAL", "MICROSOFT"],
     ["USERS", "*", "APPDATA", "LOCALLOW", "MICROSOFT"],
     ["USERS", "*", "APPDATA", "ROAMING", "MICROSOFT"],
     ["PROGRAM FILES", "WINDOWSAPPS"],
     ["PROGRAM FILES", "WINDOWS DEFENDER"],
     ["PROGRAM FILES", "WINDOWS DEFENDER ADVANCED THREAT PROTECTION"],
     ["PROGRAM FILES (X86)", "WINDOWS DEFENDER"]]
  }

  function UserHiveFiles(): seq<string> {
    ["NTUSER.DAT", "USRCLASS.DAT"]
  }

  function MachineContainerKeys(): seq<seq<string>> {
    [["SOFTWARE", "CLASSES"],
     ["SOFTWARE", "CLASSES", "APPID"],
     ["SOFTWARE", "CLASSES", "CLSID"],
     ["SOFTWARE", "CLASSES", "INTERFACE"],
     ["SOFTWARE", "CLASSES", "TYPELIB"],
     ["SOFTWARE", "CLIENTS"],
     ["SOFTWARE", "MICROSOFT"],
     ["SOFTWARE", "MICROSOFT", "WINDOWS"],
     ["SOFTWARE", "MICROSOFT", "WINDOWS", "CURRENTVERSION"],
     ["SOFTWARE", "MICROSOFT", "WINDOWS", "CURRENTVERSION", "APP PATHS"],
     ["SOFTWARE", "MICROSOFT", "WINDOWS", "CURRENTVERSION", "EXPLORER"],
     ["SOFTWARE", "MICROSOFT", "WINDOWS", "CURRENTVERSION", "RUN"],
     ["SOFTWARE", "MICROSOFT", "WINDOWS", "CURRENTVERSION", "RUNONCE"],
     ["SOFTWARE", "MICROSOFT", "WINDOWS", "CURRENTVERSION", "SHAREDDLLS"],
     ["SOFTWARE", "MICROSOFT", "WINDOWS", "CURRENTVERSION", "UNINSTALL"],
     ["SOFTWARE", "MICROSOFT", "WINDOWS NT"],
     ["SOFTWARE", "MICROSOFT", "WINDOWS NT", "CURRENTVERSION"],
     ["SOFTWARE", "MICROSOFT", "WINDOWS NT", "CURRENTVERSION", "IMAGE FILE EXECUTION OPTIONS"],
     ["SOFTWARE", "POLICIES"],
     ["SOFTWARE", "POLICIES", "MICROSOFT"],
     ["SOFTWARE", "REGISTEREDAPPLICATIONS"],
     ["SOFTWARE", "WOW6432NODE"]]
  }

  function MachineProtectedKeys(): seq<seq<string>> {
    [["SOFTWARE", "MICROSOFT", "CRYPTOGRAPHY"],
     ["SOFTWARE", "MICROSOFT", "WINDOWS NT", "CURRENTVERSION", "WINLOGON"],
     ["SOFTWARE", "MICROSOFT", "WINDOWS DEFENDER"],
     ["SOFTWARE", "POLICIES", "MICROSOFT", "WINDOWS DEFENDER"]]
  }

  function UserContainerKeys(): seq<seq<string>> {
    [["SOFTWARE", "CLASSES"],
     ["SOFTWARE", "CLASSES", "CLSID"],
     ["SOFTWARE", "MICROSOFT"],
     ["SOFTWARE", "MICROSOFT", "WINDOWS"],
     ["SOFTWARE", "MICROSOFT", "WINDOWS", "CURRENTVERSION"],
     ["SOFTWARE", "MICROSOFT", "WINDOWS", "CURRENTVERSION", "RUN"],
     ["SOFTWARE", "MICROSOFT", "WINDOWS", "CURRENTVERSION", "RUNONCE"],
     ["SOFTWARE", "MICROSOFT", "WINDOWS", "CURRENTVERSION", "UNINSTALL"],
     ["SOFTWARE", "POLICIES"],
     ["SOFTWARE", "WOW6432NODE"]]
  }

  function ProtectedMachineHives(): seq<string> {
    ["SAM", "SECURITY", "HARDWARE", "COMPONENTS", "DRIVERS"]
  }

  /** The drivers and services that ship with Windows, whatever they are: the
      source's two tables, of which nothing below depends on the entries. */
  datatype Inbox = Inbox(drivers: set<string>, services: set<string>)

  predicate IsInboxDriver(inbox: Inbox, fileName: string) {
    exists name :: name in inbox.drivers && EqFold(name, Trim(fileName))
  }

  predicate IsInboxService(inbox: Inbox, serviceName: string) {
    exists name :: name in inbox.services && EqFold(name, Trim(serviceName))
  }

  // ----- the carve-outs -----

  datatype Exceptions = Exceptions(driverFiles: set<string>, serviceNames: set<string>)

  const NO_EXCEPTIONS := Exceptions({}, {})

  /** What follows the last separator of either kind. */
  function BaseName(raw: string): string {
    raw[LastIndexOf(Unified(raw), '\\') + 1..]
  }

  /** The base name of a driver a catalog declares, in upper case. */
  function BaseFileName(raw: string): string {
    UpperAll(Trim(BaseName(raw)))
  }

  function ServiceName(raw: string): string {
    UpperAll(Trim(raw))
  }

  /** `Exceptions::new`. */
  function NewExceptions(inbox: Inbox, drivers: seq<string>, services: seq<string>): Exceptions {
    Exceptions(
      set d | d in drivers && BaseFileName(d) != "" && !IsInboxDriver(inbox, BaseFileName(d)) :: BaseFileName(d),
      set s | s in services && ServiceName(s) != "" && !IsInboxService(inbox, ServiceName(s)) :: ServiceName(s))
  }

  predicate AllowsDriverFile(exceptions: Exceptions, fileName: string) {
    UpperAll(fileName) in exceptions.driverFiles
  }

  predicate AllowsService(exceptions: Exceptions, serviceName: string) {
    UpperAll(serviceName) in exceptions.serviceNames
  }

  // ----- verdicts on paths -----

  datatype DenyReason =
    | ProtectedSystemPath
    | ProtectedTopLevelDirectory
    | ProtectedUserHive
    | ProtectedProgramData
    | ProtectedContainer
    | ProtectedWindowsData
    | VolumeRoot
    | TooShallow
    | NonLocalNamespace
    | EightDotThreeUnresolved
    | ReparsePointInPath
    | UnresolvedAtExecution
    | ProtectedRegistryHive
    | ProtectedSystemKey
    | ProtectedRegistryKey
    | UnknownServiceKey
    | RegistryKeyTooShallow

  datatype Verdict = Allowed | Denied(reason: DenyReason)

  datatype Stage = CatalogLoad | OnDisk(traversesReparsePoint: bool)

  predicate AnyFold(names: seq<string>, name: string) {
    exists i :: 0 <= i < |names| && EqFold(names[i], name)
  }

  predicate StartsWithPattern(components: seq<string>, pattern: seq<string>) {
    |pattern| <= |components|
    && forall i :: 0 <= i < |pattern| ==> pattern[i] == "*" || EqFold(components[i], pattern[i])
  }

  predicate EqualsPattern(components: seq<string>, pattern: seq<string>) {
    |components| == |pattern| && StartsWithPattern(components, pattern)
  }

  predicate StartsWithAny(components: seq<string>, patterns: seq<seq<string>>) {
    exists i :: 0 <= i < |patterns| && StartsWithPattern(components, patterns[i])
  }

  predicate EqualsAny(components: seq<string>, patterns: seq<seq<string>>) {
    exists i :: 0 <= i < |patterns| && EqualsPattern(components, patterns[i])
  }

  predicate IsProtectedTop(name: string) {
    AnyFold(ProtectedTopLevel(), name)
  }

  predicate IsUserHive(leaf: string) {
    exists i :: 0 <= i < |UserHiveFiles()| && UserHiveFiles()[i] <= leaf
  }

  predicate IsContainer(components: seq<string>) {
    || EqualsAny(components, Containers())
    || (components != [] && AnyFold(LibraryLeaves(), components[|components| - 1]))
    || (|components| >= 2 && EqFold(components[|components| - 2], "STEAMAPPS")
        && AnyFold(SteamappsContainers(), components[|components| - 1]))
  }

  /** `evaluate_path`. */
  function EvaluatePath(path: CanonicalPath, exceptions: Exceptions, stage: Stage): Verdict {
    if stage.OnDisk? && stage.traversesReparsePoint then Denied(ReparsePointInPath)
    else if stage.OnDisk? && !path.resolvedViaHandle then Denied(UnresolvedAtExecution)
    else if path.shortName then Denied(EightDotThreeUnresolved)
    else if path.kind != DriveRooted then Denied(NonLocalNamespace)
    else if path.components == [] then Denied(VolumeRoot)
    else if IsProtectedTop(path.components[0]) then WindowsDirectoryException(path.components, exceptions)
    else EvaluateOrdinary(path.components)
  }

  /** The rules below no protected top-level folder, which no carve-out moves. */
  function EvaluateOrdinary(components: seq<string>): Verdict
    requires components != []
  {
    if |components| == 1 && AnyFold(ContainerTopLevel(), components[0]) then Denied(ProtectedTopLevelDirectory)
    else if IsUserHive(components[|components| - 1]) then Denied(ProtectedUserHive)
    else if StartsWithPattern(components, ["ProgramData", "Microsoft"]) then Denied(ProtectedProgramData)
    else if StartsWithAny(components, WindowsData()) then Denied(ProtectedWindowsData)
    else if IsContainer(components) then Denied(ProtectedContainer)
    else if |components| < 2 then Denied(TooShallow)
    else Allowed
  }

  predicate IsDriverFile(components: seq<string>) {
    |components| == 4 && EqFold(components[0], "WINDOWS") && EqFold(components[1], "SYSTEM32")
    && EqFold(components[2], "DRIVERS")
  }

  function WindowsDirectoryException(components: seq<string>, exceptions: Exceptions): Verdict {
    if IsDriverFile(components) && AllowsDriverFile(exceptions, components[3]) then Allowed
    else if |components| == 1 then Denied(ProtectedTopLevelDirectory)
    else Denied(ProtectedSystemPath)
  }

  // ----- verdicts on registry keys -----

  /** `evaluate_registry_key`. */
  function EvaluateKey(key: CanonicalRegKey, exceptions: Exceptions): Verdict {
    var components := key.components;
    match key.hive
    case Hklm => EvaluateMachineKey(components, exceptions)
    case Hkcu => EvaluateUserKey(components)
    case Hku =>
      if |components| < 2 then Denied(RegistryKeyTooShallow)
      else if EndsWith(components[0], "_CLASSES") then EvaluateUserKey(["SOFTWARE", "CLASSES"] + components[1..])
      else EvaluateUserKey(components[1..])
    case Hkcc => Denied(ProtectedSystemKey)
    case Hkcr => ShallowFloor(components)
  }

  /** The 64-bit key a `SOFTWARE\WOW6432Node` key mirrors. */
  function Native(components: seq<string>): Option<seq<string>> {
    if |components| >= 2 && EqFold(components[0], "SOFTWARE") && EqFold(components[1], "WOW6432NODE") then
      Some([components[0]] + components[2..])
    else None
  }

  predicate InProtectedKeys(components: seq<string>) {
    StartsWithAny(components, MachineProtectedKeys())
  }

  predicate IsContainerKey(components: seq<string>) {
    EqualsAny(components, MachineContainerKeys())
  }

  predicate IsMirrored(components: seq<string>) {
    match Native(components)
    case None => false
    case Some(native) => InProtectedKeys(native) || (|native| > 1 && IsContainerKey(native))
  }

  /** `evaluate_machine_key`. */
  function EvaluateMachineKey(components: seq<string>, exceptions: Exceptions): Verdict {
    if components != [] && ("BCD" <= components[0] || AnyFold(ProtectedMachineHives(), components[0])) then
      Denied(ProtectedRegistryHive)
    else if IsServicesKey(components) then
      if |components| == 4 && AllowsService(exceptions, components[3]) then Allowed else Denied(UnknownServiceKey)
    else if components != [] && EqFold(components[0], "SYSTEM") then Denied(ProtectedSystemKey)
    else if InProtectedKeys(components) || IsContainerKey(components) || IsMirrored(components) then
      Denied(ProtectedRegistryKey)
    else ShallowFloor(components)
  }

  function EvaluateUserKey(components: seq<string>): Verdict {
    if EqualsAny(components, UserContainerKeys()) then Denied(ProtectedRegistryKey) else ShallowFloor(components)
  }

  function ShallowFloor(components: seq<string>): Verdict {
    if |components| < 2 then Denied(RegistryKeyTooShallow) else Allowed
  }

  predicate IsControlSet(name: string) {
    || EqFold(name, "CURRENTCONTROLSET")
    || (|name| > 10 && EqFold(name[..10], "CONTROLSET") && AllDigits(name[10..]))
  }

  /** `service_key_leaf`: the `Services` container of a control set, or below. */
  predicate IsServicesKey(components: seq<string>) {
    |components| >= 3 && EqFold(components[0], "SYSTEM") && EqFold(components[2], "SERVICES")
    && IsControlSet(components[1])
  }

  // ----- verdicts on text -----

  /** A path that is read, and allowed when a catalog is loaded. */
  predicate PathSafe(path: string, exceptions: Exceptions) {
    Canonical(path).Ok? && EvaluatePath(Canonical(path).value, exceptions, CatalogLoad) == Allowed
  }

  /** And a key. */
  predicate KeySafe(key: string, exceptions: Exceptions) {
    CanonicalKey(key).Ok? && EvaluateKey(CanonicalKey(key).value, exceptions) == Allowed
  }

  // ----- laws -----

  ghost predicate UnlocksNoMore(fewer: Exceptions, more: Exceptions) {
    fewer.driverFiles <= more.driverFiles && fewer.serviceNames <= more.serviceNames
  }

  /** An allowed path is a local path at least two deep, and below a protected
      top-level folder it is one file of `System32\drivers` the carve-outs name. */
  lemma AllowedPaths(path: CanonicalPath, exceptions: Exceptions, stage: Stage)
    requires EvaluatePath(path, exceptions, stage) == Allowed
    ensures path.kind == DriveRooted && !path.shortName && |path.components| >= 2
    ensures IsProtectedTop(path.components[0]) ==>
              IsDriverFile(path.components) && AllowsDriverFile(exceptions, path.components[3])
  {
  }

  /** More carve-outs move one verdict only: a file of `System32\drivers` that
      only they name, from refused to allowed. */
  lemma MoreExceptionsUnlockOnlyDrivers(path: CanonicalPath, fewer: Exceptions, more: Exceptions, stage: Stage)
    requires UnlocksNoMore(fewer, more)
    ensures var was, now := EvaluatePath(path, fewer, stage), EvaluatePath(path, more, stage);
            was != now ==>
              && was == Denied(ProtectedSystemPath) && now == Allowed
              && IsDriverFile(path.components)
              && UpperAll(path.components[3]) in more.driverFiles - fewer.driverFiles
  {
  }

  /** And of registry keys, a service key that only they name. */
  lemma MoreExceptionsUnlockOnlyServices(key: CanonicalRegKey, fewer: Exceptions, more: Exceptions)
    requires UnlocksNoMore(fewer, more)
    ensures var was, now := EvaluateKey(key, fewer), EvaluateKey(key, more);
            was != now ==>
              && was == Denied(UnknownServiceKey) && now == Allowed && key.hive == Hklm
              && IsServicesKey(key.components) && |key.components| == 4
              && UpperAll(key.components[3]) in more.serviceNames - fewer.serviceNames
  {
  }

  /** A carve-out is never for what ships with Windows, and always for a name
      the entry declared. */
  lemma ExceptionsAreDeclared(inbox: Inbox, drivers: seq<string>, services: seq<string>)
    ensures var e := NewExceptions(inbox, drivers, services);
            && (forall f :: f in e.driverFiles ==> !IsInboxDriver(inbox, f) && exists d :: d in drivers && BaseFileName(d) == f)
            && (forall s :: s in e.serviceNames ==> !IsInboxService(inbox, s) && exists n :: n in services && ServiceName(n) == s)
  {
  }
}
