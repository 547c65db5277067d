// The machine as the audit reads it, and what an audit reports:
// core/src/scan/view.rs, model.rs and the judgements of engine.rs.
module Machine {
  import opened Prelude
  import opened Text
  import opened Paths
  import opened RegKeys
  import opened DenyList
  import opened Expand
  import opened Catalog

  /** The answer to one lookup. Unreadable is never absent. */
  datatype Lookup<+T> = Found(value: T) | Absent | Unreadable(reason: string)

  datatype ServiceStatus = ServiceStatus(image: string, stale: bool)

  datatype ServiceKey = ServiceKey(name: string, image: string)

  datatype DriverKeys = DriverKeys(drivers: seq<ServiceKey>, unreadable: seq<(string, string)>)

  datatype PathKind = File | Directory | ReparsePoint

  datatype Signature = Verified(signer: string) | Unsigned | Invalid | Unknown(reason: string)

  datatype RegView = View64 | View32

  /** Every question the audit asks, and what this machine answers. */
  datatype MachineView = MachineView(
    service: string -> Lookup<ServiceStatus>,
    serviceKey: string -> Lookup<ServiceKey>,
    driverKeys: Lookup<DriverKeys>,
    registryKey: (string, RegView) -> Lookup<()>,
    path: string -> Lookup<PathKind>,
    signature: string -> Signature)

  /** The machine's values for a catalog's variables, by upper-case name. */
  datatype Environment = Environment(values: map<string, seq<string>>, unreadable: seq<(string, string)>)

  function ValueOf(environment: Environment): string -> Option<seq<string>> {
    (name: string) => if UpperAll(name) in environment.values then Some(environment.values[UpperAll(name)]) else None
  }

  function SystemRoot(environment: Environment): string {
    match ValueOf(environment)("SystemRoot")
    case None => "C:\\Windows"
    case Some(values) => if values == [] then "C:\\Windows" else values[0]
  }

  // ----- the report -----

  datatype Classification = Confirmed | Probable | Suspicious

  datatype Artifact =
    | Service(name: string, configured: Option<string>, registryOnly: bool)
    | Driver(file: string, service: Option<string>, image: string, imagePresent: bool)
    | RegistryKey(key: string, view: RegView)
    | PathArtifact(path: string, directory: bool)

  datatype Finding = Finding(anticheat: string, risk: Risk, artifact: Artifact, classification: Classification)

  datatype Refusal =
    | RefusedPath(reason: DenyReason)
    | RefusedKey(reason: DenyReason)
    | BadPath(pathError: PathError)
    | BadKey(keyError: RegKeyError)
    | ThroughLink

  datatype Protected = Protected(anticheat: string, target: string, reason: Refusal)

  datatype Trouble = Said(text: string) | Unexpandable(error: ExpandError)

  datatype Unread = Unread(anticheat: Option<string>, item: string, reason: Trouble)

  datatype Disbelieved = Disbelieved(anticheat: string, item: string)

  datatype Report = Report(
    findings: seq<Finding>,
    protected: seq<Protected>,
    disbelieved: seq<Disbelieved>,
    unreadable: seq<Unread>)

  /** A scan with anything it could not read is partial. */
  predicate IsPartial(report: Report) {
    report.unreadable != []
  }

  // ----- judgements -----

  const ATTESTATION_SIGNER: string := "Microsoft Windows Hardware Compatibility Publisher"

  predicate IsPublisher(entry: AntiCheat, signer: string) {
    exists name :: name in entry.authenticodeCn && EqFold(name, signer)
  }

  /** `judge`: a file by its signature, against the publishers an entry names. */
  function Judge(signature: Signature, entry: AntiCheat): Classification {
    match signature
    case Verified(signer) =>
      if EqFold(signer, ATTESTATION_SIGNER) then Probable
      else if IsPublisher(entry, signer) then Confirmed
      else if entry.authenticodeCn == [] then Probable
      else Suspicious
    case Unsigned => Suspicious
    case Invalid => Suspicious
    case Unknown(_) => Probable
  }

  /** Only a named publisher's own verified signature confirms; Microsoft's
      attestation never does, whatever the catalog names; and a signature that
      could not be checked is never held against a file. */
  lemma JudgementIsSigned(signature: Signature, entry: AntiCheat)
    ensures Judge(signature, entry) == Confirmed <==>
              signature.Verified? && !EqFold(signature.signer, ATTESTATION_SIGNER) && IsPublisher(entry, signature.signer)
    ensures Judge(signature, entry) == Suspicious ==> !signature.Unknown?
    ensures signature.Verified? && entry.authenticodeCn == [] ==> Judge(signature, entry) == Probable
  {
    hide EqFold;
    assert entry.authenticodeCn == [] && signature.Verified? ==> !IsPublisher(entry, signature.signer);
    hide IsPublisher;
  }

  const SOFTWARE_PREFIX: string := "HKLM\\SOFTWARE\\"

  /** `views`: only `HKLM\SOFTWARE` is redirected, so only there is "both" two reads. */
  function Views(key: string, view: View): seq<RegView> {
    var redirected := |key| >= |SOFTWARE_PREFIX| && EqFold(key[..|SOFTWARE_PREFIX|], SOFTWARE_PREFIX);
    match view
    case Bits32 => [View32]
    case Both => if redirected then [View64, View32] else [View64]
    case Bits64 => [View64]
  }

  // ----- image paths -----

  function Earliest(ends: seq<int>, limit: nat): nat
  {
    if ends == [] then limit
    else if 0 <= ends[0] < limit then Earliest(ends[1..], ends[0])
    else Earliest(ends[1..], limit)
  }

  lemma {:induction false} EarliestFits(ends: seq<int>, limit: nat)
    ensures Earliest(ends, limit) <= limit
  {
    if ends != [] {
      EarliestFits(ends[1..], if 0 <= ends[0] < limit then ends[0] else limit);
    }
  }

  function EndOf(lowered: string, extension: string): int {
    var at := Find(lowered, extension);
    if at < 0 then -1 else at + |extension|
  }

  /** The text of a configured image without quotes or arguments. */
  function ImageText(configured: string): string {
    var text := Trim(configured);
    if text != "" && text[0] == '"' then Trim(text[1..][..IndexOf(text[1..], '"')])
    else
      var lowered := LowerAll(text);
      EarliestFits([EndOf(lowered, ".exe"), EndOf(lowered, ".sys"), EndOf(lowered, ".dll")], |text|);
      Trim(text[..Earliest([EndOf(lowered, ".exe"), EndOf(lowered, ".sys"), EndOf(lowered, ".dll")], |text|)])
  }

  const KERNEL_ROOT: string := "\\systemroot\\"
  const VARIABLE_ROOT: string := "%systemroot%\\"
  const NT_PREFIX: string := "\\??\\"

  /** `image_file`: the kernel's own spellings written out. */
  function ImageFile(configured: string, systemRoot: string): Option<string> {
    var text := ImageText(configured);
    if text == "" then None
    else if StartsFold(text, KERNEL_ROOT) then Some(systemRoot + "\\" + text[|KERNEL_ROOT|..])
    else if StartsFold(text, VARIABLE_ROOT) then Some(systemRoot + "\\" + text[|VARIABLE_ROOT|..])
    else if NT_PREFIX <= text then Some(text[|NT_PREFIX|..])
    else if StartsFold(text, "system32\\") then Some(systemRoot + "\\" + text)
    else Some(text)
  }

  function FileName(path: string): Option<string> {
    var name := path[LastIndexOf(path, '\\') + 1..];
    if name == "" then None else Some(name)
  }

  predicate EndsFold(s: string, suffix: string) {
    |suffix| <= |s| && EqFold(s[|s| - |suffix|..], suffix)
  }

  predicate IsSignable(path: string) {
    EndsFold(path, ".exe") || EndsFold(path, ".dll") || EndsFold(path, ".sys") || EndsFold(path, ".msi")
  }
}
