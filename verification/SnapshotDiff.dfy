// Comparing two snapshots, and reading a diff backwards:
// tools/observe/src/diff.rs.
module SnapshotDiff {
  import opened Prelude
  import opened Ordered
  import opened Text
  import opened Observed
  import opened Policies
  import opened Keyed
  import opened Changes
  import opened ServiceDiff
  import opened FileDiff
  import opened RegistryDiff

  const OLDEST_SNAPSHOT_FORMAT: nat := 1
  const SNAPSHOT_FORMAT: nat := 2
  const DIFF_FORMAT: nat := 2
  const SAME_BOOT_TOLERANCE_MS: nat := 120000

  /** What the policy removed, by kind. */
  datatype Refiltered = Refiltered(
    registryRecords: nat,
    registryValues: nat,
    accessDenied: nat,
    emptiedKeys: nat,
    files: nat,
    emptiedDirectories: nat)

  const NOTHING_REMOVED: Refiltered := Refiltered(0, 0, 0, 0, 0, 0)

  datatype Footprint = Footprint(beforeTakenUtc: string, afterTakenUtc: string, changes: nat)

  datatype Diff = Diff(
    formatVersion: nat,
    snapshotFormatVersion: nat,
    beforeTakenUtc: string,
    afterTakenUtc: string,
    rebootedBetween: Option<bool>,
    emptiedDirectories: Option<seq<string>>,
    emptiedKeys: Option<seq<RegistryKeyRef>>,
    formerlyEmptyDirectories: Option<seq<string>>,
    formerlyEmptyKeys: Option<seq<RegistryKeyRef>>,
    coverage: Coverage,
    services: seq<ServiceChange>,
    suppressed: seq<Suppressed>,
    files: seq<FileChange>,
    suppressedFiles: seq<SuppressedFile>,
    registry: seq<RegistryChange>,
    registryPolicyChanged: bool,
    filesystemPolicyChanged: bool,
    libraries: seq<Library>,
    signers: map<string, nat>,
    refiltered: Refiltered,
    intersectionOf: Option<seq<Footprint>>)

  datatype DiffError = UnsupportedFormat(found: nat) | MixedFormats(before: nat, after: nat)

  // ----- the parts of a comparison -----

  function Undenied(policy: Policy): AccessDenied -> bool {
    (denied: AccessDenied) => !ExcludedDenial(policy, denied)
  }

  function NotIn<T(==)>(list: seq<T>): T -> bool {
    (t: T) => t !in list
  }

  function AllowedDirectory(policy: Policy): string -> bool {
    (directory: string) => !ExcludedPath(policy, directory)
  }

  function AllowedKey(policy: Policy): RegistryKeyRef -> bool {
    (key: RegistryKeyRef) => !ExcludedKey(policy, key.key)
  }

  /** What one list has and the other has not, when both were recorded. */
  function Newly<T(==, !new)>(covered: bool, was: Option<seq<T>>, now: Option<seq<T>>): Option<seq<T>> {
    if covered && was.Some? && now.Some? then Some(Retained(now.value, NotIn(was.value))) else None
  }

  function Allowed<T(!new)>(list: Option<seq<T>>, keep: T -> bool): Option<seq<T>> {
    match list case None => None case Some(items) => Some(Retained(items, keep))
  }

  function Lost<T(!new)>(list: Option<seq<T>>, keep: T -> bool): nat {
    match list case None => 0 case Some(items) => |items| - |Retained(items, keep)|
  }

  /** `emptied_directories` before its exclusions: empty now, and not before. */
  function NewlyEmptyDirectories(before: Snapshot, after: Snapshot, coverage: Coverage): Option<seq<string>> {
    Newly(Covers(coverage, Filesystem), before.emptyDirectories, after.emptyDirectories)
  }

  /** `emptied_keys`, likewise. */
  function NewlyEmptyKeys(before: Snapshot, after: Snapshot, coverage: Coverage): Option<seq<RegistryKeyRef>> {
    Newly(Covers(coverage, Registry), before.emptyKeys, after.emptyKeys)
  }

  function Apart(a: nat, b: nat): nat {
    if a < b then b - a else a - b
  }

  /** `rebooted_between`: unknown unless both snapshots say which boot it was. */
  function RebootedBetween(before: Option<nat>, after: Option<nat>): Option<bool> {
    if before.Some? && after.Some? then Some(Apart(before.value, after.value) > SAME_BOOT_TOLERANCE_MS) else None
  }

  predicate ListsLibrary(list: seq<Library>, library: Library) {
    exists other :: other in list && other.launcher == library.launcher && EqFold(other.path, library.path)
  }

  function ListedIn(list: seq<Library>): Library -> bool {
    (library: Library) => ListsLibrary(list, library)
  }

  /** `libraries::common`: what every list names, in the first one's order. */
  function CommonLibraries(lists: seq<seq<Library>>): seq<Library> {
    if lists == [] then []
    else if |lists| == 1 then lists[0]
    else Retained(CommonLibraries(lists[..|lists| - 1]), ListedIn(lists[|lists| - 1]))
  }

  lemma CommonMore(lists: seq<seq<Library>>, library: Library)
    requires lists != []
    ensures var n := |lists| - 1;
            library in CommonLibraries(lists) <==>
              if n == 0 then library in lists[0] else library in CommonLibraries(lists[..n]) && ListsLibrary(lists[n], library)
  {
    hide ListsLibrary;
  }

  /** What every list names, and nothing else. */
  lemma {:induction false} CommonIsInEvery(lists: seq<seq<Library>>, library: Library)
    requires lists != []
    ensures library in CommonLibraries(lists) <==>
              library in lists[0] && forall i :: 1 <= i < |lists| ==> ListsLibrary(lists[i], library)
  {
    hide ListsLibrary; hide CommonLibraries;
    CommonMore(lists, library);
    if |lists| > 1 {
      var n := |lists| - 1;
      CommonIsInEvery(lists[..n], library);
      forall i | 1 <= i < n ensures ListsLibrary(lists[..n][i], library) == ListsLibrary(lists[i], library) {
      }
    }
  }

  function Libraries(policy: Option<FilesystemPolicy>): seq<Library> {
    match policy case None => [] case Some(p) => p.libraries
  }

  // ----- the comparison -----

  /** The coverage both snapshots share, before excluded denials leave it. */
  function SharedCoverage(before: Snapshot, after: Snapshot): Coverage {
    CommonCoverage(before.coverage, after.coverage)
  }

  function ComparedServices(before: Snapshot, after: Snapshot, filter: NoiseFilter): seq<ServiceChange> {
    if Covers(SharedCoverage(before, after), Services) then ServiceChanges(filter, before.services, after.services) else []
  }

  function ComparedFiles(before: Snapshot, after: Snapshot, policy: Policy): seq<FileChange> {
    if Covers(SharedCoverage(before, after), Filesystem)
    then FileChanges(FileIndex(policy, before.files), FileIndex(policy, after.files)) else []
  }

  function ComparedRegistry(before: Snapshot, after: Snapshot, policy: Policy): seq<RegistryChange> {
    if Covers(SharedCoverage(before, after), Registry)
    then RegistryChanges(RegistryIndex(policy, before.registry), RegistryIndex(policy, after.registry)) else []
  }

  function LostDenials(before: Snapshot, after: Snapshot, policy: Policy): nat {
    |SharedCoverage(before, after).accessDenied| - |Retained(SharedCoverage(before, after).accessDenied, Undenied(policy))|
  }

  function LostFiles(before: Snapshot, after: Snapshot, policy: Policy): nat {
    if Covers(SharedCoverage(before, after), Filesystem)
    then ExcludedFiles(policy, before.files) + ExcludedFiles(policy, after.files) else 0
  }

  function LostRecords(before: Snapshot, after: Snapshot, policy: Policy): nat {
    if Covers(SharedCoverage(before, after), Registry)
    then DroppedRecords(policy, before.registry) + DroppedRecords(policy, after.registry) else 0
  }

  function LostValues(before: Snapshot, after: Snapshot, policy: Policy): nat {
    if Covers(SharedCoverage(before, after), Registry)
    then RefusedValues(policy, before.registry) + RefusedValues(policy, after.registry) else 0
  }

  /** What the loops of a comparison leave, before the rest is filled in. */
  datatype Parts = Parts(
    services: seq<ServiceChange>,
    suppressed: seq<Suppressed>,
    files: seq<FileChange>,
    suppressedFiles: seq<SuppressedFile>,
    registry: seq<RegistryChange>,
    signers: map<string, nat>,
    droppedRecords: nat,
    refusedValues: nat,
    excludedFiles: nat)

  function Assembled(before: Snapshot, after: Snapshot, policy: Policy, parts: Parts): Diff {
    var shared := SharedCoverage(before, after);
    var directories, keys := NewlyEmptyDirectories(before, after, shared), NewlyEmptyKeys(before, after, shared);
    var formerDirectories, formerKeys := NewlyEmptyDirectories(after, before, shared), NewlyEmptyKeys(after, before, shared);
    Diff(
      DIFF_FORMAT, before.formatVersion, before.takenUtc, after.takenUtc,
      RebootedBetween(before.bootStartedMs, after.bootStartedMs),
      Allowed(directories, AllowedDirectory(policy)), Allowed(keys, AllowedKey(policy)),
      Allowed(formerDirectories, AllowedDirectory(policy)), Allowed(formerKeys, AllowedKey(policy)),
      shared.(accessDenied := Retained(shared.accessDenied, Undenied(policy))),
      parts.services, parts.suppressed, parts.files, parts.suppressedFiles, parts.registry,
      before.registryPolicy != after.registryPolicy,
      before.filesystemPolicy != after.filesystemPolicy,
      CommonLibraries([Libraries(before.filesystemPolicy), Libraries(after.filesystemPolicy)]),
      parts.signers,
      Refiltered(
        parts.droppedRecords, parts.refusedValues, LostDenials(before, after, policy),
        Lost(formerKeys, AllowedKey(policy)) + Lost(keys, AllowedKey(policy)),
        parts.excludedFiles,
        Lost(formerDirectories, AllowedDirectory(policy)) + Lost(directories, AllowedDirectory(policy))),
      None)
  }

  function ComparedParts(before: Snapshot, after: Snapshot, filter: NoiseFilter, policy: Policy): Parts {
    var services, files := ComparedServices(before, after, filter), ComparedFiles(before, after, policy);
    Parts(
      KeptServices(filter, services), SuppressedServices(filter, services),
      KeptFiles(filter, files), SuppressedFiles(filter, files),
      ComparedRegistry(before, after, policy), SignerCounts(KeptFiles(filter, files)),
      LostRecords(before, after, policy), LostValues(before, after, policy), LostFiles(before, after, policy))
  }

  /** What `compare` returns for two snapshots of one readable format. */
  function Compared(before: Snapshot, after: Snapshot, filter: NoiseFilter, policy: Policy): Diff {
    Assembled(before, after, policy, ComparedParts(before, after, filter, policy))
  }

  predicate Readable(format: nat) {
    OLDEST_SNAPSHOT_FORMAT <= format <= SNAPSHOT_FORMAT
  }

  /** Services answer to coverage like every other domain, and are sifted. */
  method ServicesPart(before: Snapshot, after: Snapshot, filter: NoiseFilter)
    returns (kept: seq<ServiceChange>, suppressed: seq<Suppressed>)
    ensures kept == KeptServices(filter, ComparedServices(before, after, filter))
    ensures suppressed == SuppressedServices(filter, ComparedServices(before, after, filter))
  {
    var changes := [];
    if Covers(SharedCoverage(before, after), Services) {
      changes := CompareServices(filter, before.services, after.services);
    }
    hide KeptServices;
    hide SuppressedServices;
    hide ServiceChanges;
    kept, suppressed := Sift(filter, changes);
  }

  method FilesPart(before: Snapshot, after: Snapshot, filter: NoiseFilter, policy: Policy)
    returns (kept: seq<FileChange>, suppressed: seq<SuppressedFile>, excluded: nat)
    ensures kept == KeptFiles(filter, ComparedFiles(before, after, policy))
    ensures suppressed == SuppressedFiles(filter, ComparedFiles(before, after, policy))
    ensures excluded == LostFiles(before, after, policy)
  {
    kept, suppressed, excluded := [], [], 0;
    SiftedNone(filter);
    hide KeptFiles;
    hide SuppressedFiles;
    hide FileChanges;
    if Covers(SharedCoverage(before, after), Filesystem) {
      kept, suppressed, excluded := CompareFiles(policy, filter, before.files, after.files, 0);
    }
  }

  method RegistryPart(before: Snapshot, after: Snapshot, policy: Policy)
    returns (changes: seq<RegistryChange>, dropped: nat, refused: nat)
    ensures changes == ComparedRegistry(before, after, policy)
    ensures dropped == LostRecords(before, after, policy) && refused == LostValues(before, after, policy)
  {
    changes, dropped, refused := [], 0, 0;
    if Covers(SharedCoverage(before, after), Registry) {
      changes, dropped, refused := CompareRegistry(policy, before.registry, after.registry);
    }
  }

  /** `compare`. */
  method Compare(before: Snapshot, after: Snapshot, filter: NoiseFilter, policy: Policy) returns (r: Result<Diff, DiffError>)
    ensures !Readable(before.formatVersion) ==> r == Err(UnsupportedFormat(before.formatVersion))
    ensures Readable(before.formatVersion) && !Readable(after.formatVersion) ==>
              r == Err(UnsupportedFormat(after.formatVersion))
    ensures Readable(before.formatVersion) && Readable(after.formatVersion) ==>
              r == if before.formatVersion == after.formatVersion
                   then Ok(Compared(before, after, filter, policy))
                   else Err(MixedFormats(before.formatVersion, after.formatVersion))
  {
    if !Readable(before.formatVersion) {
      return Err(UnsupportedFormat(before.formatVersion));
    }
    if !Readable(after.formatVersion) {
      return Err(UnsupportedFormat(after.formatVersion));
    }
    if before.formatVersion != after.formatVersion {
      return Err(MixedFormats(before.formatVersion, after.formatVersion));
    }
    hide KeptServices; hide SuppressedServices; hide ComparedServices;
    hide KeptFiles; hide SuppressedFiles; hide ComparedFiles; hide ComparedRegistry; hide SignerCounts;
    hide LostRecords; hide LostValues; hide LostFiles; hide Assembled;
    var kept, suppressed := ServicesPart(before, after, filter);
    var files, suppressedFiles, excluded := FilesPart(before, after, filter, policy);
    var registry, dropped, refused := RegistryPart(before, after, policy);
    var signers := CountSigners(files);
    r := Ok(Assembled(before, after, policy,
                      Parts(kept, suppressed, files, suppressedFiles, registry, signers, dropped, refused, excluded)));
  }

  // ----- reading a diff backwards -----

  function ReverseSuppressed(): Suppressed -> Suppressed {
    (entry: Suppressed) => Suppressed(entry.rule, ServiceReversed(entry.change))
  }

  function ReverseSuppressedFile(): SuppressedFile -> SuppressedFile {
    (entry: SuppressedFile) => SuppressedFile(entry.rule, FileReversed(entry.change))
  }

  /** `reversed`. */
  function Reversed(diff: Diff): Diff {
    var files := Mapped(diff.files, ReverseFile());
    diff.(
      beforeTakenUtc := diff.afterTakenUtc,
      afterTakenUtc := diff.beforeTakenUtc,
      emptiedDirectories := diff.formerlyEmptyDirectories,
      emptiedKeys := diff.formerlyEmptyKeys,
      formerlyEmptyDirectories := diff.emptiedDirectories,
      formerlyEmptyKeys := diff.emptiedKeys,
      services := Mapped(diff.services, ReverseService()),
      suppressed := Mapped(diff.suppressed, ReverseSuppressed()),
      files := files,
      suppressedFiles := Mapped(diff.suppressedFiles, ReverseSuppressedFile()),
      registry := Mapped(diff.registry, ReverseRegistry()),
      signers := SignerCounts(files))
  }
}
