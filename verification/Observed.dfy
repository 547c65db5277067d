// What a snapshot records: tools/observe/src/model.rs.
module Observed {
  import opened Prelude
  import opened Ordered
  import opened Text
  import opened Keyed

  datatype Domain = Services | Registry | Filesystem | ScheduledTasks | Firewall | EventSources | Environment

  const ALL_DOMAINS: seq<Domain> :=
    [Services, Registry, Filesystem, ScheduledTasks, Firewall, EventSources, Environment]

  datatype AccessDenied = AccessDenied(domain: Domain, item: string, reason: string)

  datatype Coverage = Coverage(captured: seq<Domain>, notCaptured: seq<Domain>, accessDenied: seq<AccessDenied>)

  datatype RegistryKeyRef = RegistryKeyRef(key: string, view: string)

  datatype RegistryValue = RegistryValue(name: string, kind: string, data: string, oversizedBytes: Option<nat>)

  datatype RegistryRecord = RegistryRecord(key: string, view: string, values: seq<RegistryValue>)

  datatype FileRecord = FileRecord(
    path: string,
    size: nat,
    modifiedUtc: string,
    sha256: Option<string>,
    signer: Option<string>,
    notHashed: Option<string>)

  datatype ServiceRecord = ServiceRecord(
    name: string,
    displayName: string,
    serviceType: string,
    startType: string,
    errorControl: string,
    binaryPath: string,
    loadOrderGroup: string,
    startName: string,
    dependencies: seq<string>,
    description: string,
    delayedAutoStart: bool)

  datatype Library = Library(launcher: string, path: string)

  datatype FilesystemPolicy = FilesystemPolicy(
    roots: seq<string>,
    excluded: seq<string>,
    hashedExtensions: seq<string>,
    maxHashBytes: nat,
    libraries: seq<Library>)

  datatype RegistryPolicy = RegistryPolicy(
    roots: seq<string>,
    views: seq<string>,
    excluded: seq<string>,
    maxValueBytes: nat)

  /** The parts of a snapshot a comparison reads. */
  datatype Snapshot = Snapshot(
    formatVersion: nat,
    takenUtc: string,
    bootStartedMs: Option<nat>,
    coverage: Coverage,
    services: seq<ServiceRecord>,
    files: seq<FileRecord>,
    registry: seq<RegistryRecord>,
    registryPolicy: Option<RegistryPolicy>,
    filesystemPolicy: Option<FilesystemPolicy>,
    emptyDirectories: Option<seq<string>>,
    emptyKeys: Option<seq<RegistryKeyRef>>)

  lemma {:induction false} DecimalIsExact(m: nat, n: nat)
    ensures Decimal(m) == Decimal(n) <==> m == n
    decreases m
  {
    if Decimal(m) == Decimal(n) {
      var s, t := Decimal(m), Decimal(n);
      assert s[|s| - 1] == t[|t| - 1];
      assert m % 10 == n % 10;
      if m >= 10 && n >= 10 {
        assert s[..|s| - 1] == Decimal(m / 10) && t[..|t| - 1] == Decimal(n / 10);
        DecimalIsExact(m / 10, n / 10);
      } else {
        assert m < 10 ==> |s| == 1;
        assert n < 10 ==> |t| == 1;
        assert m >= 10 ==> |s| > 1;
        assert n >= 10 ==> |t| > 1;
      }
    }
  }

  /** What a diff compares of a registry value: its type and its data, or its
      size when it was too large to record. */
  function Comparable(value: RegistryValue): string {
    match value.oversizedBytes
    case Some(bytes) => value.kind + ":<" + Decimal(bytes) + " bytes, not recorded>"
    case None => value.kind + ":" + value.data
  }

  predicate Holds(s: string, part: string) {
    exists i :: 0 <= i <= |s| && part <= s[i..]
  }

  predicate IsDriverImage(file: FileRecord) {
    EndsWith(LowerAll(file.path), ".sys")
  }

  predicate IsDriver(service: ServiceRecord) {
    Holds(service.serviceType, "driver")
  }

  predicate IsBootStart(service: ServiceRecord) {
    service.startType == "boot"
  }

  // ----- coverage -----

  predicate Covers(coverage: Coverage, domain: Domain) {
    domain in coverage.captured
  }

  function Rank(domain: Domain): nat {
    match domain
    case Services => 0
    case Registry => 1
    case Filesystem => 2
    case ScheduledTasks => 3
    case Firewall => 4
    case EventSources => 5
    case Environment => 6
  }

  function DomainLess(): (Domain, Domain) -> bool {
    (a: Domain, b: Domain) => Rank(a) < Rank(b)
  }

  type Identity = (Domain, string)

  /** A refusal's place in the sorted list: by domain, then by item. */
  function DeniedOrder(): (Identity, Identity) -> bool {
    Lexicographic(DomainLess(), Less)
  }

  lemma DeniedOrderIsTotal()
    ensures StrictTotal(DeniedOrder())
  {
    TextOrderIsTotal();
    LexicographicIsTotal(DomainLess(), Less);
  }

  function DeniedIdentity(denied: AccessDenied): Identity {
    (denied.domain, denied.item)
  }

  /** The first of a list with one identity: what a stable sort puts first. */
  function FirstDenied(denied: seq<AccessDenied>, identity: Identity): (first: Option<AccessDenied>)
    ensures first.Some? ==> first.value in denied && DeniedIdentity(first.value) == identity
    ensures first.None? ==> forall d :: d in denied ==> DeniedIdentity(d) != identity
  {
    if denied == [] then None
    else if DeniedIdentity(denied[0]) == identity then Some(denied[0])
    else FirstDenied(denied[1..], identity)
  }

  function Identities(denied: seq<AccessDenied>): set<Identity> {
    set d | d in denied :: DeniedIdentity(d)
  }

  function EachFirst(denied: seq<AccessDenied>): Identity -> Option<AccessDenied> {
    (identity: Identity) => FirstDenied(denied, identity)
  }

  /** Extended, sorted by identity, and deduplicated. */
  function DeniedUnion(mine: seq<AccessDenied>, theirs: seq<AccessDenied>): seq<AccessDenied> {
    DeniedOrderIsTotal();
    Collected(Ascending(Identities(mine + theirs), DeniedOrder()), EachFirst(mine + theirs))
  }

  function DomainsWhere(domains: seq<Domain>, listed: seq<Domain>, wanted: bool): (r: seq<Domain>)
    ensures forall d :: d in r <==> d in domains && (d in listed) == wanted
  {
    if domains == [] then []
    else
      var n := |domains| - 1;
      assert domains == domains[..n] + [domains[n]];
      DomainsWhere(domains[..n], listed, wanted) + if (domains[n] in listed) == wanted then [domains[n]] else []
  }

  /** `Coverage::intersect`. */
  function CommonCoverage(mine: Coverage, theirs: Coverage): Coverage {
    var captured := DomainsWhere(mine.captured, theirs.captured, true);
    Coverage(captured, DomainsWhere(ALL_DOMAINS, captured, false), DeniedUnion(mine.accessDenied, theirs.accessDenied))
  }
}
