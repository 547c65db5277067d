// Intersecting footprints: tools/observe/src/intersect.rs.
module Intersect {
  import opened Prelude
  import opened Ordered
  import opened Text
  import opened Timestamp
  import opened Observed
  import opened Policies
  import opened Keyed
  import opened Changes
  import opened ServiceDiff
  import opened FileDiff
  import opened RegistryDiff
  import opened SnapshotDiff
  import opened Refilter
  import opened DiffLaws
  import opened Sharing

  datatype IntersectError =
    | TooFew(count: nat)
    | MixedFootprints(formats: set<nat>)
    | Repeated(beforeTakenUtc: string)
    | Nested

  // ----- identities -----

  function ServiceIdentity(): ServiceChange -> string {
    (change: ServiceChange) => LowerAll(change.name)
  }

  function FileIdentity(): FileChange -> string {
    (change: FileChange) => LowerAll(change.path)
  }

  function IdentityText(key: string, view: string): string {
    LowerAll(key) + "\0" + view
  }

  function RegistryIdentity(): RegistryChange -> string {
    (change: RegistryChange) => IdentityText(change.key, change.view)
  }

  function KeyRefIdentity(): RegistryKeyRef -> string {
    (key: RegistryKeyRef) => IdentityText(key.key, key.view)
  }

  function DirectoryIdentity(): string -> string {
    (directory: string) => LowerAll(directory)
  }

  function SuppressedChange(): Suppressed -> ServiceChange {
    (entry: Suppressed) => entry.change
  }

  function Itself(): RegistryChange -> RegistryChange {
    (change: RegistryChange) => change
  }

  /** Two keys have one identity when they are one key, in any case, in one view. */
  lemma IdentityTextIsThePair(a: string, v: string, b: string, w: string)
    requires '\0' !in v && '\0' !in w
    ensures IdentityText(a, v) == IdentityText(b, w) <==> EqFold(a, b) && v == w
  {
    LastNul(LowerAll(a), v);
    LastNul(LowerAll(b), w);
    var n, m := |LowerAll(a)|, |LowerAll(b)|;
    assert IdentityText(a, v)[..n] == LowerAll(a) && IdentityText(b, w)[..m] == LowerAll(b);
    assert IdentityText(a, v)[n + 1..] == v && IdentityText(b, w)[m + 1..] == w;
  }

  lemma LastNul(a: string, v: string)
    requires '\0' !in v
    ensures LastIndexOf(a + "\0" + v, '\0') == |a|
  {
    var s := a + "\0" + v;
    LastAt(s, '\0', |a|) by {
      hide LastIndexOf;
      forall j | |a| < j < |s| ensures s[j] != '\0' {
        assert v[j - |a| - 1] in v;
      }
    }
  }

  lemma LastAt(s: string, c: char, i: nat)
    requires i < |s| && s[i] == c && forall j :: i < j < |s| ==> s[j] != c
    ensures LastIndexOf(s, c) == i
  {
  }

  // ----- the footprints -----

  function CleanedBy(policy: Policy): Diff -> Diff {
    (footprint: Diff) => Cleaned(policy, footprint)
  }

  function TotalRefiltered(footprints: seq<Diff>): Refiltered {
    if footprints == [] then NOTHING_REMOVED
    else Sum(TotalRefiltered(footprints[..|footprints| - 1]), footprints[|footprints| - 1].refiltered)
  }

  function Source(): Diff -> Footprint {
    (d: Diff) => Footprint(d.beforeTakenUtc, d.afterTakenUtc,
                           |d.services| + |d.suppressed| + |d.files| + |d.suppressedFiles| + |d.registry|)
  }

  function ServiceSide(): Diff -> Side<ServiceChange, Suppressed> {
    (d: Diff) => Side(d.services, d.suppressed)
  }

  function FileSide(): Diff -> Side<FileChange, SuppressedFile> {
    (d: Diff) => Side(d.files, d.suppressedFiles)
  }

  function RegistrySide(): Diff -> Side<RegistryChange, RegistryChange> {
    (d: Diff) => Side(d.registry, [])
  }

  function FoldedCoverage(footprints: seq<Diff>): Coverage
    requires footprints != []
  {
    if |footprints| == 1 then footprints[0].coverage
    else CommonCoverage(FoldedCoverage(footprints[..|footprints| - 1]), footprints[|footprints| - 1].coverage)
  }

  function Begins(): Diff -> string { (d: Diff) => d.beforeTakenUtc }
  function Ends(): Diff -> string { (d: Diff) => d.afterTakenUtc }
  function Restarted(): Diff -> Option<bool> { (d: Diff) => d.rebootedBetween }
  function LibrariesOf(): Diff -> seq<Library> { (d: Diff) => d.libraries }
  function Directories(): Diff -> Option<seq<string>> { (d: Diff) => d.emptiedDirectories }
  function FormerDirectories(): Diff -> Option<seq<string>> { (d: Diff) => d.formerlyEmptyDirectories }
  function EmptiedKeysOf(): Diff -> Option<seq<RegistryKeyRef>> { (d: Diff) => d.emptiedKeys }
  function FormerKeys(): Diff -> Option<seq<RegistryKeyRef>> { (d: Diff) => d.formerlyEmptyKeys }

  function FormatsOf(footprints: seq<Diff>): set<nat> {
    set d | d in footprints :: d.snapshotFormatVersion
  }

  /** The diff of what clean footprints share, given the shared changes. */
  function Joined(footprints: seq<Diff>, services: seq<ServiceChange>, suppressed: seq<Suppressed>, files: seq<FileChange>,
                  suppressedFiles: seq<SuppressedFile>, registry: seq<RegistryChange>, signers: map<string, nat>,
                  refiltered: Refiltered): Diff
    requires footprints != []
  {
    Diff(
      DIFF_FORMAT,
      footprints[0].snapshotFormatVersion,
      Smallest(Mapped(footprints, Begins())),
      Largest(Mapped(footprints, Ends())),
      RebootedInAny(Mapped(footprints, Restarted())),
      SharedList(Mapped(footprints, Directories()), DirectoryIdentity()),
      SharedList(Mapped(footprints, EmptiedKeysOf()), KeyRefIdentity()),
      SharedList(Mapped(footprints, FormerDirectories()), DirectoryIdentity()),
      SharedList(Mapped(footprints, FormerKeys()), KeyRefIdentity()),
      FoldedCoverage(footprints),
      services, suppressed, files, suppressedFiles, registry,
      exists d :: d in footprints && d.registryPolicyChanged,
      exists d :: d in footprints && d.filesystemPolicyChanged,
      CommonLibraries(Mapped(footprints, LibrariesOf())),
      signers,
      refiltered,
      Some(Mapped(footprints, Source())))
  }

  function SharedDiff(footprints: seq<Diff>, refiltered: Refiltered): Diff
    requires footprints != []
  {
    var files := SharedKept(Mapped(footprints, FileSide()), FileIdentity(), ChangeIn());
    Joined(
      footprints,
      SharedKept(Mapped(footprints, ServiceSide()), ServiceIdentity(), SuppressedChange()),
      SharedSuppressed(Mapped(footprints, ServiceSide()), ServiceIdentity(), SuppressedChange()),
      files,
      SharedSuppressed(Mapped(footprints, FileSide()), FileIdentity(), ChangeIn()),
      SharedKept(Mapped(footprints, RegistrySide()), RegistryIdentity(), Itself()),
      SignerCounts(files),
      refiltered)
  }

  /** What `intersect` answers for footprints it accepts. */
  function Intersection(policy: Policy, footprints: seq<Diff>): Diff
    requires footprints != []
  {
    var clean := Mapped(footprints, CleanedBy(policy));
    SharedDiff(clean, TotalRefiltered(clean))
  }

  function TimesOf(footprints: seq<Diff>): set<(string, string)> {
    set d | d in footprints :: (d.beforeTakenUtc, d.afterTakenUtc)
  }

  ghost predicate DistinctTimes(footprints: seq<Diff>) {
    forall i, j :: 0 <= i < j < |footprints| ==>
      (footprints[i].beforeTakenUtc, footprints[i].afterTakenUtc)
      != (footprints[j].beforeTakenUtc, footprints[j].afterTakenUtc)
  }

  /** Footprints `intersect` accepts: two or more, none of them an
      intersection, no two of one pair of snapshots, all of one format. */
  ghost predicate Intersectable(footprints: seq<Diff>) {
    && |footprints| >= 2
    && (forall d :: d in footprints ==> d.intersectionOf.None?)
    && DistinctTimes(footprints)
    && (forall d, e :: d in footprints && e in footprints ==> d.snapshotFormatVersion == e.snapshotFormatVersion)
  }

  /** The first footprint whose pair of snapshots an earlier one has. */
  ghost predicate FirstRepeat(footprints: seq<Diff>, j: nat) {
    j < |footprints| && DistinctTimes(footprints[..j]) && !DistinctTimes(footprints[..j + 1])
  }

  /** The error for footprints that are not accepted: the first that applies, in
      the order the source looks for them. */
  ghost predicate RefusedAs(footprints: seq<Diff>, error: IntersectError) {
    if |footprints| < 2 then error == TooFew(|footprints|)
    else if exists d :: d in footprints && d.intersectionOf.Some? then error == Nested
    else if !DistinctTimes(footprints) then
      exists j: nat :: FirstRepeat(footprints, j) && error == Repeated(footprints[j].beforeTakenUtc)
    else |FormatsOf(footprints)| > 1 && error == MixedFootprints(FormatsOf(footprints))
  }

  lemma RepeatStays(footprints: seq<Diff>, j: nat)
    requires FirstRepeat(footprints, j)
    ensures !DistinctTimes(footprints)
  {
    var some := footprints[..j + 1];
    var x, y :| 0 <= x < y < |some|
      && (some[x].beforeTakenUtc, some[x].afterTakenUtc) == (some[y].beforeTakenUtc, some[y].afterTakenUtc);
    assert footprints[x] == some[x] && footprints[y] == some[y];
  }

  method Refuse(footprints: seq<Diff>) returns (error: Option<IntersectError>)
    ensures error.None? <==> Intersectable(footprints)
    ensures error.Some? ==> RefusedAs(footprints, error.value)
  {
    if |footprints| < 2 {
      return Some(TooFew(|footprints|));
    }
    if exists d :: d in footprints && d.intersectionOf.Some? {
      return Some(Nested);
    }
    var seen: set<(string, string)> := {};
    for i := 0 to |footprints|
      invariant DistinctTimes(footprints[..i])
      invariant seen == TimesOf(footprints[..i])
    {
      var times := (footprints[i].beforeTakenUtc, footprints[i].afterTakenUtc);
      assert footprints[..i + 1] == footprints[..i] + [footprints[i]];
      if times in seen {
        var d :| d in footprints[..i] && (d.beforeTakenUtc, d.afterTakenUtc) == times;
        ghost var j :| 0 <= j < i && footprints[..i][j] == d;
        assert footprints[..i + 1][j] == d && footprints[..i + 1][i] == footprints[i];
        assert FirstRepeat(footprints, i);
        RepeatStays(footprints, i);
        return Some(Repeated(footprints[i].beforeTakenUtc));
      }
      forall j | 0 <= j < i ensures footprints[j].beforeTakenUtc != times.0 || footprints[j].afterTakenUtc != times.1 {
        assert footprints[j] in footprints[..i];
      }
      seen := seen + {times};
    }
    assert footprints[..|footprints|] == footprints;
    var formats := FormatsOf(footprints);
    if |formats| > 1 {
      TwoFormats(footprints);
      return Some(MixedFootprints(formats));
    }
    OneFormat(footprints);
    error := None;
  }

  lemma TwoFormats(footprints: seq<Diff>)
    requires |FormatsOf(footprints)| > 1
    ensures exists d, e :: d in footprints && e in footprints && d.snapshotFormatVersion != e.snapshotFormatVersion
  {
    var formats := FormatsOf(footprints);
    var f :| f in formats;
    assert |formats - {f}| > 0;
    var g :| g in formats - {f};
  }

  lemma OneFormat(footprints: seq<Diff>)
    requires |FormatsOf(footprints)| <= 1
    ensures forall d, e :: d in footprints && e in footprints ==> d.snapshotFormatVersion == e.snapshotFormatVersion
  {
    var formats := FormatsOf(footprints);
    forall d, e | d in footprints && e in footprints ensures d.snapshotFormatVersion == e.snapshotFormatVersion {
      if d.snapshotFormatVersion != e.snapshotFormatVersion {
        assert {d.snapshotFormatVersion, e.snapshotFormatVersion} <= formats;
        SubsetIsSmaller({d.snapshotFormatVersion, e.snapshotFormatVersion}, formats);
        assert false;
      }
    }
  }

  lemma {:induction false} SubsetIsSmaller(a: set<nat>, b: set<nat>)
    requires a <= b
    ensures |a| <= |b|
    decreases |a|
  {
    if a != {} {
      var x :| x in a;
      SubsetIsSmaller(a - {x}, b - {x});
    }
  }

  /** The loop that brings each footprint under the policy, in place. */
  method CleanAll(policy: Policy, given: seq<Diff>) returns (footprints: seq<Diff>, refiltered: Refiltered)
    ensures footprints == Mapped(given, CleanedBy(policy))
    ensures refiltered == TotalRefiltered(footprints)
  {
    hide Cleaned;
    footprints, refiltered := given, NOTHING_REMOVED;
    for i := 0 to |given|
      invariant |footprints| == |given|
      invariant forall j :: 0 <= j < |given| ==> footprints[j] == if j < i then Cleaned(policy, given[j]) else given[j]
      invariant refiltered == TotalRefiltered(footprints[..i])
    {
      var file := new DiffFile(footprints[i]);
      var report := file.Refilter(policy);
      ghost var earlier := footprints[..i];
      footprints := footprints[i := file.diff];
      assert footprints[..i + 1][..i] == earlier;
      refiltered := Sum(refiltered, footprints[i].refiltered);
    }
    assert footprints[..|given|] == footprints;
    assert footprints == Mapped(given, CleanedBy(policy));
  }

  lemma AcceptedIsSome(footprints: seq<Diff>)
    requires Intersectable(footprints)
    ensures footprints != []
  {
  }

  /** `intersect`. */
  method Intersect(policy: Policy, given: seq<Diff>) returns (r: Result<Diff, IntersectError>)
    ensures r.Ok? <==> Intersectable(given)
    ensures r.Ok? ==> given != [] && r.value == Intersection(policy, given)
    ensures r.Err? ==> RefusedAs(given, r.error)
  {
    hide Intersectable; hide RefusedAs;
    hide SharedKept; hide SharedSuppressed; hide SignerCounts; hide TotalRefiltered; hide Cleaned; hide Joined;
    var refused := Refuse(given);
    if refused.Some? {
      return Err(refused.value);
    }
    AcceptedIsSome(given);
    var footprints, refiltered := CleanAll(policy, given);
    var services, suppressed := Shared(Mapped(footprints, ServiceSide()), ServiceIdentity(), SuppressedChange());
    var files, suppressedFiles := Shared(Mapped(footprints, FileSide()), FileIdentity(), ChangeIn());
    var registry, none := Shared(Mapped(footprints, RegistrySide()), RegistryIdentity(), Itself());
    var signers := CountSigners(files);
    r := Ok(Joined(footprints, services, suppressed, files, suppressedFiles, registry, signers, refiltered));
  }

  // ----- laws -----

  /** Each footprint's identities of one kind. */
  ghost predicate HasService(d: Diff, key: string) {
    HoldsKey(ServiceSide()(d), ServiceIdentity(), SuppressedChange(), key)
  }

  ghost predicate KeptService(d: Diff, key: string) {
    HoldsKept(ServiceSide()(d), ServiceIdentity(), key)
  }

  ghost predicate HasFile(d: Diff, key: string) {
    HoldsKey(FileSide()(d), FileIdentity(), ChangeIn(), key)
  }

  ghost predicate KeptFile(d: Diff, key: string) {
    HoldsKept(FileSide()(d), FileIdentity(), key)
  }

  ghost predicate HasKey(d: Diff, key: string) {
    HoldsKept(RegistrySide()(d), RegistryIdentity(), key)
  }

  lemma MappedMembers<C(!new), D(!new)>(cs: seq<C>, f: C -> D)
    ensures forall d :: d in Mapped(cs, f) <==> exists c :: c in cs && f(c) == d
  {
    forall d | d in Mapped(cs, f) ensures exists c :: c in cs && f(c) == d {
      var i :| 0 <= i < |cs| && Mapped(cs, f)[i] == d;
      assert cs[i] in cs;
    }
    forall c | c in cs ensures f(c) in Mapped(cs, f) {
      var i :| 0 <= i < |cs| && cs[i] == c;
      assert Mapped(cs, f)[i] == f(c);
    }
  }

  /** One domain of a result, item by item: it holds what every footprint
      holds, and keeps what some footprint kept of that. */
  lemma DomainShared<T(!new), S(!new)>(footprints: seq<Diff>, side: Diff -> Side<T, S>, identity: T -> string, changeOf: S -> T,
                                       key: string)
    requires footprints != []
    ensures var sides := Mapped(footprints, side);
            var result := Side(SharedKept(sides, identity, changeOf), SharedSuppressed(sides, identity, changeOf));
            && (HoldsKey(result, identity, changeOf, key) <==>
                  forall d :: d in footprints ==> HoldsKey(side(d), identity, changeOf, key))
            && (HoldsKept(result, identity, key) <==>
                  && (forall d :: d in footprints ==> HoldsKey(side(d), identity, changeOf, key))
                  && exists d :: d in footprints && HoldsKept(side(d), identity, key))
  {
    hide SharedKept; hide SharedSuppressed; hide Mapped;
    var sides := Mapped(footprints, side);
    SharedIdentities(sides, identity, changeOf, key);
    MappedMembers(footprints, side);
    assert InAll(sides, identity, changeOf, key) <==>
      forall d :: d in footprints ==> HoldsKey(side(d), identity, changeOf, key) by { hide HoldsKey; }
    assert KeptInAny(sides, identity, key) <==>
      exists d :: d in footprints && HoldsKept(side(d), identity, key) by { hide HoldsKept; }
    hide InAll; hide KeptInAny;
  }

  /** What the result holds in each domain. */
  lemma SharedSides(footprints: seq<Diff>, refiltered: Refiltered)
    requires footprints != []
    ensures var r := SharedDiff(footprints, refiltered);
            && ServiceSide()(r) == Side(SharedKept(Mapped(footprints, ServiceSide()), ServiceIdentity(), SuppressedChange()),
                                        SharedSuppressed(Mapped(footprints, ServiceSide()), ServiceIdentity(), SuppressedChange()))
            && FileSide()(r) == Side(SharedKept(Mapped(footprints, FileSide()), FileIdentity(), ChangeIn()),
                                     SharedSuppressed(Mapped(footprints, FileSide()), FileIdentity(), ChangeIn()))
            && RegistrySide()(r).kept == SharedKept(Mapped(footprints, RegistrySide()), RegistryIdentity(), Itself())
  {
    hide SharedKept; hide SharedSuppressed; hide SignerCounts;
    hide CommonLibraries; hide FoldedCoverage; hide SharedList; hide RebootedInAny; hide Smallest; hide Largest;
  }

  /** A service is in the intersection exactly when every footprint has it, and
      set aside there exactly when every one set it aside. */
  lemma SharedServices(footprints: seq<Diff>, refiltered: Refiltered, key: string)
    requires footprints != []
    ensures var result := SharedDiff(footprints, refiltered);
            && (HasService(result, key) <==> forall d :: d in footprints ==> HasService(d, key))
            && (KeptService(result, key) <==>
                  (forall d :: d in footprints ==> HasService(d, key)) && exists d :: d in footprints && KeptService(d, key))
  {
    DomainShared(footprints, ServiceSide(), ServiceIdentity(), SuppressedChange(), key);
    SharedSides(footprints, refiltered);
    hide SharedKept; hide SharedSuppressed; hide HoldsKept; hide HoldsKey; hide SharedDiff;
  }

  /** Likewise for files. */
  lemma SharedFiles(footprints: seq<Diff>, refiltered: Refiltered, key: string)
    requires footprints != []
    ensures var result := SharedDiff(footprints, refiltered);
            && (HasFile(result, key) <==> forall d :: d in footprints ==> HasFile(d, key))
            && (KeptFile(result, key) <==>
                  (forall d :: d in footprints ==> HasFile(d, key)) && exists d :: d in footprints && KeptFile(d, key))
  {
    DomainShared(footprints, FileSide(), FileIdentity(), ChangeIn(), key);
    SharedSides(footprints, refiltered);
    hide SharedKept; hide SharedSuppressed; hide HoldsKept; hide HoldsKey; hide SharedDiff;
  }

  /** And a registry key, exactly when every footprint has a change to it. */
  lemma SharedKeys(footprints: seq<Diff>, refiltered: Refiltered, key: string)
    requires footprints != []
    ensures HasKey(SharedDiff(footprints, refiltered), key) <==> forall d :: d in footprints ==> HasKey(d, key)
  {
    DomainShared(footprints, RegistrySide(), RegistryIdentity(), Itself(), key);
    SharedSides(footprints, refiltered);
    forall d: Diff ensures HasKey(d, key) == HoldsKey(RegistrySide()(d), RegistryIdentity(), Itself(), key) {
      assert RegistrySide()(d).suppressed == [];
    }
    assert footprints[0] in footprints;
    var sides := Mapped(footprints, RegistrySide());
    assert HoldsKept(RegistrySide()(SharedDiff(footprints, refiltered)), RegistryIdentity(), key)
        == HoldsKept(Side(SharedKept(sides, RegistryIdentity(), Itself()), SharedSuppressed(sides, RegistryIdentity(), Itself())),
                     RegistryIdentity(), key);
    hide SharedKept; hide SharedSuppressed; hide HoldsKept; hide HoldsKey; hide SharedDiff;
  }

  /** The identities of the emptied lists: known when every footprint knows
      the list, and then exactly what every one of them lists. */
  lemma ListIsShared<T(!new)>(footprints: seq<Diff>, list: Diff -> Option<seq<T>>, identity: T -> string, key: string)
    requires footprints != []
    ensures var result := SharedList(Mapped(footprints, list), identity);
            && (result.Some? <==> forall d :: d in footprints ==> list(d).Some?)
            && (result.Some? ==>
                  (HasIdentity(result.value, identity, key) <==>
                   forall d :: d in footprints ==> KnownToHave(list(d), identity, key)))
  {
    MappedMembers(footprints, list);
    SharedListIdentities(Mapped(footprints, list), identity, key);
    hide SharedList; hide KnownToHave; hide HasIdentity;
  }
}
