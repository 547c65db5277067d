// What holds of every comparison of two snapshots: it reads backwards as the
// comparison the other way round, twice backwards as itself, and names nothing
// the privacy policy refuses.
module DiffLaws {
  import opened Prelude
  import opened Ordered
  import opened Text
  import opened Observed
  import opened Policies
  import opened Keyed
  import opened Changes
  import opened ServiceDiff
  import opened FileDiff
  import opened RegistryDiff
  import opened SnapshotDiff

  // ----- coverage -----

  /** The refusals of a coverage, by what they are about. */
  function DeniedIdentities(denied: seq<AccessDenied>): seq<Identity> {
    Mapped(denied, DeniedIdentity)
  }

  /** One coverage names the same domains and the same refusals as another. */
  ghost predicate CoversAlike(a: Coverage, b: Coverage) {
    && (forall d: Domain :: d in a.captured <==> d in b.captured)
    && a.notCaptured == b.notCaptured
    && DeniedIdentities(a.accessDenied) == DeniedIdentities(b.accessDenied)
  }

  lemma {:induction false} FirstsAreIdentified(denied: seq<AccessDenied>, ids: seq<Identity>)
    requires forall id :: id in ids ==> FirstDenied(denied, id).Some?
    ensures DeniedIdentities(Collected(ids, EachFirst(denied))) == ids
  {
    if ids != [] {
      var n := |ids| - 1;
      assert ids == ids[..n] + [ids[n]];
      FirstsAreIdentified(denied, ids[..n]);
      CollectedMore(ids[..n], ids[n], EachFirst(denied));
      MappedMore(Collected(ids[..n], EachFirst(denied)), FirstDenied(denied, ids[n]).value, DeniedIdentity);
    }
  }

  lemma UnionIsSorted(mine: seq<AccessDenied>, theirs: seq<AccessDenied>)
    ensures StrictTotal(DeniedOrder())
    ensures DeniedIdentities(DeniedUnion(mine, theirs)) == Ascending(Identities(mine + theirs), DeniedOrder())
  {
    DeniedOrderIsTotal();
    var ids := Ascending(Identities(mine + theirs), DeniedOrder());
    forall id | id in ids ensures FirstDenied(mine + theirs, id).Some? {
      var d :| d in mine + theirs && DeniedIdentity(d) == id;
    }
    FirstsAreIdentified(mine + theirs, ids);
  }

  lemma UnionIsSymmetric(mine: seq<AccessDenied>, theirs: seq<AccessDenied>)
    ensures DeniedIdentities(DeniedUnion(mine, theirs)) == DeniedIdentities(DeniedUnion(theirs, mine))
  {
    UnionIsSorted(mine, theirs);
    UnionIsSorted(theirs, mine);
    assert Identities(mine + theirs) == Identities(theirs + mine) by {
      assert forall d :: d in mine + theirs <==> d in theirs + mine;
    }
  }

  lemma {:induction false} WhereIsByMembership(domains: seq<Domain>, a: seq<Domain>, b: seq<Domain>, wanted: bool)
    requires forall d: Domain :: d in a <==> d in b
    ensures DomainsWhere(domains, a, wanted) == DomainsWhere(domains, b, wanted)
  {
    if domains != [] {
      WhereIsByMembership(domains[..|domains| - 1], a, b, wanted);
    }
  }

  lemma CoverageIsSymmetric(mine: Coverage, theirs: Coverage)
    ensures CoversAlike(CommonCoverage(mine, theirs), CommonCoverage(theirs, mine))
  {
    UnionIsSymmetric(mine.accessDenied, theirs.accessDenied);
    hide DeniedUnion;
    WhereIsByMembership(ALL_DOMAINS, DomainsWhere(mine.captured, theirs.captured, true),
                        DomainsWhere(theirs.captured, mine.captured, true), false);
  }

  /** What is retained of two lists of like things is alike. */
  lemma {:induction false} RetainedAlike<K, C(!new)>(a: seq<C>, b: seq<C>, keep: C -> bool, id: C -> K)
    requires Mapped(a, id) == Mapped(b, id)
    requires forall c, d :: id(c) == id(d) ==> keep(c) == keep(d)
    ensures Mapped(Retained(a, keep), id) == Mapped(Retained(b, keep), id)
    decreases |a|
  {
    hide Retained;
    assert |Mapped(a, id)| == |Mapped(b, id)|;
    if a != [] {
      var n := |a| - 1;
      assert a == a[..n] + [a[n]] && b == b[..n] + [b[n]];
      MappedMore(a[..n], a[n], id);
      MappedMore(b[..n], b[n], id);
      assert Mapped(a, id)[n] == Mapped(b, id)[n] && Mapped(a, id)[..n] == Mapped(b, id)[..n];
      RetainedAlike(a[..n], b[..n], keep, id);
      RetainedMore(a[..n], a[n], keep);
      RetainedMore(b[..n], b[n], keep);
      MappedMore(Retained(a[..n], keep), a[n], id);
      MappedMore(Retained(b[..n], keep), b[n], id);
    }
  }

  lemma DenialsDropAlike(policy: Policy, a: seq<AccessDenied>, b: seq<AccessDenied>)
    requires DeniedIdentities(a) == DeniedIdentities(b)
    ensures DeniedIdentities(Retained(a, Undenied(policy))) == DeniedIdentities(Retained(b, Undenied(policy)))
  {
    forall c: AccessDenied, d: AccessDenied | DeniedIdentity(c) == DeniedIdentity(d)
      ensures Undenied(policy)(c) == Undenied(policy)(d)
    {
      assert c.domain == d.domain && c.item == d.item;
      hide ExcludedKey;
      hide ExcludedPath;
      hide DeniedKey;
    }
    hide ExcludedDenial;
    RetainedAlike(a, b, Undenied(policy), DeniedIdentity);
  }

  // ----- symmetry -----

  /** Two lists that name the same libraries, in any order and letter case. */
  ghost predicate NamesAlike(a: seq<Library>, b: seq<Library>) {
    (forall l :: l in a ==> ListsLibrary(b, l)) && (forall l :: l in b ==> ListsLibrary(a, l))
  }

  lemma SameFold(a: string, b: string)
    ensures EqFold(a, b) <==> EqFold(b, a)
  {
  }

  lemma CommonIsListed(x: seq<Library>, y: seq<Library>, l: Library)
    requires l in CommonLibraries([x, y])
    ensures ListsLibrary(CommonLibraries([y, x]), l)
  {
    hide CommonLibraries; hide EqFold;
    CommonIsInEvery([x, y], l);
    assert ListsLibrary([x, y][1], l);
    var other :| other in y && other.launcher == l.launcher && EqFold(other.path, l.path);
    CommonIsInEvery([y, x], other);
    assert ListsLibrary(x, other) by { SameFold(other.path, l.path); }
  }

  lemma CommonIsSymmetric(x: seq<Library>, y: seq<Library>)
    ensures NamesAlike(CommonLibraries([x, y]), CommonLibraries([y, x]))
  {
    hide CommonLibraries; hide ListsLibrary;
    forall l | l in CommonLibraries([x, y]) ensures ListsLibrary(CommonLibraries([y, x]), l) { CommonIsListed(x, y, l); }
    forall l | l in CommonLibraries([y, x]) ensures ListsLibrary(CommonLibraries([x, y]), l) { CommonIsListed(y, x, l); }
  }

  /** The two diffs agree on everything but the order and letter case of the
      shared libraries, the order of the captured domains and the reason given
      for a refusal. */
  ghost predicate SameBut(a: Diff, b: Diff) {
    && CoversAlike(a.coverage, b.coverage)
    && NamesAlike(a.libraries, b.libraries)
    && a == b.(coverage := a.coverage, libraries := a.libraries)
  }

  ghost predicate SpelledAlike(before: Snapshot, after: Snapshot, policy: Policy) {
    && (Covers(SharedCoverage(before, after), Filesystem) ==>
          SameSpelling(FileIndex(policy, before.files), FileIndex(policy, after.files)))
    && (Covers(SharedCoverage(before, after), Registry) ==>
          SameKeys(RegistryIndex(policy, before.registry), RegistryIndex(policy, after.registry)))
  }

  lemma SiftedAlike(filter: NoiseFilter, changes: seq<ServiceChange>)
    ensures KeptServices(filter, Mapped(changes, ReverseService())) == Mapped(KeptServices(filter, changes), ReverseService())
    ensures SuppressedServices(filter, Mapped(changes, ReverseService()))
         == Mapped(SuppressedServices(filter, changes), ReverseSuppressed())
  {
    hide IsIgnored;
    RetainedMapped(changes, Survives(filter), ReverseService());
    RetainedMapped(changes, IsNoise(filter), ReverseService());
    hide ServiceReversed;
    var noise := Retained(changes, IsNoise(filter));
    assert Mapped(Mapped(noise, ReverseService()), SetAside()) == Mapped(Mapped(noise, SetAside()), ReverseSuppressed());
  }

  lemma {:induction false} RetainedMapped<C(!new)>(cs: seq<C>, keep: C -> bool, f: C -> C)
    requires forall c :: keep(f(c)) == keep(c)
    ensures Retained(Mapped(cs, f), keep) == Mapped(Retained(cs, keep), f)
  {
    hide Retained;
    if cs != [] {
      var n := |cs| - 1;
      assert cs == cs[..n] + [cs[n]];
      RetainedMapped(cs[..n], keep, f);
      MappedMore(cs[..n], cs[n], f);
      RetainedMore(cs[..n], cs[n], keep);
      RetainedMore(Mapped(cs[..n], f), f(cs[n]), keep);
      MappedMore(Retained(cs[..n], keep), cs[n], f);
    }
  }

  lemma ServicesReadBackwards(before: Snapshot, after: Snapshot, filter: NoiseFilter)
    ensures var there, back := ComparedServices(before, after, filter), ComparedServices(after, before, filter);
            && KeptServices(filter, back) == Mapped(KeptServices(filter, there), ReverseService())
            && SuppressedServices(filter, back) == Mapped(SuppressedServices(filter, there), ReverseSuppressed())
  {
    CoverageIsSymmetric(before.coverage, after.coverage);
    ServiceSymmetry(filter, before.services, after.services);
    hide ServiceChanges;
    SiftedAlike(filter, ComparedServices(before, after, filter));
  }

  lemma FilesReadBackwards(before: Snapshot, after: Snapshot, filter: NoiseFilter, policy: Policy)
    ensures var there, back := ComparedFiles(before, after, policy), ComparedFiles(after, before, policy);
            && SuppressedFiles(filter, there) == [] && SuppressedFiles(filter, back) == []
            && (KeptFiles(filter, back) == Mapped(KeptFiles(filter, there), ReverseFile()) <==>
                  (Covers(SharedCoverage(before, after), Filesystem) ==>
                     SameSpelling(FileIndex(policy, before.files), FileIndex(policy, after.files))))
  {
    CoverageIsSymmetric(before.coverage, after.coverage);
    var b, a := FileIndex(policy, before.files), FileIndex(policy, after.files);
    NothingIsTimestampOnly(filter, b, a);
    NothingIsTimestampOnly(filter, a, b);
    SiftedNone(filter);
    FileSymmetry(policy, before.files, after.files);
    hide FileIndex;
    hide FileChanges;
    hide SameSpelling;
    hide KeptFiles;
    hide SuppressedFiles;
  }

  lemma RegistryReadsBackwards(before: Snapshot, after: Snapshot, policy: Policy)
    ensures ComparedRegistry(after, before, policy) == Mapped(ComparedRegistry(before, after, policy), ReverseRegistry())
       <==> (Covers(SharedCoverage(before, after), Registry) ==>
               SameKeys(RegistryIndex(policy, before.registry), RegistryIndex(policy, after.registry)))
  {
    CoverageIsSymmetric(before.coverage, after.coverage);
    RegistrySymmetry(policy, before.registry, after.registry);
    hide RegistryIndex;
    hide RegistryChanges;
    hide SameKeys;
  }

  lemma CountsReadBackwards(before: Snapshot, after: Snapshot, policy: Policy)
    ensures LostDenials(before, after, policy) == LostDenials(after, before, policy)
    ensures LostFiles(before, after, policy) == LostFiles(after, before, policy)
    ensures LostRecords(before, after, policy) == LostRecords(after, before, policy)
    ensures LostValues(before, after, policy) == LostValues(after, before, policy)
  {
    CoverageIsSymmetric(before.coverage, after.coverage);
    hide CommonCoverage;
    hide ExcludedDenial;
    var there, back := SharedCoverage(before, after).accessDenied, SharedCoverage(after, before).accessDenied;
    DenialsDropAlike(policy, there, back);
    assert |there| == |DeniedIdentities(there)| && |back| == |DeniedIdentities(back)|;
    assert |Retained(there, Undenied(policy))| == |DeniedIdentities(Retained(there, Undenied(policy)))|;
    assert |Retained(back, Undenied(policy))| == |DeniedIdentities(Retained(back, Undenied(policy)))|;
  }

  ghost predicate PartsReadBackwards(there: Parts, back: Parts) {
    && back.services == Mapped(there.services, ReverseService())
    && back.suppressed == Mapped(there.suppressed, ReverseSuppressed())
    && back.files == Mapped(there.files, ReverseFile())
    && back.suppressedFiles == Mapped(there.suppressedFiles, ReverseSuppressedFile())
    && back.registry == Mapped(there.registry, ReverseRegistry())
    && back.signers == SignerCounts(Mapped(there.files, ReverseFile()))
    && back.droppedRecords == there.droppedRecords && back.refusedValues == there.refusedValues
    && back.excludedFiles == there.excludedFiles
  }

  lemma CoveredAlike(before: Snapshot, after: Snapshot, policy: Policy)
    ensures forall d :: Covers(SharedCoverage(before, after), d) == Covers(SharedCoverage(after, before), d)
    ensures CoversAlike(SharedCoverage(before, after).(accessDenied := Retained(SharedCoverage(before, after).accessDenied, Undenied(policy))),
                        SharedCoverage(after, before).(accessDenied := Retained(SharedCoverage(after, before).accessDenied, Undenied(policy))))
  {
    CoverageIsSymmetric(before.coverage, after.coverage);
    hide CommonCoverage;
    DenialsDropAlike(policy, SharedCoverage(before, after).accessDenied, SharedCoverage(after, before).accessDenied);
  }

  lemma AssembledReadsBackwards(before: Snapshot, after: Snapshot, policy: Policy, there: Parts, back: Parts)
    requires before.formatVersion == after.formatVersion
    ensures SameBut(Reversed(Assembled(before, after, policy, there)), Assembled(after, before, policy, back))
       <==> PartsReadBackwards(there, back)
  {
    hide SharedCoverage; hide CoversAlike; hide SignerCounts; hide LostDenials; hide CommonLibraries;
    hide Allowed; hide Lost; hide Newly; hide NamesAlike; hide Retained; hide Mapped;
    CoveredAlike(before, after, policy);
    CountsReadBackwards(before, after, policy);
    CommonIsSymmetric(Libraries(before.filesystemPolicy), Libraries(after.filesystemPolicy));
  }

  lemma PartsCorrespond(before: Snapshot, after: Snapshot, filter: NoiseFilter, policy: Policy)
    ensures PartsReadBackwards(ComparedParts(before, after, filter, policy), ComparedParts(after, before, filter, policy))
       <==> SpelledAlike(before, after, policy)
  {
    ServicesReadBackwards(before, after, filter);
    FilesReadBackwards(before, after, filter, policy);
    RegistryReadsBackwards(before, after, policy);
    CountsReadBackwards(before, after, policy);
    hide KeptServices; hide SuppressedServices; hide ComparedServices;
    hide KeptFiles; hide SuppressedFiles; hide ComparedFiles; hide ComparedRegistry; hide SignerCounts;
    hide LostRecords; hide LostValues; hide LostFiles; hide LostDenials;
    hide SharedCoverage; hide FileIndex; hide RegistryIndex; hide SameKeys; hide SameSpelling;
  }

  /** `reversed` of a comparison is the comparison the other way round, exactly
      when every file and key the two sides tell apart is spelled alike on both. */
  lemma ComparedReadsBackwards(before: Snapshot, after: Snapshot, filter: NoiseFilter, policy: Policy)
    requires before.formatVersion == after.formatVersion
    ensures SameBut(Reversed(Compared(before, after, filter, policy)), Compared(after, before, filter, policy))
       <==> SpelledAlike(before, after, policy)
  {
    hide SameBut; hide Reversed; hide Assembled; hide PartsReadBackwards; hide ComparedParts; hide SpelledAlike;
    PartsCorrespond(before, after, filter, policy);
    AssembledReadsBackwards(before, after, policy, ComparedParts(before, after, filter, policy),
                            ComparedParts(after, before, filter, policy));
  }

  // ----- twice backwards -----

  /** A change whose flags come from its later record, as `compare` fills them. */
  ghost predicate ServiceCoherent(change: ServiceChange) {
    var later := if change.after.Some? then change.after else change.before;
    later.Some? && change.isDriver == IsDriver(later.value) && change.isBootStart == IsBootStart(later.value)
  }

  ghost predicate FileCoherent(change: FileChange) {
    var later := if change.after.Some? then change.after else change.before;
    later.Some? && change.signer == later.value.signer
  }

  ghost predicate Coherent(diff: Diff) {
    && (forall c :: c in diff.services ==> ServiceCoherent(c))
    && (forall e :: e in diff.suppressed ==> ServiceCoherent(e.change))
    && (forall c :: c in diff.files ==> FileCoherent(c))
    && (forall e :: e in diff.suppressedFiles ==> FileCoherent(e.change))
    && diff.signers == SignerCounts(diff.files)
  }

  lemma ServiceTwice(c: ServiceChange)
    requires ServiceCoherent(c)
    ensures ServiceReversed(ServiceReversed(c)) == c
  {
    SwappedTwice(c.fields);
  }

  lemma FileTwice(c: FileChange)
    requires FileCoherent(c)
    ensures FileReversed(FileReversed(c)) == c
  {
    SwappedTwice(c.fields);
  }

  lemma MappedTwice<C(!new)>(cs: seq<C>, f: C -> C)
    requires forall c :: c in cs ==> f(f(c)) == c
    ensures Mapped(Mapped(cs, f), f) == cs
  {
    assert forall i :: 0 <= i < |cs| ==> cs[i] in cs;
  }

  /** Read backwards twice, a coherent diff is itself. */
  lemma ReversedTwice(diff: Diff)
    requires Coherent(diff)
    ensures Reversed(Reversed(diff)) == diff
  {
    forall c | c in diff.services ensures ReverseService()(ReverseService()(c)) == c { ServiceTwice(c); }
    forall e | e in diff.suppressed ensures ReverseSuppressed()(ReverseSuppressed()(e)) == e { ServiceTwice(e.change); }
    forall c | c in diff.files ensures ReverseFile()(ReverseFile()(c)) == c { FileTwice(c); }
    forall e | e in diff.suppressedFiles ensures ReverseSuppressedFile()(ReverseSuppressedFile()(e)) == e { FileTwice(e.change); }
    forall c: RegistryChange ensures ReverseRegistry()(ReverseRegistry()(c)) == c { SwappedTwice(c.fields); }
    hide ServiceReversed;
    hide FileReversed;
    MappedTwice(diff.services, ReverseService());
    MappedTwice(diff.suppressed, ReverseSuppressed());
    MappedTwice(diff.files, ReverseFile());
    MappedTwice(diff.suppressedFiles, ReverseSuppressedFile());
    MappedTwice(diff.registry, ReverseRegistry());
    hide SignerCounts;
  }

  lemma ServiceChangesAreCoherent(filter: NoiseFilter, before: seq<ServiceRecord>, after: seq<ServiceRecord>, c: ServiceChange)
    requires c in ServiceChanges(filter, before, after)
    ensures ServiceCoherent(c)
  {
    var crowded := Crowded(filter, before, after);
    var b, a := ServiceIndex(filter, crowded, before), ServiceIndex(filter, crowded, after);
    CollectedHolds(Names(b, a), ServiceChangeAt(b, a), c);
    hide ServiceIndex;
    hide ServiceFields;
    hide IsDriver;
    hide IsBootStart;
    hide Names;
  }

  lemma FileChangesAreCoherent(b: map<string, FileRecord>, a: map<string, FileRecord>, c: FileChange)
    requires c in FileChanges(b, a)
    ensures FileCoherent(c)
  {
    CollectedHolds(Names(b, a), FileChangeAt(b, a), c);
    hide FileFields;
    hide IsDriverImage;
    hide Names;
  }

  lemma ServicesAreCoherent(before: Snapshot, after: Snapshot, filter: NoiseFilter)
    ensures var changes := ComparedServices(before, after, filter);
            && (forall c :: c in KeptServices(filter, changes) ==> ServiceCoherent(c))
            && (forall e :: e in SuppressedServices(filter, changes) ==> ServiceCoherent(e.change))
  {
    hide ServiceCoherent; hide ServiceChanges; hide IsIgnored; hide SharedCoverage;
    var changes := ComparedServices(before, after, filter);
    forall c | c in changes ensures ServiceCoherent(c) {
      ServiceChangesAreCoherent(filter, before.services, after.services, c);
    }
    hide ComparedServices;
  }

  lemma FilesAreCoherent(before: Snapshot, after: Snapshot, filter: NoiseFilter, policy: Policy)
    ensures var changes := ComparedFiles(before, after, policy);
            && (forall c :: c in KeptFiles(filter, changes) ==> FileCoherent(c))
            && (forall e :: e in SuppressedFiles(filter, changes) ==> FileCoherent(e.change))
  {
    hide FileCoherent; hide FileChanges; hide FileIndex; hide IsTimestampOnly; hide SharedCoverage;
    var changes := ComparedFiles(before, after, policy);
    forall c | c in changes ensures FileCoherent(c) {
      FileChangesAreCoherent(FileIndex(policy, before.files), FileIndex(policy, after.files), c);
    }
    hide ComparedFiles;
  }

  lemma ComparedIsCoherent(before: Snapshot, after: Snapshot, filter: NoiseFilter, policy: Policy)
    ensures Coherent(Compared(before, after, filter, policy))
  {
    hide ServiceCoherent; hide FileCoherent; hide ComparedServices; hide ComparedFiles; hide ComparedRegistry;
    hide KeptServices; hide SuppressedServices; hide KeptFiles; hide SuppressedFiles; hide SignerCounts;
    hide LostRecords; hide LostValues; hide LostFiles; hide LostDenials; hide Allowed; hide Lost; hide SharedCoverage;
    hide CommonLibraries; hide NewlyEmptyKeys; hide NewlyEmptyDirectories;
    ServicesAreCoherent(before, after, filter);
    FilesAreCoherent(before, after, filter, policy);
  }

  /** `reversed` undoes itself on every comparison. */
  lemma ComparedReversedTwice(before: Snapshot, after: Snapshot, filter: NoiseFilter, policy: Policy)
    ensures var diff := Compared(before, after, filter, policy); Reversed(Reversed(diff)) == diff
  {
    ComparedIsCoherent(before, after, filter, policy);
    ReversedTwice(Compared(before, after, filter, policy));
  }
}
