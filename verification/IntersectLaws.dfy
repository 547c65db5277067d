// What holds of every intersection: the order of the footprints does not
// matter to what it holds, and another footprint only takes items away.
module IntersectLaws {
  import opened Prelude
  import opened Ordered
  import opened Text
  import opened Timestamp
  import opened Observed
  import opened Policies
  import opened Keyed
  import opened ServiceDiff
  import opened FileDiff
  import opened RegistryDiff
  import opened SnapshotDiff
  import opened Refilter
  import opened DiffLaws
  import opened Sharing
  import opened Intersect

  // ----- coverage -----

  function AllDenied(footprints: seq<Diff>): set<Identity> {
    set f, d | f in footprints && d in f.coverage.accessDenied :: DeniedIdentity(d)
  }

  lemma UnionHoldsBoth(mine: seq<AccessDenied>, theirs: seq<AccessDenied>)
    ensures Identities(DeniedUnion(mine, theirs)) == Identities(mine) + Identities(theirs)
  {
    UnionIsSorted(mine, theirs);
    var union := DeniedUnion(mine, theirs);
    hide DeniedUnion;
    MappedMembers(union, DeniedIdentity);
    forall id ensures id in Identities(union) <==> id in DeniedIdentities(union) {
    }
    assert Identities(mine + theirs) == Identities(mine) + Identities(theirs);
  }

  lemma AllDeniedMore(footprints: seq<Diff>)
    requires footprints != []
    ensures var n := |footprints| - 1;
            AllDenied(footprints) == AllDenied(footprints[..n]) + Identities(footprints[n].coverage.accessDenied)
  {
    var n := |footprints| - 1;
    assert footprints == footprints[..n] + [footprints[n]];
  }

  lemma {:induction false} FoldHoldsAll(footprints: seq<Diff>)
    requires footprints != []
    ensures Identities(FoldedCoverage(footprints).accessDenied) == AllDenied(footprints)
    ensures forall d :: d in FoldedCoverage(footprints).captured <==>
              forall f :: f in footprints ==> d in f.coverage.captured
  {
    hide DeniedUnion;
    var n := |footprints| - 1;
    assert footprints == footprints[..n] + [footprints[n]];
    if n > 0 {
      var earlier, last := footprints[..n], footprints[n];
      FoldHoldsAll(earlier);
      FoldStep(footprints);
      hide FoldedCoverage; hide Identities;
      UnionHoldsBoth(FoldedCoverage(earlier).accessDenied, last.coverage.accessDenied);
      AllDeniedMore(footprints);
    } else {
      assert footprints[0] in footprints;
      assert AllDenied(footprints) == Identities(footprints[0].coverage.accessDenied);
    }
  }

  lemma FoldIsSorted(footprints: seq<Diff>)
    requires |footprints| >= 2
    ensures StrictTotal(DeniedOrder())
    ensures DeniedIdentities(FoldedCoverage(footprints).accessDenied) == Ascending(AllDenied(footprints), DeniedOrder())
    ensures FoldedCoverage(footprints).notCaptured == DomainsWhere(ALL_DOMAINS, FoldedCoverage(footprints).captured, false)
  {
    hide FoldedCoverage; hide DeniedUnion; hide Identities; hide AllDenied;
    var n := |footprints| - 1;
    var mine, theirs := FoldedCoverage(footprints[..n]).accessDenied, footprints[n].coverage.accessDenied;
    FoldStep(footprints);
    FoldHoldsAll(footprints);
    UnionIsSorted(mine, theirs);
    UnionHoldsBoth(mine, theirs);
    IdentitiesOfBoth(mine, theirs);
  }

  lemma FoldStep(footprints: seq<Diff>)
    requires |footprints| >= 2
    ensures var n := |footprints| - 1;
            FoldedCoverage(footprints) == CommonCoverage(FoldedCoverage(footprints[..n]), footprints[n].coverage)
  {
    hide CommonCoverage;
  }

  lemma IdentitiesOfBoth(mine: seq<AccessDenied>, theirs: seq<AccessDenied>)
    ensures Identities(mine + theirs) == Identities(mine) + Identities(theirs)
  {
  }

  lemma FoldInAnyOrder(a: seq<Diff>, b: seq<Diff>)
    requires |a| >= 2 && |b| >= 2 && SameMembers(a, b)
    ensures CoversAlike(FoldedCoverage(a), FoldedCoverage(b))
  {
    FoldHoldsAll(a);
    FoldHoldsAll(b);
    FoldIsSorted(a);
    FoldIsSorted(b);
    hide FoldedCoverage;
    assert AllDenied(a) == AllDenied(b);
    WhereIsByMembership(ALL_DOMAINS, FoldedCoverage(a).captured, FoldedCoverage(b).captured, false);
  }

  // ----- any order -----

  lemma MappedInAnyOrder<C(!new), D(!new)>(a: seq<C>, b: seq<C>, f: C -> D)
    requires SameMembers(a, b)
    ensures SameMembers(Mapped(a, f), Mapped(b, f))
  {
    MappedMembers(a, f);
    MappedMembers(b, f);
  }

  lemma SpanInAnyOrder(a: seq<string>, b: seq<string>)
    requires SameMembers(a, b) && a != [] && b != []
    ensures Smallest(a) == Smallest(b) && Largest(a) == Largest(b)
  {
    SmallestIsLeast(a);
    SmallestIsLeast(b);
    LargestIsGreatest(a);
    LargestIsGreatest(b);
    TextOrderIsTotal();
    hide Smallest; hide Largest; hide Less;
  }

  /** Two results that hold the same items in every domain. */
  ghost predicate SameItems(x: Diff, y: Diff) {
    forall key ::
      && HasService(x, key) == HasService(y, key) && KeptService(x, key) == KeptService(y, key)
      && HasFile(x, key) == HasFile(y, key) && KeptFile(x, key) == KeptFile(y, key)
      && HasKey(x, key) == HasKey(y, key)
  }

  ghost predicate SameList<T(!new)>(x: Option<seq<T>>, y: Option<seq<T>>, identity: T -> string) {
    x.Some? == y.Some? && (x.Some? ==> forall key :: HasIdentity(x.value, identity, key) == HasIdentity(y.value, identity, key))
  }

  lemma ItemsInAnyOrder(a: seq<Diff>, b: seq<Diff>, r: Refiltered, s: Refiltered)
    requires a != [] && b != [] && SameMembers(a, b)
    ensures SameItems(SharedDiff(a, r), SharedDiff(b, s))
  {
    hide SharedDiff; hide HasService; hide HasFile; hide HasKey; hide KeptService; hide KeptFile;
    forall key ensures
      && HasService(SharedDiff(a, r), key) == HasService(SharedDiff(b, s), key)
      && KeptService(SharedDiff(a, r), key) == KeptService(SharedDiff(b, s), key)
      && HasFile(SharedDiff(a, r), key) == HasFile(SharedDiff(b, s), key)
      && KeptFile(SharedDiff(a, r), key) == KeptFile(SharedDiff(b, s), key)
      && HasKey(SharedDiff(a, r), key) == HasKey(SharedDiff(b, s), key)
    {
      SharedServices(a, r, key);
      SharedServices(b, s, key);
      SharedFiles(a, r, key);
      SharedFiles(b, s, key);
      SharedKeys(a, r, key);
      SharedKeys(b, s, key);
    }
  }

  lemma ListInAnyOrder<T(!new)>(a: seq<Diff>, b: seq<Diff>, list: Diff -> Option<seq<T>>, identity: T -> string)
    requires a != [] && b != [] && SameMembers(a, b)
    ensures SameList(SharedList(Mapped(a, list), identity), SharedList(Mapped(b, list), identity), identity)
  {
    ListIsShared(a, list, identity, "");
    ListIsShared(b, list, identity, "");
    hide SharedList; hide KnownToHave; hide HasIdentity;
    var x, y := SharedList(Mapped(a, list), identity), SharedList(Mapped(b, list), identity);
    if x.Some? {
      forall key ensures HasIdentity(x.value, identity, key) == HasIdentity(y.value, identity, key) {
        ListIsShared(a, list, identity, key);
        ListIsShared(b, list, identity, key);
      }
    }
  }

  // ----- libraries and counts in any order -----

  lemma LibraryInAnyOrder(a: seq<seq<Library>>, b: seq<seq<Library>>, l: Library)
    requires a != [] && b != [] && SameMembers(a, b) && l in CommonLibraries(a)
    ensures ListsLibrary(CommonLibraries(b), l)
  {
    hide CommonLibraries; hide EqFold;
    CommonIsInEvery(a, l);
    assert ListsLibrary(a[0], l) by { FoldsItself(l.path); }
    hide ListsLibrary;
    forall list | list in b ensures ListsLibrary(list, l) {
      var i :| 0 <= i < |a| && a[i] == list;
    }
    assert b[0] in b;
    var other := Listed(b[0], l);
    forall i | 0 <= i < |b| ensures ListsLibrary(b[i], other) {
      assert b[i] in b;
      ListsTheSame(b[i], l, other);
    }
    CommonIsInEvery(b, other);
    IsListed(CommonLibraries(b), l, other);
  }

  lemma Listed(list: seq<Library>, l: Library) returns (other: Library)
    requires ListsLibrary(list, l)
    ensures other in list && other.launcher == l.launcher && EqFold(other.path, l.path)
  {
    other :| other in list && other.launcher == l.launcher && EqFold(other.path, l.path);
  }

  lemma IsListed(list: seq<Library>, l: Library, other: Library)
    requires other in list && other.launcher == l.launcher && EqFold(other.path, l.path)
    ensures ListsLibrary(list, l)
  {
  }

  lemma ListsTheSame(list: seq<Library>, l: Library, other: Library)
    requires ListsLibrary(list, l) && other.launcher == l.launcher && EqFold(other.path, l.path)
    ensures ListsLibrary(list, other)
  {
  }

  lemma LibrariesInAnyOrder(a: seq<Diff>, b: seq<Diff>)
    requires a != [] && b != [] && SameMembers(a, b)
    ensures NamesAlike(CommonLibraries(Mapped(a, LibrariesOf())), CommonLibraries(Mapped(b, LibrariesOf())))
  {
    hide CommonLibraries; hide ListsLibrary;
    var x, y := Mapped(a, LibrariesOf()), Mapped(b, LibrariesOf());
    MappedInAnyOrder(a, b, LibrariesOf());
    forall l | l in CommonLibraries(x) ensures ListsLibrary(CommonLibraries(y), l) { LibraryInAnyOrder(x, y, l); }
    forall l | l in CommonLibraries(y) ensures ListsLibrary(CommonLibraries(x), l) { LibraryInAnyOrder(y, x, l); }
  }

  ghost predicate NoRepeats(footprints: seq<Diff>) {
    forall i, j :: 0 <= i < j < |footprints| ==> footprints[i] != footprints[j]
  }

  lemma {:induction false} TotalConcat(a: seq<Diff>, b: seq<Diff>)
    ensures TotalRefiltered(a + b) == Sum(TotalRefiltered(a), TotalRefiltered(b))
  {
    TotalOfNone();
    hide TotalRefiltered; hide Sum;
    if b == [] {
      assert a + b == a;
      SumAssociates(TotalRefiltered(a), NOTHING_REMOVED, NOTHING_REMOVED);
    } else {
      var n := |b| - 1;
      TotalConcat(a, b[..n]);
      assert a + b == (a + b[..n]) + [b[n]] && b == b[..n] + [b[n]];
      TotalMore(a + b[..n], b[n]);
      TotalMore(b[..n], b[n]);
      SumAssociates(TotalRefiltered(a), TotalRefiltered(b[..n]), b[n].refiltered);
    }
  }

  lemma TotalOfNone()
    ensures TotalRefiltered([]) == NOTHING_REMOVED
  {
  }

  lemma TotalMore(footprints: seq<Diff>, d: Diff)
    ensures TotalRefiltered(footprints + [d]) == Sum(TotalRefiltered(footprints), d.refiltered)
  {
    assert (footprints + [d])[..|footprints|] == footprints;
  }

  lemma SumAssociates(a: Refiltered, b: Refiltered, c: Refiltered)
    ensures Sum(Sum(a, b), c) == Sum(a, Sum(b, c)) && Sum(a, b) == Sum(b, a)
    ensures Sum(a, NOTHING_REMOVED) == a
  {
  }

  function OthersThan<C>(cs: seq<C>, i: nat): seq<C>
    requires i < |cs|
  {
    cs[..i] + cs[i + 1..]
  }

  lemma TotalOfOthers(footprints: seq<Diff>, i: nat, f: Diff -> Diff)
    requires i < |footprints|
    ensures TotalRefiltered(Mapped(footprints, f))
         == Sum(TotalRefiltered(Mapped(OthersThan(footprints, i), f)), f(footprints[i]).refiltered)
  {
    hide Mapped; hide TotalRefiltered; hide Sum;
    var a, x, b := Mapped(footprints[..i], f), f(footprints[i]), Mapped(footprints[i + 1..], f);
    MappedAround(footprints, i, f);
    TotalConcat(a + [x], b);
    TotalMore(a, x);
    TotalConcat(a, b);
    var one, others := x.refiltered, TotalRefiltered(b);
    SumAssociates(TotalRefiltered(a), one, others);
    SumAssociates(one, others, one);
    SumAssociates(TotalRefiltered(a), others, one);
  }

  lemma MappedAround<C, D>(cs: seq<C>, i: nat, f: C -> D)
    requires i < |cs|
    ensures Mapped(cs, f) == Mapped(cs[..i], f) + [f(cs[i])] + Mapped(cs[i + 1..], f)
    ensures Mapped(OthersThan(cs, i), f) == Mapped(cs[..i], f) + Mapped(cs[i + 1..], f)
  {
    hide Mapped; hide OthersThan;
    MappedConcat(cs[..i] + [cs[i]], cs[i + 1..], f);
    MappedMore(cs[..i], cs[i], f);
    MappedConcat(cs[..i], cs[i + 1..], f);
    OthersThanAround(cs, i);
  }

  lemma OthersThanAround<C>(cs: seq<C>, i: nat)
    requires i < |cs|
    ensures cs == cs[..i] + [cs[i]] + cs[i + 1..] && OthersThan(cs, i) == cs[..i] + cs[i + 1..]
  {
  }

  lemma {:induction false} MappedConcat<C, D>(a: seq<C>, b: seq<C>, f: C -> D)
    ensures Mapped(a + b, f) == Mapped(a, f) + Mapped(b, f)
  {
    hide Mapped;
    if b == [] {
      assert a + b == a && Mapped(b, f) == [];
    } else {
      var n := |b| - 1;
      assert a + b == (a + b[..n]) + [b[n]] && b == b[..n] + [b[n]];
      MappedConcat(a, b[..n], f);
      MappedMore(a + b[..n], b[n], f);
      MappedMore(b[..n], b[n], f);
    }
  }

  lemma OthersAreSame(a: seq<Diff>, b: seq<Diff>, i: nat)
    requires a != [] && i < |b| && b[i] == a[|a| - 1] && NoRepeats(a) && NoRepeats(b) && SameMembers(a, b)
    ensures NoRepeats(a[..|a| - 1]) && NoRepeats(OthersThan(b, i))
    ensures SameMembers(a[..|a| - 1], OthersThan(b, i))
  {
    var n := |a| - 1;
    forall d ensures d in a[..n] <==> d in a && d != a[n] {
      assert a == a[..n] + [a[n]];
    }
    forall d ensures d in OthersThan(b, i) <==> d in b && d != b[i] {
      assert b == b[..i] + [b[i]] + b[i + 1..];
    }
  }

  /** Counts add up alike in any order. */
  lemma {:induction false} TotalInAnyOrder(a: seq<Diff>, b: seq<Diff>, f: Diff -> Diff)
    requires NoRepeats(a) && NoRepeats(b) && SameMembers(a, b)
    ensures TotalRefiltered(Mapped(a, f)) == TotalRefiltered(Mapped(b, f))
    decreases |a|
  {
    hide Mapped; hide TotalRefiltered; hide NoRepeats; hide OthersThan;
    if a == [] {
      NoneInAnyOrder(b);
    } else {
      var n := |a| - 1;
      assert a[n] in a;
      var i :| 0 <= i < |b| && b[i] == a[n];
      OthersAreSame(a, b, i);
      TotalInAnyOrder(a[..n], OthersThan(b, i), f);
      TotalOfOthers(b, i, f);
      TotalOfOthers(a, n, f);
      assert OthersThan(a, n) == a[..n] by { OthersThanLast(a); }
    }
  }

  lemma NoneInAnyOrder(b: seq<Diff>)
    requires SameMembers([], b)
    ensures b == []
  {
    if b != [] {
      FirstIsIn(b);
    }
  }

  lemma FirstIsIn(b: seq<Diff>)
    requires b != []
    ensures exists d :: d in b
  {
    assert b[0] in b;
  }

  lemma OthersThanLast(a: seq<Diff>)
    requires a != []
    ensures OthersThan(a, |a| - 1) == a[..|a| - 1]
  {
  }

  lemma DistinctDoNotRepeat(footprints: seq<Diff>)
    requires DistinctTimes(footprints)
    ensures NoRepeats(footprints)
  {
  }

  ghost predicate SameLists(x: Diff, y: Diff) {
    && SameList(x.emptiedDirectories, y.emptiedDirectories, DirectoryIdentity())
    && SameList(x.formerlyEmptyDirectories, y.formerlyEmptyDirectories, DirectoryIdentity())
    && SameList(x.emptiedKeys, y.emptiedKeys, KeyRefIdentity())
    && SameList(x.formerlyEmptyKeys, y.formerlyEmptyKeys, KeyRefIdentity())
  }

  lemma ListsInAnyOrder(a: seq<Diff>, b: seq<Diff>, r: Refiltered, s: Refiltered)
    requires a != [] && b != [] && SameMembers(a, b)
    ensures SameLists(SharedDiff(a, r), SharedDiff(b, s))
  {
    hide SameList; hide SharedList; hide SharedDiff; hide Mapped; hide SameMembers;
    ListsOfShared(a, r);
    ListsOfShared(b, s);
    ListInAnyOrder(a, b, Directories(), DirectoryIdentity());
    ListInAnyOrder(a, b, FormerDirectories(), DirectoryIdentity());
    ListInAnyOrder(a, b, EmptiedKeysOf(), KeyRefIdentity());
    ListInAnyOrder(a, b, FormerKeys(), KeyRefIdentity());
  }

  /** What an intersection says apart from whose record it kept. */
  ghost predicate SameIntersection(x: Diff, y: Diff) {
    && SameItems(x, y)
    && SameLists(x, y)
    && CoversAlike(x.coverage, y.coverage)
    && NamesAlike(x.libraries, y.libraries)
    && x.intersectionOf.Some? && y.intersectionOf.Some? && SameMembers(x.intersectionOf.value, y.intersectionOf.value)
    && x.beforeTakenUtc == y.beforeTakenUtc && x.afterTakenUtc == y.afterTakenUtc
    && x.rebootedBetween == y.rebootedBetween
    && x.registryPolicyChanged == y.registryPolicyChanged && x.filesystemPolicyChanged == y.filesystemPolicyChanged
    && x.snapshotFormatVersion == y.snapshotFormatVersion
  }

  lemma ScalarsInAnyOrder(a: seq<Diff>, b: seq<Diff>)
    requires a != [] && b != [] && SameMembers(a, b)
    requires forall d, e :: d in a && e in a ==> d.snapshotFormatVersion == e.snapshotFormatVersion
    ensures Smallest(Mapped(a, Begins())) == Smallest(Mapped(b, Begins()))
    ensures Largest(Mapped(a, Ends())) == Largest(Mapped(b, Ends()))
    ensures RebootedInAny(Mapped(a, Restarted())) == RebootedInAny(Mapped(b, Restarted()))
    ensures a[0].snapshotFormatVersion == b[0].snapshotFormatVersion
    ensures (exists d :: d in a && d.registryPolicyChanged) == (exists d :: d in b && d.registryPolicyChanged)
    ensures (exists d :: d in a && d.filesystemPolicyChanged) == (exists d :: d in b && d.filesystemPolicyChanged)
  {
    MappedInAnyOrder(a, b, Begins());
    MappedInAnyOrder(a, b, Ends());
    MappedInAnyOrder(a, b, Restarted());
    SpanInAnyOrder(Mapped(a, Begins()), Mapped(b, Begins()));
    SpanInAnyOrder(Mapped(a, Ends()), Mapped(b, Ends()));
    assert a[0] in a && b[0] in b;
    hide Smallest; hide Largest;
  }

  lemma SharedDiffInAnyOrder(a: seq<Diff>, b: seq<Diff>, r: Refiltered, s: Refiltered)
    requires |a| >= 2 && |b| >= 2 && SameMembers(a, b)
    requires forall d, e :: d in a && e in a ==> d.snapshotFormatVersion == e.snapshotFormatVersion
    ensures SameIntersection(SharedDiff(a, r), SharedDiff(b, s))
  {
    hide SharedDiff; hide SameItems; hide SameLists; hide CoversAlike; hide NamesAlike; hide FoldedCoverage;
    hide CommonLibraries; hide Smallest; hide Largest; hide RebootedInAny; hide Mapped;
    ItemsInAnyOrder(a, b, r, s);
    ListsInAnyOrder(a, b, r, s);
    LibrariesInAnyOrder(a, b);
    MappedInAnyOrder(a, b, Source());
    FoldInAnyOrder(a, b);
    ScalarsInAnyOrder(a, b);
    RestOfShared(a, r);
    RestOfShared(b, s);
  }

  /** Reordering the footprints changes only whose records are shared and whose
      spelling of a library, never which: every item, list, library and count of
      the intersection is the same. */
  lemma IntersectionInAnyOrder(policy: Policy, a: seq<Diff>, b: seq<Diff>)
    requires Intersectable(a) && Intersectable(b) && SameMembers(a, b)
    ensures SameIntersection(Intersection(policy, a), Intersection(policy, b))
    ensures Intersection(policy, a).refiltered == Intersection(policy, b).refiltered
  {
    hide Cleaned; hide SharedDiff; hide SameIntersection; hide NoRepeats; hide Mapped; hide TotalRefiltered;
    var x, y := Mapped(a, CleanedBy(policy)), Mapped(b, CleanedBy(policy));
    MappedInAnyOrder(a, b, CleanedBy(policy));
    CleanedHaveOneFormat(policy, a);
    SharedDiffInAnyOrder(x, y, TotalRefiltered(x), TotalRefiltered(y));
    DistinctDoNotRepeat(a);
    DistinctDoNotRepeat(b);
    TotalInAnyOrder(a, b, CleanedBy(policy));
    RestOfShared(x, TotalRefiltered(x));
    RestOfShared(y, TotalRefiltered(y));
  }

  lemma CleanedHaveOneFormat(policy: Policy, a: seq<Diff>)
    requires Intersectable(a)
    ensures var x := Mapped(a, CleanedBy(policy));
            forall d, e :: d in x && e in x ==> d.snapshotFormatVersion == e.snapshotFormatVersion
  {
    hide Cleaned; hide Mapped;
    var x := Mapped(a, CleanedBy(policy));
    forall i | 0 <= i < |x| ensures x[i].snapshotFormatVersion == a[0].snapshotFormatVersion {
      assert a[i] in a && a[0] in a;
      CleaningKeepsFormat(policy, a[i]);
    }
  }

  lemma RestOfShared(footprints: seq<Diff>, refiltered: Refiltered)
    requires footprints != []
    ensures var d := SharedDiff(footprints, refiltered);
            && d.refiltered == refiltered && d.coverage == FoldedCoverage(footprints)
            && d.libraries == CommonLibraries(Mapped(footprints, LibrariesOf()))
            && d.intersectionOf == Some(Mapped(footprints, Source()))
            && d.beforeTakenUtc == Smallest(Mapped(footprints, Begins())) && d.afterTakenUtc == Largest(Mapped(footprints, Ends()))
            && d.rebootedBetween == RebootedInAny(Mapped(footprints, Restarted()))
            && d.snapshotFormatVersion == footprints[0].snapshotFormatVersion
            && d.registryPolicyChanged == (exists f :: f in footprints && f.registryPolicyChanged)
            && d.filesystemPolicyChanged == (exists f :: f in footprints && f.filesystemPolicyChanged)
  {
    hide SharedKept; hide SharedSuppressed; hide SharedList; hide SignerCounts; hide CommonLibraries; hide FoldedCoverage;
    hide RebootedInAny; hide Smallest; hide Largest; hide Mapped;
  }

  lemma CleaningKeepsFormat(policy: Policy, d: Diff)
    ensures Cleaned(policy, d).snapshotFormatVersion == d.snapshotFormatVersion
  {
  }

  // ----- one more footprint -----

  ghost predicate WithinAt(x: Diff, y: Diff, key: string) {
    && (HasService(x, key) ==> HasService(y, key))
    && (HasService(x, key) && !KeptService(x, key) ==> !KeptService(y, key))
    && (HasFile(x, key) ==> HasFile(y, key))
    && (HasFile(x, key) && !KeptFile(x, key) ==> !KeptFile(y, key))
    && (HasKey(x, key) ==> HasKey(y, key))
  }

  ghost predicate ListWithin<T(!new)>(x: Option<seq<T>>, y: Option<seq<T>>, identity: T -> string) {
    x.Some? ==> y.Some? && forall key :: HasIdentity(x.value, identity, key) ==> HasIdentity(y.value, identity, key)
  }

  /** Everything one result holds, another holds too; and a list one knows, the
      other knows and holds as much of. */
  ghost predicate HoldsNoMore(x: Diff, y: Diff) {
    && (forall key :: WithinAt(x, y, key))
    && ListWithin(x.emptiedDirectories, y.emptiedDirectories, DirectoryIdentity())
    && ListWithin(x.formerlyEmptyDirectories, y.formerlyEmptyDirectories, DirectoryIdentity())
    && ListWithin(x.emptiedKeys, y.emptiedKeys, KeyRefIdentity())
    && ListWithin(x.formerlyEmptyKeys, y.formerlyEmptyKeys, KeyRefIdentity())
  }

  lemma ListShrinks<T(!new)>(few: seq<Diff>, more: seq<Diff>, list: Diff -> Option<seq<T>>, identity: T -> string)
    requires few != [] && more != [] && forall d :: d in few ==> d in more
    ensures ListWithin(SharedList(Mapped(more, list), identity), SharedList(Mapped(few, list), identity), identity)
  {
    hide SharedList; hide KnownToHave; hide HasIdentity;
    ListIsShared(few, list, identity, "");
    ListIsShared(more, list, identity, "");
    var x, y := SharedList(Mapped(more, list), identity), SharedList(Mapped(few, list), identity);
    if x.Some? {
      forall key ensures HasIdentity(x.value, identity, key) ==> HasIdentity(y.value, identity, key) {
        ListIsShared(few, list, identity, key);
        ListIsShared(more, list, identity, key);
      }
    }
  }

  lemma ListsOfShared(footprints: seq<Diff>, refiltered: Refiltered)
    requires footprints != []
    ensures var r := SharedDiff(footprints, refiltered);
            && r.emptiedDirectories == SharedList(Mapped(footprints, Directories()), DirectoryIdentity())
            && r.formerlyEmptyDirectories == SharedList(Mapped(footprints, FormerDirectories()), DirectoryIdentity())
            && r.emptiedKeys == SharedList(Mapped(footprints, EmptiedKeysOf()), KeyRefIdentity())
            && r.formerlyEmptyKeys == SharedList(Mapped(footprints, FormerKeys()), KeyRefIdentity())
  {
    hide SharedKept; hide SharedSuppressed; hide SharedList; hide SignerCounts; hide CommonLibraries; hide FoldedCoverage;
    hide RebootedInAny; hide Smallest; hide Largest;
  }

  lemma SharedDiffShrinksAt(few: seq<Diff>, more: seq<Diff>, r: Refiltered, s: Refiltered, key: string)
    requires few != [] && more != [] && forall d :: d in few ==> d in more
    ensures WithinAt(SharedDiff(more, s), SharedDiff(few, r), key)
  {
    hide SharedDiff; hide HasService; hide HasFile; hide HasKey; hide KeptService; hide KeptFile;
    SharedServices(few, r, key);
    SharedServices(more, s, key);
    SharedFiles(few, r, key);
    SharedFiles(more, s, key);
    SharedKeys(few, r, key);
    SharedKeys(more, s, key);
  }

  lemma SharedDiffShrinks(few: seq<Diff>, more: seq<Diff>, r: Refiltered, s: Refiltered)
    requires few != [] && more != [] && forall d :: d in few ==> d in more
    ensures HoldsNoMore(SharedDiff(more, s), SharedDiff(few, r))
  {
    hide SharedDiff; hide WithinAt; hide ListWithin; hide SharedList;
    ListsOfShared(few, r);
    ListsOfShared(more, s);
    ListShrinks(few, more, Directories(), DirectoryIdentity());
    ListShrinks(few, more, FormerDirectories(), DirectoryIdentity());
    ListShrinks(few, more, EmptiedKeysOf(), KeyRefIdentity());
    ListShrinks(few, more, FormerKeys(), KeyRefIdentity());
    forall key ensures WithinAt(SharedDiff(more, s), SharedDiff(few, r), key) {
      SharedDiffShrinksAt(few, more, r, s, key);
    }
  }

  /** Another footprint only takes items away, and an item it leaves set aside
      was set aside before. */
  lemma IntersectionShrinks(policy: Policy, given: seq<Diff>, another: Diff)
    requires given != []
    ensures HoldsNoMore(Intersection(policy, given + [another]), Intersection(policy, given))
  {
    var f := CleanedBy(policy);
    MappedMore(given, another, f);
    hide Cleaned; hide SharedDiff; hide HoldsNoMore;
    SharedDiffShrinks(Mapped(given, f), Mapped(given + [another], f), TotalRefiltered(Mapped(given, f)),
                      TotalRefiltered(Mapped(given + [another], f)));
  }
}
