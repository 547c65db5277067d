// An intersection field by field, on the footprints' own fields:
// tools/observe/src/intersect.rs.
module IntersectFields {
  import opened Prelude
  import opened Ordered
  import opened Text
  import opened Timestamp
  import opened Observed
  import opened Keyed
  import opened Changes
  import opened ServiceDiff
  import opened FileDiff
  import opened RegistryDiff
  import opened SnapshotDiff
  import opened DiffLaws
  import opened Sharing
  import opened Intersect
  import opened IntersectLaws

  // ----- the lists of what became empty -----

  /** A directory of a list, in any case. */
  ghost predicate ListsDirectory(list: Option<seq<string>>, directory: string) {
    list.Some? && exists d :: d in list.value && EqFold(d, directory)
  }

  /** A key of a list in one view, in any case. */
  ghost predicate ListsKey(list: Option<seq<RegistryKeyRef>>, key: string, view: string) {
    list.Some? && exists k :: k in list.value && EqFold(k.key, key) && k.view == view
  }

  lemma DirectoryIsHeld(list: seq<string>, directory: string)
    ensures HasIdentity(list, DirectoryIdentity(), LowerAll(directory)) <==> ListsDirectory(Some(list), directory)
  {
    hide LowerAll;
  }

  predicate PlainViews(list: Option<seq<RegistryKeyRef>>) {
    list.Some? ==> forall k :: k in list.value ==> '\0' !in k.view
  }

  lemma KeyIsHeld(list: seq<RegistryKeyRef>, key: string, view: string)
    requires PlainViews(Some(list)) && '\0' !in view
    ensures HasIdentity(list, KeyRefIdentity(), IdentityText(key, view)) <==> ListsKey(Some(list), key, view)
  {
    hide IdentityText; hide EqFold;
    forall k | k in list ensures IdentityText(k.key, k.view) == IdentityText(key, view) <==> EqFold(k.key, key) && k.view == view {
      IdentityTextIsThePair(k.key, k.view, key, view);
    }
  }

  /** The emptied directories are known when every footprint knows its own, and
      then exactly those that every one lists; and so for each other list. */
  lemma SharedDirectories(footprints: seq<Diff>, refiltered: Refiltered, directory: string)
    requires footprints != []
    ensures var d := SharedDiff(footprints, refiltered);
            && (d.emptiedDirectories.Some? <==> forall f :: f in footprints ==> f.emptiedDirectories.Some?)
            && (d.emptiedDirectories.Some? ==>
                  (ListsDirectory(d.emptiedDirectories, directory) <==>
                   forall f :: f in footprints ==> ListsDirectory(f.emptiedDirectories, directory)))
            && (d.formerlyEmptyDirectories.Some? <==> forall f :: f in footprints ==> f.formerlyEmptyDirectories.Some?)
            && (d.formerlyEmptyDirectories.Some? ==>
                  (ListsDirectory(d.formerlyEmptyDirectories, directory) <==>
                   forall f :: f in footprints ==> ListsDirectory(f.formerlyEmptyDirectories, directory)))
  {
    hide SharedDiff; hide SharedList; hide HasIdentity; hide ListsDirectory; hide LowerAll;
    var key := LowerAll(directory);
    ListsOfShared(footprints, refiltered);
    ListIsShared(footprints, Directories(), DirectoryIdentity(), key);
    ListIsShared(footprints, FormerDirectories(), DirectoryIdentity(), key);
    forall list: Option<seq<string>> ensures KnownToHave(list, DirectoryIdentity(), key) == ListsDirectory(list, directory) {
      KnownDirectory(list, directory);
    }
  }

  lemma KnownDirectory(list: Option<seq<string>>, directory: string)
    ensures KnownToHave(list, DirectoryIdentity(), LowerAll(directory)) == ListsDirectory(list, directory)
  {
    hide LowerAll;
    if list.Some? {
      DirectoryIsHeld(list.value, directory);
    }
  }

  lemma KnownKey(list: Option<seq<RegistryKeyRef>>, key: string, view: string)
    requires PlainViews(list) && '\0' !in view
    ensures KnownToHave(list, KeyRefIdentity(), IdentityText(key, view)) == ListsKey(list, key, view)
  {
    hide IdentityText; hide EqFold;
    if list.Some? {
      KeyIsHeld(list.value, key, view);
    }
  }

  /** No view of a key a footprint lists holds a NUL. */
  ghost predicate PlainKeys(footprints: seq<Diff>) {
    forall f :: f in footprints ==> PlainViews(f.emptiedKeys) && PlainViews(f.formerlyEmptyKeys)
  }

  lemma SharedEmptiedKeys(footprints: seq<Diff>, refiltered: Refiltered, key: string, view: string)
    requires footprints != [] && PlainKeys(footprints) && '\0' !in view
    ensures var d := SharedDiff(footprints, refiltered);
            && (d.emptiedKeys.Some? <==> forall f :: f in footprints ==> f.emptiedKeys.Some?)
            && (d.emptiedKeys.Some? ==>
                  (ListsKey(d.emptiedKeys, key, view) <==> forall f :: f in footprints ==> ListsKey(f.emptiedKeys, key, view)))
            && (d.formerlyEmptyKeys.Some? <==> forall f :: f in footprints ==> f.formerlyEmptyKeys.Some?)
            && (d.formerlyEmptyKeys.Some? ==>
                  (ListsKey(d.formerlyEmptyKeys, key, view) <==>
                   forall f :: f in footprints ==> ListsKey(f.formerlyEmptyKeys, key, view)))
  {
    hide SharedDiff; hide SharedList; hide HasIdentity; hide ListsKey; hide IdentityText; hide KnownToHave;
    var id := IdentityText(key, view);
    var d := SharedDiff(footprints, refiltered);
    ListsOfShared(footprints, refiltered);
    ListIsShared(footprints, EmptiedKeysOf(), KeyRefIdentity(), id);
    ListIsShared(footprints, FormerKeys(), KeyRefIdentity(), id);
    forall f | f in footprints
      ensures KnownToHave(f.emptiedKeys, KeyRefIdentity(), id) == ListsKey(f.emptiedKeys, key, view)
      ensures KnownToHave(f.formerlyEmptyKeys, KeyRefIdentity(), id) == ListsKey(f.formerlyEmptyKeys, key, view)
    {
      KnownKey(f.emptiedKeys, key, view);
      KnownKey(f.formerlyEmptyKeys, key, view);
    }
    SharedViewsArePlain(footprints, refiltered);
    KnownKey(d.emptiedKeys, key, view);
    KnownKey(d.formerlyEmptyKeys, key, view);
    Known(d.emptiedKeys, id);
    Known(d.formerlyEmptyKeys, id);
  }

  lemma Known(list: Option<seq<RegistryKeyRef>>, id: string)
    ensures list.Some? ==> KnownToHave(list, KeyRefIdentity(), id) == HasIdentity(list.value, KeyRefIdentity(), id)
  {
  }

  lemma SharedViewsArePlain(footprints: seq<Diff>, refiltered: Refiltered)
    requires footprints != [] && PlainKeys(footprints)
    ensures PlainViews(SharedDiff(footprints, refiltered).emptiedKeys)
    ensures PlainViews(SharedDiff(footprints, refiltered).formerlyEmptyKeys)
  {
    hide SharedDiff;
    ListsOfShared(footprints, refiltered);
    PlainFromFirst(footprints, EmptiedKeysOf());
    PlainFromFirst(footprints, FormerKeys());
    hide SharedList;
  }

  lemma PlainFromFirst(footprints: seq<Diff>, list: Diff -> Option<seq<RegistryKeyRef>>)
    requires footprints != [] && forall f :: f in footprints ==> PlainViews(list(f))
    ensures PlainViews(SharedList(Mapped(footprints, list), KeyRefIdentity()))
  {
    var lists := Mapped(footprints, list);
    assert footprints[0] in footprints && lists[0] == list(footprints[0]);
    var known := AllKnown(lists);
    if known.Some? {
      assert known.value != [] && known.value[0] == lists[0].value;
    }
  }

  // ----- the scalars -----

  /** It spans from the earliest beginning to the latest end, and restarted if
      any did: unknown unless one did or all are known not to have. */
  lemma SharedSpan(footprints: seq<Diff>, refiltered: Refiltered)
    requires footprints != []
    ensures var d := SharedDiff(footprints, refiltered);
            && (exists f :: f in footprints && f.beforeTakenUtc == d.beforeTakenUtc)
            && (forall f :: f in footprints ==> !Less(f.beforeTakenUtc, d.beforeTakenUtc))
            && (exists f :: f in footprints && f.afterTakenUtc == d.afterTakenUtc)
            && (forall f :: f in footprints ==> !Less(d.afterTakenUtc, f.afterTakenUtc))
            && (d.rebootedBetween == Some(true) <==> exists f :: f in footprints && f.rebootedBetween == Some(true))
            && (d.rebootedBetween == Some(false) <==> forall f :: f in footprints ==> f.rebootedBetween == Some(false))
  {
    hide SharedDiff; hide Smallest; hide Largest; hide Mapped; hide Less; hide RebootedInAny;
    RestOfShared(footprints, refiltered);
    SpanOfAll(footprints);
    RestartOfAll(footprints);
  }

  lemma RestartOfAll(footprints: seq<Diff>)
    requires footprints != []
    ensures var answer := RebootedInAny(Mapped(footprints, Restarted()));
            && (answer == Some(true) <==> exists f :: f in footprints && f.rebootedBetween == Some(true))
            && (answer == Some(false) <==> forall f :: f in footprints ==> f.rebootedBetween == Some(false))
  {
    var answers := Mapped(footprints, Restarted());
    hide Mapped;
    forall i | 0 <= i < |footprints| ensures footprints[i].rebootedBetween in answers {
      assert answers[i] in answers;
    }
    forall answer | answer in answers ensures exists f :: f in footprints && f.rebootedBetween == answer {
      var i :| 0 <= i < |answers| && answers[i] == answer;
      assert footprints[i] in footprints;
    }
    assert footprints[0] in footprints;
  }

  lemma SpanOfAll(footprints: seq<Diff>)
    requires footprints != []
    ensures var begin, end := Smallest(Mapped(footprints, Begins())), Largest(Mapped(footprints, Ends()));
            && (exists f :: f in footprints && f.beforeTakenUtc == begin)
            && (forall f :: f in footprints ==> !Less(f.beforeTakenUtc, begin))
            && (exists f :: f in footprints && f.afterTakenUtc == end)
            && (forall f :: f in footprints ==> !Less(end, f.afterTakenUtc))
  {
    hide Smallest; hide Largest; hide Mapped;
    TextOrderIsTotal();
    hide Less;
    MappedMembers(footprints, Begins());
    MappedMembers(footprints, Ends());
    SmallestIsLeast(Mapped(footprints, Begins()));
    LargestIsGreatest(Mapped(footprints, Ends()));
    forall f | f in footprints
      ensures !Less(f.beforeTakenUtc, Smallest(Mapped(footprints, Begins())))
      ensures !Less(Largest(Mapped(footprints, Ends())), f.afterTakenUtc)
    {
      assert Begins()(f) in Mapped(footprints, Begins()) && Ends()(f) in Mapped(footprints, Ends());
    }
  }

  /** It names each footprint it is of, in order, with how many changes that
      held; a policy changed if it did in any; and a library is shared when the
      first lists it and all others do in some spelling. */
  lemma SharedSources(footprints: seq<Diff>, refiltered: Refiltered)
    requires footprints != []
    ensures var d := SharedDiff(footprints, refiltered);
            && d.intersectionOf.Some? && |d.intersectionOf.value| == |footprints|
            && (forall i :: 0 <= i < |footprints| ==>
                  var f, source := footprints[i], d.intersectionOf.value[i];
                  && source.beforeTakenUtc == f.beforeTakenUtc && source.afterTakenUtc == f.afterTakenUtc
                  && source.changes == |f.services| + |f.suppressed| + |f.files| + |f.suppressedFiles| + |f.registry|)
            && (d.registryPolicyChanged <==> exists f :: f in footprints && f.registryPolicyChanged)
            && (d.filesystemPolicyChanged <==> exists f :: f in footprints && f.filesystemPolicyChanged)
            && d.formatVersion == DIFF_FORMAT && d.snapshotFormatVersion == footprints[0].snapshotFormatVersion
            && d.signers == SignerCounts(d.files)
  {
    hide SharedKept; hide SharedSuppressed; hide SharedList; hide SignerCounts; hide CommonLibraries; hide FoldedCoverage;
    hide RebootedInAny; hide Smallest; hide Largest;
  }

  lemma SharedLibraries(footprints: seq<Diff>, refiltered: Refiltered, library: Library)
    requires footprints != []
    ensures library in SharedDiff(footprints, refiltered).libraries <==>
              && library in footprints[0].libraries
              && forall i :: 1 <= i < |footprints| ==>
                   exists other :: other in footprints[i].libraries
                     && other.launcher == library.launcher && EqFold(other.path, library.path)
  {
    hide SharedDiff; hide CommonLibraries; hide EqFold;
    RestOfShared(footprints, refiltered);
    CommonIsInEvery(Mapped(footprints, LibrariesOf()), library);
  }

  /** An item of a domain that could not be read. */
  ghost predicate Denies(coverage: Coverage, domain: Domain, item: string) {
    exists a :: a in coverage.accessDenied && a.domain == domain && a.item == item
  }

  /** And the domains every footprint covers, with whatever any was refused. */
  lemma SharedDomains(footprints: seq<Diff>, refiltered: Refiltered, domain: Domain, item: string)
    requires footprints != []
    ensures var coverage := SharedDiff(footprints, refiltered).coverage;
            && (domain in coverage.captured <==> forall f :: f in footprints ==> domain in f.coverage.captured)
            && (Denies(coverage, domain, item) <==> exists f :: f in footprints && Denies(f.coverage, domain, item))
  {
    hide SharedDiff; hide FoldedCoverage;
    RestOfShared(footprints, refiltered);
    FoldHoldsAll(footprints);
    DeniesIs(FoldedCoverage(footprints), domain, item);
    hide Denies; hide Identities;
    if f :| f in footprints && Denies(f.coverage, domain, item) {
      DeniesIs(f.coverage, domain, item);
      OneOfAll(footprints, f, (domain, item));
    }
    if (domain, item) in AllDenied(footprints) {
      var f, a :| f in footprints && a in f.coverage.accessDenied && DeniedIdentity(a) == (domain, item);
      IsDenied(f.coverage, a);
    }
  }

  lemma OneOfAll(footprints: seq<Diff>, f: Diff, id: Identity)
    requires f in footprints && id in Identities(f.coverage.accessDenied)
    ensures id in AllDenied(footprints)
  {
  }

  lemma IsDenied(coverage: Coverage, a: AccessDenied)
    requires a in coverage.accessDenied
    ensures Denies(coverage, a.domain, a.item)
  {
  }

  lemma DeniesIs(coverage: Coverage, domain: Domain, item: string)
    ensures Denies(coverage, domain, item) <==> (domain, item) in Identities(coverage.accessDenied)
  {
  }

  // ----- the items -----

  /** A service's change among what is kept, or set aside, under a name in any case. */
  ghost predicate Keeps(d: Diff, name: string) {
    exists c :: c in d.services && EqFold(c.name, name)
  }

  ghost predicate SetsAside(d: Diff, name: string) {
    exists e :: e in d.suppressed && EqFold(e.change.name, name)
  }

  ghost predicate KeepsFile(d: Diff, path: string) {
    exists c :: c in d.files && EqFold(c.path, path)
  }

  ghost predicate SetsFileAside(d: Diff, path: string) {
    exists e :: e in d.suppressedFiles && EqFold(e.change.path, path)
  }

  ghost predicate ChangesKey(d: Diff, key: string, view: string) {
    exists c :: c in d.registry && EqFold(c.key, key) && c.view == view
  }

  lemma ServiceIs(d: Diff, name: string)
    ensures HasService(d, LowerAll(name)) <==> Keeps(d, name) || SetsAside(d, name)
    ensures KeptService(d, LowerAll(name)) <==> Keeps(d, name)
  {
    hide LowerAll;
  }

  lemma FileIs(d: Diff, path: string)
    ensures HasFile(d, LowerAll(path)) <==> KeepsFile(d, path) || SetsFileAside(d, path)
    ensures KeptFile(d, LowerAll(path)) <==> KeepsFile(d, path)
  {
    hide LowerAll;
  }

  /** A service is shared when every footprint has a change of it, kept or set
      aside, and kept when some footprint kept it; and so for files. */
  lemma SharedNames(footprints: seq<Diff>, refiltered: Refiltered, name: string)
    requires footprints != []
    ensures var d := SharedDiff(footprints, refiltered);
            && (Keeps(d, name) || SetsAside(d, name) <==>
                  forall f :: f in footprints ==> Keeps(f, name) || SetsAside(f, name))
            && (Keeps(d, name) <==>
                  (forall f :: f in footprints ==> Keeps(f, name) || SetsAside(f, name))
                  && exists f :: f in footprints && Keeps(f, name))
            && (KeepsFile(d, name) || SetsFileAside(d, name) <==>
                  forall f :: f in footprints ==> KeepsFile(f, name) || SetsFileAside(f, name))
            && (KeepsFile(d, name) <==>
                  (forall f :: f in footprints ==> KeepsFile(f, name) || SetsFileAside(f, name))
                  && exists f :: f in footprints && KeepsFile(f, name))
  {
    hide SharedDiff; hide HasService; hide KeptService; hide HasFile; hide KeptFile; hide Keeps; hide SetsAside; hide KeepsFile;
    hide SetsFileAside; hide LowerAll;
    SharedServices(footprints, refiltered, LowerAll(name));
    SharedFiles(footprints, refiltered, LowerAll(name));
    forall f: Diff
      ensures HasService(f, LowerAll(name)) <==> Keeps(f, name) || SetsAside(f, name)
      ensures KeptService(f, LowerAll(name)) <==> Keeps(f, name)
    {
      ServiceIs(f, name);
    }
    forall f: Diff
      ensures HasFile(f, LowerAll(name)) <==> KeepsFile(f, name) || SetsFileAside(f, name)
      ensures KeptFile(f, LowerAll(name)) <==> KeepsFile(f, name)
    {
      FileIs(f, name);
    }
  }

  /** A registry change is of a view without NUL, as every view is. */
  predicate PlainChanges(changes: seq<RegistryChange>) {
    forall c :: c in changes ==> '\0' !in c.view
  }

  lemma KeyIs(d: Diff, key: string, view: string)
    requires PlainChanges(d.registry) && '\0' !in view
    ensures HasKey(d, IdentityText(key, view)) <==> ChangesKey(d, key, view)
  {
    hide IdentityText; hide EqFold;
    forall c | c in d.registry ensures IdentityText(c.key, c.view) == IdentityText(key, view) <==> EqFold(c.key, key) && c.view == view {
      IdentityTextIsThePair(c.key, c.view, key, view);
    }
  }

  /** And a registry key, in one view, when every footprint changed it there. */
  lemma SharedKeyChanges(footprints: seq<Diff>, refiltered: Refiltered, key: string, view: string)
    requires footprints != [] && '\0' !in view && forall f :: f in footprints ==> PlainChanges(f.registry)
    ensures ChangesKey(SharedDiff(footprints, refiltered), key, view) <==>
              forall f :: f in footprints ==> ChangesKey(f, key, view)
  {
    hide SharedDiff; hide HasKey; hide ChangesKey; hide IdentityText; hide PlainChanges;
    SharedKeys(footprints, refiltered, IdentityText(key, view));
    forall f | f in footprints ensures HasKey(f, IdentityText(key, view)) <==> ChangesKey(f, key, view) {
      KeyIs(f, key, view);
    }
    SharedChangesArePlain(footprints, refiltered);
    KeyIs(SharedDiff(footprints, refiltered), key, view);
  }

  lemma SharedChangesArePlain(footprints: seq<Diff>, refiltered: Refiltered)
    requires footprints != [] && forall f :: f in footprints ==> PlainChanges(f.registry)
    ensures PlainChanges(SharedDiff(footprints, refiltered).registry)
  {
    hide SharedDiff; hide SharedKept; hide SharedSuppressed;
    SharedSides(footprints, refiltered);
    var sides := Mapped(footprints, RegistrySide());
    forall c | c in SharedDiff(footprints, refiltered).registry ensures '\0' !in c.view {
      var f := SharedKeyIsOf(footprints, c);
    }
  }

  lemma {:induction false} FirstIsOne<T(!new), S(!new)>(sides: seq<Side<T, S>>, identity: T -> string, key: string, change: T)
    returns (side: Side<T, S>)
    requires ComesFromFirst(sides, identity, key, change)
    ensures side in sides && change in side.kept
  {
    hide HoldsKept;
    if HoldsKept(sides[0], identity, key) {
      side := sides[0];
    } else {
      side := FirstIsOne(sides[1..], identity, key, change);
    }
  }

  lemma SharedKeyIsOf(footprints: seq<Diff>, c: RegistryChange) returns (f: Diff)
    requires footprints != [] && c in SharedKept(Mapped(footprints, RegistrySide()), RegistryIdentity(), Itself())
    ensures f in footprints && c in f.registry
  {
    hide SharedKept;
    var sides := Mapped(footprints, RegistrySide());
    SharedComesFromFirst(sides, RegistryIdentity(), Itself(), c);
    hide ComesFromFirst;
    var side := FirstIsOne(sides, RegistryIdentity(), RegistryIdentity()(c), c);
    MappedMembers(footprints, RegistrySide());
    hide Mapped;
    f :| f in footprints && RegistrySide()(f) == side;
  }
}
