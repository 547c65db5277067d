// The privacy policy and the comparison: what the policy refuses has no effect
// on a diff but to be counted. tools/observe/src/diff.rs, policy.rs.
module NonInterference {
  import opened Prelude
  import opened Ordered
  import opened Text
  import opened Observed
  import opened Policies
  import opened Keyed
  import opened Changes
  import opened ServiceDiff
  import opened FileDiff
  import opened RegistryDiff
  import opened SnapshotDiff

  // ----- one refused thing more -----

  function Without<T>(list: seq<T>, i: nat): seq<T>
    requires i < |list|
  {
    list[..i] + list[i + 1..]
  }

  /** A list with one thing more, and that one refused. */
  ghost predicate OneMore<T>(less: seq<T>, more: seq<T>, refused: T -> bool) {
    exists i :: 0 <= i < |more| && refused(more[i]) && less == Without(more, i)
  }

  ghost predicate OneMoreListed<T>(less: Option<seq<T>>, more: Option<seq<T>>, refused: T -> bool) {
    less.Some? && more.Some? && OneMore(less.value, more.value, refused)
  }

  function RefusedDenial(policy: Policy): AccessDenied -> bool {
    (denied: AccessDenied) => ExcludedDenial(policy, denied)
  }

  function RefusedFile(policy: Policy): FileRecord -> bool {
    (file: FileRecord) => ExcludedPath(policy, file.path)
  }

  function RefusedDirectory(policy: Policy): string -> bool {
    (directory: string) => ExcludedPath(policy, directory)
  }

  function RefusedKey(policy: Policy): RegistryKeyRef -> bool {
    (key: RegistryKeyRef) => ExcludedKey(policy, key.key)
  }

  function RefusedValue(policy: Policy): RegistryValue -> bool {
    (value: RegistryValue) => Refused(policy, value)
  }

  /** A record under an excluded key, or one with refused values only. */
  function RefusedRecord(policy: Policy): RegistryRecord -> bool {
    (record: RegistryRecord) =>
      ExcludedKey(policy, record.key)
      || (record.values != [] && forall value :: value in record.values ==> Refused(policy, value))
  }

  /** One refused value more in one of the records, which is under an excluded
      key or has another. */
  ghost predicate OneMoreValue(policy: Policy, less: seq<RegistryRecord>, more: seq<RegistryRecord>) {
    |less| == |more| && exists i :: 0 <= i < |more| && less == more[i := less[i]] && WithOneMoreValue(policy, less[i], more[i])
  }

  ghost predicate WithOneMoreValue(policy: Policy, less: RegistryRecord, more: RegistryRecord) {
    && more == less.(values := more.values)
    && OneMore(less.values, more.values, RefusedValue(policy))
    && (ExcludedKey(policy, less.key) || less.values != [])
  }

  /** A snapshot with one thing more, and that one refused: a record, a value, a
      file, an item that could not be read, an empty directory or an empty key. */
  ghost predicate OneMoreRefused(policy: Policy, less: Snapshot, more: Snapshot) {
    || (more == less.(registry := more.registry)
        && (OneMore(less.registry, more.registry, RefusedRecord(policy)) || OneMoreValue(policy, less.registry, more.registry)))
    || (more == less.(files := more.files) && OneMore(less.files, more.files, RefusedFile(policy)))
    || (more == less.(coverage := less.coverage.(accessDenied := more.coverage.accessDenied))
        && OneMore(less.coverage.accessDenied, more.coverage.accessDenied, RefusedDenial(policy)))
    || (more == less.(emptyDirectories := more.emptyDirectories)
        && OneMoreListed(less.emptyDirectories, more.emptyDirectories, RefusedDirectory(policy)))
    || (more == less.(emptyKeys := more.emptyKeys)
        && OneMoreListed(less.emptyKeys, more.emptyKeys, RefusedKey(policy)))
  }

  /** Snapshots each of which differs from the one before in one refused thing,
      put in or taken out. */
  ghost predicate DifferInRefused(policy: Policy, chain: seq<Snapshot>) {
    forall i :: 0 < i < |chain| ==>
      OneMoreRefused(policy, chain[i - 1], chain[i]) || OneMoreRefused(policy, chain[i], chain[i - 1])
  }

  // ----- what the policy leaves of a snapshot -----

  /** A snapshot with everything the policy refuses taken out. */
  function Seen(policy: Policy, s: Snapshot): Snapshot {
    s.(coverage := s.coverage.(accessDenied := Retained(s.coverage.accessDenied, Undenied(policy))),
       files := Retained(s.files, Admits(policy)),
       registry := AdmittedRecords(policy, s.registry),
       emptyDirectories := Allowed(s.emptyDirectories, AllowedDirectory(policy)),
       emptyKeys := Allowed(s.emptyKeys, AllowedKey(policy)))
  }

  lemma WithoutRefused<T(!new)>(list: seq<T>, i: nat, keep: T -> bool)
    requires i < |list| && !keep(list[i])
    ensures Retained(Without(list, i), keep) == Retained(list, keep)
  {
    hide Retained;
    var a, b := list[..i], list[i + 1..];
    SplitAround(list, i);
    RetainedConcat(a, b, keep);
    RetainedConcat(a + [list[i]], b, keep);
    RetainedMore(a, list[i], keep);
  }

  lemma OneMoreIsDropped<T(!new)>(less: seq<T>, more: seq<T>, refused: T -> bool, keep: T -> bool)
    requires OneMore(less, more, refused) && forall t :: keep(t) == !refused(t)
    ensures Retained(less, keep) == Retained(more, keep)
  {
    var i :| 0 <= i < |more| && refused(more[i]) && less == Without(more, i);
    WithoutRefused(more, i, keep);
  }

  lemma SplitAround<T>(list: seq<T>, i: nat)
    requires i < |list|
    ensures list == list[..i] + [list[i]] + list[i + 1..]
    ensures forall t :: list[i := t] == list[..i] + [t] + list[i + 1..]
  {
  }

  lemma RecordIsUnseen(policy: Policy, less: seq<RegistryRecord>, more: seq<RegistryRecord>)
    requires OneMore(less, more, RefusedRecord(policy))
    ensures SeenAlike(policy, less, more)
  {
    hide AdmittedRecords;
    hide ExcludedKey; hide Refused;
    var i :| 0 <= i < |more| && RefusedRecord(policy)(more[i]) && less == Without(more, i);
    var x, record, y := more[..i], more[i], more[i + 1..];
    SplitAround(more, i);
    DroppedRecordIsUnseen(policy, x, record, y);
  }

  lemma ValueIsUnseen(policy: Policy, less: seq<RegistryRecord>, more: seq<RegistryRecord>)
    requires OneMoreValue(policy, less, more)
    ensures SeenAlike(policy, less, more)
  {
    hide AdmittedRecords; hide ExcludedKey; hide WithOneMoreValue;
    var i :| 0 <= i < |more| && less == more[i := less[i]] && WithOneMoreValue(policy, less[i], more[i]);
    SplitAround(more, i);
    ValueAtIsUnseen(policy, more[..i], less[i], more[i], more[i + 1..]);
  }

  lemma ValueAtIsUnseen(policy: Policy, x: seq<RegistryRecord>, less: RegistryRecord, more: RegistryRecord,
                        y: seq<RegistryRecord>)
    requires WithOneMoreValue(policy, less, more)
    ensures SeenAlike(policy, x + [more] + y, x + [less] + y)
  {
    hide AdmittedRecords; hide ExcludedKey; hide Refused;
    var values := more.values;
    var j :| 0 <= j < |values| && RefusedValue(policy)(values[j]) && less.values == Without(values, j);
    SplitAround(values, j);
    RefusedValueIsUnseen(policy, x, less, y, values[..j], values[j], values[j + 1..]);
  }

  lemma ListedIsUnseen<T(!new)>(less: Option<seq<T>>, more: Option<seq<T>>, refused: T -> bool, keep: T -> bool)
    requires OneMoreListed(less, more, refused) && forall t :: keep(t) == !refused(t)
    ensures Allowed(less, keep) == Allowed(more, keep)
  {
    OneMoreIsDropped(less.value, more.value, refused, keep);
  }

  lemma OneMoreIsUnseen(policy: Policy, less: Snapshot, more: Snapshot)
    requires OneMoreRefused(policy, less, more)
    ensures Seen(policy, less) == Seen(policy, more)
  {
    hide OneMore; hide OneMoreValue; hide Retained; hide ExcludedPath; hide ExcludedKey; hide ExcludedDenial; hide Refused;
    if OneMore(less.registry, more.registry, RefusedRecord(policy)) {
      RecordIsUnseen(policy, less.registry, more.registry);
    }
    if OneMoreValue(policy, less.registry, more.registry) {
      ValueIsUnseen(policy, less.registry, more.registry);
    }
    if OneMore(less.files, more.files, RefusedFile(policy)) {
      OneMoreIsDropped(less.files, more.files, RefusedFile(policy), Admits(policy));
    }
    if OneMore(less.coverage.accessDenied, more.coverage.accessDenied, RefusedDenial(policy)) {
      OneMoreIsDropped(less.coverage.accessDenied, more.coverage.accessDenied, RefusedDenial(policy), Undenied(policy));
    }
    if OneMoreListed(less.emptyDirectories, more.emptyDirectories, RefusedDirectory(policy)) {
      ListedIsUnseen(less.emptyDirectories, more.emptyDirectories, RefusedDirectory(policy), AllowedDirectory(policy));
    }
    if OneMoreListed(less.emptyKeys, more.emptyKeys, RefusedKey(policy)) {
      ListedIsUnseen(less.emptyKeys, more.emptyKeys, RefusedKey(policy), AllowedKey(policy));
    }
  }

  lemma {:induction false} ChainIsUnseen(policy: Policy, chain: seq<Snapshot>)
    requires chain != [] && DifferInRefused(policy, chain)
    ensures Seen(policy, chain[0]) == Seen(policy, chain[|chain| - 1])
    decreases |chain|
  {
    hide Seen; hide OneMoreRefused;
    var n := |chain| - 1;
    if n > 0 {
      ChainIsUnseen(policy, chain[..n]);
      if OneMoreRefused(policy, chain[n - 1], chain[n]) {
        OneMoreIsUnseen(policy, chain[n - 1], chain[n]);
      } else {
        OneMoreIsUnseen(policy, chain[n], chain[n - 1]);
      }
    }
  }

  // ----- a comparison is of what the policy leaves -----

  lemma RetainedAgain<T(!new)>(list: seq<T>, keep: T -> bool)
    ensures Retained(Retained(list, keep), keep) == Retained(list, keep)
  {
    RetainedTwice(list, keep, keep, keep);
  }

  function UndeniedIdentity(policy: Policy): Identity -> bool {
    (id: Identity) => !ExcludedDenial(policy, AccessDenied(id.0, id.1, ""))
  }

  lemma DenialByIdentity(policy: Policy, denied: AccessDenied)
    ensures Undenied(policy)(denied) == UndeniedIdentity(policy)(DeniedIdentity(denied))
  {
    hide ExcludedKey; hide ExcludedPath; hide DeniedKey;
  }

  lemma {:induction false} FirstOfRetained(policy: Policy, denied: seq<AccessDenied>, id: Identity)
    requires UndeniedIdentity(policy)(id)
    ensures FirstDenied(Retained(denied, Undenied(policy)), id) == FirstDenied(denied, id)
  {
    hide Retained; hide Undenied; hide UndeniedIdentity;
    if denied == [] {
      RetainedNone(Undenied(policy));
    } else {
      FirstOfRetained(policy, denied[1..], id);
      DenialByIdentity(policy, denied[0]);
      assert denied == [denied[0]] + denied[1..];
      RetainedConcat([denied[0]], denied[1..], Undenied(policy));
      RetainedMore([], denied[0], Undenied(policy));
      RetainedNone(Undenied(policy));
      assert [] + [denied[0]] == [denied[0]];
      var rest := Retained(denied[1..], Undenied(policy));
      if Undenied(policy)(denied[0]) {
        assert ([denied[0]] + rest)[1..] == rest;
      } else {
        assert [] + rest == rest;
      }
    }
  }

  /** Merging what could not be read and then dropping is dropping and then
      merging: each identity is refused or kept whole. */
  lemma UnionOfRetained(policy: Policy, mine: seq<AccessDenied>, theirs: seq<AccessDenied>)
    ensures Retained(DeniedUnion(mine, theirs), Undenied(policy))
         == DeniedUnion(Retained(mine, Undenied(policy)), Retained(theirs, Undenied(policy)))
  {
    DeniedOrderIsTotal();
    var denied, keep, kept := mine + theirs, Undenied(policy), UndeniedIdentity(policy);
    RetainedConcat(mine, theirs, keep);
    var all, some := Identities(denied), Identities(Retained(denied, keep));
    forall id ensures id in some <==> id in all && kept(id) {
      IdentityOfRetained(policy, denied, id);
    }
    AscendingRetained(all, some, kept, DeniedOrder());
    var ids := Ascending(all, DeniedOrder());
    hide Undenied; hide UndeniedIdentity; hide DeniedOrder; hide Retained; hide Ascending; hide Identities;
    forall id | id in ids && EachFirst(denied)(id).Some? ensures keep(EachFirst(denied)(id).value) == kept(id) {
      DenialByIdentity(policy, EachFirst(denied)(id).value);
    }
    RetainedCollected(ids, EachFirst(denied), keep, kept);
    forall id | id in Ascending(some, DeniedOrder()) ensures EachFirst(denied)(id) == EachFirst(Retained(denied, keep))(id) {
      FirstOfRetained(policy, denied, id);
    }
    CollectedSame(Ascending(some, DeniedOrder()), EachFirst(denied), EachFirst(Retained(denied, keep)));
  }

  lemma IdentityOfRetained(policy: Policy, denied: seq<AccessDenied>, id: Identity)
    ensures id in Identities(Retained(denied, Undenied(policy))) <==> id in Identities(denied) && UndeniedIdentity(policy)(id)
  {
    hide UndeniedIdentity; hide Undenied;
    if id in Identities(denied) {
      var d :| d in denied && DeniedIdentity(d) == id;
      DenialByIdentity(policy, d);
    }
    if id in Identities(Retained(denied, Undenied(policy))) {
      var d :| d in Retained(denied, Undenied(policy)) && DeniedIdentity(d) == id;
      DenialByIdentity(policy, d);
    }
  }

  lemma CoverageOfSeen(before: Snapshot, after: Snapshot, policy: Policy)
    ensures var seen, shared := SharedCoverage(Seen(policy, before), Seen(policy, after)), SharedCoverage(before, after);
            && seen == shared.(accessDenied := Retained(shared.accessDenied, Undenied(policy)))
            && LostDenials(Seen(policy, before), Seen(policy, after), policy) == 0
            && Retained(seen.accessDenied, Undenied(policy)) == seen.accessDenied
            && forall d :: Covers(seen, d) == Covers(shared, d)
  {
    var mine, theirs := before.coverage.accessDenied, after.coverage.accessDenied;
    UnionOfRetained(policy, mine, theirs);
    RetainedAgain(DeniedUnion(mine, theirs), Undenied(policy));
    hide DeniedUnion; hide Retained; hide Undenied; hide AdmittedRecords; hide Allowed;
  }

  lemma NewlyOfAllowed<T(!new)>(covered: bool, was: Option<seq<T>>, now: Option<seq<T>>, keep: T -> bool)
    ensures var newly := Newly(covered, Allowed(was, keep), Allowed(now, keep));
            && newly == Allowed(Newly(covered, was, now), keep)
            && Allowed(newly, keep) == newly && Lost(newly, keep) == 0
  {
    if covered && was.Some? && now.Some? {
      var kept := Retained(was.value, keep);
      var both: T -> bool := t => NotIn(was.value)(t) && keep(t);
      var other: T -> bool := t => keep(t) && NotIn(kept)(t);
      RetainedTwice(now.value, NotIn(was.value), keep, both);
      RetainedTwice(now.value, keep, NotIn(kept), other);
      RetainedSame(now.value, both, other);
      RetainedAgain(Retained(now.value, NotIn(was.value)), keep);
    }
  }

  lemma ListsOfSeen(before: Snapshot, after: Snapshot, policy: Policy)
    ensures var seen, shared := SharedCoverage(Seen(policy, before), Seen(policy, after)), SharedCoverage(before, after);
            var directories := NewlyEmptyDirectories(Seen(policy, before), Seen(policy, after), seen);
            var keys := NewlyEmptyKeys(Seen(policy, before), Seen(policy, after), seen);
            && Allowed(directories, AllowedDirectory(policy))
               == Allowed(NewlyEmptyDirectories(before, after, shared), AllowedDirectory(policy))
            && Allowed(keys, AllowedKey(policy)) == Allowed(NewlyEmptyKeys(before, after, shared), AllowedKey(policy))
            && Lost(directories, AllowedDirectory(policy)) == 0 && Lost(keys, AllowedKey(policy)) == 0
  {
    CoverageOfSeen(before, after, policy);
    var shared := SharedCoverage(before, after);
    hide SharedCoverage; hide AllowedDirectory; hide AllowedKey; hide Allowed; hide Lost; hide Newly;
    NewlyOfAllowed(Covers(shared, Filesystem), before.emptyDirectories, after.emptyDirectories, AllowedDirectory(policy));
    NewlyOfAllowed(Covers(shared, Domain.Registry), before.emptyKeys, after.emptyKeys, AllowedKey(policy));
  }

  lemma FilesOfSeen(policy: Policy, files: seq<FileRecord>)
    ensures FileIndex(policy, Retained(files, Admits(policy))) == FileIndex(policy, files)
    ensures ExcludedFiles(policy, Retained(files, Admits(policy))) == 0
  {
    RetainedAgain(files, Admits(policy));
  }

  lemma PartsOfSeen(before: Snapshot, after: Snapshot, filter: NoiseFilter, policy: Policy)
    ensures ComparedParts(Seen(policy, before), Seen(policy, after), filter, policy)
         == ComparedParts(before, after, filter, policy).(droppedRecords := 0, refusedValues := 0, excludedFiles := 0)
  {
    CoverageOfSeen(before, after, policy);
    FilesOfSeen(policy, before.files);
    FilesOfSeen(policy, after.files);
    CleaningFirstChangesNothing(policy, before.registry);
    CleaningFirstChangesNothing(policy, after.registry);
    hide SharedCoverage; hide RegistryIndex; hide FileIndex; hide ExcludedFiles; hide DroppedRecords; hide RefusedValues;
    hide AdmittedRecords; hide Retained; hide Allowed; hide SeenAlike;
    hide ServiceChanges; hide FileChanges; hide RegistryChanges; hide KeptServices; hide SuppressedServices;
    hide KeptFiles; hide SuppressedFiles; hide SignerCounts;
  }

  function Uncounted(diff: Diff): Diff {
    diff.(refiltered := NOTHING_REMOVED)
  }

  /** A comparison is, but for its counts, the comparison of the two snapshots
      with everything refused taken out first. */
  lemma ComparedIsOfTheSeen(before: Snapshot, after: Snapshot, filter: NoiseFilter, policy: Policy)
    ensures Compared(Seen(policy, before), Seen(policy, after), filter, policy)
         == Uncounted(Compared(before, after, filter, policy))
  {
    PartsOfSeen(before, after, filter, policy);
    ListsOfSeen(before, after, policy);
    CoverageOfSeen(before, after, policy);
    hide ComparedParts;
    FormerListsOfSeen(before, after, policy);
    hide SharedCoverage; hide Allowed; hide Lost; hide Newly; hide Retained; hide AdmittedRecords; hide CommonLibraries;
    hide NewlyEmptyDirectories; hide NewlyEmptyKeys; hide LostDenials; hide Covers; hide AllowedDirectory; hide AllowedKey;
  }

  lemma FormerListsOfSeen(before: Snapshot, after: Snapshot, policy: Policy)
    ensures var seen, shared := SharedCoverage(Seen(policy, before), Seen(policy, after)), SharedCoverage(before, after);
            var directories := NewlyEmptyDirectories(Seen(policy, after), Seen(policy, before), seen);
            var keys := NewlyEmptyKeys(Seen(policy, after), Seen(policy, before), seen);
            && Allowed(directories, AllowedDirectory(policy))
               == Allowed(NewlyEmptyDirectories(after, before, shared), AllowedDirectory(policy))
            && Allowed(keys, AllowedKey(policy)) == Allowed(NewlyEmptyKeys(after, before, shared), AllowedKey(policy))
            && Lost(directories, AllowedDirectory(policy)) == 0 && Lost(keys, AllowedKey(policy)) == 0
  {
    CoverageOfSeen(before, after, policy);
    var shared := SharedCoverage(before, after);
    hide SharedCoverage; hide AllowedDirectory; hide AllowedKey; hide Allowed; hide Lost; hide Newly;
    NewlyOfAllowed(Covers(shared, Filesystem), after.emptyDirectories, before.emptyDirectories, AllowedDirectory(policy));
    NewlyOfAllowed(Covers(shared, Domain.Registry), after.emptyKeys, before.emptyKeys, AllowedKey(policy));
  }

  /** Snapshots that differ only in refused content, whatever was put in or taken
      out of either and in whatever order, give one diff, but for its counts. */
  lemma RefusedContentChangesNothing(befores: seq<Snapshot>, afters: seq<Snapshot>, filter: NoiseFilter, policy: Policy)
    requires befores != [] && DifferInRefused(policy, befores)
    requires afters != [] && DifferInRefused(policy, afters)
    ensures Uncounted(Compared(befores[0], afters[0], filter, policy))
         == Uncounted(Compared(befores[|befores| - 1], afters[|afters| - 1], filter, policy))
  {
    ChainIsUnseen(policy, befores);
    ChainIsUnseen(policy, afters);
    ComparedIsOfTheSeen(befores[0], afters[0], filter, policy);
    ComparedIsOfTheSeen(befores[|befores| - 1], afters[|afters| - 1], filter, policy);
    hide Compared; hide Seen; hide Uncounted; hide DifferInRefused;
  }

  // ----- every such difference is a chain of edits -----

  function RecordsWeight(records: seq<RegistryRecord>): nat {
    if records == [] then 0
    else RecordsWeight(records[..|records| - 1]) + 1 + |records[|records| - 1].values|
  }

  function ListWeight<T>(list: Option<seq<T>>): nat {
    match list case None => 0 case Some(items) => |items|
  }

  function Weight(s: Snapshot): nat {
    RecordsWeight(s.registry) + |s.files| + |s.coverage.accessDenied| + ListWeight(s.emptyDirectories) + ListWeight(s.emptyKeys)
  }

  lemma {:induction false} WeightConcat(x: seq<RegistryRecord>, y: seq<RegistryRecord>)
    ensures RecordsWeight(x + y) == RecordsWeight(x) + RecordsWeight(y)
  {
    if y == [] {
      assert x + y == x;
    } else {
      var n := |y| - 1;
      assert (x + y)[..|x + y| - 1] == x + y[..n];
      WeightConcat(x, y[..n]);
    }
  }

  lemma WeightAround(records: seq<RegistryRecord>, i: nat, less: RegistryRecord)
    requires i < |records|
    ensures RecordsWeight(records) == RecordsWeight(Without(records, i)) + 1 + |records[i].values|
    ensures RecordsWeight(records[i := less]) == RecordsWeight(Without(records, i)) + 1 + |less.values|
  {
    var a, b := records[..i], records[i + 1..];
    SplitAround(records, i);
    WeightConcat(a, b);
    OneWeighs(records[i]);
    OneWeighs(less);
    hide RecordsWeight;
    WeightConcat(a + [records[i]], b);
    WeightConcat(a, [records[i]]);
    WeightConcat(a + [less], b);
    WeightConcat(a, [less]);
  }

  lemma OneWeighs(record: RegistryRecord)
    ensures RecordsWeight([record]) == 1 + |record.values|
  {
    assert [record][..0] == [];
  }

  lemma SomeRefused<T(!new)>(list: seq<T>, refused: T -> bool, keep: T -> bool) returns (less: seq<T>)
    requires Retained(list, keep) != list && forall t :: keep(t) == !refused(t)
    ensures OneMore(less, list, refused) && |less| < |list|
  {
    RetainedAll(list, keep);
    var t :| t in list && !keep(t);
    var i :| 0 <= i < |list| && list[i] == t;
    less := Without(list, i);
  }

  lemma SomeUnacceptable(policy: Policy, records: seq<RegistryRecord>) returns (i: nat)
    requires AdmittedRecords(policy, records) != records
    ensures i < |records| && !Acceptable(policy, records[i])
  {
    hide Acceptable; hide AdmittedRecords;
    if forall r :: r in records ==> Acceptable(policy, r) {
      AcceptableStay(policy, records);
      assert false;
    }
    var record :| record in records && !Acceptable(policy, record);
    i :| 0 <= i < |records| && records[i] == record;
  }

  lemma FewerValues(policy: Policy, records: seq<RegistryRecord>, i: nat) returns (less: seq<RegistryRecord>)
    requires i < |records| && !Acceptable(policy, records[i]) && !RefusedRecord(policy)(records[i])
    ensures OneMoreValue(policy, less, records) && RecordsWeight(less) < RecordsWeight(records)
  {
    hide ExcludedKey; hide Refused; hide RecordsWeight;
    var record := records[i];
    var value :| value in record.values && Refused(policy, value);
    var j :| 0 <= j < |record.values| && record.values[j] == value;
    var fewer := record.(values := Without(record.values, j));
    SomeLeft(policy, record, j);
    assert WithOneMoreValue(policy, fewer, record);
    hide WithOneMoreValue; hide OneMore;
    less := records[i := fewer];
    WeightAround(records, i, fewer);
    assert less[i] == fewer && records == less[i := record] && less == records[i := less[i]];
  }

  lemma SomeRefusedRecord(policy: Policy, records: seq<RegistryRecord>) returns (less: seq<RegistryRecord>)
    requires AdmittedRecords(policy, records) != records
    ensures OneMore(less, records, RefusedRecord(policy)) || OneMoreValue(policy, less, records)
    ensures RecordsWeight(less) < RecordsWeight(records)
  {
    hide ExcludedKey; hide Refused; hide RecordsWeight; hide AdmittedRecords; hide Acceptable; hide OneMoreValue;
    var i := SomeUnacceptable(policy, records);
    if RefusedRecord(policy)(records[i]) {
      less := Without(records, i);
      WeightAround(records, i, records[i]);
    } else {
      less := FewerValues(policy, records, i);
    }
  }

  lemma SomeLeft(policy: Policy, record: RegistryRecord, j: nat)
    requires j < |record.values| && Refused(policy, record.values[j]) && !RefusedRecord(policy)(record)
    ensures Without(record.values, j) != [] && OneMore(Without(record.values, j), record.values, RefusedValue(policy))
  {
    hide ExcludedKey; hide Refused;
    var value :| value in record.values && !Refused(policy, value);
    var k :| 0 <= k < |record.values| && record.values[k] == value;
  }

  /** A snapshot that holds anything refused is another with one thing more. */
  lemma OneRefusedLess(policy: Policy, s: Snapshot) returns (less: Snapshot)
    requires Seen(policy, s) != s
    ensures OneMoreRefused(policy, less, s) && Weight(less) < Weight(s)
  {
    hide ExcludedKey; hide ExcludedPath; hide ExcludedDenial; hide Refused; hide RecordsWeight; hide AdmittedRecords;
    hide Retained; hide OneMore; hide OneMoreValue;
    if AdmittedRecords(policy, s.registry) != s.registry {
      var records := SomeRefusedRecord(policy, s.registry);
      less := s.(registry := records);
    } else if Retained(s.files, Admits(policy)) != s.files {
      var files := SomeRefused(s.files, RefusedFile(policy), Admits(policy));
      less := s.(files := files);
    } else if Retained(s.coverage.accessDenied, Undenied(policy)) != s.coverage.accessDenied {
      var denied := SomeRefused(s.coverage.accessDenied, RefusedDenial(policy), Undenied(policy));
      less := s.(coverage := s.coverage.(accessDenied := denied));
    } else if Allowed(s.emptyDirectories, AllowedDirectory(policy)) != s.emptyDirectories {
      var directories := SomeRefused(s.emptyDirectories.value, RefusedDirectory(policy), AllowedDirectory(policy));
      less := s.(emptyDirectories := Some(directories));
    } else {
      var keys := SomeRefused(s.emptyKeys.value, RefusedKey(policy), AllowedKey(policy));
      less := s.(emptyKeys := Some(keys));
    }
  }

  /** A chain from one snapshot to another. */
  ghost predicate Leads(policy: Policy, chain: seq<Snapshot>, s: Snapshot, t: Snapshot) {
    chain != [] && chain[0] == s && chain[|chain| - 1] == t && DifferInRefused(policy, chain)
  }

  lemma {:induction false} LeadsToTheSeen(policy: Policy, s: Snapshot) returns (chain: seq<Snapshot>)
    ensures Leads(policy, chain, s, Seen(policy, s))
    decreases Weight(s)
  {
    if Seen(policy, s) == s {
      chain := [s];
    } else {
      hide Seen; hide OneMoreRefused;
      var less := OneRefusedLess(policy, s);
      OneMoreIsUnseen(policy, less, s);
      var rest := LeadsToTheSeen(policy, less);
      chain := [s] + rest;
      LeadsOn(policy, s, less, rest, Seen(policy, s));
    }
  }

  lemma LeadsOn(policy: Policy, s: Snapshot, less: Snapshot, rest: seq<Snapshot>, end: Snapshot)
    requires OneMoreRefused(policy, less, s) && Leads(policy, rest, less, end)
    ensures Leads(policy, [s] + rest, s, end)
  {
    hide OneMoreRefused;
    var chain := [s] + rest;
    forall i | 0 < i < |chain|
      ensures OneMoreRefused(policy, chain[i - 1], chain[i]) || OneMoreRefused(policy, chain[i], chain[i - 1])
    {
      assert chain[i] == rest[i - 1];
      if i > 1 { assert chain[i - 1] == rest[i - 1 - 1]; }
    }
  }

  function Backwards<T>(list: seq<T>): (r: seq<T>)
    ensures |r| == |list| && forall i :: 0 <= i < |r| ==> r[i] == list[|list| - 1 - i]
  {
    seq(|list|, i requires 0 <= i < |list| => list[|list| - 1 - i])
  }

  lemma LeadsBack(policy: Policy, chain: seq<Snapshot>, s: Snapshot, t: Snapshot)
    requires Leads(policy, chain, s, t)
    ensures Leads(policy, Backwards(chain), t, s)
  {
    hide OneMoreRefused;
    var back := Backwards(chain);
    forall i | 0 < i < |back|
      ensures OneMoreRefused(policy, back[i - 1], back[i]) || OneMoreRefused(policy, back[i], back[i - 1])
    {
      var j := |chain| - i;
      assert back[i - 1] == chain[j] && back[i] == chain[j - 1];
    }
  }

  lemma LeadsThrough(policy: Policy, x: seq<Snapshot>, y: seq<Snapshot>, s: Snapshot, t: Snapshot, u: Snapshot)
    requires Leads(policy, x, s, t) && Leads(policy, y, t, u)
    ensures Leads(policy, x + y[1..], s, u)
  {
    hide OneMoreRefused;
    var chain, n := x + y[1..], |x|;
    forall i | 0 < i < |chain|
      ensures OneMoreRefused(policy, chain[i - 1], chain[i]) || OneMoreRefused(policy, chain[i], chain[i - 1])
    {
      if i < n {
        assert chain[i - 1] == x[i - 1] && chain[i] == x[i];
      } else {
        assert chain[i] == y[i - n + 1] && chain[i - 1] == y[i - n];
      }
    }
  }

  /** Two snapshots differ only in refused content exactly when the policy leaves
      the same of both: nothing else is refused, and no other edit is unseen. */
  lemma SameSeenExactlyWhenEdited(policy: Policy, s: Snapshot, t: Snapshot)
    ensures (exists chain :: Leads(policy, chain, s, t)) <==> Seen(policy, s) == Seen(policy, t)
  {
    hide Seen; hide DifferInRefused;
    if chain :| Leads(policy, chain, s, t) {
      ChainIsUnseen(policy, chain);
    }
    if Seen(policy, s) == Seen(policy, t) {
      var x := LeadsToTheSeen(policy, s);
      var y := LeadsToTheSeen(policy, t);
      LeadsBack(policy, y, t, Seen(policy, t));
      hide Leads;
      LeadsThrough(policy, x, Backwards(y), s, Seen(policy, s), t);
    }
  }
}
