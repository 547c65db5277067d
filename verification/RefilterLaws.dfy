// What holds of every diff the privacy policy is applied to:
// `refilter` in tools/observe/src/diff.rs.
module RefilterLaws {
  import opened Prelude
  import opened Text
  import opened Observed
  import opened Policies
  import opened Keyed
  import opened Changes
  import opened ServiceDiff
  import opened FileDiff
  import opened RegistryDiff
  import opened SnapshotDiff
  import opened Refilter

  ghost predicate AllAllowed<T(!new)>(list: Option<seq<T>>, keep: T -> bool) {
    list.Some? ==> forall t :: t in list.value ==> keep(t)
  }

  /** A diff of which the policy would drop nothing. */
  ghost predicate AllKept(policy: Policy, diff: Diff) {
    && (forall d :: d in diff.coverage.accessDenied ==> Undenied(policy)(d))
    && AllAllowed(diff.emptiedKeys, AllowedKey(policy)) && AllAllowed(diff.formerlyEmptyKeys, AllowedKey(policy))
    && AllAllowed(diff.emptiedDirectories, AllowedDirectory(policy))
    && AllAllowed(diff.formerlyEmptyDirectories, AllowedDirectory(policy))
    && (forall c :: c in diff.files ==> AllowedFile(policy)(c))
    && (forall e :: e in diff.suppressedFiles ==> AllowedEntry(policy)(e))
    && (forall c :: c in diff.registry ==> Untouched(policy, c))
  }

  lemma UntouchedIsAcceptable(policy: Policy, change: RegistryChange)
    ensures Untouched(policy, change) <==>
              && (change.before.Some? ==> Acceptable(policy, change.before.value))
              && (change.after.Some? ==> Acceptable(policy, change.after.value))
  {
    if change.before.Some? { AdmittedIsAcceptable(policy, change.before.value); }
    if change.after.Some? { AdmittedIsAcceptable(policy, change.after.value); }
    hide Admit;
    hide Acceptable;
  }

  lemma RebuiltIsUntouched(policy: Policy, upgrading: bool, change: RegistryChange)
    ensures var r := Rebuilt(policy, upgrading, change); r.Some? ==> Untouched(policy, r.value)
  {
    hide Untouched; hide Admit; hide Acceptable; hide RegistryChangeOf; hide OwnFields; hide ExcludedKey;
    var r := Rebuilt(policy, upgrading, change);
    if r.Some? && (upgrading || !Untouched(policy, change)) {
      if change.before.Some? { AdmittedIsAcceptable(policy, change.before.value); }
      if change.after.Some? { AdmittedIsAcceptable(policy, change.after.value); }
      UntouchedIsAcceptable(policy, r.value);
      ChangeOfAcceptable(policy, AdmittedSide(policy, change.before), AdmittedSide(policy, change.after));
    }
  }

  lemma RefilterLeavesTheKept(policy: Policy, diff: Diff)
    ensures AllKept(policy, Cleaned(policy, diff))
  {
    hide Untouched; hide ExcludedPath; hide ExcludedKey; hide ExcludedDenial; hide SignerCounts; hide DroppedFiles; hide Report;
    hide Rebuilt;
    var at := RebuiltAt(policy, diff.formatVersion != DIFF_FORMAT);
    forall c | c in Collected(diff.registry, at) ensures Untouched(policy, c) {
      CollectedHolds(diff.registry, at, c);
      var from :| from in diff.registry && at(from) == Some(c);
      RebuiltIsUntouched(policy, diff.formatVersion != DIFF_FORMAT, from);
    }
  }

  lemma {:induction false} NothingExcluded(policy: Policy, changes: seq<FileChange>)
    requires forall c :: c in changes ==> !ExcludedPath(policy, c.path)
    ensures ExcludedRecords(policy, changes) == 0
  {
    hide ExcludedPath;
    if changes != [] {
      NothingExcluded(policy, changes[..|changes| - 1]);
    }
  }

  lemma {:induction false} UntouchedStays(policy: Policy, changes: seq<RegistryChange>)
    requires forall c :: c in changes ==> Untouched(policy, c)
    ensures Collected(changes, RebuiltAt(policy, false)) == changes
    ensures LostRecordsIn(policy, false, changes) == 0 && LostValuesIn(policy, false, changes) == 0
  {
    hide Untouched;
    if changes != [] {
      var n := |changes| - 1;
      assert changes == changes[..n] + [changes[n]];
      UntouchedStays(policy, changes[..n]);
    }
  }

  lemma AllowedStays<T(!new)>(list: Option<seq<T>>, keep: T -> bool)
    requires AllAllowed(list, keep)
    ensures Allowed(list, keep) == list && Lost(list, keep) == 0
  {
    if list.Some? {
      RetainedAll(list.value, keep);
    }
  }

  lemma ListsStay(policy: Policy, diff: Diff)
    requires AllKept(policy, diff)
    ensures Allowed(diff.emptiedKeys, AllowedKey(policy)) == diff.emptiedKeys
    ensures Allowed(diff.formerlyEmptyKeys, AllowedKey(policy)) == diff.formerlyEmptyKeys
    ensures Allowed(diff.emptiedDirectories, AllowedDirectory(policy)) == diff.emptiedDirectories
    ensures Allowed(diff.formerlyEmptyDirectories, AllowedDirectory(policy)) == diff.formerlyEmptyDirectories
    ensures Lost(diff.emptiedKeys, AllowedKey(policy)) + Lost(diff.formerlyEmptyKeys, AllowedKey(policy)) == 0
    ensures Lost(diff.emptiedDirectories, AllowedDirectory(policy))
            + Lost(diff.formerlyEmptyDirectories, AllowedDirectory(policy)) == 0
  {
    hide ExcludedPath; hide ExcludedKey; hide ExcludedDenial; hide Untouched;
    AllowedStays(diff.emptiedKeys, AllowedKey(policy));
    AllowedStays(diff.formerlyEmptyKeys, AllowedKey(policy));
    AllowedStays(diff.emptiedDirectories, AllowedDirectory(policy));
    AllowedStays(diff.formerlyEmptyDirectories, AllowedDirectory(policy));
  }

  lemma ChangesStay(policy: Policy, diff: Diff)
    requires AllKept(policy, diff)
    ensures Retained(diff.coverage.accessDenied, Undenied(policy)) == diff.coverage.accessDenied
    ensures Retained(diff.files, AllowedFile(policy)) == diff.files
    ensures Retained(diff.suppressedFiles, AllowedEntry(policy)) == diff.suppressedFiles
    ensures Collected(diff.registry, RebuiltAt(policy, false)) == diff.registry
    ensures LostRecordsIn(policy, false, diff.registry) == 0 && LostValuesIn(policy, false, diff.registry) == 0
    ensures DroppedFiles(policy, diff) == 0
  {
    KeptDropsNothing(policy, diff);
    hide ExcludedPath; hide ExcludedKey; hide ExcludedDenial; hide Untouched; hide DroppedFiles;
    RetainedAll(diff.coverage.accessDenied, Undenied(policy));
    RetainedAll(diff.files, AllowedFile(policy));
    RetainedAll(diff.suppressedFiles, AllowedEntry(policy));
    UntouchedStays(policy, diff.registry);
  }

  /** A diff in the current format of which nothing would be dropped is left as it is, and nothing is
      reported. */
  lemma KeptStays(policy: Policy, diff: Diff)
    requires AllKept(policy, diff) && diff.formatVersion == DIFF_FORMAT
    ensures Cleaned(policy, diff) == diff && Report(policy, diff) == NOTHING_REMOVED
  {
    hide AllKept; hide SignerCounts; hide DroppedFiles; hide Allowed; hide Lost; hide LostRecordsIn; hide LostValuesIn;
    hide Retained; hide Collected;
    ListsStay(policy, diff);
    ChangesStay(policy, diff);
    assert Report(policy, diff) == NOTHING_REMOVED;
    hide Report;
    assert WithoutExcludedFiles(policy, diff) == diff;
    hide WithoutExcludedFiles;
  }

  lemma KeptDropsNothing(policy: Policy, diff: Diff)
    requires AllKept(policy, diff)
    ensures DroppedFiles(policy, diff) == 0
  {
    hide ExcludedPath; hide Untouched; hide ExcludedKey; hide ExcludedDenial;
    NothingExcluded(policy, diff.files);
    var changes := Mapped(diff.suppressedFiles, ChangeIn());
    forall c | c in changes ensures !ExcludedPath(policy, c.path) {
      var i :| 0 <= i < |changes| && changes[i] == c;
      assert diff.suppressedFiles[i] in diff.suppressedFiles;
    }
    NothingExcluded(policy, changes);
  }

  /** A second run reports nothing and leaves the diff identical, whatever the
      diff and whichever format it began in. */
  lemma RefilterIsIdempotent(policy: Policy, diff: Diff)
    ensures var once := Cleaned(policy, diff);
            Cleaned(policy, once) == once && Report(policy, once) == NOTHING_REMOVED
  {
    RefilterLeavesTheKept(policy, diff);
    KeptStays(policy, Cleaned(policy, diff));
  }

  // ----- nothing refused is left -----

  /** A file change that names no excluded path, nor do its records. */
  ghost predicate FileAcceptable(policy: Policy, change: FileChange) {
    && !ExcludedPath(policy, change.path)
    && (change.before.Some? ==> !ExcludedPath(policy, change.before.value.path))
    && (change.after.Some? ==> !ExcludedPath(policy, change.after.value.path))
  }

  /** A diff with nothing in it that the policy refuses: no path, key, value,
      field, denial or emptied entry. */
  ghost predicate Clean(policy: Policy, diff: Diff) {
    && (forall d :: d in diff.coverage.accessDenied ==> Undenied(policy)(d))
    && AllAllowed(diff.emptiedKeys, AllowedKey(policy)) && AllAllowed(diff.formerlyEmptyKeys, AllowedKey(policy))
    && AllAllowed(diff.emptiedDirectories, AllowedDirectory(policy))
    && AllAllowed(diff.formerlyEmptyDirectories, AllowedDirectory(policy))
    && (forall c :: c in diff.files ==> FileAcceptable(policy, c))
    && (forall e :: e in diff.suppressedFiles ==> FileAcceptable(policy, e.change))
    && (forall c :: c in diff.registry ==> ChangeAcceptable(policy, c))
  }

  lemma CleanIsKept(policy: Policy, diff: Diff)
    requires Clean(policy, diff)
    ensures AllKept(policy, diff)
  {
    forall c | c in diff.registry ensures Untouched(policy, c) {
      UntouchedIsAcceptable(policy, c);
    }
    hide Untouched; hide ExcludedPath; hide ExcludedKey; hide ExcludedDenial; hide Acceptable; hide OwnFields; hide AllAllowed;
  }

  /** A registry change that can name nothing its records do not: its key is one
      of theirs, or part of one, and its fields are theirs. */
  ghost predicate NamesItsRecords(change: RegistryChange) {
    && change.fields == OwnFields(change)
    && ((change.before.Some? && Holds(SearchedKey(change.before.value.key), SearchedKey(change.key)))
        || (change.after.Some? && Holds(SearchedKey(change.after.value.key), SearchedKey(change.key))))
  }

  /** A file change whose path holds what its records' paths name. */
  ghost predicate NamesItsFile(change: FileChange) {
    && (change.before.Some? ==> Holds(SearchedPath(change.path), SearchedPath(change.before.value.path)))
    && (change.after.Some? ==> Holds(SearchedPath(change.path), SearchedPath(change.after.value.path)))
  }

  /** What refiltering relies on, which is for a reader of the diff to check and
      no policy's business. An older registry is rebuilt from its records. */
  ghost predicate Conforms(diff: Diff) {
    && (forall c :: c in diff.files ==> NamesItsFile(c))
    && (forall e :: e in diff.suppressedFiles ==> NamesItsFile(e.change))
    && (diff.formatVersion == DIFF_FORMAT ==> forall c :: c in diff.registry ==> NamesItsRecords(c))
  }

  lemma HoldsItself(s: string)
    ensures Holds(s, s)
  {
    assert s[0..] == s;
  }

  lemma HoldsThrough(a: string, b: string, c: string)
    requires Holds(a, b) && Holds(b, c)
    ensures Holds(a, c)
  {
    var i :| 0 <= i <= |a| && b <= a[i..];
    var j :| 0 <= j <= |b| && c <= b[j..];
    assert a[i..][..|b|] == b;
    assert a[i + j..] == a[i..][j..];
    assert a[i..][j..][..|b| - j] == b[j..];
    assert c <= a[i + j..];
  }

  lemma PartIsExcluded(policy: Policy, whole: string, part: string)
    ensures Holds(SearchedKey(whole), SearchedKey(part)) && ExcludedKey(policy, part) ==> ExcludedKey(policy, whole)
    ensures Holds(SearchedPath(whole), SearchedPath(part)) && ExcludedPath(policy, part) ==> ExcludedPath(policy, whole)
  {
    hide Holds; hide SearchedKey; hide SearchedPath;
    if Holds(SearchedKey(whole), SearchedKey(part)) && ExcludedKey(policy, part) {
      var fragment :| fragment in policy.keyFragments && Holds(SearchedKey(part), fragment);
      HoldsThrough(SearchedKey(whole), SearchedKey(part), fragment);
    }
    if Holds(SearchedPath(whole), SearchedPath(part)) && ExcludedPath(policy, part) {
      var fragment :| fragment in policy.pathFragments && Holds(SearchedPath(part), fragment);
      HoldsThrough(SearchedPath(whole), SearchedPath(part), fragment);
    }
  }

  lemma RebuiltIsAcceptable(policy: Policy, upgrading: bool, change: RegistryChange)
    requires !upgrading ==> NamesItsRecords(change)
    ensures var r := Rebuilt(policy, upgrading, change); r.Some? ==> ChangeAcceptable(policy, r.value)
  {
    hide Admit; hide ExcludedKey; hide Refused; hide Holds; hide SearchedKey; hide OwnFields; hide RegistryChangeOf;
    if !upgrading && Untouched(policy, change) {
      UntouchedIsAcceptable(policy, change);
      if change.before.Some? { PartIsExcluded(policy, change.before.value.key, change.key); }
      if change.after.Some? { PartIsExcluded(policy, change.after.value.key, change.key); }
    } else {
      hide Untouched;
      if change.before.Some? { AdmittedIsAcceptable(policy, change.before.value); }
      if change.after.Some? { AdmittedIsAcceptable(policy, change.after.value); }
      ChangeOfAcceptable(policy, AdmittedSide(policy, change.before), AdmittedSide(policy, change.after));
    }
  }

  lemma FileNamedIsAcceptable(policy: Policy, change: FileChange)
    requires NamesItsFile(change) && AllowedFile(policy)(change)
    ensures FileAcceptable(policy, change)
  {
    if change.before.Some? { PartIsExcluded(policy, change.path, change.before.value.path); }
    if change.after.Some? { PartIsExcluded(policy, change.path, change.after.value.path); }
    hide ExcludedPath; hide Holds; hide SearchedPath;
  }

  /** A conforming diff is left clean, whatever it held. */
  lemma RefilterCleans(policy: Policy, diff: Diff)
    requires Conforms(diff)
    ensures Clean(policy, Cleaned(policy, diff))
  {
    var upgrading := diff.formatVersion != DIFF_FORMAT;
    forall c | c in Collected(diff.registry, RebuiltAt(policy, upgrading)) ensures ChangeAcceptable(policy, c) {
      CollectedHolds(diff.registry, RebuiltAt(policy, upgrading), c);
      var from :| from in diff.registry && RebuiltAt(policy, upgrading)(from) == Some(c);
      RebuiltIsAcceptable(policy, upgrading, from);
    }
    hide NamesItsFile; hide NamesItsRecords; hide FileAcceptable; hide ChangeAcceptable;
    hide Untouched; hide ExcludedPath; hide ExcludedKey; hide ExcludedDenial; hide SignerCounts; hide DroppedFiles; hide Report;
    forall c | c in diff.files && AllowedFile(policy)(c) ensures FileAcceptable(policy, c) {
      FileNamedIsAcceptable(policy, c);
    }
    forall e | e in diff.suppressedFiles && AllowedFile(policy)(e.change) ensures FileAcceptable(policy, e.change) {
      FileNamedIsAcceptable(policy, e.change);
    }
  }

  /** A policy that refuses one key fragment or one path fragment and no more. */
  function Refusing(keys: seq<string>, paths: seq<string>): Policy {
    Policy([], [], keys, paths)
  }

  lemma RefusesOnly(keys: seq<string>, paths: seq<string>, record: RegistryRecord)
    ensures Acceptable(Refusing(keys, paths), record) <==> !ExcludedKey(Refusing(keys, paths), record.key)
  {
  }

  lemma Fragment(fragment: string, key: string, path: string)
    ensures ExcludedKey(Refusing([fragment], []), key) <==> Holds(SearchedKey(key), fragment)
    ensures ExcludedPath(Refusing([], [fragment]), path) <==> Holds(SearchedPath(path), fragment)
    ensures !ExcludedKey(Refusing([], []), key)
  {
    hide Holds; hide SearchedKey; hide SearchedPath;
    assert fragment in [fragment];
  }

  /** A change that names more than its records do is left by some policy. */
  lemma UnnamedIsLeft(change: RegistryChange) returns (policy: Policy)
    requires !NamesItsRecords(change)
    ensures Untouched(policy, change) && !ChangeAcceptable(policy, change)
  {
    hide Holds; hide SearchedKey; hide OwnFields; hide Refused;
    if change.fields != OwnFields(change) {
      policy := Refusing([], []);
      if change.before.Some? {
        Fragment("", change.before.value.key, "");
        RefusesOnly([], [], change.before.value);
      }
      if change.after.Some? {
        Fragment("", change.after.value.key, "");
        RefusesOnly([], [], change.after.value);
      }
    } else {
      var fragment := SearchedKey(change.key);
      policy := Refusing([fragment], []);
      HoldsItself(fragment);
      Fragment(fragment, change.key, "");
      if change.before.Some? {
        Fragment(fragment, change.before.value.key, "");
        RefusesOnly([fragment], [], change.before.value);
      }
      if change.after.Some? {
        Fragment(fragment, change.after.value.key, "");
        RefusesOnly([fragment], [], change.after.value);
      }
    }
    hide ExcludedKey; hide Acceptable;
    UntouchedIsAcceptable(policy, change);
  }

  lemma UnnamedFileIsLeft(change: FileChange) returns (policy: Policy)
    requires !NamesItsFile(change)
    ensures AllowedFile(policy)(change) && !FileAcceptable(policy, change)
  {
    hide Holds; hide SearchedPath;
    var named := change.before.Some? && !Holds(SearchedPath(change.path), SearchedPath(change.before.value.path));
    var path := if named then change.before.value.path else change.after.value.path;
    policy := Refusing([], [SearchedPath(path)]);
    Fragment(SearchedPath(path), "", change.path);
    Fragment(SearchedPath(path), "", path);
    HoldsItself(SearchedPath(path));
    hide ExcludedPath;
  }

  ghost predicate LeftClean(policy: Policy, diff: Diff) {
    Clean(policy, Cleaned(policy, diff))
  }

  /** And it is exactly the conforming diffs that every policy leaves clean. */
  lemma ConformingIsCleaned(diff: Diff)
    ensures (forall policy :: LeftClean(policy, diff)) <==> Conforms(diff)
  {
    if Conforms(diff) {
      hide Cleaned; hide Clean; hide Conforms;
      forall policy ensures LeftClean(policy, diff) { RefilterCleans(policy, diff); }
    } else {
      var policy := NonconformingIsLeft(diff);
      hide LeftClean; hide Conforms;
      assert !LeftClean(policy, diff);
    }
  }

  lemma KeptIsLeft(policy: Policy, diff: Diff, change: RegistryChange)
    requires diff.formatVersion == DIFF_FORMAT && change in diff.registry && Untouched(policy, change)
    ensures change in Cleaned(policy, diff).registry
  {
    var at := RebuiltAt(policy, false);
    assert at(change) == Some(change) by { hide Untouched; }
    CollectedHolds(diff.registry, at, change);
    hide Untouched; hide ExcludedPath; hide SignerCounts; hide DroppedFiles; hide Report; hide Allowed;
  }

  lemma NonconformingIsLeft(diff: Diff) returns (policy: Policy)
    requires !Conforms(diff)
    ensures !LeftClean(policy, diff)
  {
    hide NamesItsFile; hide NamesItsRecords; hide FileAcceptable; hide ChangeAcceptable; hide Untouched; hide ExcludedPath;
    if c :| c in diff.files && !NamesItsFile(c) {
      policy := UnnamedFileIsLeft(c);
      assert c in Retained(diff.files, AllowedFile(policy));
      hide Retained; hide Report; hide Allowed; hide SignerCounts; hide DroppedFiles; hide Collected;
      assert c in Cleaned(policy, diff).files;
    } else if e :| e in diff.suppressedFiles && !NamesItsFile(e.change) {
      policy := UnnamedFileIsLeft(e.change);
      assert e in Retained(diff.suppressedFiles, AllowedEntry(policy));
      hide Retained; hide Report; hide Allowed; hide SignerCounts; hide DroppedFiles; hide Collected;
      assert e in Cleaned(policy, diff).suppressedFiles;
    } else {
      var change :| change in diff.registry && !NamesItsRecords(change);
      policy := UnnamedIsLeft(change);
      KeptIsLeft(policy, diff, change);
      hide Cleaned;
    }
  }

  /** Not every diff conforms: a change that carries no record at all is kept
      under the very key the policy excludes. */
  lemma RecordlessChangeIsLeft(diff: Diff)
    ensures var change := RegistryChange("k", "64", Modified, None, None, []);
            var policy := Refusing(["\\k\\"], []);
            && ExcludedKey(policy, change.key)
            && change in Cleaned(policy, diff.(formatVersion := DIFF_FORMAT, registry := [change])).registry
  {
    var change, policy := RegistryChange("k", "64", Modified, None, None, []), Refusing(["\\k\\"], []);
    assert SearchedKey("k") == "\\k\\";
    hide SearchedKey;
    HoldsItself("\\k\\");
    Fragment("\\k\\", "k", "");
    hide Holds; hide ExcludedKey;
    KeptIsLeft(policy, diff.(formatVersion := DIFF_FORMAT, registry := [change]), change);
  }

  // ----- comparisons -----

  lemma ChangeOfAcceptableFiles(policy: Policy, before: Option<FileRecord>, after: Option<FileRecord>)
    requires before.Some? ==> !ExcludedPath(policy, before.value.path)
    requires after.Some? ==> !ExcludedPath(policy, after.value.path)
    ensures var change := FileChangeOf(before, after); change.Some? ==> FileAcceptable(policy, change.value)
  {
    hide FileFields; hide IsDriverImage; hide ExcludedPath;
  }

  lemma ComparedFilesAreAcceptable(before: Snapshot, after: Snapshot, policy: Policy, c: FileChange)
    requires c in ComparedFiles(before, after, policy)
    ensures FileAcceptable(policy, c)
  {
    var b, a := FileIndex(policy, before.files), FileIndex(policy, after.files);
    IndexIsFolded(policy, before.files);
    IndexIsFolded(policy, after.files);
    hide ExcludedPath; hide FileIndex; hide FileChangeOf; hide LowerAll; hide FileAcceptable;
    CollectedHolds(Names(b, a), FileChangeAt(b, a), c);
    var path :| path in Names(b, a) && FileChangeAt(b, a)(path) == Some(c);
    ChangeOfAcceptableFiles(policy, Look(b, path), Look(a, path));
  }

  lemma NewlyIsAllowed<T(!new)>(list: Option<seq<T>>, keep: T -> bool)
    ensures AllAllowed(Allowed(list, keep), keep)
  {
  }

  lemma ComparedListsAreAllowed(before: Snapshot, after: Snapshot, policy: Policy)
    ensures var shared := SharedCoverage(before, after);
            && AllAllowed(Allowed(NewlyEmptyDirectories(before, after, shared), AllowedDirectory(policy)), AllowedDirectory(policy))
            && AllAllowed(Allowed(NewlyEmptyDirectories(after, before, shared), AllowedDirectory(policy)), AllowedDirectory(policy))
            && AllAllowed(Allowed(NewlyEmptyKeys(before, after, shared), AllowedKey(policy)), AllowedKey(policy))
            && AllAllowed(Allowed(NewlyEmptyKeys(after, before, shared), AllowedKey(policy)), AllowedKey(policy))
  {
    hide AllAllowed; hide Allowed; hide Newly; hide SharedCoverage;
    var shared := SharedCoverage(before, after);
    NewlyIsAllowed(NewlyEmptyDirectories(before, after, shared), AllowedDirectory(policy));
    NewlyIsAllowed(NewlyEmptyDirectories(after, before, shared), AllowedDirectory(policy));
    NewlyIsAllowed(NewlyEmptyKeys(before, after, shared), AllowedKey(policy));
    NewlyIsAllowed(NewlyEmptyKeys(after, before, shared), AllowedKey(policy));
  }

  lemma ComparedFilePartsAreAcceptable(before: Snapshot, after: Snapshot, filter: NoiseFilter, policy: Policy)
    ensures forall c :: c in KeptFiles(filter, ComparedFiles(before, after, policy)) ==> FileAcceptable(policy, c)
    ensures forall e :: e in SuppressedFiles(filter, ComparedFiles(before, after, policy)) ==> FileAcceptable(policy, e.change)
  {
    forall c | c in ComparedFiles(before, after, policy) ensures FileAcceptable(policy, c) {
      ComparedFilesAreAcceptable(before, after, policy, c);
    }
    hide ComparedFiles; hide FileAcceptable; hide IsTimestampOnly;
  }

  /** A comparison is already clean: no excluded path or key, no refused value,
      no excluded denial or emptied entry is anywhere in it. */
  lemma ComparedIsClean(before: Snapshot, after: Snapshot, filter: NoiseFilter, policy: Policy)
    ensures Clean(policy, Compared(before, after, filter, policy))
  {
    hide ChangeAcceptable; hide FileAcceptable; hide ExcludedDenial; hide SignerCounts; hide AllowedKey; hide AllowedDirectory;
    hide ComparedFiles; hide ComparedRegistry; hide ComparedServices; hide SharedCoverage; hide Lost; hide Allowed;
    hide LostDenials; hide LostFiles; hide LostRecords; hide LostValues; hide KeptFiles; hide SuppressedFiles;
    hide KeptServices; hide SuppressedServices; hide AllAllowed; hide CommonLibraries; hide NewlyEmptyDirectories; hide NewlyEmptyKeys;
    ComparedListsAreAllowed(before, after, policy);
    ComparedFilePartsAreAcceptable(before, after, filter, policy);
    ComparedRegistryIsAcceptable(before, after, policy);
  }

  lemma ComparedRegistryIsAcceptable(before: Snapshot, after: Snapshot, policy: Policy)
    ensures forall c :: c in ComparedRegistry(before, after, policy) ==> ChangeAcceptable(policy, c)
  {
    hide ChangeAcceptable; hide RegistryIndex; hide RegistryChanges; hide SharedCoverage;
    forall c | c in ComparedRegistry(before, after, policy) ensures ChangeAcceptable(policy, c) {
      ChangesAreAcceptable(policy, before.registry, after.registry, c);
    }
  }

  /** So refiltering a comparison under its own policy does nothing. */
  lemma ComparedStays(before: Snapshot, after: Snapshot, filter: NoiseFilter, policy: Policy)
    ensures var diff := Compared(before, after, filter, policy);
            Cleaned(policy, diff) == diff && Report(policy, diff) == NOTHING_REMOVED
  {
    ComparedIsClean(before, after, filter, policy);
    CleanIsKept(policy, Compared(before, after, filter, policy));
    KeptStays(policy, Compared(before, after, filter, policy));
  }

  // ----- nothing else is lost -----

  ghost predicate KeepsExactly<T(!new)>(now: Option<seq<T>>, was: Option<seq<T>>, keep: T -> bool) {
    && now.Some? == was.Some?
    && (now.Some? ==> forall t :: t in now.value <==> t in was.value && keep(t))
  }

  lemma AllowedKeepsExactly<T(!new)>(list: Option<seq<T>>, keep: T -> bool)
    ensures KeepsExactly(Allowed(list, keep), list, keep)
  {
  }

  /** And nothing that was allowed is lost: of files, denials and emptied entries
      exactly the refused go. */
  lemma RefilterDropsOnlyTheRefused(policy: Policy, diff: Diff)
    ensures var clean := Cleaned(policy, diff);
            && (forall c :: c in clean.files <==> c in diff.files && !ExcludedPath(policy, c.path))
            && (forall e :: e in clean.suppressedFiles <==> e in diff.suppressedFiles && !ExcludedPath(policy, e.change.path))
            && (forall d :: d in clean.coverage.accessDenied <==> d in diff.coverage.accessDenied && !ExcludedDenial(policy, d))
            && KeepsExactly(clean.emptiedKeys, diff.emptiedKeys, AllowedKey(policy))
            && KeepsExactly(clean.formerlyEmptyKeys, diff.formerlyEmptyKeys, AllowedKey(policy))
            && KeepsExactly(clean.emptiedDirectories, diff.emptiedDirectories, AllowedDirectory(policy))
            && KeepsExactly(clean.formerlyEmptyDirectories, diff.formerlyEmptyDirectories, AllowedDirectory(policy))
            && clean.services == diff.services && clean.suppressed == diff.suppressed
  {
    hide KeepsExactly; hide ExcludedPath; hide ExcludedDenial; hide SignerCounts; hide DroppedFiles; hide Report; hide Allowed;
    hide Collected; hide AllowedKey; hide AllowedDirectory;
    AllowedKeepsExactly(diff.emptiedKeys, AllowedKey(policy));
    AllowedKeepsExactly(diff.formerlyEmptyKeys, AllowedKey(policy));
    AllowedKeepsExactly(diff.emptiedDirectories, AllowedDirectory(policy));
    AllowedKeepsExactly(diff.formerlyEmptyDirectories, AllowedDirectory(policy));
  }

  /** Of the registry, a change is lost exactly when what the policy leaves of its
      two sides no longer tells them apart; one of the current format which the
      policy has nothing to say about stays as it was written. */
  lemma RefilterKeepsWhatDiffers(policy: Policy, diff: Diff, change: RegistryChange)
    requires change in diff.registry
    ensures diff.formatVersion == DIFF_FORMAT && Untouched(policy, change) ==> change in Cleaned(policy, diff).registry
    ensures diff.formatVersion != DIFF_FORMAT || !Untouched(policy, change) ==>
              var b, a := AdmittedSide(policy, change.before), AdmittedSide(policy, change.after);
              && (Rebuilt(policy, diff.formatVersion != DIFF_FORMAT, change).None? <==> ValuesAgree(b, a))
              && (!ValuesAgree(b, a) ==>
                    exists c :: c in Cleaned(policy, diff).registry && ValuesAgree(RegistryEffect()(b, c), a))
  {
    var upgrading := diff.formatVersion != DIFF_FORMAT;
    if !upgrading && Untouched(policy, change) {
      KeptIsLeft(policy, diff, change);
    } else {
      var b, a := AdmittedSide(policy, change.before), AdmittedSide(policy, change.after);
      RegistryEffectAgrees(b, a);
      hide Untouched; hide AdmittedSide; hide ValuesAgree; hide RegistryChangeOf; hide RegistryEffect;
      var rebuilt := Rebuilt(policy, upgrading, change);
      if rebuilt.Some? {
        assert RebuiltAt(policy, upgrading)(change) == rebuilt;
        CollectedHolds(diff.registry, RebuiltAt(policy, upgrading), rebuilt.value);
        hide Rebuilt; hide Retained; hide Report; hide Allowed; hide SignerCounts; hide DroppedFiles; hide Collected;
        assert rebuilt.value in Cleaned(policy, diff).registry;
      }
    }
  }
}
