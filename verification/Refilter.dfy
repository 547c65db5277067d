// Applying the privacy policy to a diff that already exists: `refilter` in
// tools/observe/src/diff.rs, which changes the diff in place.
module Refilter {
  import opened Prelude
  import opened Text
  import opened Observed
  import opened Policies
  import opened Keyed
  import opened Changes
  import opened ServiceDiff
  import opened FileDiff
  import opened RegistryDiff
  import opened SnapshotDiff

  function Sum(a: Refiltered, b: Refiltered): Refiltered {
    Refiltered(a.registryRecords + b.registryRecords, a.registryValues + b.registryValues,
               a.accessDenied + b.accessDenied, a.emptiedKeys + b.emptiedKeys,
               a.files + b.files, a.emptiedDirectories + b.emptiedDirectories)
  }

  // ----- files -----

  function AllowedFile(policy: Policy): FileChange -> bool {
    (change: FileChange) => !ExcludedPath(policy, change.path)
  }

  function AllowedEntry(policy: Policy): SuppressedFile -> bool {
    (entry: SuppressedFile) => !ExcludedPath(policy, entry.change.path)
  }

  function RecordsIn(change: FileChange): nat {
    (if change.before.Some? then 1 else 0) + if change.after.Some? then 1 else 0
  }

  /** The records the excluded changes of a list hold. */
  function ExcludedRecords(policy: Policy, changes: seq<FileChange>): nat {
    if changes == [] then 0
    else
      var last := changes[|changes| - 1];
      ExcludedRecords(policy, changes[..|changes| - 1]) + if ExcludedPath(policy, last.path) then RecordsIn(last) else 0
  }

  function ChangeIn(): SuppressedFile -> FileChange {
    (entry: SuppressedFile) => entry.change
  }

  function DroppedFiles(policy: Policy, diff: Diff): nat {
    ExcludedRecords(policy, diff.files) + ExcludedRecords(policy, Mapped(diff.suppressedFiles, ChangeIn()))
  }

  /** `drop_excluded_files`: the signers are recounted if a record went. */
  function WithoutExcludedFiles(policy: Policy, diff: Diff): Diff {
    var files := Retained(diff.files, AllowedFile(policy));
    diff.(
      files := files,
      suppressedFiles := Retained(diff.suppressedFiles, AllowedEntry(policy)),
      signers := if DroppedFiles(policy, diff) > 0 then SignerCounts(files) else diff.signers)
  }

  // ----- registry -----

  /** The policy keeps a side of a change exactly as written. */
  predicate AsWritten(policy: Policy, side: Option<RegistryRecord>) {
    side.Some? ==> Admit(policy, side.value) == Admitted(side, 0)
  }

  predicate Untouched(policy: Policy, change: RegistryChange) {
    AsWritten(policy, change.before) && AsWritten(policy, change.after)
  }

  function AdmittedSide(policy: Policy, side: Option<RegistryRecord>): Option<RegistryRecord> {
    match side case None => None case Some(record) => Admit(policy, record).record
  }

  function SideRecords(policy: Policy, side: Option<RegistryRecord>): nat {
    if side.Some? && Admit(policy, side.value).record.None? then 1 else 0
  }

  function SideValues(policy: Policy, side: Option<RegistryRecord>): nat {
    if side.Some? then Admit(policy, side.value).refusedValues else 0
  }

  /** What becomes of one change. */
  function Rebuilt(policy: Policy, upgrading: bool, change: RegistryChange): Option<RegistryChange> {
    if !upgrading && Untouched(policy, change) then Some(change)
    else RegistryChangeOf(AdmittedSide(policy, change.before), AdmittedSide(policy, change.after))
  }

  function RebuiltAt(policy: Policy, upgrading: bool): RegistryChange -> Option<RegistryChange> {
    (change: RegistryChange) => Rebuilt(policy, upgrading, change)
  }

  function LostRecordsIn(policy: Policy, upgrading: bool, changes: seq<RegistryChange>): nat {
    if changes == [] then 0
    else
      var last := changes[|changes| - 1];
      LostRecordsIn(policy, upgrading, changes[..|changes| - 1])
      + if !upgrading && Untouched(policy, last) then 0
        else SideRecords(policy, last.before) + SideRecords(policy, last.after)
  }

  function LostValuesIn(policy: Policy, upgrading: bool, changes: seq<RegistryChange>): nat {
    if changes == [] then 0
    else
      var last := changes[|changes| - 1];
      LostValuesIn(policy, upgrading, changes[..|changes| - 1])
      + if !upgrading && Untouched(policy, last) then 0
        else SideValues(policy, last.before) + SideValues(policy, last.after)
  }

  // ----- the whole -----

  function Report(policy: Policy, diff: Diff): Refiltered {
    var upgrading := diff.formatVersion != DIFF_FORMAT;
    Refiltered(
      LostRecordsIn(policy, upgrading, diff.registry),
      LostValuesIn(policy, upgrading, diff.registry),
      |diff.coverage.accessDenied| - |Retained(diff.coverage.accessDenied, Undenied(policy))|,
      Lost(diff.emptiedKeys, AllowedKey(policy)) + Lost(diff.formerlyEmptyKeys, AllowedKey(policy)),
      DroppedFiles(policy, diff),
      Lost(diff.emptiedDirectories, AllowedDirectory(policy)) + Lost(diff.formerlyEmptyDirectories, AllowedDirectory(policy)))
  }

  function WithoutExcludedDenials(policy: Policy, diff: Diff): Diff {
    diff.(coverage := diff.coverage.(accessDenied := Retained(diff.coverage.accessDenied, Undenied(policy))))
  }

  function WithAllowedLists(policy: Policy, diff: Diff): Diff {
    diff.(emptiedKeys := Allowed(diff.emptiedKeys, AllowedKey(policy)),
          formerlyEmptyKeys := Allowed(diff.formerlyEmptyKeys, AllowedKey(policy)),
          emptiedDirectories := Allowed(diff.emptiedDirectories, AllowedDirectory(policy)),
          formerlyEmptyDirectories := Allowed(diff.formerlyEmptyDirectories, AllowedDirectory(policy)))
  }

  function WithRebuiltRegistry(policy: Policy, diff: Diff): Diff {
    diff.(registry := Collected(diff.registry, RebuiltAt(policy, diff.formatVersion != DIFF_FORMAT)))
  }

  /** What `refilter` leaves. */
  function Cleaned(policy: Policy, diff: Diff): Diff {
    WithoutExcludedFiles(policy, diff).(
      formatVersion := DIFF_FORMAT,
      coverage := diff.coverage.(accessDenied := Retained(diff.coverage.accessDenied, Undenied(policy))),
      emptiedKeys := Allowed(diff.emptiedKeys, AllowedKey(policy)),
      formerlyEmptyKeys := Allowed(diff.formerlyEmptyKeys, AllowedKey(policy)),
      emptiedDirectories := Allowed(diff.emptiedDirectories, AllowedDirectory(policy)),
      formerlyEmptyDirectories := Allowed(diff.formerlyEmptyDirectories, AllowedDirectory(policy)),
      registry := Collected(diff.registry, RebuiltAt(policy, diff.formatVersion != DIFF_FORMAT)),
      refiltered := Sum(diff.refiltered, Report(policy, diff)))
  }

  /** A diff in memory, which `refilter` rewrites. */
  class DiffFile {
    var diff: Diff

    constructor (d: Diff)
      ensures diff == d
    {
      diff := d;
    }

    method DropExcludedDenials(policy: Policy) returns (dropped: nat)
      modifies this
      ensures diff == WithoutExcludedDenials(policy, old(diff))
      ensures dropped == Report(policy, old(diff)).accessDenied
    {
      hide DroppedFiles; hide LostRecordsIn; hide LostValuesIn; hide Lost;
      var before := |diff.coverage.accessDenied|;
      diff := diff.(coverage := diff.coverage.(accessDenied := Retained(diff.coverage.accessDenied, Undenied(policy))));
      dropped := before - |diff.coverage.accessDenied|;
    }

    /** The two loops that `retain` what is allowed of the emptied lists. */
    method FilterLists(policy: Policy) returns (keys: nat, directories: nat)
      modifies this
      ensures diff == WithAllowedLists(policy, old(diff))
      ensures keys == Report(policy, old(diff)).emptiedKeys
      ensures directories == Report(policy, old(diff)).emptiedDirectories
    {
      hide DroppedFiles; hide LostRecordsIn; hide LostValuesIn; hide Lost; hide Allowed; hide Undenied;
      keys := Lost(diff.emptiedKeys, AllowedKey(policy)) + Lost(diff.formerlyEmptyKeys, AllowedKey(policy));
      directories := Lost(diff.emptiedDirectories, AllowedDirectory(policy))
                     + Lost(diff.formerlyEmptyDirectories, AllowedDirectory(policy));
      diff := diff.(emptiedKeys := Allowed(diff.emptiedKeys, AllowedKey(policy)),
                    formerlyEmptyKeys := Allowed(diff.formerlyEmptyKeys, AllowedKey(policy)),
                    emptiedDirectories := Allowed(diff.emptiedDirectories, AllowedDirectory(policy)),
                    formerlyEmptyDirectories := Allowed(diff.formerlyEmptyDirectories, AllowedDirectory(policy)));
    }

    method DropExcludedFiles(policy: Policy) returns (dropped: nat)
      modifies this
      ensures diff == WithoutExcludedFiles(policy, old(diff))
      ensures dropped == DroppedFiles(policy, old(diff))
    {
      hide ExcludedPath;
      hide SignerCounts;
      dropped := 0;
      var files := diff.files;
      for i := 0 to |files|
        invariant diff == old(diff) && dropped == ExcludedRecords(policy, files[..i])
      {
        assert files[..i + 1][..i] == files[..i];
        if ExcludedPath(policy, files[i].path) {
          dropped := dropped + RecordsIn(files[i]);
        }
      }
      assert files[..|files|] == files;
      var changes := Mapped(diff.suppressedFiles, ChangeIn());
      for i := 0 to |changes|
        invariant diff == old(diff)
        invariant dropped == ExcludedRecords(policy, files) + ExcludedRecords(policy, changes[..i])
      {
        assert changes[..i + 1][..i] == changes[..i];
        if ExcludedPath(policy, changes[i].path) {
          dropped := dropped + RecordsIn(changes[i]);
        }
      }
      assert changes[..|changes|] == changes;
      diff := diff.(files := Retained(diff.files, AllowedFile(policy)),
                    suppressedFiles := Retained(diff.suppressedFiles, AllowedEntry(policy)));
      if dropped > 0 {
        var signers := CountSigners(diff.files);
        diff := diff.(signers := signers);
      }
    }

    /** The loop over the registry changes, which are taken out and put back. */
    method RebuildRegistry(policy: Policy) returns (records: nat, values: nat)
      modifies this
      ensures diff == WithRebuiltRegistry(policy, old(diff))
      ensures records == LostRecordsIn(policy, old(diff).formatVersion != DIFF_FORMAT, old(diff).registry)
      ensures values == LostValuesIn(policy, old(diff).formatVersion != DIFF_FORMAT, old(diff).registry)
    {
      CollectedNone(RebuiltAt(policy, diff.formatVersion != DIFF_FORMAT));
      hide Admit; hide RegistryChangeOf; hide Untouched; hide Collected; hide AdmittedSide; hide SideRecords; hide SideValues;
      var upgrading, changes := diff.formatVersion != DIFF_FORMAT, diff.registry;
      diff := diff.(registry := []);
      var kept: seq<RegistryChange> := [];
      records, values := 0, 0;
      for i := 0 to |changes|
        invariant diff == old(diff).(registry := [])
        invariant kept == Collected(changes[..i], RebuiltAt(policy, upgrading))
        invariant records == LostRecordsIn(policy, upgrading, changes[..i])
        invariant values == LostValuesIn(policy, upgrading, changes[..i])
      {
        var change := changes[i];
        assert changes[..i + 1] == changes[..i] + [change] && changes[..i + 1][..i] == changes[..i];
        CollectedMore(changes[..i], change, RebuiltAt(policy, upgrading));
        if !upgrading && Untouched(policy, change) {
          kept := kept + [change];
        } else {
          values := values + SideValues(policy, change.before) + SideValues(policy, change.after);
          records := records + SideRecords(policy, change.before) + SideRecords(policy, change.after);
          var rebuilt := RegistryChangeOf(AdmittedSide(policy, change.before), AdmittedSide(policy, change.after));
          if rebuilt.Some? {
            kept := kept + [rebuilt.value];
          }
        }
      }
      assert changes[..|changes|] == changes;
      diff := diff.(registry := kept);
    }

    /** `refilter`. */
    method Refilter(policy: Policy) returns (report: Refiltered)
      modifies this
      ensures diff == Cleaned(policy, old(diff))
      ensures report == Report(policy, old(diff))
    {
      hide Report; hide Cleaned; hide DroppedFiles; hide LostRecordsIn; hide LostValuesIn;
      hide WithoutExcludedDenials; hide WithAllowedLists; hide WithoutExcludedFiles; hide WithRebuiltRegistry;
      ghost var given := diff;
      StepsReport(policy, given);
      StepsClean(policy, given);
      var denied := DropExcludedDenials(policy);
      var keys, directories := FilterLists(policy);
      var files := DropExcludedFiles(policy);
      var records, values := RebuildRegistry(policy);
      report := Refiltered(records, values, denied, keys, files, directories);
      diff := diff.(formatVersion := DIFF_FORMAT);
      diff := diff.(refiltered := Sum(diff.refiltered, report));
    }
  }

  /** No step of `refilter` changes what a later one counts. */
  lemma StepsReport(policy: Policy, diff: Diff)
    ensures var a := WithoutExcludedDenials(policy, diff);
            var b := WithAllowedLists(policy, a);
            var d := WithoutExcludedFiles(policy, b);
            Report(policy, diff) == Refiltered(
              LostRecordsIn(policy, d.formatVersion != DIFF_FORMAT, d.registry),
              LostValuesIn(policy, d.formatVersion != DIFF_FORMAT, d.registry),
              Report(policy, diff).accessDenied, Report(policy, a).emptiedKeys,
              DroppedFiles(policy, b), Report(policy, a).emptiedDirectories)
  {
    hide ExcludedRecords; hide LostRecordsIn; hide LostValuesIn; hide Lost; hide Allowed; hide SignerCounts;
  }

  /** And the steps together clean. */
  lemma StepsClean(policy: Policy, diff: Diff)
    ensures var a := WithAllowedLists(policy, WithoutExcludedDenials(policy, diff));
            var d := WithRebuiltRegistry(policy, WithoutExcludedFiles(policy, a));
            && d.refiltered == diff.refiltered
            && Cleaned(policy, diff) == d.(formatVersion := DIFF_FORMAT, refiltered := Sum(diff.refiltered, Report(policy, diff)))
  {
    hide ExcludedRecords; hide Report; hide Allowed; hide SignerCounts; hide Collected; hide Retained;
  }
}
