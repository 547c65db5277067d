// The comparison of files in tools/observe/src/diff.rs.
module FileDiff {
  import opened Prelude
  import opened Ordered
  import opened Text
  import opened Observed
  import opened Policies
  import opened Keyed
  import opened Changes

  datatype FileChange = FileChange(
    path: string,
    kind: ChangeKind,
    signer: Option<string>,
    isDriverImage: bool,
    before: Option<FileRecord>,
    after: Option<FileRecord>,
    fields: seq<FieldChange>)

  datatype SuppressedFile = SuppressedFile(rule: string, change: FileChange)

  // ----- fields -----

  const CONTENT_FIELDS: seq<string> := ["size", "sha256", "signer"]

  function Content(record: FileRecord): (r: seq<string>)
    ensures |r| == |CONTENT_FIELDS|
  {
    [Decimal(record.size), Shown(record.sha256), Shown(record.signer)]
  }

  /** `file_field_changes`: the time is reported only alongside something else. */
  function FileFields(before: FileRecord, after: FileRecord): seq<FieldChange> {
    var content := Differences(CONTENT_FIELDS, Content(before), Content(after));
    if content == [] then []
    else content + Differences(["modified_utc"], [before.modifiedUtc], [after.modifiedUtc])
  }

  /** Files are told apart by size, digest and signer, and by nothing else. */
  lemma FilesDifferInContent(before: FileRecord, after: FileRecord)
    ensures FileFields(before, after) == [] <==>
              && before.size == after.size && Shown(before.sha256) == Shown(after.sha256)
              && Shown(before.signer) == Shown(after.signer)
  {
    NoDifferences(CONTENT_FIELDS, Content(before), Content(after));
    DecimalIsExact(before.size, after.size);
    var b, a := Content(before), Content(after);
    assert b == a <==> b[0] == a[0] && b[1] == a[1] && b[2] == a[2];
  }

  /** What differs is told under its own name with its own two texts, and then
      the time, which is never told alone. */
  lemma FileFieldsTell(x: FileRecord, y: FileRecord)
    ensures FileFields(x, y) != [] ==>
              FileFields(x, y)
              == Told("size", Decimal(x.size), Decimal(y.size))
                 + (Told("sha256", if x.sha256.Some? then x.sha256.value else "", if y.sha256.Some? then y.sha256.value else "")
                 + (Told("signer", if x.signer.Some? then x.signer.value else "", if y.signer.Some? then y.signer.value else "")
                 + Told("modified_utc", x.modifiedUtc, y.modifiedUtc)))
  {
    hide Told; hide Decimal;
    var was, now := Content(x), Content(y);
    ThreeDifferences(CONTENT_FIELDS, was, now);
    OneDifference("modified_utc", x.modifiedUtc, y.modifiedUtc);
    hide Differences;
    FieldsJoined(Told("size", was[0], now[0]), Told("sha256", was[1], now[1]), Told("signer", was[2], now[2]),
           Told("modified_utc", x.modifiedUtc, y.modifiedUtc));
  }

  lemma FieldsJoined(a: seq<FieldChange>, b: seq<FieldChange>, c: seq<FieldChange>, d: seq<FieldChange>)
    ensures (a + (b + c)) + d == a + (b + (c + d))
  {
  }

  lemma OneDifference(name: string, was: string, now: string)
    ensures Differences([name], [was], [now]) == Told(name, was, now)
  {
    DifferencesFrom([name], [was], [now], 0);
    assert [name][0..] == [name] && [was][0..] == [was] && [now][0..] == [now];
    assert Differences([name][1..], [was][1..], [now][1..]) == [];
  }

  lemma ThreeDifferences(names: seq<string>, was: seq<string>, now: seq<string>)
    requires |names| == |was| == |now| == 3
    ensures Differences(names, was, now)
         == Told(names[0], was[0], now[0]) + (Told(names[1], was[1], now[1]) + Told(names[2], was[2], now[2]))
  {
    DifferencesFrom(names, was, now, 0);
    DifferencesFrom(names, was, now, 1);
    DifferencesFrom(names, was, now, 2);
    assert names[0..] == names && was[0..] == was && now[0..] == now;
    assert Differences(names[3..], was[3..], now[3..]) == [];
    hide Differences; hide Told;
  }

  lemma SwappedConcat(a: seq<FieldChange>, b: seq<FieldChange>)
    ensures Swapped(a + b) == Swapped(a) + Swapped(b)
  {
  }

  lemma FileFieldsSwapped(before: FileRecord, after: FileRecord)
    ensures FileFields(after, before) == Swapped(FileFields(before, after))
  {
    hide Content;
    hide Differences;
    DifferencesSwapped(CONTENT_FIELDS, Content(before), Content(after));
    DifferencesSwapped(["modified_utc"], [before.modifiedUtc], [after.modifiedUtc]);
    SwappedConcat(Differences(CONTENT_FIELDS, Content(before), Content(after)),
                  Differences(["modified_utc"], [before.modifiedUtc], [after.modifiedUtc]));
  }

  lemma {:induction false} DifferenceNames(names: seq<string>, before: seq<string>, after: seq<string>)
    requires |names| == |before| == |after|
    ensures forall f :: f in Differences(names, before, after) ==> f.field in names
  {
    if names != [] {
      DifferenceNames(names[1..], before[1..], after[1..]);
      assert names == [names[0]] + names[1..];
    }
  }

  // ----- changes -----

  function Admits(policy: Policy): FileRecord -> bool {
    (record: FileRecord) => !ExcludedPath(policy, record.path)
  }

  function FoldedPath(): FileRecord -> string {
    (record: FileRecord) => LowerAll(record.path)
  }

  /** The files the exclusions allow, by folded path. */
  function FileIndex(policy: Policy, records: seq<FileRecord>): map<string, FileRecord> {
    Index(Retained(records, Admits(policy)), FoldedPath())
  }

  function ExcludedFiles(policy: Policy, records: seq<FileRecord>): nat {
    |records| - |Retained(records, Admits(policy))|
  }

  function FileChangeOf(before: Option<FileRecord>, after: Option<FileRecord>): Option<FileChange> {
    match (before, after)
    case (None, None) => None
    case (None, Some(r)) => Some(FileChange(r.path, Added, r.signer, IsDriverImage(r), None, after, []))
    case (Some(r), None) => Some(FileChange(r.path, Removed, r.signer, IsDriverImage(r), before, None, []))
    case (Some(was), Some(now)) =>
      var fields := FileFields(was, now);
      if fields == [] then None
      else Some(FileChange(now.path, Modified, now.signer, IsDriverImage(now), before, after, fields))
  }

  function FileChangeAt(before: map<string, FileRecord>, after: map<string, FileRecord>): string -> Option<FileChange> {
    (path: string) => FileChangeOf(Look(before, path), Look(after, path))
  }

  function FileChanges(before: map<string, FileRecord>, after: map<string, FileRecord>): seq<FileChange> {
    Collected(Names(before, after), FileChangeAt(before, after))
  }

  predicate IsTimestampOnly(filter: NoiseFilter, change: FileChange) {
    && filter.normalisePerUser && change.kind == Modified
    && |change.fields| == 1 && change.fields[0].field == "modified_utc"
  }

  function FileSurvives(filter: NoiseFilter): FileChange -> bool {
    (change: FileChange) => !IsTimestampOnly(filter, change)
  }

  function FileIsNoise(filter: NoiseFilter): FileChange -> bool {
    (change: FileChange) => IsTimestampOnly(filter, change)
  }

  function FileSetAside(): FileChange -> SuppressedFile {
    (change: FileChange) => SuppressedFile(TIMESTAMP_ONLY, change)
  }

  function KeptFiles(filter: NoiseFilter, changes: seq<FileChange>): seq<FileChange> {
    Retained(changes, FileSurvives(filter))
  }

  function SuppressedFiles(filter: NoiseFilter, changes: seq<FileChange>): seq<SuppressedFile> {
    Mapped(Retained(changes, FileIsNoise(filter)), FileSetAside())
  }

  // ----- the loops -----

  /** The indexing closure: excluded records are counted, the rest inserted. */
  method IndexFiles(policy: Policy, records: seq<FileRecord>, counted: nat)
    returns (index: map<string, FileRecord>, excluded: nat)
    ensures index == FileIndex(policy, records)
    ensures excluded == counted + ExcludedFiles(policy, records)
  {
    hide ExcludedPath;
    index, excluded := map[], counted;
    for i := 0 to |records|
      invariant index == FileIndex(policy, records[..i])
      invariant excluded == counted + ExcludedFiles(policy, records[..i])
    {
      var record := records[i];
      assert records[..i + 1] == records[..i] + [record];
      RetainedMore(records[..i], record, Admits(policy));
      IndexMore(Retained(records[..i], Admits(policy)), record, FoldedPath());
      if ExcludedPath(policy, record.path) {
        excluded := excluded + 1;
      } else {
        index := index[LowerAll(record.path) := record];
      }
    }
    assert records[..|records|] == records;
  }

  /** `compare_files`. */
  method CompareFiles(policy: Policy, filter: NoiseFilter, before: seq<FileRecord>, after: seq<FileRecord>, counted: nat)
    returns (kept: seq<FileChange>, suppressed: seq<SuppressedFile>, excluded: nat)
    ensures var changes := FileChanges(FileIndex(policy, before), FileIndex(policy, after));
            kept == KeptFiles(filter, changes) && suppressed == SuppressedFiles(filter, changes)
    ensures excluded == counted + ExcludedFiles(policy, before) + ExcludedFiles(policy, after)
  {
    var b, a;
    b, excluded := IndexFiles(policy, before, counted);
    a, excluded := IndexFiles(policy, after, excluded);
    hide FileIndex;
    kept, suppressed := WalkPaths(filter, b, a);
  }

  method WalkPaths(filter: NoiseFilter, b: map<string, FileRecord>, a: map<string, FileRecord>)
    returns (kept: seq<FileChange>, suppressed: seq<SuppressedFile>)
    ensures kept == KeptFiles(filter, FileChanges(b, a)) && suppressed == SuppressedFiles(filter, FileChanges(b, a))
  {
    hide FileChangeOf;
    hide IsTimestampOnly;
    SiftedNone(filter);
    hide KeptFiles;
    hide SuppressedFiles;
    hide Names;
    var paths := Names(b, a);
    kept, suppressed := [], [];
    for i := 0 to |paths|
      invariant kept == KeptFiles(filter, Collected(paths[..i], FileChangeAt(b, a)))
      invariant suppressed == SuppressedFiles(filter, Collected(paths[..i], FileChangeAt(b, a)))
    {
      var found := FileChangeOf(Look(b, paths[i]), Look(a, paths[i]));
      assert paths[..i + 1] == paths[..i] + [paths[i]];
      CollectedMore(paths[..i], paths[i], FileChangeAt(b, a));
      if found.Some? {
        SiftedMore(filter, Collected(paths[..i], FileChangeAt(b, a)), found.value);
        if IsTimestampOnly(filter, found.value) {
          suppressed := suppressed + [SuppressedFile(TIMESTAMP_ONLY, found.value)];
        } else {
          kept := kept + [found.value];
        }
      }
    }
    assert paths[..|paths|] == paths;
  }

  lemma SiftedNone(filter: NoiseFilter)
    ensures KeptFiles(filter, []) == [] && SuppressedFiles(filter, []) == []
  {
  }

  lemma SiftedMore(filter: NoiseFilter, changes: seq<FileChange>, change: FileChange)
    ensures KeptFiles(filter, changes + [change])
         == if IsTimestampOnly(filter, change) then KeptFiles(filter, changes) else KeptFiles(filter, changes) + [change]
    ensures SuppressedFiles(filter, changes + [change])
         == if IsTimestampOnly(filter, change)
            then SuppressedFiles(filter, changes) + [SuppressedFile(TIMESTAMP_ONLY, change)]
            else SuppressedFiles(filter, changes)
  {
    hide IsTimestampOnly;
    RetainedMore(changes, change, FileSurvives(filter));
    RetainedMore(changes, change, FileIsNoise(filter));
    MappedMore(Retained(changes, FileIsNoise(filter)), change, FileSetAside());
  }

  /** The rule the filter has for files never fires: the comparison already
      declines to report a time on its own. */
  lemma NothingIsTimestampOnly(filter: NoiseFilter, before: map<string, FileRecord>, after: map<string, FileRecord>)
    ensures SuppressedFiles(filter, FileChanges(before, after)) == []
    ensures KeptFiles(filter, FileChanges(before, after)) == FileChanges(before, after)
  {
    var changes := FileChanges(before, after);
    hide IsTimestampOnly;
    hide FileChangeOf;
    forall c | c in changes ensures !IsTimestampOnly(filter, c) {
      CollectedHolds(Names(before, after), FileChangeAt(before, after), c);
      var path :| path in Names(before, after) && FileChangeAt(before, after)(path) == Some(c);
      NotTimestampOnly(filter, Look(before, path), Look(after, path));
    }
    RetainedAll(changes, FileSurvives(filter));
    FirstIsMember(Retained(changes, FileIsNoise(filter)));
  }

  lemma NotTimestampOnly(filter: NoiseFilter, before: Option<FileRecord>, after: Option<FileRecord>)
    ensures var change := FileChangeOf(before, after); change.Some? ==> !IsTimestampOnly(filter, change.value)
  {
    if before.Some? && after.Some? {
      TimeIsNeverAlone(before.value, after.value);
      hide FileFields;
    }
  }

  lemma TimeIsNeverAlone(was: FileRecord, now: FileRecord)
    ensures var fields := FileFields(was, now); |fields| == 1 ==> fields[0].field != "modified_utc"
  {
    var content := Differences(CONTENT_FIELDS, Content(was), Content(now));
    DifferenceNames(CONTENT_FIELDS, Content(was), Content(now));
    if content != [] {
      assert content[0] in content;
      assert content[0].field in CONTENT_FIELDS;
      hide Differences;
      assert FileFields(was, now)[0] == content[0];
    }
  }

  // ----- the patch law -----

  function ChangedPath(): FileChange -> string {
    (change: FileChange) => LowerAll(change.path)
  }

  function FileEffect(): (Option<FileRecord>, FileChange) -> Option<FileRecord> {
    (was: Option<FileRecord>, change: FileChange) => change.after
  }

  /** Files of one size, one digest and one signer, none counting as empty. */
  ghost predicate SameContent(x: FileRecord, y: FileRecord) {
    && x.size == y.size
    && (if x.sha256.Some? then x.sha256.value else "") == (if y.sha256.Some? then y.sha256.value else "")
    && (if x.signer.Some? then x.signer.value else "") == (if y.signer.Some? then y.signer.value else "")
  }

  ghost predicate FilesAgree(a: Option<FileRecord>, b: Option<FileRecord>) {
    a.Some? == b.Some? && (a.Some? ==> SameContent(a.value, b.value))
  }

  /** An index files every record under its own folded path. */
  ghost predicate Folded(index: map<string, FileRecord>) {
    forall path :: path in index ==> LowerAll(index[path].path) == path
  }

  lemma IndexIsFolded(policy: Policy, records: seq<FileRecord>)
    ensures Folded(FileIndex(policy, records))
    ensures forall path :: path in FileIndex(policy, records) ==>
              FileIndex(policy, records)[path] in records && !ExcludedPath(policy, FileIndex(policy, records)[path].path)
  {
    hide ExcludedPath;
    IndexHolds(Retained(records, Admits(policy)), FoldedPath());
  }

  lemma ChangeKeepsPath(before: Option<FileRecord>, after: Option<FileRecord>, path: string)
    requires before.Some? ==> LowerAll(before.value.path) == path
    requires after.Some? ==> LowerAll(after.value.path) == path
    ensures var change := FileChangeOf(before, after); change.Some? ==> ChangedPath()(change.value) == path
  {
    hide LowerAll;
    hide FileFields;
    hide IsDriverImage;
  }

  lemma FileChangesAreListed(b: map<string, FileRecord>, a: map<string, FileRecord>)
    requires Folded(b) && Folded(a)
    ensures Lists(FileChanges(b, a), Names(b, a), FileChangeAt(b, a), ChangedPath())
  {
    NamesAre(b, a);
    hide LowerAll;
    hide FileChangeOf;
    forall path | path in Names(b, a) && FileChangeAt(b, a)(path).Some?
      ensures ChangedPath()(FileChangeAt(b, a)(path).value) == path
    {
      ChangeKeepsPath(Look(b, path), Look(a, path), path);
    }
    CollectedLists(Names(b, a), FileChangeAt(b, a), ChangedPath());
  }

  /** Applying the changes to the earlier files gives the later ones, up to
      what the comparison looks at, and a path has a change exactly when the two
      sides differ there. */
  lemma FilePatch(policy: Policy, before: seq<FileRecord>, after: seq<FileRecord>, path: string)
    ensures var b, a := FileIndex(policy, before), FileIndex(policy, after);
            var changes := FileChanges(b, a);
            && FilesAgree(Look(Applied(b, changes, ChangedPath(), FileEffect()), path), Look(a, path))
            && ((exists c :: c in changes && ChangedPath()(c) == path) <==> !FilesAgree(Look(b, path), Look(a, path)))
  {
    IndexIsFolded(policy, before);
    IndexIsFolded(policy, after);
    hide FileIndex;
    hide FileChanges;
    var b, a := FileIndex(policy, before), FileIndex(policy, after);
    FileChangesAreListed(b, a);
    FilePatchAt(b, a, FileChanges(b, a), path);
  }

  lemma FilePatchAt(b: map<string, FileRecord>, a: map<string, FileRecord>, changes: seq<FileChange>, path: string)
    requires Lists(changes, Names(b, a), FileChangeAt(b, a), ChangedPath())
    ensures FilesAgree(Look(Applied(b, changes, ChangedPath(), FileEffect()), path), Look(a, path))
    ensures (exists c :: c in changes && ChangedPath()(c) == path) <==> !FilesAgree(Look(b, path), Look(a, path))
  {
    hide FileFields; hide IsDriverImage; hide LowerAll; hide Names; hide Applied; hide SameContent;
    NamesAre(b, a);
    if path in b && path in a {
      ContentIsSame(b[path], a[path]);
    }
    AppliedEverywhere(b, changes, Names(b, a), FileChangeAt(b, a), ChangedPath(), FileEffect(), path);
    ListedAt(changes, Names(b, a), FileChangeAt(b, a), ChangedPath(), path);
    if path in a {
      ContentIsSame(a[path], a[path]);
      FileIsItself(a[path]);
    }
  }

  lemma ContentIsSame(x: FileRecord, y: FileRecord)
    ensures FileFields(x, y) == [] <==> SameContent(x, y)
  {
    hide FileFields;
    FilesDifferInContent(x, y);
  }

  lemma FileIsItself(record: FileRecord)
    ensures FileFields(record, record) == []
  {
    FilesDifferInContent(record, record);
  }

  // ----- the other way round -----

  function ReverseFile(): FileChange -> FileChange {
    (change: FileChange) => FileReversed(change)
  }

  function FileReversed(change: FileChange): FileChange {
    var later := if change.before.Some? then change.before else change.after;
    FileChange(
      change.path, Flip(change.kind), if later.Some? then later.value.signer else change.signer,
      change.isDriverImage, change.after, change.before, Swapped(change.fields))
  }

  /** A path written with one letter case on both sides, where both have it. */
  ghost predicate SameSpelling(b: map<string, FileRecord>, a: map<string, FileRecord>) {
    forall path :: path in b && path in a && FileFields(b[path], a[path]) != [] ==> b[path].path == a[path].path
  }

  lemma FileChangeReversed(before: Option<FileRecord>, after: Option<FileRecord>)
    requires before.Some? && after.Some? ==> EqFold(before.value.path, after.value.path)
    ensures FileChangeOf(after, before) == OptionMapped(FileChangeOf(before, after), ReverseFile())
        <==> (before.Some? && after.Some? && FileFields(before.value, after.value) != [] ==>
                before.value.path == after.value.path)
  {
    if before.Some? && after.Some? {
      FileFieldsSwapped(before.value, after.value);
      hide FileFields;
    }
  }

  /** Comparing the other way round is reading the changes backwards, exactly
      when every modified file is spelled alike on both sides: a change carries
      the later record's spelling. */
  lemma FileSymmetry(policy: Policy, before: seq<FileRecord>, after: seq<FileRecord>)
    ensures var b, a := FileIndex(policy, before), FileIndex(policy, after);
            FileChanges(a, b) == Mapped(FileChanges(b, a), ReverseFile()) <==> SameSpelling(b, a)
  {
    IndexIsFolded(policy, before);
    IndexIsFolded(policy, after);
    hide FileIndex;
    FileSymmetryOf(FileIndex(policy, before), FileIndex(policy, after));
  }

  lemma FileSymmetryOf(b: map<string, FileRecord>, a: map<string, FileRecord>)
    requires Folded(b) && Folded(a)
    ensures FileChanges(a, b) == Mapped(FileChanges(b, a), ReverseFile()) <==> SameSpelling(b, a)
  {
    assert b.Keys + a.Keys == a.Keys + b.Keys;
    NamesAre(b, a);
    FileChangesAreListed(b, a);
    FileChangesAreListed(a, b);
    hide FileFields;
    hide LowerAll;
    CollectedCorrespond(Names(b, a), FileChangeAt(b, a), FileChangeAt(a, b), ReverseFile(), ChangedPath());
    forall path | path in Names(b, a)
      ensures FileChangeAt(a, b)(path) == OptionMapped(FileChangeAt(b, a)(path), ReverseFile())
         <==> (path in b && path in a && FileFields(b[path], a[path]) != [] ==> b[path].path == a[path].path)
    {
      FileChangeReversed(Look(b, path), Look(a, path));
    }
  }

  lemma OneFile(policy: Policy, record: FileRecord)
    requires !ExcludedPath(policy, record.path)
    ensures FileIndex(policy, [record]) == map[LowerAll(record.path) := record]
  {
    hide ExcludedPath;
    RetainedMore([], record, Admits(policy));
    RetainedNone(Admits(policy));
    assert [] + [record] == [record];
    IndexMore([], record, FoldedPath());
  }

  /** It is not, for one file written in two letter cases that grew. */
  lemma RecasedFileReadsOneWay(policy: Policy, was: FileRecord, now: FileRecord)
    requires !ExcludedPath(policy, was.path) && EqFold(was.path, now.path)
    requires was.path != now.path && was.size != now.size
    ensures var b, a := FileIndex(policy, [was]), FileIndex(policy, [now]);
            FileChanges(a, b) != Mapped(FileChanges(b, a), ReverseFile())
  {
    assert !ExcludedPath(policy, now.path);
    OneFile(policy, was);
    OneFile(policy, now);
    hide ExcludedPath; hide FileIndex; hide FileChanges;
    FilesDifferInContent(was, now);
    hide FileFields;
    FileSymmetry(policy, [was], [now]);
    var b, a, path := FileIndex(policy, [was]), FileIndex(policy, [now]), LowerAll(was.path);
    assert path in b && path in a && b[path] == was && a[path] == now;
  }

  lemma RecasedFileExists() returns (policy: Policy, was: FileRecord, now: FileRecord)
    ensures !ExcludedPath(policy, was.path) && EqFold(was.path, now.path) && was.path != now.path && was.size != now.size
  {
    policy := Policy([], [], [], []);
    was := FileRecord("A", 1, "", None, None, None);
    now := FileRecord("a", 2, "", None, None, None);
    assert LowerAll("A") == "a" && LowerAll("a") == "a";
  }

  // ----- signers -----

  function SignerCounts(files: seq<FileChange>): map<string, nat> {
    if files == [] then map[]
    else
      var n := |files| - 1;
      var counts := SignerCounts(files[..n]);
      match files[n].signer
      case None => counts
      case Some(signer) => counts[signer := (if signer in counts then counts[signer] else 0) + 1]
  }

  /** `signer_counts`: one counter a signer. */
  method CountSigners(files: seq<FileChange>) returns (signers: map<string, nat>)
    ensures signers == SignerCounts(files)
  {
    signers := map[];
    for i := 0 to |files|
      invariant signers == SignerCounts(files[..i])
    {
      assert files[..i + 1][..i] == files[..i];
      var signer := files[i].signer;
      if signer.Some? {
        signers := signers[signer.value := (if signer.value in signers then signers[signer.value] else 0) + 1];
      }
    }
    assert files[..|files|] == files;
  }

  function SignedBy(files: seq<FileChange>, signer: string): nat {
    if files == [] then 0
    else SignedBy(files[..|files| - 1], signer) + if files[|files| - 1].signer == Some(signer) then 1 else 0
  }

  /** Each signer's count is the number of changes it signed, and nobody else is
      counted. */
  lemma {:induction false} SignersAreCounted(files: seq<FileChange>, signer: string)
    ensures Look(SignerCounts(files), signer) == if SignedBy(files, signer) == 0 then None else Some(SignedBy(files, signer))
  {
    if files != [] {
      SignersAreCounted(files[..|files| - 1], signer);
    }
  }
}
