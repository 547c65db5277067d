# WardSweep decision logic, verified

WardSweep has no removal code yet. What it has is the logic that will decide
what removal may touch: how a path or a registry key is read, what the
deny-list refuses, how two snapshots of a machine are compared, what a
privacy policy keeps out of the result, how launcher manifests and timestamps
are read, how a job's progress survives its reader, and what an audit reports.
This project models that logic in Dafny and proves what the code and its
documentation promise of it. `dafny verify dfyconfig.toml` checks everything.

The modules follow the program:

- `Observed`, `Policies`, `Refusals`, `Changes`, `ServiceDiff`, `FileDiff`,
  `RegistryDiff`, `SnapshotDiff`, `DiffFields`, `DiffLaws`, `NonInterference`,
  `Refilter`, `RefilterLaws`, `Sharing`, `Intersect`, `IntersectFields` and
  `IntersectLaws`: the snapshot differ. `compare` is
  a patch, reads backwards, is an involution under `reversed`, is blind to
  refused content and leaves nothing for `refilter`, which is idempotent;
  intersections do not depend on the order of the footprints.
- `Paths`, `PathLaws`, `PathSpellings`, `Namespaces`, `Aliases`, `RegKeys`,
  `DenyList`, `Verdicts`, `KeyVerdicts`, `RegistryGate`, `Expand`, `Catalog`,
  `CatalogGate`, `Declarations`: from a raw string through its canonical form to
  an exact verdict, and what a catalog with no problems may name.
- `Calendar`, `Timestamp`, `TimestampText`: civil dates, the order of their text,
  and that the text and the instant determine each other.
- `KeyValues`, `Libraries`: the tokeniser and parser of Valve's text format, and
  the paths a manifest names.
- `EventLog`, `Resume`, `Completion`: the job's log as a class, and producer,
  server and client as steps that interleave freely, safely, and can always end.
- `Draft`, `Templates`, `Locations`, `DraftedPaths`, `TemplatePercents`,
  `DraftEntry`: collapsing observed keys and directories to roots, paths to
  templates and back, what a `%` costs a template, and the entry drafted from
  them.
- `Redact`, `RedactSids`, `RedactedText`: the scanning rewriters for account
  names and identifiers.
- `Machine`, `MachineReads`, `Audit`, `Images`: the audit of a machine against a
  catalog, and the image a registration means.
- `EndToEnd`: results that run through several of these.
- `Prelude`, `Text`, `Ordered`, `Keyed`: options and results, text, total
  orders and ordered maps, records indexed by identity.

Code that changes things step by step is a method or a class proved against a
specification function; code made of expressions is a function. Strings are
sequences of characters and letter case is ASCII only, as in the source.

Laws that fail in general are proved with their exact condition, and with an
input on which they fail. A canonical path is a fixed point if and only if its
text does not end in white space, because the whole text is trimmed of every
white space while a segment loses only dots and spaces; the same trimming
decides when dots after the last name change nothing. Two services of a
snapshot are merged if and only if an instance is named like another's
template. Reading a diff backwards is the reverse comparison if and only if
both sides spell what differs alike. A refused value is unseen unless it is
alone in its key. Refiltering leaves nothing refused in a diff if and only if
the diff's changes name nothing their records do not. Text order is time order
exactly up to the year 10000. Only one `WOW6432Node` is unfolded, which is
exactly where the two views are judged differently. A template leads back to
its path if and only if it keeps no `%` of the path's own, and the draft of an
allowed directory passes the catalog check if and only if that holds and the
directory stays allowed with its profile's name replaced, as it does for every
name without a `/` but `.` and `..`.

Where code and comment disagree the code is followed: the comment on
`reversed` says the emptied lists become unknown, and the code swaps them with
the formerly empty ones (tools/observe/src/diff.rs:566-568 against 622-627).

## Model

| member | source | states |
|---|---|---|
| `ServiceDiff.CountNames` | tools/observe/src/diff.rs:1183-1198 | The counting loop of one snapshot: exactly the canonical names more than one of its services has. |
| `ServiceDiff.ServicesMergeExactlyWhenShadowed` | tools/observe/src/diff.rs:1178-1216 | Two services of one snapshot share an index entry if and only if some crowded instance carries the very name an uncrowded instance's template has: the exact condition under which the promise never to drop an instance fails. |
| `ServiceDiff.StableNamesNeverMerge` | tools/observe/src/diff.rs:1398-1417 | That cannot happen while canonical names do not themselves read as instances. |
| `ServiceDiff.EveryServiceIsCompared` | tools/observe/src/diff.rs:1178-1216 | With distinct names and none shadowed, every service of both snapshots is in the index under its own entry. |
| `ServiceDiff.NestedInstanceIsMerged` | tools/observe/src/diff.rs:1199-1206 | It does happen: of `x_abcd`, `x_ef01`, `x_abcd_1234` (any stem, any suffixes) two share an entry. |
| `ServiceDiff.ServicePatch` | tools/observe/src/diff.rs:1173-1261 | Applying the surviving and the suppressed changes to the earlier services gives the later ones in each of the ten fields that are compared, and a name has a change exactly when the two sides differ in one. |
| `ServiceDiff.ServiceChangesAreListed` | tools/observe/src/diff.rs:474-490 | One change per differing name, before and after the noise filter moves some aside: nothing lost, nothing twice. |
| `ServiceDiff.ServiceSymmetry` | tools/observe/src/diff.rs:588-599 | Comparing services the other way round is reading the changes backwards, for every pair of snapshots and every filter. |
| `ServiceDiff.CompareServices` | tools/observe/src/diff.rs:1173-1261 | The comparison computes the change list the service laws speak of, for every filter. |
| `ServiceDiff.Sift` | tools/observe/src/diff.rs:480-490 | The loop keeps what no rule matches and sets the rest aside with the rule's name, in order. |
| `ServiceDiff.ServicesDifferInFields` | tools/observe/src/diff.rs:1277-1323 | Two services compare as equal if and only if each of ten written-out fields does: the names they are shown under, types, start, error control, binary path, group, account, description, joined dependencies and delay. |
| `ServiceDiff.ServiceFieldsTell` | tools/observe/src/diff.rs:1277-1323 | Each field that differs is told under its own name with its own two texts, in one order. |
| `ServiceDiff.SuffixIsLeftOut` | tools/observe/src/diff.rs:1263-1275 | A display name that ends in the instance suffix of its service's name is compared without it, |
| `ServiceDiff.OtherNamesAreWhole` | tools/observe/src/diff.rs:1263-1275 | and any other whole. |
| `ServiceDiff.DependenciesAreToldApart` | tools/observe/src/diff.rs:1311-1315 | Dependencies without `;` are told apart by their joined text. |
| `DiffFields.ServiceChangeSays` | tools/observe/src/diff.rs:1218-1261 | A change of a service is there exactly when one side is missing or a field differs; it says which, carries both records, and takes its driver and boot flags from the later one. |
| `DiffFields.FileChangeSays` | tools/observe/src/diff.rs:1083-1126 | Likewise of a file, by its content, with the later spelling and signer and whether that path ends in `.sys`. |
| `DiffFields.RegistryChangeSays` | tools/observe/src/diff.rs:928-996 | Likewise of a registry key: of one on both sides it holds exactly the values that differ. |
| `FileDiff.FileFieldsTell` | tools/observe/src/diff.rs:1128-1171 | Size, digest, signer and time are told under their own names with their own texts, the time never alone. |
| `DiffFields.ValuesReadAlike` | tools/observe/src/model.rs:374-385 | Two values of types without a colon read alike if and only if their types do and their data, or their sizes when neither was recorded. |
| `DiffFields.LastValueCounts` | tools/observe/src/diff.rs:1000-1020 | Of several values of one name the last counts. |
| `DiffFields.CanonicalNameIs` | tools/observe/src/diff.rs:1398-1417 | A service is matched under a stem exactly when the filter normalises and its name is that stem, `_` and four or more hexadecimal digits. |
| `DiffFields.IgnoredExactly` | tools/observe/src/diff.rs:1440-1450 | A change is set aside as volatile if and only if the filter lists its name, in any case. |
| `DiffFields.ChangesAscend` | tools/observe/src/diff.rs:1210-1217 | Changes are in the order of what they are of: services by name, files by path, keys by key and then view. |
| `DiffFields.ReasonIsTheFirst` | tools/observe/src/model.rs:138-149 | What either snapshot was refused is refused, with the reason of the first that gave one. |
| `DiffFields.EmptiedExactly` | tools/observe/src/diff.rs:833-880 | A directory or key counts as emptied if and only if both snapshots looked, the later found it empty, the earlier did not, and the policy does not exclude it; and as formerly empty the other way about. |
| `DiffFields.ComparedScalars` | tools/observe/src/diff.rs:893-904 | Times, formats, policy changes, and a restart exactly when the boot times are known and more than two minutes apart. |
| `DiffFields.ComparedLibraries` | tools/observe/src/diff.rs:500-507 | A library is common when the earlier snapshot names it and the later does in some spelling. |
| `DiffFields.UncoveredIsSilent` | tools/observe/src/diff.rs:464-513 | Nothing is compared or counted in a domain either snapshot did not capture. |
| `DiffFields.ExcludedFilesAreCounted` | tools/observe/src/diff.rs:1042-1082 | The files counted as left out are exactly those of either snapshot the exclusions refuse. |
| `Changes.NoDifferences` | tools/observe/src/diff.rs:1277-1323 | A field comparison reports nothing exactly when every reading is the same on both sides. |
| `FileDiff.FilesDifferInContent` | tools/observe/src/diff.rs:1128-1171 | Two files differ exactly in size, digest or signer; a time alone never counts. |
| `FileDiff.NothingIsTimestampOnly` | tools/observe/src/diff.rs:1418-1438 | The filter's `timestamp-only` rule never fires on a comparison: the suppressed list is empty for every pair of snapshots. |
| `FileDiff.CompareFiles` | tools/observe/src/diff.rs:1042-1126 | The indexing and comparing loops give exactly the kept and suppressed changes of the admitted files, and count every excluded record of both sides. |
| `FileDiff.FilePatch` | tools/observe/src/diff.rs:1042-1126 | Applying the file changes to the earlier files gives the later ones up to what the comparison looks at; a path has a change exactly when the sides differ. |
| `FileDiff.FileSymmetry` | tools/observe/src/diff.rs:600-611 | Reading the file changes backwards is comparing the other way round, if and only if every modified file is spelled alike on both sides. |
| `FileDiff.RecasedFileReadsOneWay` | tools/observe/src/diff.rs:1090-1126 | Where that fails: one file in two letter cases whose size changed. |
| `FileDiff.CountSigners` | tools/observe/src/diff.rs:799-807 | One counter a signer, over the surviving changes. |
| `FileDiff.SignersAreCounted` | tools/observe/src/diff.rs:799-807 | Each signer's count is the number of changes it signed, and nobody else is counted. |
| `RegistryDiff.ValueDifferences` | tools/observe/src/diff.rs:1000-1040 | The loop over value names finds exactly the names whose values differ, and one field change for each, in name order. |
| `RegistryDiff.NoFieldsMeansEqual` | tools/observe/src/diff.rs:1000-1040 | No field change exactly when every value of the key reads the same. |
| `RegistryDiff.ModificationSuffices` | tools/observe/src/diff.rs:971-996 | The differing values alone carry one key's values to the other's. |
| `RegistryDiff.RegistryPatch` | tools/observe/src/diff.rs:928-996 | Applying the registry changes, which carry only differing values, to the earlier keys gives the later ones value for value, with a change exactly where some value differs. |
| `RegistryDiff.RegistrySymmetry` | tools/observe/src/diff.rs:647-658 | Reading the registry changes backwards is comparing the other way round, if and only if every modified key is spelled alike on both sides. |
| `RegistryDiff.RecasedKeyReadsOneWay` | tools/observe/src/diff.rs:984-996 | Where that fails: one key in two letter cases of which a value changed. |
| `RegistryDiff.AdmittedIndex` | tools/observe/src/diff.rs:906-926 | The indexing loop keeps exactly the records the policy admits and counts every dropped record and refused value. |
| `RegistryDiff.CompareRegistry` | tools/observe/src/diff.rs:928-969 | The changes of the two admitted indexes, with the counts of both sides. |
| `RegistryDiff.ChangesAreAcceptable` | tools/observe/src/diff.rs:928-969 | No registry change names an excluded key in its own key or in a record, or shows a refused value in a record or in its fields, which are those of the records it carries. |
| `RegistryDiff.CleaningFirstChangesNothing` | tools/observe/src/policy.rs:300-346 | The registry changes are those of the admitted records alone: cleaning a snapshot first leaves nothing to drop and the same index. |
| `RegistryDiff.DroppedRecordIsUnseen` | tools/observe/src/policy.rs:307-337 | A record the policy drops can be anywhere in a snapshot without being seen. |
| `RegistryDiff.RefusedValueIsUnseen` | tools/observe/src/policy.rs:307-346 | A refused value can be anywhere in a record without being seen, if and only if the record's key is excluded or it has another value. |
| `RegistryDiff.LoneRefusedValueIsSeen` | tools/observe/src/policy.rs:300-337 | Where that fails: a key with nothing in it is compared, and the same key with only a refused value in it is not. |
| `NonInterference.RefusedContentChangesNothing` | tools/observe/src/diff.rs:440-555 | Non-interference: put refused records, values, files, denials, empty directories or empty keys into either snapshot or take them out, in any number and order, and `compare` gives the same whole diff but for its counts. |
| `NonInterference.SameSeenExactlyWhenEdited` | tools/observe/src/policy.rs:300-346 | Such edits lead from one snapshot to another if and only if the policy leaves the same of both. |
| `NonInterference.ComparedIsOfTheSeen` | tools/observe/src/diff.rs:440-555 | But for its counts a comparison is the comparison of the two snapshots with everything refused taken out first, whose own counts are zero. |
| `NonInterference.UnionOfRetained` | tools/observe/src/diff.rs:809-825 | Merging the two lists of what could not be read and then dropping the excluded is dropping and then merging. |
| `Refusals.RefusedExactly` | tools/observe/src/policy.rs:69-117 | A value is refused if and only if its name reads, in any case, as a hardware term, its data does and is no `prop:` list, or its trimmed name is a personal one. |
| `Refusals.ExcludedExactly` | tools/observe/src/policy.rs:247-256 | A key or path is excluded if and only if it reads, between separators and in any case, as one of its own fragments. |
| `Refusals.RefusedKeyIsNamed` | tools/observe/src/policy.rs:351-362 | A refused item is judged by the key before its value and its view, |
| `Refusals.RefusalsAreLeftOut` | tools/observe/src/policy.rs:351-362 | and left out exactly when that key, or that path, is excluded; in no other domain. |
| `Policies.AdmittedIsAcceptable` | tools/observe/src/policy.rs:300-346 | What is admitted holds nothing refused, keeps its identity, loses exactly the refused values, and is returned untouched exactly when it was acceptable. |
| `Policies.ExclusionCoversSubtree` | tools/observe/src/policy.rs:247-256 | Excluding a key excludes everything below it, in any letter case. |
| `SnapshotDiff.Compare` | tools/observe/src/diff.rs:440-555 | The errors in the order they are found, and otherwise the diff assembled from the three domains, each compared only when both sides captured it. |
| `SnapshotDiff.CommonIsInEvery` | core/src/scan/libraries.rs:187-206 | A library is common exactly when the first list has it and every other list names it, in any case. |
| `FileDiff.RecasedFileExists` | tools/observe/src/diff.rs:1090-1126 | There are two such files: `A` and `a`, of different sizes. |
| `RegistryDiff.RecasedKeyExists` | tools/observe/src/diff.rs:984-996 | There are two such keys: `K` with a value and `k` without. |
| `RegistryDiff.AddressAloneIsSeen` | tools/observe/src/policy.rs:300-337 | Such a value: a key holding one value named `mac`, under a policy whose one term is `mac`. |
| `DiffLaws.ComparedReadsBackwards` | tools/observe/src/diff.rs:557-666 | `reversed` of a comparison equals the comparison the other way round in every field but the order and letter case of the shared libraries, the order of captured domains and the reason kept for a refusal, if and only if every file and key the sides tell apart is spelled alike on both. |
| `DiffLaws.ReversedTwice` | tools/observe/src/diff.rs:570-666 | Read backwards twice, every diff whose flags and signers come from its later records is itself. |
| `DiffLaws.ComparedReversedTwice` | tools/observe/src/diff.rs:570-666 | And every comparison is such a diff: `reversed` is an involution on what `compare` produces. |
| `DiffLaws.CoverageIsSymmetric` | tools/observe/src/model.rs:116-149 | The common coverage names the same domains and the same refusals, in the same order, from either side. |
| `DiffLaws.UnionIsSorted` | tools/observe/src/model.rs:138-143 | The merged refusals are sorted by domain and item, each identity once, none missing. |
| `Refilter.DiffFile.Refilter` | tools/observe/src/diff.rs:680-749 | Rewrites the diff in place to exactly its cleaned form and returns the counts of what went. |
| `Refilter.DiffFile.DropExcludedFiles` | tools/observe/src/diff.rs:781-796 | Drops the excluded file changes, kept or suppressed, counts the records they held, and recounts signers if any went. |
| `Refilter.DiffFile.RebuildRegistry` | tools/observe/src/diff.rs:709-744 | Keeps as written what the policy keeps as written, rebuilds the rest from what it admits, and counts what it lost. |
| `RefilterLaws.RefilterCleans` | tools/observe/src/diff.rs:668-796 | Whichever format it began in, a diff whose changes name nothing their records do not is left with no excluded path or key, refused value or field, denial or emptied entry. |
| `RefilterLaws.ConformingIsCleaned` | tools/observe/src/diff.rs:707-758 | Every policy leaves a diff clean if and only if each change of a current registry is filed under one of its records' keys, or part of one, with fields that are those of its records, and each file change's path holds its records'. |
| `RefilterLaws.RecordlessChangeIsLeft` | tools/observe/src/diff.rs:751-758 | Where that fails: a current change with no record at all is kept under the very key the policy excludes. |
| `RefilterLaws.RefilterIsIdempotent` | tools/observe/src/diff.rs:668-749 | A second run reports all zeroes and leaves the diff identical, for every diff and either format. |
| `RefilterLaws.ComparedIsClean` | tools/observe/src/diff.rs:462-530 | No excluded path or key, refused value, denial or emptied entry is anywhere in a comparison: not in a change's own path or key, its records, its fields or the lists. |
| `RefilterLaws.ComparedStays` | tools/observe/src/diff.rs:668-749 | Refiltering a comparison under its own policy changes and reports nothing. |
| `RefilterLaws.RefilterDropsOnlyTheRefused` | tools/observe/src/diff.rs:680-796 | Refiltering keeps of files, suppressed files, denials and emptied lists exactly what the policy does not exclude, and every service. |
| `RefilterLaws.RefilterKeepsWhatDiffers` | tools/observe/src/diff.rs:707-744 | A registry change is kept as written when nothing of it is refused and the format is current; otherwise it is lost exactly when what the policy leaves of its sides no longer differs, and else some kept change still carries the one to the other. |
| `Sharing.Shared` | tools/observe/src/intersect.rs:251-291 | The loops compute, over the sorted candidates, the shared kept and suppressed changes. |
| `Sharing.SharedIdentities` | tools/observe/src/intersect.rs:243-291 | The kept identities are exactly those every footprint holds and some footprint kept; the suppressed ones, those every footprint holds and none kept. |
| `Sharing.SharedComesFromFirst` | tools/observe/src/intersect.rs:281-289 | The record kept for an item is that of the first footprint that kept it. |
| `Sharing.SharedListIdentities` | tools/observe/src/intersect.rs:293-316 | A list is known exactly when every footprint knows it, and holds exactly the identities in every one. |
| `Sharing.RebootedInMore` | tools/observe/src/intersect.rs:318-332 | The restart answer over more footprints is the three-valued "or" of theirs. |
| `Intersect.Refuse` | tools/observe/src/intersect.rs:96-119 | No error exactly for two or more footprints, none an intersection, no two of one pair of snapshots, all of one format; else the first that applies in the source's order, a repeat being the first footprint that repeats an earlier one. |
| `Intersect.CleanAll` | tools/observe/src/intersect.rs:122-127 | The loop refilters every footprint in place and sums what was removed. |
| `Intersect.Intersect` | tools/observe/src/intersect.rs:96-239 | Succeeds exactly for acceptable footprints, and then gives the intersection of the cleaned ones; else the error `Refuse` gives. |
| `Intersect.SharedServices` | tools/observe/src/intersect.rs:142-151 | A service is in the result exactly when every footprint has it, and set aside exactly when every one set it aside. |
| `Intersect.SharedFiles` | tools/observe/src/intersect.rs:153-162 | The same for files. |
| `Intersect.SharedKeys` | tools/observe/src/intersect.rs:164-169 | A registry key is in the result exactly when every footprint has a change to it. |
| `Intersect.IdentityTextIsThePair` | tools/observe/src/intersect.rs:355-367 | The text identity of a key is the pair of its folded name and its view. |
| `IntersectFields.SharedDirectories` | tools/observe/src/intersect.rs:195-212 | Each directory list is known if and only if every footprint's own is, and holds a directory if and only if every one's does, in any case. |
| `IntersectFields.SharedEmptiedKeys` | tools/observe/src/intersect.rs:201-218 | Likewise each list of keys, by key in any case and view. |
| `IntersectFields.SharedSpan` | tools/observe/src/intersect.rs:182-194 | It begins with the earliest footprint and ends with the latest; it restarted if some did, did not if all did not, and is unknown otherwise. |
| `IntersectFields.SharedSources` | tools/observe/src/intersect.rs:129-140 | It names every footprint with its times and the sum of its five lists, and a policy changed if it did in any. |
| `IntersectFields.SharedLibraries` | tools/observe/src/intersect.rs:231-234 | It shares a library of the first footprint that every other names in some spelling. |
| `IntersectFields.SharedDomains` | tools/observe/src/intersect.rs:171-175 | It covers what every footprint covers, and was refused what any was. |
| `IntersectFields.SharedNames` | tools/observe/src/intersect.rs:142-162 | A service or file is in it if and only if every footprint has a change of that name, in any case, and is kept if some footprint kept it. |
| `IntersectFields.SharedKeyChanges` | tools/observe/src/intersect.rs:164-169 | A registry key is in it if and only if every footprint changed it in that view. |
| `IntersectLaws.IntersectionInAnyOrder` | tools/observe/src/intersect.rs:84-239 | Reordering the footprints changes no shared item, list identity, library, covered domain, refusal, span, restart answer, flag, source or refiltered count: only whose record and spelling is kept. |
| `IntersectLaws.IntersectionShrinks` | tools/observe/src/intersect.rs:19-25 | Another footprint only takes items and list entries away, makes no list known, and an item left set aside was set aside before. |
| `IntersectLaws.FoldIsSorted` | tools/observe/src/intersect.rs:171-175 | The folded coverage's refusals are the sorted union of every footprint's. |
| `Calendar.CivilFromDaysIsExact` | tools/observe/src/clock.rs:52-75 | Every day number, negative ones included, becomes a valid date of the proleptic Gregorian calendar whose own day number is the one given. |
| `Calendar.CivilFromDaysIsTheCalendar` | tools/observe/src/clock.rs:52-75 | Day 0 is 1970-01-01 and day n + 1 is the calendar's next date under the leap rule of Appendix C of RFC 3339. |
| `Calendar.CivilFromDaysInvertsDaysFromCivil` | tools/observe/src/clock.rs:52-75 | Every real date is reached, by its own day number. |
| `Calendar.DayNumbersFollowDates` | tools/observe/src/clock.rs:52-75 | Dates are in order exactly when their day numbers are. |
| `Calendar.YearOfEraBounds` | tools/observe/src/clock.rs:61-66 | The unsigned intermediates stay in range: the year of the era is below 400 and its first day is no later than the day. |
| `TimestampText.TextNamesItsInstant` | tools/observe/src/clock.rs:29-46 | Until the end of the year 9999 the text of an instant has one form, and read back by its characters it names that instant; |
| `TimestampText.EveryStampIsATime` | tools/observe/src/clock.rs:29-46 | and every text of that form with a real date and time of day, from the epoch on, is the text of the instant it names. |
| `TimestampText.YearsAreWhole` | tools/observe/src/clock.rs:32-45 | A year of any length is written whole, with a sign before the year 0, and padded to four characters. |
| `Timestamp.TextOrderIsTimeOrder` | tools/observe/src/clock.rs:32-45 | Until the end of the year 9999, one rendering is before another as text exactly when its instant is earlier (section 5.1 of RFC 3339). |
| `Timestamp.TextOrderHoldsExactlyBeforeYear10000` | tools/observe/src/clock.rs:32-45 | The law holds below a bound if and only if the bound is no later than the year 10000. |
| `Timestamp.TextSpanIsTimeSpan` | tools/observe/src/intersect.rs:182-193 | The smallest and largest rendering are those of the earliest and latest instant. |
| `Paths.NormaliseComponents` | core/src/safety/paths.rs:285-329 | The loop that pushes and pops a stack of segments computes the stack machine, with its errors. |
| `Paths.Render` | core/src/safety/paths.rs:346-357 | The rendering loop gives the root and each component after a separator, and a lone separator for a drive's root. |
| `Paths.Canonicalise` | core/src/safety/paths.rs:166-193 | The whole reading: trimming, root, segments, text and the error for each malformed input. |
| `PathLaws.CanonicalComponentsAreClean` | core/src/safety/paths.rs:285-329 | Every component of every result is non-empty, upper case, ends in no dot or space, holds no separator and, outside device paths, no colon; an 8.3 component sets the flag. |
| `PathLaws.CleanIsNoRelative` | core/src/safety/paths.rs:292-327 | So no component is empty, `.` or `..`. |
| `Text.CaseIs` | core/src/safety/paths.rs:323-326 | The 26 letters have a capital and a small form, and no other character has case. |
| `Text.BlanksAre` | core/src/safety/paths.rs:169-172 | White space is the 25 characters of the Unicode property, written out. |
| `Aliases.ShortNamesAreAliases` | core/src/safety/paths.rs:331-344 | The test for an 8.3 alias finds exactly `NAME~N` with any extension: one digit is enough, and a name of none. |
| `Aliases.FlaggedExactlyForAliases` | core/src/safety/paths.rs:286-329 | A path that is read is flagged if and only if one of its segments, without its last dots and spaces, is such an alias, |
| `Aliases.AliasesAreRefused` | core/src/safety/denylist.rs:634-636 | and is then refused as one, whatever was declared. |
| `Aliases.AliasInPath` | core/src/safety/denylist.rs:634-636 | From the text: no `X:\...\NAME~N\...` is allowed. |
| `Namespaces.SharesAreRoots` | core/src/safety/paths.rs:268-283 | `host\share` is a root, with or without anything below it; |
| `Namespaces.OnlySharesAreRoots` | core/src/safety/paths.rs:268-283 | nothing without a host and a share is. |
| `Namespaces.UncErrors` | core/src/safety/paths.rs:268-283 | Without them it is malformed. |
| `Namespaces.VerbatimIs` | core/src/safety/paths.rs:219-226 | What follows the verbatim prefix, unless it is `UNC\`, is a drive or the device namespace; |
| `Namespaces.UncByItsLongName` | core/src/safety/paths.rs:214-218 | after `UNC\` it is a share. |
| `Namespaces.DevicesAre` | core/src/safety/paths.rs:227-237 | The device namespace by its three names. |
| `Namespaces.SharesAre` | core/src/safety/paths.rs:238-240 | Two separators before anything else are a share. |
| `Namespaces.DrivesAre` | core/src/safety/paths.rs:252-267 | Anything else is a drive, by its letter, colon and separator, or is not absolute. |
| `Namespaces.SegmentErrors` | core/src/safety/paths.rs:292-323 | The error of each segment, exactly: climbing above the root, dots and spaces alone, or a colon outside the device namespace. |
| `Namespaces.UnreadablePaths` | core/src/safety/paths.rs:166-175 | A NUL is an error of its own, if and only if there is one, and so is nothing but white space. |
| `PathLaws.CanonicalIsFixed` | core/src/safety/paths.rs:166-193 | A drive-rooted result is a fixed point if and only if its text does not end in white space; the 8.3 flag can only be lost. |
| `PathLaws.PlainSpacesAreFixed` | core/src/safety/paths.rs:166-193 | So any input whose only white space is U+0020 gives a fixed point. |
| `PathLaws.TabIsTrimmedLater` | core/src/safety/paths.rs:306-329 | Where that fails: `C:\a<TAB>\` keeps the tab, and a second reading trims it. |
| `PathSpellings.SeparatorsAreAlike` | core/src/safety/paths.rs:166-176 | `/` for `\` changes nothing, in any input. |
| `PathSpellings.NoiseIsIgnored` | core/src/safety/paths.rs:292-299 | A doubled separator or an inserted `.` changes nothing, inside a path or at its end. |
| `PathSpellings.DownAndUp` | core/src/safety/paths.rs:300-305 | An inserted `name\..` changes nothing but, possibly, the 8.3 flag, inside a path or at its end. |
| `PathSpellings.TrailingDotsInside` | core/src/safety/paths.rs:306-317 | Dots and spaces after a component change nothing. |
| `PathSpellings.TrailingDotsAtEnd` | core/src/safety/paths.rs:166-176 | Nor at the end of the path, if and only if they are only spaces, or trimming takes nothing of the name that Win32 would keep, or the directory itself cannot be read. |
| `PathSpellings.TabKeepsItsDot` | core/src/safety/paths.rs:306-317 | Where that fails: `C:\a<TAB>.` keeps the tab that `C:\a<TAB>` loses. |
| `PathSpellings.VerbatimIsPlain` | core/src/safety/paths.rs:214-241 | `\\?\C:\…` is `C:\…`. |
| `PathSpellings.CaseIsIgnored` | core/src/safety/paths.rs:166-193 | Letter case changes nothing but a network root's own spelling, for every input. |
| `RegKeys.CanonicalKeyIsFixed` | core/src/safety/paths.rs:452-486 | Reading a canonical registry key again changes nothing, for every input. |
| `Verdicts.AllowedExactly` | core/src/safety/denylist.rs:622-700 | The deny-list allows a path if and only if it is local, unaliased, two deep, and either a declared driver's file or below none of Windows' folders and none of: a user hive, `ProgramData\Microsoft`, Windows' own data, a shared folder, a library folder; each written out by name. |
| `Verdicts.OrdinaryVerdict` | core/src/safety/denylist.rs:661-700 | Below none of Windows' folders each refusal has its own reason, the first that applies, |
| `Verdicts.FirstReasons` | core/src/safety/denylist.rs:637-659 | after the reasons that come before. |
| `Verdicts.OnDiskVerdict` | core/src/safety/denylist.rs:622-635 | On disk the verdict is the same, of a path read back from a handle and through no link. |
| `Verdicts.HivesAreRefused` | core/src/safety/denylist.rs:669-677 | From the text: a path whose last name is a user hive's is never allowed, but as a declared driver's file. |
| `KeyVerdicts.KeyAllowedExactly` | core/src/safety/denylist.rs:788-925 | A key is allowed if and only if, by the hive it is in, it is deep enough and is no protected, shared or undeclared key; each written out by name. |
| `KeyVerdicts.KeySafeExactly` | core/src/safety/denylist.rs:772-808 | And from the text of a key. |
| `KeyVerdicts.MachineVerdict` | core/src/safety/denylist.rs:811-875 | The one reason a key of the machine is refused for, or none. |
| `KeyVerdicts.UserVerdict` | core/src/safety/denylist.rs:877-896 | And a key of a user. |
| `KeyVerdicts.OtherHives` | core/src/safety/denylist.rs:788-808 | In every other hive the verdict with its reason: a user's keys by either name, a user's classes, the merged classes, and the current configuration, which is refused whole. |
| `DenyList.AllowedPaths` | core/src/safety/denylist.rs:622-700 | An allowed path is local, at least two deep, free of 8.3 aliases, and below a protected top-level folder only a file of `System32\drivers` the carve-outs name. |
| `DenyList.MoreExceptionsUnlockOnlyDrivers` | core/src/safety/denylist.rs:533-585 | More carve-outs move one verdict only: a file of `System32\drivers` they name. |
| `DenyList.MoreExceptionsUnlockOnlyServices` | core/src/safety/denylist.rs:907-925 | And of keys, only a service key they name. |
| `DenyList.ExceptionsAreDeclared` | core/src/safety/denylist.rs:552-596 | A carve-out is a name the entry declared and Windows does not ship. |
| `RegistryGate.SystemKeysAreServices` | core/src/safety/denylist.rs:812-875 | Under `HKLM\SYSTEM` a key is allowed exactly when it is a named service one level below a control set's `Services`. |
| `RegistryGate.SystemTextsAreServices` | core/src/safety/paths.rs:452-486 | The same from the text of a key, however it is written. |
| `Namespaces.HivesAreNamed` | core/src/safety/paths.rs:452-473 | A hive goes by its short and its long name and no other. |
| `Namespaces.KeyIsRead` | core/src/safety/paths.rs:452-486 | From the text of a key: its hive by the head in any case, and the names below it. |
| `Namespaces.SubkeyOf` | core/src/safety/paths.rs:475-478 | Each name is trimmed and in upper case, and a blank one is none. |
| `Namespaces.OtherHeadsAreUnknown` | core/src/safety/paths.rs:466-473 | Any other head is of no hive. |
| `RegKeys.KeyBelow` | core/src/safety/paths.rs:452-486 | What a text names below a key: the names of what follows it, with either separator, doubled ones, and white space around the names or at the end. |
| `RegistryGate.AllowedServiceIsDeclared` | core/src/safety/denylist.rs:552-596 | And then the entry declared it and Windows does not ship it. |
| `RegistryGate.ViewsAreJudgedAlike` | core/src/safety/denylist.rs:842-875 | `HKLM\SOFTWARE\tail` is judged like its `WOW6432Node` mirror, if and only if it is not itself the mirror of a refused key. |
| `RegistryGate.ViewTextsAreJudgedAlike` | core/src/safety/denylist.rs:842-875 | The same from the texts of the two keys, for every text after them. |
| `RegistryGate.OnlyOneViewIsUnfolded` | core/src/safety/denylist.rs:842-852 | The concrete key on which the two verdicts differ. |
| `Expand.ExpandWith` | core/src/catalog/expand.rs:86-127 | The loop over `%` signs computes the product of the choices for each variable, or the error. |
| `Expand.ExpansionsAreChoices` | core/src/catalog/expand.rs:75-127 | An expansion is one value for every variable in its place: all of those and nothing else. |
| `Expand.PiecesSpellTheTemplate` | core/src/catalog/expand.rs:93-108 | Nothing of a template is lost or moved when it is taken apart. |
| `Declarations.UnlockedExactly` | core/src/safety/denylist.rs:547-596 | An entry unlocks a driver file or service if and only if it declares one of that name, in any case, and Windows ships none. |
| `Declarations.DriverIsItsFile` | core/src/safety/denylist.rs:586-596 | A driver declared with a folder is the file in it, by either separator. |
| `Declarations.VariablesAre` | core/src/catalog/expand.rs:16-72 | A variable is known if and only if it is one of ten, in any case, and stands for just the listed places. |
| `Declarations.AntiCheatProblemsExactly` | core/src/catalog/validate.rs:408-440 | Every problem of an anti-cheat entry names its list, its place and what is wrong there, and nothing that is wrong is left out. |
| `Declarations.GameProblemsExactly` | core/src/catalog/validate.rs:441-454 | And of a game, whose paths and keys no carve-out moves. |
| `Declarations.TemplateFaultsExactly` | core/src/catalog/validate.rs:456-503 | A template is told that it cannot be expanded, or each fault of a path it expands to, |
| `Declarations.PathFaultExactly` | core/src/catalog/validate.rs:478-503 | which is that it cannot be read or the reason it is denied for. |
| `Declarations.KeyFaultExactly` | core/src/catalog/validate.rs:505-531 | Likewise of a key. |
| `CatalogGate.CheckList` | core/src/catalog/validate.rs:456-531 | Each checking loop pushes exactly the problems of its entries, each with its place. |
| `CatalogGate.CheckDenylist` | core/src/catalog/validate.rs:408-454 | The whole check reports exactly the problems of every entry of every list. |
| `CatalogGate.NoProblemsIsSafe` | core/src/catalog/validate.rs:408-531 | It reports nothing if and only if every entry of every list is safe under its own owner's carve-outs. |
| `CatalogGate.AntiCheatPathsAreSafe` | core/src/catalog/validate.rs:408-503 | If it reports nothing, every expansion of every anti-cheat template is an ordinary local path with no 8.3 name, and below a protected top-level folder exactly `X:\WINDOWS\SYSTEM32\DRIVERS\f` with `f` a declared driver Windows does not ship. |
| `CatalogGate.GamePathsAreSafe` | core/src/catalog/validate.rs:441-454 | And no game path is below a protected top-level folder at all. |
| `KeyValues.Tokenise` | core/src/scan/libraries.rs:341-387 | The character loop computes the tokens, or the unterminated string. |
| `KeyValues.ParseEntries` | core/src/scan/libraries.rs:389-417 | The recursive loop over tokens reads exactly the entries at the position it is given and leaves it after them. |
| `KeyValues.ParseDocument` | core/src/scan/libraries.rs:323-332 | The whole text becomes its tree, or the error for each malformed one. |
| `KeyValues.TreeIsFlat` | core/src/scan/libraries.rs:323-417 | The parser is exact: tokens are accepted as a tree if and only if they are that tree flattened. |
| `KeyValues.PrintedDocument` | core/src/scan/libraries.rs:323-417 | Every tree over any strings, printed with quotes and escapes and any white space, reads back as itself. |
| `KeyValues.CommentTokens` | core/src/scan/libraries.rs:341-387 | A comment makes no token. |
| `Libraries.FirstFolderList` | core/src/scan/libraries.rs:279-288 | The libraries are those of the first block called `libraryfolders`, in any case, and there are none without one. |
| `Libraries.FirstPathEntry` | core/src/scan/libraries.rs:292-297 | A folder's path is its first text called `path`, in any case. |
| `Libraries.NewerLayout` | core/src/scan/libraries.rs:292-297 | So a block names that path, |
| `Libraries.OlderLayout` | core/src/scan/libraries.rs:298-305 | and a text is a path itself exactly when its key is a number. |
| `Libraries.PathIsNormalised` | core/src/scan/libraries.rs:223-239 | It is named with backslashes and without what surrounds it, and a bare drive by its root. |
| `Libraries.BareWordTokens` | core/src/scan/libraries.rs:341-387 | A word without quotes ends at white space, a brace or a quote. |
| `Libraries.EscapedCharacter` | core/src/scan/libraries.rs:341-387 | A backslash makes the next character itself, but for the line feed and the tab it names. |
| `Libraries.UnclosedIsNoWord` | core/src/scan/libraries.rs:341-387 | A word that is not closed is none. |
| `Libraries.LastComment` | core/src/scan/libraries.rs:341-387 | A comment may end the text. |
| `KeyValues.NormalisedForm` | core/src/scan/libraries.rs:223-239 | A normalised path has backslashes only and no separator at its end but a bare drive's. |
| `KeyValues.FirstSpellingsAreDistinct` | core/src/scan/libraries.rs:289-310 | Each named library is there once, in the spelling it first has. |
| `KeyValues.SteamLibraryPaths` | core/src/scan/libraries.rs:279-317 | The libraries of a Steam manifest, or the error for one that names none. |
| `EventLog.JobLog.Run` | spikes/s3-split-privilege/broker/src/job.rs:123-215 | The job writes exactly the finished log, sets `finished` with the completion, and commits a resume point that ends one behind the log when the last commit succeeds. |
| `EventLog.JobLog.Push` | spikes/s3-split-privilege/broker/src/job.rs:217-244 | An event's number is the log's length plus one. |
| `EventLog.JobLog.EventsAfter` | spikes/s3-split-privilege/broker/src/job.rs:91-106 | The events after a number, nothing for one past the end, and whether the job has ended. |
| `EventLog.FinishedIsNumbered` | spikes/s3-split-privilege/broker/src/job.rs:123-215 | A finished log is numbered without a gap, has 7·(k + 2) + 1 events, and only its last is the completion. |
| `EventLog.StageOfFinished` | spikes/s3-split-privilege/broker/src/job.rs:132-183 | Each stage's events are its start, its k ticks in order, and its end. |
| `Resume.StepKeeps` | spikes/s3-split-privilege/broker/src/main.rs:538-566 | Every step of producer, server and client, in any order, keeps the invariant. |
| `Resume.RunKeeps` | spikes/s3-split-privilege/broker/src/main.rs:538-566 | So every state of every run has it. |
| `Resume.FinishedIsComplete` | spikes/s3-split-privilege/broker/src/job.rs:200-215 | `finished` is visible exactly when the completion is in the log, and then the log is the whole seven-stage log; a batch fetched as final reaches its end. |
| `Resume.CommittedTrailsTheLog` | spikes/s3-split-privilege/broker/src/job.rs:158-198 | The committed number never exceeds the log, and ends exactly one behind when the last commit succeeds. |
| `Resume.LogOnlyGrows` | spikes/s3-split-privilege/broker/src/job.rs:217-244 | Along a run the log, the committed number and the highest number received only grow. |
| `Resume.ReceivedIsContiguous` | spikes/s3-split-privilege/ui/Program.cs:331-350 | What a client has received is the part of the log right after the number it resumed from, with no gap. |
| `Resume.ReceiptIsNextOrAgain` | spikes/s3-split-privilege/ui/Program.cs:315-350 | Across deaths and reconnections each event received is the next after the highest so far, or that one once more: at most one replay, never a gap. |
| `Resume.NothingIsSkipped` | spikes/s3-split-privilege/ui/Program.cs:315-370 | Every event up to the highest number received has been received by some client. |
| `Resume.CompleteStreamIsWhole` | spikes/s3-split-privilege/broker/src/main.rs:558-564 | When the server reports a stream complete, its client has been sent the log to its end. |
| `Resume.DatabaseReplaysTheCompletion` | spikes/s3-split-privilege/broker/src/job.rs:185-198 | Resuming from the committed number of a finished job replays the completion and nothing else. |
| `Resume.ResumedAtTheEndHearsNothing` | spikes/s3-split-privilege/ui/Program.cs:331-357 | A client that persisted the completion itself receives nothing when it resumes. |
| `Completion.EveryStreamCanComplete` | spikes/s3-split-privilege/broker/src/main.rs:538-566 | From every state of every run the connected client can be served to the end of the job: some steps, none a death or a reconnection, end with the stream complete and every event since it began received and recorded. |
| `Completion.CommitsExactly` | spikes/s3-split-privilege/broker/src/job.rs:158-198 | The database's number moves only when a commit succeeds, and then to the last event in the log. |
| `Completion.NextIsProgress` | spikes/s3-split-privilege/broker/src/main.rs:538-566 | Until then the next thing to record, receive, produce or send can be done, and leaves less to do. |
| `Draft.ListedAncestors` | tools/observe/src/suggest.rs:1423-1432 | Walking one candidate's separators finds an ancestor exactly when some listed name is one. |
| `Draft.Gather` | tools/observe/src/suggest.rs:1467-1486 | The loop gathers the added, attributed keys with every view each was seen in, and counts the added ones nothing claims. |
| `Draft.AddedHolds` | tools/observe/src/suggest.rs:1473-1486 | A key has a view exactly when some added, attributed change names it so in the native view. |
| `Locations.ViewOfKey` | tools/observe/src/suggest.rs:1434-1456 | A 64-bit key below `WOW6432Node`, in any case, is the 32-bit key it stands for, and any other is itself. |
| `Locations.ViewExactly` | tools/observe/src/suggest.rs:1511-1546 | An entry is given the one view all it covers was seen in, and both if it was seen in both or neither. |
| `Locations.AddedExactly` | tools/observe/src/suggest.rs:1473-1486 | A key is gathered in a view if and only if some added, claimed change is drafted so. |
| `Draft.ScanViews` | tools/observe/src/suggest.rs:1511-1521 | The range scan from `key\` to the first key without that prefix gives exactly the views of the key and of everything below it. |
| `Draft.RegistryEntries` | tools/observe/src/suggest.rs:1495-1546 | The entries of the draft, and the roots the deny-list refused. |
| `Draft.EntriesAreRoots` | tools/observe/src/suggest.rs:1495-1546 | An entry is drafted exactly for each allowed key no other added key contains, under the views anything below it was seen in. |
| `Draft.OneRoot` | tools/observe/src/suggest.rs:1428-1432 | No key is below two kept roots. |
| `Draft.EveryKeyIsCovered` | tools/observe/src/suggest.rs:1500-1546 | Every added key is below exactly one kept root, and that entry's view includes the view the key was seen in, if and only if it is one of the two Windows has or the entry takes both. |
| `Draft.NarrowedIsObserved` | tools/observe/src/suggest.rs:1522-1539 | An entry is narrowed to one view only when nothing below its root was seen in the other. |
| `Locations.MachineFolders` | tools/observe/src/suggest.rs:1569-1596 | A path in one of the machine's four folders, in any case, is drafted below that folder's variable. |
| `Locations.ProfileFolders` | tools/observe/src/suggest.rs:1576-1588 | In a profile the two application folders have variables of their own, |
| `Locations.OtherProfileFolders` | tools/observe/src/suggest.rs:1576-1588 | and all else is below `%PUBLIC%` or `%USERPROFILE%`: the name is never kept. |
| `Locations.OtherPaths` | tools/observe/src/suggest.rs:1589-1596 | Any other path is drafted as it is. |
| `Templates.TemplatedLeadsBack` | tools/observe/src/suggest.rs:1570-1617 | The template of a path has one expansion on the validating machine, the same path up to case with only the profile's name and drive replaced, if and only if what the template keeps of the path holds no `%`; the profile's name may be the redactor's `%USER%`. |
| `Expand.ExpansionsArePlain` | core/src/catalog/expand.rs:86-127 | No `%` of a template is left in an expansion of it. |
| `DraftedPaths.RelocatedIsSafe` | core/src/safety/denylist.rs:622-700 | A path in a profile that the deny-list allows is allowed in any other, wherever it climbs: no rule depends on the profile's name. |
| `DraftEntry.PathEntries` | tools/observe/src/suggest.rs:1334-1420 | The directories that gained a claimed file, collapsed to those below no other, checked against the deny-list and templated, with the unclaimed files counted. |
| `DraftEntry.PathsAreRoots` | tools/observe/src/suggest.rs:1334-1420 | A path is drafted exactly for each allowed directory that directly gained a claimed file, in the footprint or the residue, and that lies in no other such directory. |
| `DraftEntry.DraftScoped` | tools/observe/src/suggest.rs:230-325 | The drafted entry: its paths and keys under the carve-outs its own drivers and services earn. |
| `RedactedText.FirstProfileIsMasked` | tools/observe/src/redact.rs:803-838 | The first name after a `Users` folder, in any case, becomes `%USER%` unless it is one of four that are nobody's, masked or empty; the rest follows suit. |
| `RedactedText.FirstIdentifierIsMasked` | tools/observe/src/redact.rs:860-898 | The first identifier of a domain becomes its placeholder, however long it is; the rest follows suit. |
| `RedactedText.DomainsAre` | tools/observe/src/redact.rs:848-858 | The domains masked are those of machine accounts and identity stores, in turn. |
| `RedactedText.MaskedIdentifierStays` | tools/observe/src/redact.rs:880-886 | One that is masked already stays. |
| `Redact.ReplaceUserProfiles` | tools/observe/src/redact.rs:803-838 | The cursor loop over `\users\` masks exactly the names that are not empty, shared or already masked, and answers nothing when there is none. |
| `Redact.ProfilePassIsCompleteAndIdempotent` | tools/observe/src/redact.rs:803-838 | After the pass no `\users\`, in any case, is followed by a person's name; it changes a text exactly when one was; a second run changes nothing. |
| `RedactSids.ReplaceSidDomain` | tools/observe/src/redact.rs:860-898 | The cursor loop over one prefix replaces each identifier's digits and passes over what is already replaced. |
| `RedactSids.ReplaceSids` | tools/observe/src/redact.rs:848-858 | Both passes in turn, each over what the last left, with the placeholders of exactly the domains that hit. |
| `RedactSids.RedactedStays` | tools/observe/src/redact.rs:848-898 | A pass over one domain leaves what another pass redacted redacted. |
| `RedactSids.SidPassesAreCompleteAndIdempotent` | tools/observe/src/redact.rs:840-898 | After the passes every identifier of either domain is followed by its placeholder's ending, and a second run changes nothing. |
| `Audit.EntryAudit.LookAtService` | core/src/scan/engine.rs:200-245 | What the service manager or the key says of a service, pushed once: found, disbelieved, unreadable or nothing. |
| `Audit.EntryAudit.LookAtDriver` | core/src/scan/engine.rs:276-344 | Every registration of a driver's file name, or its unregistered image, judged by its signature when on disk. |
| `Audit.EntryAudit.LookAtKey` | core/src/scan/engine.rs:346-372 | A key in one view is protected, found, unreadable or nothing. |
| `Audit.EntryAudit.LookAtPath` | core/src/scan/engine.rs:382-424 | A path is nothing, unreadable, protected (a link always) or found, judged when it is signable. |
| `Audit.EntryAudit.SettleAll` | core/src/scan/engine.rs:427-458 | Each artifact goes to the report with its own judgement or the entry's. |
| `Audit.EntryAudit.Run` | core/src/scan/engine.rs:166-182 | The entry's report is appended to what the report held. |
| `Images.SpelledImageIsRead` | core/src/scan/engine.rs:526-555 | Every text that means an image is read as that image: bare or in quotes, with anything after its extension, as a plain path, in the NT namespace, or below the system's root by either name or by none. |
| `Images.ArgumentsAreLeftOut` | core/src/scan/engine.rs:531-541 | What stands before an image and follows its extension is left out; |
| `Images.QuotesAreLeftOut` | core/src/scan/engine.rs:530-532 | a quoted one is what stands between the quotes. |
| `Images.BareTextIsRead` | core/src/scan/engine.rs:533-541 | Without an extension the whole text is the image, |
| `Images.OpenQuote` | core/src/scan/engine.rs:528-530 | and an open quote runs to the end. |
| `Images.ImageBelow` | core/src/scan/engine.rs:533-541 | An image below a folder without a dot is an image, so the forms above take any. |
| `Images.RegisteredByItsImage` | core/src/scan/engine.rs:276-344 | A driver key registers a file if and only if the image it means is called that, and is reported with that image and whether it is there. |
| `Images.SpellingMovesNoDriver` | core/src/scan/engine.rs:276-344 | However the driver keys' images are written, the audit says the same of a driver, |
| `Images.SpellingMovesNoJudgement` | core/src/scan/engine.rs:247-274 | and judges a service alike. |
| `MachineReads.HeaderExactly` | core/src/scan/engine.rs:89-127 | Before any entry the report holds just what the machine's own lists could not show. |
| `MachineReads.EntriesExactly` | core/src/scan/engine.rs:127-141 | After that, all that each entry's own report says, and nothing else. |
| `MachineReads.ContextIs` | core/src/scan/engine.rs:127-139 | Each is audited under its own carve-outs, with every driver key that was read. |
| `MachineReads.ViewsExactly` | core/src/scan/engine.rs:460-472 | A key is read in the view its entry gives, and in both only below the machine's `SOFTWARE`. |
| `MachineReads.SignableExactly` | core/src/scan/engine.rs:561-567 | A file is worth a signature if and only if it ends in one of four extensions, in any case. |
| `MachineReads.SystemRootIs` | core/src/scan/engine.rs:80-84 | The system's root is the first value of its variable, or the default. |
| `MachineReads.ValuesInAnyCase` | core/src/scan/engine.rs:74-78 | A variable's values are found by its name in any case. |
| `MachineReads.FileNameExactly` | core/src/scan/engine.rs:557-559 | A file's name is what follows its last separator, if anything does. |
| `MachineReads.AttestationIs` | core/src/scan/engine.rs:474-521 | Each kind of signature is judged as the source judges it, Microsoft's attestation by its own name. |
| `Audit.AuditCatalog` | core/src/scan/engine.rs:89-142 | The report is what could not be listed, then each entry's results in catalog order. |
| `Audit.AuditIsLocal` | core/src/scan/engine.rs:127-141 | Auditing two catalogs as one gives the results of each, one after the other. |
| `Audit.KeyIsAccounted` | core/src/scan/engine.rs:346-372 | A key in a view ends as at most one thing, and as nothing exactly when it is allowed and the machine says absent. |
| `Audit.PathIsAccounted` | core/src/scan/engine.rs:382-424 | So does a path: nothing exactly when absent, unreadable exactly when the machine could not say. |
| `Audit.AuditAccounts` | core/src/scan/engine.rs:166-182 | What an entry's report holds adds up to what the machine answered about everything the entry declares, drivers included: nothing for what is absent, one thing for anything else, one for each key that registers a driver. |
| `Audit.LooksAreTheEntrys` | core/src/scan/engine.rs:166-182 | An entry's audit looks at each of its keys in each of its views and at each expansion of each template, and at no other key or path. |
| `Audit.KeyIsReported` | core/src/scan/engine.rs:346-372 | Each key of an entry in each of its views is in the report as protected, found or unreadable, unless allowed and absent. |
| `Audit.PathIsReported` | core/src/scan/engine.rs:374-424 | So is each expansion of each of its templates, unless absent; one nobody could look at makes the report partial. |
| `Audit.ServiceIsReported` | core/src/scan/engine.rs:200-245 | Each service of an entry is unreadable, disbelieved, found as the manager or its key has it, or, with neither, not found at all. |
| `Audit.DriverIsReported` | core/src/scan/engine.rs:276-344 | A driver is found exactly for each key that registers its file or, with none, for its file on disk; an image nobody could look at is unreadable. |
| `Audit.ProtectedIsRefused` | core/src/scan/engine.rs:346-424 | What a report lists as protected is exactly the entry's refused keys and the refused places its templates lead to. |
| `Audit.FindingsAreDeclared` | core/src/scan/engine.rs:166-182 | And every finding is of a service, driver, key or expansion its own entry declares. |
| `Audit.FindingsPass` | core/src/scan/engine.rs:346-424 | Every path or key found passes the deny-list under its own entry's carve-outs and is on the machine; a link is never found. |
| `Audit.SettledByTheFiles` | core/src/scan/engine.rs:426-458 | In an entry's report a finding with a file of its own is what that file's signature says; one without is confirmed if and only if some found file is signed by a publisher the entry names and none is unsigned, badly signed or another's. |
| `Machine.JudgementIsSigned` | core/src/scan/engine.rs:474-521 | Only a named publisher's own verified signature confirms, Microsoft's attestation never does, and an unchecked signature is never suspicious. |
| `EndToEnd.CaseDoesNotMoveAVerdict` | core/src/safety/denylist.rs:605-700 | The verdict on a path, with the reason it is denied for or the error it is not read with, does not depend on its letter case, when a catalog is loaded or, read back from a handle, when something is removed. |
| `TemplatePercents.CheckedTemplateHasOneRoot` | core/src/catalog/validate.rs:456-503 | A template the check passes is rooted once: at one drive of its own with no `%`, or at one variable with no drive. |
| `TemplatePercents.PercentIsRefused` | tools/observe/src/suggest.rs:1569-1592 | The template of an allowed path never passes the check while it keeps a `%` of the path's own. |
| `TemplatePercents.LonePercentFails` | tools/observe/src/suggest.rs:1389-1420 | Where that bites: `D:\a\%` is an ordinary allowed directory, and its template cannot be expanded. |
| `EndToEnd.DraftedPathPasses` | tools/observe/src/suggest.rs:1389-1420 | The template of a directory the deny-list allows passes the catalog check, if and only if it keeps no `%` of its own and the directory is also allowed with its profile's name replaced. |
| `EndToEnd.PlainlyDraftedPathPasses` | tools/observe/src/suggest.rs:1389-1420 | Out of a profile, or in one with a plain name, it passes if and only if it keeps no `%` of its own. |
| `EndToEnd.OnlyRelativeProfilesFail` | tools/observe/src/suggest.rs:1598-1610 | Every percent-free allowed path in a profile of a given name passes, if and only if the name is not `.` or `..`. |
| `EndToEnd.DraftedEntryPasses` | tools/observe/src/suggest.rs:230-325 | The catalog check finds nothing in a whole drafted entry, if and only if every directory it keeps passes by those two conditions and no driver or service it declares ships with Windows; no key of a draft is ever refused. |
| `EndToEnd.CheckedKeysAreNeverProtected` | core/src/scan/engine.rs:346-424 | Of a catalog that passed the check, an audit of any machine reports as protected exactly the refused places its templates lead to there, and never a registry key. |
| `EndToEnd.CheckedKeysAreFoundOrAbsent` | core/src/scan/engine.rs:346-372 | Each such key is found, makes the report partial, or is truly absent. |

## Left out

- Win32, SQLite, JSON, TOML, the registry and the file system: the machine is
  a record of answers, a commit is an outcome, a snapshot is a value.
- The texts of errors, evidence, review notes and log lines: outcomes are
  constructors, and a finding carries no evidence sentences.
- The tables of drivers and services Windows ships, of excluded fragments, of
  hardware terms and of personal value names are parameters, so every law
  holds for any table; the deny-list's own pattern tables are written out.
- Byte offsets: text is a sequence of characters, and indices count those.
- Integer width: sizes and sequence numbers are unbounded; the signed and
  unsigned casts of the calendar are modelled.
- The fields of a snapshot and of a catalog that the modelled code does not
  read, such as labels, capture times per domain, tasks and firewall rules.
- Ed25519 verification, the WPF interface, command lines, the report printer
  and the stubs of later stages.
- The attribution heuristics of a draft: which keys an anti-cheat claims is an
  arbitrary predicate, and its drivers and services are given. Its publisher
  choice and review notes are not modelled.
- The redactor's other passes, which are not idempotent together: an e-mail
  pass can leave `b@c` in `a@b@c`, and a name pass can match a placeholder.
  The binary form of the identifier pass is not modelled.
- EPIC manifests and the discovery of launchers.
- More than one life of the broker, an ending in the middle of a commit or of
  writing the session file, the 500 ms timeout as time, and commands other
  than the three that start and resume a stream. Hello and the command after
  it are one step.
- Opening a path and reading it back from its handle, which is what the stage
  that removes canonicalises: any text may come back.
- DiffLaws.ComparedReadsBackwards: coverage is compared as a set of domains and
  a sorted list of refusals, and the shared libraries up to order and letter
  case, because `intersect` and `common` keep the first side's.
- ServiceDiff.EveryServiceIsCompared: requires distinct names in a snapshot, as
  the service control manager gives them.
- EndToEnd.OnlyRelativeProfilesFail: requires a name without `/`, which no
  Windows file name holds; one with it can name two directories.
- IntersectFields.SharedEmptiedKeys: the view of a key holds no NUL, as `32` and
  `64` do not; IntersectFields.SharedKeyChanges is stated of the same keys.
- DiffFields.ValuesReadAlike: requires types without a colon, as the registry's
  are, and two values both recorded or both too large: the text that stands for
  a size can also be a value's data.
- ServiceDiff.DependenciesAreToldApart: requires lists that are not empty, of
  names without `;`: no list and a list of one empty name are joined alike.
- Verdicts.HivesAreRefused: requires a last name without white space at its end,
  which the reading of the whole path trims.
- Audit.EntryAudit.LookThrough: the nested loops of `run` are one loop over the
  list of everything they look at, in their order.
