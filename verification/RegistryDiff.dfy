// The comparison of registry keys in tools/observe/src/diff.rs, under the
// privacy policy: values that differ and nothing else.
module RegistryDiff {
  import opened Prelude
  import opened Ordered
  import opened Text
  import opened Observed
  import opened Policies
  import opened Keyed
  import opened Changes

  datatype RegistryChange = RegistryChange(
    key: string,
    view: string,
    kind: ChangeKind,
    before: Option<RegistryRecord>,
    after: Option<RegistryRecord>,
    fields: seq<FieldChange>)

  // ----- values -----

  function ValueName(): RegistryValue -> string {
    (value: RegistryValue) => value.name
  }

  function ValueIndex(values: seq<RegistryValue>): map<string, RegistryValue> {
    Index(values, ValueName())
  }

  function AsCompared(): RegistryValue -> string {
    (value: RegistryValue) => Comparable(value)
  }

  /** What a record's value of one name is compared by. */
  function Was(values: seq<RegistryValue>, name: string): Option<string> {
    OptionMapped(Look(ValueIndex(values), name), AsCompared())
  }

  function ValueNames(before: seq<RegistryValue>, after: seq<RegistryValue>): seq<string> {
    Names(ValueIndex(before), ValueIndex(after))
  }

  predicate Differs(before: seq<RegistryValue>, after: seq<RegistryValue>, name: string) {
    Was(before, name) != Was(after, name)
  }

  function DifferingNames(before: seq<RegistryValue>, after: seq<RegistryValue>): set<string> {
    DifferingAmong(ValueNames(before, after), before, after)
  }

  function DifferingAmong(names: seq<string>, before: seq<RegistryValue>, after: seq<RegistryValue>): set<string> {
    set name | name in names && Differs(before, after, name)
  }

  lemma DifferingMore(names: seq<string>, name: string, before: seq<RegistryValue>, after: seq<RegistryValue>)
    ensures DifferingAmong(names + [name], before, after)
         == DifferingAmong(names, before, after) + if Differs(before, after, name) then {name} else {}
    ensures DifferingAmong([], before, after) == {}
  {
    hide Differs;
  }

  function ShownName(name: string): string {
    if name == "" then "(default)" else name
  }

  function ValueFieldAt(before: seq<RegistryValue>, after: seq<RegistryValue>): string -> Option<FieldChange> {
    (name: string) =>
      if Differs(before, after, name)
      then Some(FieldChange(ShownName(name), Shown(Was(before, name)), Shown(Was(after, name)))) else None
  }

  function ValueFields(before: seq<RegistryValue>, after: seq<RegistryValue>): seq<FieldChange> {
    Collected(ValueNames(before, after), ValueFieldAt(before, after))
  }

  /** `value_differences`: a loop over the names either record has. */
  method ValueDifferences(before: seq<RegistryValue>, after: seq<RegistryValue>)
    returns (differing: set<string>, fields: seq<FieldChange>)
    ensures differing == DifferingNames(before, after)
    ensures fields == ValueFields(before, after)
  {
    hide Was;
    hide Names;
    DifferingMore([], "", before, after);
    hide DifferingAmong;
    var names := ValueNames(before, after);
    differing, fields := {}, [];
    for i := 0 to |names|
      invariant differing == DifferingAmong(names[..i], before, after)
      invariant fields == Collected(names[..i], ValueFieldAt(before, after))
    {
      var name := names[i];
      assert names[..i + 1] == names[..i] + [name];
      CollectedMore(names[..i], name, ValueFieldAt(before, after));
      DifferingMore(names[..i], name, before, after);
      if Was(before, name) != Was(after, name) {
        differing := differing + {name};
        fields := fields + [FieldChange(ShownName(name), Shown(Was(before, name)), Shown(Was(after, name)))];
      }
    }
    assert names[..|names|] == names;
  }

  lemma NamesAreValues(before: seq<RegistryValue>, after: seq<RegistryValue>, name: string)
    ensures name in ValueNames(before, after) <==> Was(before, name).Some? || Was(after, name).Some?
    ensures name in DifferingNames(before, after) <==> Differs(before, after, name)
  {
    NamesAre(ValueIndex(before), ValueIndex(after));
  }

  /** Nothing to report exactly when every value reads the same. */
  lemma NoFieldsMeansEqual(before: seq<RegistryValue>, after: seq<RegistryValue>)
    ensures ValueFields(before, after) == [] <==> forall name :: !Differs(before, after, name)
  {
    hide Was;
    var names, at := ValueNames(before, after), ValueFieldAt(before, after);
    forall name | Differs(before, after, name) ensures name in names {
      NamesAreValues(before, after, name);
    }
    FirstIsMember(ValueFields(before, after));
    if ValueFields(before, after) != [] {
      CollectedHolds(names, at, ValueFields(before, after)[0]);
    }
    forall name | Differs(before, after, name) ensures ValueFields(before, after) != [] {
      CollectedHolds(names, at, at(name).value);
    }
  }

  // ----- changes -----

  function Named(names: set<string>): RegistryValue -> bool {
    (value: RegistryValue) => value.name in names
  }

  function OtherThan(names: set<string>): RegistryValue -> bool {
    (value: RegistryValue) => value.name !in names
  }

  function OnlyDiffering(record: RegistryRecord, names: set<string>): RegistryRecord {
    record.(values := Retained(record.values, Named(names)))
  }

  /** `modification`: the values that differ, or nothing. */
  function Modification(was: RegistryRecord, now: RegistryRecord): Option<RegistryChange> {
    var names, fields := DifferingNames(was.values, now.values), ValueFields(was.values, now.values);
    if fields == [] then None
    else Some(RegistryChange(now.key, now.view, Modified, Some(OnlyDiffering(was, names)),
                             Some(OnlyDiffering(now, names)), fields))
  }

  function RegistryChangeOf(before: Option<RegistryRecord>, after: Option<RegistryRecord>): Option<RegistryChange> {
    match (before, after)
    case (None, None) => None
    case (None, Some(r)) => Some(RegistryChange(r.key, r.view, Added, None, after, []))
    case (Some(r), None) => Some(RegistryChange(r.key, r.view, Removed, before, None, []))
    case (Some(was), Some(now)) => Modification(was, now)
  }

  type KeyIdentity = (string, string)

  function RegistryOrder(): (KeyIdentity, KeyIdentity) -> bool {
    Lexicographic(Less, Less)
  }

  /** The same key read through two views is two artifacts. */
  function RecordIdentity(): RegistryRecord -> KeyIdentity {
    (record: RegistryRecord) => (LowerAll(record.key), record.view)
  }

  function AdmitAt(policy: Policy): RegistryRecord -> Option<RegistryRecord> {
    (record: RegistryRecord) => Admit(policy, record).record
  }

  /** What the policy allows of a list of records. */
  function AdmittedRecords(policy: Policy, records: seq<RegistryRecord>): seq<RegistryRecord> {
    Collected(records, AdmitAt(policy))
  }

  function RegistryIndex(policy: Policy, records: seq<RegistryRecord>): map<KeyIdentity, RegistryRecord> {
    Index(AdmittedRecords(policy, records), RecordIdentity())
  }

  function RefusedValues(policy: Policy, records: seq<RegistryRecord>): nat {
    if records == [] then 0
    else RefusedValues(policy, records[..|records| - 1]) + Admit(policy, records[|records| - 1]).refusedValues
  }

  function DroppedRecords(policy: Policy, records: seq<RegistryRecord>): nat {
    CollectedLength(records, AdmitAt(policy));
    |records| - |AdmittedRecords(policy, records)|
  }

  /** `admitted_index`: the records the policy allows, and counts of the rest. */
  method AdmittedIndex(policy: Policy, records: seq<RegistryRecord>, records0: nat, values0: nat)
    returns (index: map<KeyIdentity, RegistryRecord>, droppedRecords: nat, refusedValues: nat)
    ensures index == RegistryIndex(policy, records)
    ensures droppedRecords == records0 + DroppedRecords(policy, records)
    ensures refusedValues == values0 + RefusedValues(policy, records)
  {
    CollectedNone(AdmitAt(policy));
    hide Admit; hide LowerAll; hide Collected;
    index, droppedRecords, refusedValues := map[], records0, values0;
    for i := 0 to |records|
      invariant index == RegistryIndex(policy, records[..i])
      invariant droppedRecords == records0 + DroppedRecords(policy, records[..i])
      invariant refusedValues == values0 + RefusedValues(policy, records[..i])
    {
      var record := records[i];
      var admitted := Admit(policy, record);
      assert records[..i + 1] == records[..i] + [record] && records[..i + 1][..i] == records[..i];
      CollectedMore(records[..i], record, AdmitAt(policy));
      refusedValues := refusedValues + admitted.refusedValues;
      if admitted.record.Some? {
        var kept := admitted.record.value;
        IndexMore(AdmittedRecords(policy, records[..i]), kept, RecordIdentity());
        index := index[(LowerAll(kept.key), kept.view) := kept];
      } else {
        droppedRecords := droppedRecords + 1;
      }
    }
    assert records[..|records|] == records;
  }

  function KeyNames(b: map<KeyIdentity, RegistryRecord>, a: map<KeyIdentity, RegistryRecord>): seq<KeyIdentity> {
    TextOrderIsTotal();
    LexicographicIsTotal(Less, Less);
    Ascending(b.Keys + a.Keys, RegistryOrder())
  }

  function RegistryChangeAt(b: map<KeyIdentity, RegistryRecord>, a: map<KeyIdentity, RegistryRecord>)
    : KeyIdentity -> Option<RegistryChange>
  {
    (identity: KeyIdentity) => RegistryChangeOf(Look(b, identity), Look(a, identity))
  }

  function RegistryChanges(b: map<KeyIdentity, RegistryRecord>, a: map<KeyIdentity, RegistryRecord>): seq<RegistryChange> {
    Collected(KeyNames(b, a), RegistryChangeAt(b, a))
  }

  /** `compare_registry`. */
  method CompareRegistry(policy: Policy, before: seq<RegistryRecord>, after: seq<RegistryRecord>)
    returns (changes: seq<RegistryChange>, droppedRecords: nat, refusedValues: nat)
    ensures changes == RegistryChanges(RegistryIndex(policy, before), RegistryIndex(policy, after))
    ensures droppedRecords == DroppedRecords(policy, before) + DroppedRecords(policy, after)
    ensures refusedValues == RefusedValues(policy, before) + RefusedValues(policy, after)
  {
    var b, a;
    b, droppedRecords, refusedValues := AdmittedIndex(policy, before, 0, 0);
    a, droppedRecords, refusedValues := AdmittedIndex(policy, after, droppedRecords, refusedValues);
    changes := RegistryChanges(b, a);
  }

  // ----- the patch law -----

  /** Keeping or dropping values by name keeps or drops them whole. */
  lemma {:induction false} IndexRetained(values: seq<RegistryValue>, keep: RegistryValue -> bool, names: set<string>, kept: bool, name: string)
    requires forall v: RegistryValue :: keep(v) == ((v.name in names) == kept)
    ensures Was(Retained(values, keep), name) == if (name in names) == kept then Was(values, name) else None
  {
    hide Retained; hide Comparable;
    if values == [] {
      RetainedNone(keep);
    } else {
      var n := |values| - 1;
      assert values == values[..n] + [values[n]];
      IndexRetained(values[..n], keep, names, kept, name);
      RetainedMore(values[..n], values[n], keep);
      IndexMore(values[..n], values[n], ValueName());
      IndexMore(Retained(values[..n], keep), values[n], ValueName());
    }
  }

  /** The values a modification is about. */
  function ChangedNames(change: RegistryChange): set<string>
    requires change.before.Some? && change.after.Some?
  {
    (set v | v in change.before.value.values :: v.name) + (set v | v in change.after.value.values :: v.name)
  }

  /** What a change makes of the key it is about: a modification replaces the
      values it carries, on either side, and touches no other. */
  function RegistryEffect(): (Option<RegistryRecord>, RegistryChange) -> Option<RegistryRecord> {
    (was: Option<RegistryRecord>, change: RegistryChange) =>
      if was.Some? && change.before.Some? && change.after.Some? then Some(Patched(was.value, change)) else change.after
  }

  function Patched(was: RegistryRecord, change: RegistryChange): RegistryRecord
    requires change.before.Some? && change.after.Some?
  {
    RegistryRecord(change.key, change.view, Retained(was.values, OtherThan(ChangedNames(change))) + change.after.value.values)
  }

  lemma WasOfConcat(x: seq<RegistryValue>, y: seq<RegistryValue>, name: string)
    ensures Was(x + y, name) == if Was(y, name).Some? then Was(y, name) else Was(x, name)
  {
    IndexConcat(x, y, ValueName(), name);
  }

  lemma WasIsPresent(values: seq<RegistryValue>, name: string)
    ensures Was(values, name).Some? <==> exists v :: v in values && v.name == name
  {
    IndexHolds(values, ValueName());
  }

  /** The names a modification carries are those that differ. */
  lemma ChangedAreDiffering(was: RegistryRecord, now: RegistryRecord)
    requires Modification(was, now).Some?
    ensures ChangedNames(Modification(was, now).value) == DifferingNames(was.values, now.values)
  {
    var change, names := Modification(was, now).value, DifferingNames(was.values, now.values);
    forall name ensures name in ChangedNames(change) <==> name in names {
      NamesAreValues(was.values, now.values, name);
      IndexRetained(was.values, Named(names), names, true, name);
      IndexRetained(now.values, Named(names), names, true, name);
      WasIsPresent(change.before.value.values, name);
      WasIsPresent(change.after.value.values, name);
      hide Was;
    }
  }

  /** The differing values alone carry one key's values to the other's. */
  lemma ModificationSuffices(was: RegistryRecord, now: RegistryRecord, name: string)
    requires Modification(was, now).Some?
    ensures Was(Patched(was, Modification(was, now).value).values, name) == Was(now.values, name)
  {
    ChangedAreDiffering(was, now);
    var names := DifferingNames(was.values, now.values);
    NamesAreValues(was.values, now.values, name);
    IndexRetained(was.values, OtherThan(names), names, false, name);
    IndexRetained(now.values, Named(names), names, true, name);
    WasOfConcat(Retained(was.values, OtherThan(names)), Retained(now.values, Named(names)), name);
    hide Was;
  }

  /** Absent alike, or the same value for value. */
  ghost predicate ValuesAgree(a: Option<RegistryRecord>, b: Option<RegistryRecord>) {
    a.Some? == b.Some? && (a.Some? ==> forall name :: !Differs(a.value.values, b.value.values, name))
  }

  /** Absent alike, or one key in one view, value for value. */
  ghost predicate RecordsAgree(a: Option<RegistryRecord>, b: Option<RegistryRecord>) {
    ValuesAgree(a, b) && (a.Some? && b.Some? ==> EqFold(a.value.key, b.value.key) && a.value.view == b.value.view)
  }

  function ChangeIdentity(): RegistryChange -> KeyIdentity {
    (change: RegistryChange) => (LowerAll(change.key), change.view)
  }

  ghost predicate Identified(index: map<KeyIdentity, RegistryRecord>) {
    forall id :: id in index ==> (LowerAll(index[id].key), index[id].view) == id
  }

  lemma IndexIsIdentified(policy: Policy, records: seq<RegistryRecord>)
    ensures Identified(RegistryIndex(policy, records))
    ensures forall id :: id in RegistryIndex(policy, records) ==> Acceptable(policy, RegistryIndex(policy, records)[id])
  {
    var admitted := AdmittedRecords(policy, records);
    IndexHolds(admitted, RecordIdentity());
    hide Admit;
    hide Acceptable;
    forall r | r in admitted ensures Acceptable(policy, r) {
      CollectedHolds(records, AdmitAt(policy), r);
      var from :| from in records && AdmitAt(policy)(from) == Some(r);
      AdmittedIsAcceptable(policy, from);
    }
  }

  lemma KeyNamesAre(b: map<KeyIdentity, RegistryRecord>, a: map<KeyIdentity, RegistryRecord>)
    ensures NoRepeats(KeyNames(b, a))
    ensures forall id :: id in KeyNames(b, a) <==> id in b || id in a
  {
    TextOrderIsTotal();
    LexicographicIsTotal(Less, Less);
    var ids := KeyNames(b, a);
    forall i, j | 0 <= i < j < |ids| ensures ids[i] != ids[j] {
      assert RegistryOrder()(ids[i], ids[j]);
    }
  }

  lemma ChangeKeepsIdentity(before: Option<RegistryRecord>, after: Option<RegistryRecord>, id: KeyIdentity)
    requires before.Some? ==> RecordIdentity()(before.value) == id
    requires after.Some? ==> RecordIdentity()(after.value) == id
    ensures var change := RegistryChangeOf(before, after); change.Some? ==> ChangeIdentity()(change.value) == id
  {
    hide LowerAll;
    hide ValueFields;
    hide DifferingNames;
  }

  lemma RegistryChangesAreListed(b: map<KeyIdentity, RegistryRecord>, a: map<KeyIdentity, RegistryRecord>)
    requires Identified(b) && Identified(a)
    ensures Lists(RegistryChanges(b, a), KeyNames(b, a), RegistryChangeAt(b, a), ChangeIdentity())
  {
    KeyNamesAre(b, a);
    hide LowerAll;
    hide RegistryChangeOf;
    forall id | id in KeyNames(b, a) && RegistryChangeAt(b, a)(id).Some?
      ensures ChangeIdentity()(RegistryChangeAt(b, a)(id).value) == id
    {
      ChangeKeepsIdentity(Look(b, id), Look(a, id), id);
    }
    CollectedLists(KeyNames(b, a), RegistryChangeAt(b, a), ChangeIdentity());
  }

  /** Applying the changes, which carry only differing values, to the earlier
      keys gives the later ones value for value; and a key has a change exactly
      when some value of it differs. */
  lemma RegistryPatch(policy: Policy, before: seq<RegistryRecord>, after: seq<RegistryRecord>, id: KeyIdentity)
    ensures var b, a := RegistryIndex(policy, before), RegistryIndex(policy, after);
            var changes := RegistryChanges(b, a);
            && RecordsAgree(Look(Applied(b, changes, ChangeIdentity(), RegistryEffect()), id), Look(a, id))
            && ((exists c :: c in changes && ChangeIdentity()(c) == id) <==> !RecordsAgree(Look(b, id), Look(a, id)))
  {
    IndexIsIdentified(policy, before);
    IndexIsIdentified(policy, after);
    hide RegistryIndex;
    hide RegistryChanges;
    var b, a := RegistryIndex(policy, before), RegistryIndex(policy, after);
    RegistryChangesAreListed(b, a);
    RegistryPatchAt(b, a, RegistryChanges(b, a), id);
  }

  lemma RegistryPatchAt(b: map<KeyIdentity, RegistryRecord>, a: map<KeyIdentity, RegistryRecord>,
                        changes: seq<RegistryChange>, id: KeyIdentity)
    requires Lists(changes, KeyNames(b, a), RegistryChangeAt(b, a), ChangeIdentity()) && Identified(b) && Identified(a)
    ensures RecordsAgree(Look(Applied(b, changes, ChangeIdentity(), RegistryEffect()), id), Look(a, id))
    ensures (exists c :: c in changes && ChangeIdentity()(c) == id) <==> !RecordsAgree(Look(b, id), Look(a, id))
  {
    hide LowerAll; hide Differs; hide RegistryChangeOf; hide Applied;
    KeyNamesAre(b, a);
    AppliedEverywhere(b, changes, KeyNames(b, a), RegistryChangeAt(b, a), ChangeIdentity(), RegistryEffect(), id);
    ListedAt(changes, KeyNames(b, a), RegistryChangeAt(b, a), ChangeIdentity(), id);
    RegistryEffectAgrees(Look(b, id), Look(a, id));
  }

  lemma RegistryEffectAgrees(before: Option<RegistryRecord>, after: Option<RegistryRecord>)
    ensures var change := RegistryChangeOf(before, after);
            && (change.Some? <==> !ValuesAgree(before, after))
            && (change.Some? ==> ValuesAgree(RegistryEffect()(before, change.value), after))
            && (change.Some? && after.Some? ==>
                  var now := RegistryEffect()(before, change.value);
                  now.Some? && now.value.key == after.value.key && now.value.view == after.value.view)
  {
    if before.Some? && after.Some? {
      NoFieldsMeansEqual(before.value.values, after.value.values);
      if Modification(before.value, after.value).Some? {
        forall name ensures !Differs(Patched(before.value, Modification(before.value, after.value).value).values, after.value.values, name) {
          ModificationSuffices(before.value, after.value, name);
        }
      }
    }
    hide Was;
  }

  // ----- the other way round -----

  function ReverseRegistry(): RegistryChange -> RegistryChange {
    (change: RegistryChange) =>
      RegistryChange(change.key, change.view, Flip(change.kind), change.after, change.before, Swapped(change.fields))
  }

  lemma ValueFieldsSwapped(before: seq<RegistryValue>, after: seq<RegistryValue>)
    ensures ValueFields(after, before) == Swapped(ValueFields(before, after))
    ensures DifferingNames(after, before) == DifferingNames(before, after)
  {
    hide Was;
    assert ValueIndex(before).Keys + ValueIndex(after).Keys == ValueIndex(after).Keys + ValueIndex(before).Keys;
    assert ValueNames(before, after) == ValueNames(after, before);
    CollectedMapped(ValueNames(before, after), ValueFieldAt(before, after), ValueFieldAt(after, before), Swap);
    assert forall name :: Differs(before, after, name) == Differs(after, before, name);
  }

  lemma RegistryChangeReversed(before: Option<RegistryRecord>, after: Option<RegistryRecord>)
    requires before.Some? && after.Some? ==> before.value.view == after.value.view
    ensures RegistryChangeOf(after, before) == OptionMapped(RegistryChangeOf(before, after), ReverseRegistry())
        <==> (before.Some? && after.Some? && RegistryChangeOf(before, after).Some? ==> before.value.key == after.value.key)
  {
    hide ValueFields; hide DifferingNames; hide OnlyDiffering; hide Flip;
    FlipTwice();
    if before.Some? && after.Some? {
      ValueFieldsSwapped(before.value.values, after.value.values);
    }
  }

  /** A key written with one letter case on both sides, where both have it and
      differ. */
  ghost predicate SameKeys(b: map<KeyIdentity, RegistryRecord>, a: map<KeyIdentity, RegistryRecord>) {
    forall id :: id in b && id in a && RegistryChangeAt(b, a)(id).Some? ==> b[id].key == a[id].key
  }

  /** Comparing the other way round is reading the changes backwards, exactly
      when every modified key is spelled alike on both sides. */
  lemma RegistrySymmetry(policy: Policy, before: seq<RegistryRecord>, after: seq<RegistryRecord>)
    ensures var b, a := RegistryIndex(policy, before), RegistryIndex(policy, after);
            RegistryChanges(a, b) == Mapped(RegistryChanges(b, a), ReverseRegistry()) <==> SameKeys(b, a)
  {
    IndexIsIdentified(policy, before);
    IndexIsIdentified(policy, after);
    hide RegistryIndex;
    RegistrySymmetryOf(RegistryIndex(policy, before), RegistryIndex(policy, after));
  }

  lemma RegistrySymmetryOf(b: map<KeyIdentity, RegistryRecord>, a: map<KeyIdentity, RegistryRecord>)
    requires Identified(b) && Identified(a)
    ensures RegistryChanges(a, b) == Mapped(RegistryChanges(b, a), ReverseRegistry()) <==> SameKeys(b, a)
  {
    assert b.Keys + a.Keys == a.Keys + b.Keys;
    KeyNamesAre(b, a);
    RegistryChangesAreListed(b, a);
    RegistryChangesAreListed(a, b);
    hide LowerAll;
    hide RegistryChangeOf;
    CollectedCorrespond(KeyNames(b, a), RegistryChangeAt(b, a), RegistryChangeAt(a, b), ReverseRegistry(), ChangeIdentity());
    forall id | id in KeyNames(b, a)
      ensures RegistryChangeAt(a, b)(id) == OptionMapped(RegistryChangeAt(b, a)(id), ReverseRegistry())
         <==> (id in b && id in a && RegistryChangeAt(b, a)(id).Some? ==> b[id].key == a[id].key)
    {
      RegistryChangeReversed(Look(b, id), Look(a, id));
    }
  }

  lemma OneKey(policy: Policy, record: RegistryRecord)
    requires Acceptable(policy, record)
    ensures RegistryIndex(policy, [record]) == map[RecordIdentity()(record) := record]
  {
    AcceptableIsAdmitted(policy, record);
    hide Admit; hide Acceptable; hide LowerAll;
    assert [] + [record] == [record];
    CollectedMore([], record, AdmitAt(policy));
    CollectedNone(AdmitAt(policy));
    IndexMore([], record, RecordIdentity());
  }

  /** It is not, for one key written in two letter cases of which a value
      changed. */
  lemma RecasedKeyReadsOneWay(policy: Policy, was: RegistryRecord, now: RegistryRecord, name: string)
    requires Acceptable(policy, was) && Acceptable(policy, now) && EqFold(was.key, now.key) && was.view == now.view
    requires was.key != now.key && Differs(was.values, now.values, name)
    ensures var b, a := RegistryIndex(policy, [was]), RegistryIndex(policy, [now]);
            RegistryChanges(a, b) != Mapped(RegistryChanges(b, a), ReverseRegistry())
  {
    OneKey(policy, was);
    OneKey(policy, now);
    hide RegistryIndex; hide RegistryChanges; hide Acceptable; hide Differs;
    NoFieldsMeansEqual(was.values, now.values);
    hide ValueFields; hide DifferingNames;
    RegistrySymmetry(policy, [was], [now]);
    var b, a, id := RegistryIndex(policy, [was]), RegistryIndex(policy, [now]), RecordIdentity()(was);
    assert id in b && id in a && b[id] == was && a[id] == now;
    assert RegistryChangeAt(b, a)(id).Some?;
  }

  lemma RecasedKeyExists() returns (policy: Policy, was: RegistryRecord, now: RegistryRecord)
    ensures Acceptable(policy, was) && Acceptable(policy, now) && EqFold(was.key, now.key) && was.view == now.view
    ensures was.key != now.key && Differs(was.values, now.values, "v")
  {
    policy := Policy([], [], [], []);
    was := RegistryRecord("K", "64", [RegistryValue("v", "REG_SZ", "", None)]);
    now := RegistryRecord("k", "64", []);
    assert LowerAll("K") == "k" && LowerAll("k") == "k";
    IndexMore([], was.values[0], ValueName());
    assert [] + was.values == was.values && [was.values[0]] == was.values;
    assert Was(was.values, "v").Some? && Was(now.values, "v").None?;
  }

  // ----- what is refused leaves no trace -----

  /** The fields a change has when they are those of the records it carries. */
  function OwnFields(change: RegistryChange): seq<FieldChange> {
    if change.before.Some? && change.after.Some? then ValueFields(change.before.value.values, change.after.value.values) else []
  }

  lemma TrimmedValues(values: seq<RegistryValue>, names: set<string>)
    ensures forall name :: name in ValueIndex(Retained(values, Named(names))) <==> name in names && name in ValueIndex(values)
    ensures forall name :: name in names ==> Was(Retained(values, Named(names)), name) == Was(values, name)
  {
    forall name ensures Was(Retained(values, Named(names)), name) == if name in names then Was(values, name) else None {
      IndexRetained(values, Named(names), names, true, name);
    }
    forall name ensures name in ValueIndex(Retained(values, Named(names))) <==> name in names && name in ValueIndex(values) {
      assert Was(Retained(values, Named(names)), name) == if name in names then Was(values, name) else None;
    }
  }

  /** The values that differ are told apart as the whole keys are. */
  lemma TrimmedFields(was: seq<RegistryValue>, now: seq<RegistryValue>)
    ensures var names := DifferingNames(was, now);
            ValueFields(Retained(was, Named(names)), Retained(now, Named(names))) == ValueFields(was, now)
  {
    var names := DifferingNames(was, now);
    var w, n := Retained(was, Named(names)), Retained(now, Named(names));
    TrimmedValues(was, names);
    TrimmedValues(now, names);
    forall name ensures name in names <==> Differs(was, now, name) { NamesAreValues(was, now, name); }
    TextOrderIsTotal();
    var all, some := ValueIndex(was).Keys + ValueIndex(now).Keys, ValueIndex(w).Keys + ValueIndex(n).Keys;
    var differing: string -> bool := name => name in names;
    forall name ensures name in some <==> name in all && differing(name) {
    }
    hide DifferingNames; hide Retained; hide ValueIndex; hide StrictTotal; hide Ascends; hide Was;
    AscendingRetained(all, some, differing, Less);
    CollectedRetained(Ascending(all, Less), ValueFieldAt(was, now), differing);
    CollectedSame(Ascending(some, Less), ValueFieldAt(was, now), ValueFieldAt(w, n));
  }

  /** A change that names no excluded key and shows no refused value: in its own
      key, in the records it carries, and in its fields, which are theirs. */
  ghost predicate ChangeAcceptable(policy: Policy, change: RegistryChange) {
    && (change.before.Some? ==> Acceptable(policy, change.before.value))
    && (change.after.Some? ==> Acceptable(policy, change.after.value))
    && !ExcludedKey(policy, change.key)
    && change.fields == OwnFields(change)
  }

  lemma ChangeOfAcceptable(policy: Policy, before: Option<RegistryRecord>, after: Option<RegistryRecord>)
    requires before.Some? ==> Acceptable(policy, before.value)
    requires after.Some? ==> Acceptable(policy, after.value)
    ensures var change := RegistryChangeOf(before, after); change.Some? ==> ChangeAcceptable(policy, change.value)
  {
    hide ExcludedKey;
    hide Refused;
    hide DifferingNames;
    hide ValueFields;
    if before.Some? && after.Some? {
      TrimmedFields(before.value.values, after.value.values);
    }
  }

  /** No change of a comparison names an excluded key or shows a refused value. */
  lemma ChangesAreAcceptable(policy: Policy, before: seq<RegistryRecord>, after: seq<RegistryRecord>, change: RegistryChange)
    requires change in RegistryChanges(RegistryIndex(policy, before), RegistryIndex(policy, after))
    ensures ChangeAcceptable(policy, change)
  {
    IndexIsIdentified(policy, before);
    IndexIsIdentified(policy, after);
    hide RegistryIndex; hide Acceptable; hide ChangeAcceptable; hide RegistryChangeOf;
    var b, a := RegistryIndex(policy, before), RegistryIndex(policy, after);
    CollectedHolds(KeyNames(b, a), RegistryChangeAt(b, a), change);
    var id :| id in KeyNames(b, a) && RegistryChangeAt(b, a)(id) == Some(change);
    ChangeOfAcceptable(policy, Look(b, id), Look(a, id));
  }

  /** Two ways a snapshot may differ from another only in what is refused: a
      record the policy drops, and a value it refuses. */
  ghost predicate SeenAlike(policy: Policy, records: seq<RegistryRecord>, others: seq<RegistryRecord>) {
    AdmittedRecords(policy, records) == AdmittedRecords(policy, others)
  }

  lemma DroppedRecordIsUnseen(policy: Policy, x: seq<RegistryRecord>, record: RegistryRecord, y: seq<RegistryRecord>)
    requires ExcludedKey(policy, record.key)
          || (record.values != [] && forall v :: v in record.values ==> Refused(policy, v))
    ensures SeenAlike(policy, x + [record] + y, x + y)
  {
    hide ExcludedKey;
    hide Refused;
    FirstIsMember(Retained(record.values, Keeps(policy)));
    assert Admit(policy, record).record == None;
    hide Admit;
    CollectedMore(x, record, AdmitAt(policy));
    CollectedConcat(x + [record], y, AdmitAt(policy));
    CollectedConcat(x, y, AdmitAt(policy));
  }

  lemma AdmittedIs(policy: Policy, record: RegistryRecord)
    ensures var values := Retained(record.values, Keeps(policy));
            Admit(policy, record).record
            == if ExcludedKey(policy, record.key) || (record.values != [] && values == []) then None
               else Some(record.(values := values))
  {
    hide ExcludedKey;
    hide Refused;
    RetainedAll(record.values, Keeps(policy));
  }

  /** One refused value more, anywhere in a record, makes no difference to what
      is admitted exactly when the record is dropped anyway or has some other
      value: a record with no value of its own is kept, and one whose only
      value is refused is not. */
  lemma RefusedValueMakesNoDifference(policy: Policy, record: RegistryRecord,
                                      v: seq<RegistryValue>, refused: RegistryValue, w: seq<RegistryValue>)
    requires record.values == v + w && Refused(policy, refused)
    ensures Admit(policy, record.(values := v + [refused] + w)).record == Admit(policy, record).record
       <==> ExcludedKey(policy, record.key) || record.values != []
  {
    var more := record.(values := v + [refused] + w);
    AdmittedIs(policy, record);
    AdmittedIs(policy, more);
    hide ExcludedKey;
    hide Refused;
    hide Admit;
    RetainedConcat(v, w, Keeps(policy));
    RetainedConcat(v + [refused], w, Keeps(policy));
    RetainedMore(v, refused, Keeps(policy));
    assert Retained(more.values, Keeps(policy)) == Retained(record.values, Keeps(policy));
  }

  lemma AdmittedAround(policy: Policy, x: seq<RegistryRecord>, record: RegistryRecord, y: seq<RegistryRecord>)
    ensures AdmittedRecords(policy, x + [record] + y)
         == AdmittedRecords(policy, x) + Listed(Admit(policy, record).record) + AdmittedRecords(policy, y)
  {
    hide Admit;
    CollectedMore(x, record, AdmitAt(policy));
    CollectedConcat(x + [record], y, AdmitAt(policy));
    assert AdmittedRecords(policy, x) + [] == AdmittedRecords(policy, x);
  }

  lemma SameMiddle<T>(x: seq<T>, r: Option<T>, s: Option<T>, y: seq<T>)
    ensures x + Listed(r) + y == x + Listed(s) + y <==> r == s
  {
    if r.Some? && s.Some? {
      assert (x + Listed(r) + y)[|x|] == r.value && (x + Listed(s) + y)[|x|] == s.value;
    } else {
      assert |x + Listed(r) + y| == |x| + |Listed(r)| + |y| && |x + Listed(s) + y| == |x| + |Listed(s)| + |y|;
    }
  }

  /** So a refused value is unseen, among any other records, under exactly that
      condition. */
  lemma RefusedValueIsUnseen(policy: Policy, x: seq<RegistryRecord>, record: RegistryRecord, y: seq<RegistryRecord>,
                             v: seq<RegistryValue>, refused: RegistryValue, w: seq<RegistryValue>)
    requires record.values == v + w && Refused(policy, refused)
    ensures SeenAlike(policy, x + [record.(values := v + [refused] + w)] + y, x + [record] + y)
       <==> ExcludedKey(policy, record.key) || record.values != []
  {
    var more := record.(values := v + [refused] + w);
    RefusedValueMakesNoDifference(policy, record, v, refused, w);
    AdmittedAround(policy, x, record, y);
    AdmittedAround(policy, x, more, y);
    hide Admit; hide ExcludedKey; hide Refused;
    SameMiddle(AdmittedRecords(policy, x), Admit(policy, more).record, Admit(policy, record).record, AdmittedRecords(policy, y));
  }

  /** The condition can fail: a key with nothing in it is compared, and the same
      key with only a refused value in it is not. */
  lemma LoneRefusedValueIsSeen(policy: Policy, key: string, view: string, value: RegistryValue)
    requires Refused(policy, value) && !ExcludedKey(policy, key)
    ensures !SeenAlike(policy, [RegistryRecord(key, view, [value])], [RegistryRecord(key, view, [])])
  {
    var empty := RegistryRecord(key, view, []);
    RefusedValueIsUnseen(policy, [], empty, [], [], value, []);
    hide SeenAlike; hide Refused; hide ExcludedKey;
    assert [] + [empty] + [] == [empty] && [] + [value] + [] == [value];
    assert [] + [empty.(values := [value])] + [] == [RegistryRecord(key, view, [value])];
  }

  /** A hardware address alone in its key, for one. */
  lemma AddressAloneIsSeen(key: string, data: string)
    ensures !SeenAlike(Policy(["mac"], [], [], []), [RegistryRecord(key, "64", [RegistryValue("mac", "REG_SZ", data, None)])],
                       [RegistryRecord(key, "64", [])])
  {
    var policy, value := Policy(["mac"], [], [], []), RegistryValue("mac", "REG_SZ", data, None);
    assert "mac" in policy.terms && LowerAll("mac") == "mac" && "mac"[0..] == "mac";
    assert Holds("mac", "mac");
    assert IsHardwareIdentity(policy, value.name, value.data);
    LoneRefusedValueIsSeen(policy, key, "64", value);
  }

  lemma {:induction false} AcceptableStay(policy: Policy, records: seq<RegistryRecord>)
    requires forall r :: r in records ==> Acceptable(policy, r)
    ensures AdmittedRecords(policy, records) == records && RefusedValues(policy, records) == 0
  {
    hide Admit; hide Acceptable;
    if records != [] {
      var n := |records| - 1;
      assert records == records[..n] + [records[n]];
      AcceptableStay(policy, records[..n]);
      CollectedMore(records[..n], records[n], AdmitAt(policy));
      AcceptableIsAdmitted(policy, records[n]);
    }
  }

  /** The changes are those of the admitted records alone: cleaning a snapshot
      first leaves nothing to drop and changes nothing. */
  lemma CleaningFirstChangesNothing(policy: Policy, records: seq<RegistryRecord>)
    ensures var clean := AdmittedRecords(policy, records);
            && SeenAlike(policy, clean, records) && RegistryIndex(policy, clean) == RegistryIndex(policy, records)
            && DroppedRecords(policy, clean) == 0 && RefusedValues(policy, clean) == 0
  {
    var clean := AdmittedRecords(policy, records);
    hide Admit; hide Acceptable;
    forall r | r in clean ensures Acceptable(policy, r) {
      CollectedHolds(records, AdmitAt(policy), r);
      var from :| from in records && AdmitAt(policy)(from) == Some(r);
      AdmittedIsAcceptable(policy, from);
    }
    AcceptableStay(policy, clean);
  }
}
