// The comparison of services in tools/observe/src/diff.rs: the names they are
// matched by, the changes, and what the noise filter sets aside.
module ServiceDiff {
  import opened Prelude
  import opened Ordered
  import opened Text
  import opened Observed
  import opened Keyed
  import opened Changes

  datatype ServiceChange = ServiceChange(
    name: string,
    kind: ChangeKind,
    isDriver: bool,
    isBootStart: bool,
    before: Option<ServiceRecord>,
    after: Option<ServiceRecord>,
    fields: seq<FieldChange>)

  datatype Suppressed = Suppressed(rule: string, change: ServiceChange)

  // ----- fields -----

  /** A display name without the instance suffix its service name carries. */
  function WithoutSuffix(displayName: string, serviceName: string): string {
    var cut := LastIndexOf(serviceName, '_');
    if cut < 0 then displayName
    else
      var suffix := serviceName[cut..];
      if EndsWith(displayName, suffix) then displayName[..|displayName| - |suffix|] else displayName
  }

  function YesNo(b: bool): string {
    if b then "true" else "false"
  }

  const SERVICE_FIELDS: seq<string> :=
    [ "display_name", "service_type", "start_type", "error_control", "binary_path", "load_order_group",
      "start_name", "description", "dependencies", "delayed_auto_start" ]

  /** Two records under different names are instances of one template, and
      their display names carry the suffixes of those names. */
  function Readings(record: ServiceRecord, sameName: bool): (r: seq<string>)
    ensures |r| == |SERVICE_FIELDS|
  {
    [ if sameName then record.displayName else WithoutSuffix(record.displayName, record.name),
      record.serviceType, record.startType, record.errorControl, record.binaryPath, record.loadOrderGroup,
      record.startName, record.description, Join(record.dependencies, ';'), YesNo(record.delayedAutoStart) ]
  }

  /** `field_changes`. */
  function ServiceFields(before: ServiceRecord, after: ServiceRecord): seq<FieldChange> {
    var sameName := before.name == after.name;
    Differences(SERVICE_FIELDS, Readings(before, sameName), Readings(after, sameName))
  }

  /** A display name that ends as the service's own name does, in `_` and a
      suffix, is compared without it. */
  lemma SuffixIsLeftOut(display: string, name: string, suffix: string)
    requires '_' !in suffix
    ensures WithoutSuffix(display + "_" + suffix, name + "_" + suffix) == display
  {
    var full, shown := name + "_" + suffix, display + "_" + suffix;
    assert full[|name|] == '_' && full[|name| + 1..] == suffix;
    forall j | |name| < j < |full| ensures full[j] != '_' {
      assert full[j] == suffix[j - |name| - 1] && suffix[j - |name| - 1] in suffix;
    }
    assert full[|name|..] == "_" + suffix && shown[|display|..] == "_" + suffix;
  }

  /** Any other is compared whole. */
  lemma OtherNamesAreWhole(display: string, name: string)
    requires forall d, n, s :: '_' !in s && name == n + "_" + s ==> display != d + "_" + s
    ensures WithoutSuffix(display, name) == display
  {
    var cut := LastIndexOf(name, '_');
    if cut >= 0 && EndsWith(display, name[cut..]) {
      var s, d := name[cut + 1..], display[..|display| - (|name| - cut)];
      assert name == name[..cut] + "_" + s && display == d + "_" + s;
      assert '_' !in s;
    }
  }

  /** The names two records are shown under, as they are compared. */
  ghost predicate ShownAlike(x: ServiceRecord, y: ServiceRecord) {
    if x.name == y.name then x.displayName == y.displayName
    else WithoutSuffix(x.displayName, x.name) == WithoutSuffix(y.displayName, y.name)
  }

  /** Two records that read the same in each of the ten fields compared. */
  ghost predicate SameService(x: ServiceRecord, y: ServiceRecord) {
    && ShownAlike(x, y)
    && x.serviceType == y.serviceType
    && x.startType == y.startType
    && x.errorControl == y.errorControl
    && x.binaryPath == y.binaryPath
    && x.loadOrderGroup == y.loadOrderGroup
    && x.startName == y.startName
    && x.description == y.description
    && Join(x.dependencies, ';') == Join(y.dependencies, ';')
    && x.delayedAutoStart == y.delayedAutoStart
  }

  lemma YesNoTells(a: bool, b: bool)
    ensures YesNo(a) == YesNo(b) <==> a == b
  {
    assert "true"[0] == 't' && "false"[0] == 'f';
  }

  /** Lists of names without `;` are told apart by their joined text. */
  lemma DependenciesAreToldApart(a: seq<string>, b: seq<string>)
    requires a != [] && b != [] && (forall d :: d in a ==> ';' !in d) && (forall d :: d in b ==> ';' !in d)
    ensures Join(a, ';') == Join(b, ';') <==> a == b
  {
    SplitJoin(a, ';');
    SplitJoin(b, ';');
  }

  /** Two services differ exactly in the fields they read differently in, and
      nothing else of them is compared. */
  lemma ServicesDifferInFields(x: ServiceRecord, y: ServiceRecord)
    ensures ServiceFields(x, y) == [] <==> SameService(x, y)
  {
    hide WithoutSuffix; hide Join; hide Differences; hide LastIndexOf; hide YesNo;
    var sameName := x.name == y.name;
    var was, now := Readings(x, sameName), Readings(y, sameName);
    NoDifferences(SERVICE_FIELDS, was, now);
    YesNoTells(x.delayedAutoStart, y.delayedAutoStart);
    SameReadings(was, now);
  }

  lemma SameReadings(was: seq<string>, now: seq<string>)
    requires |was| == |now| == 10
    ensures was == now <==>
              && was[0] == now[0] && was[1] == now[1] && was[2] == now[2] && was[3] == now[3] && was[4] == now[4]
              && was[5] == now[5] && was[6] == now[6] && was[7] == now[7] && was[8] == now[8] && was[9] == now[9]
  {
  }

  /** Each field that reads differently is told under its own name with its own
      two texts, in one order. */
  lemma ServiceFieldsTell(x: ServiceRecord, y: ServiceRecord)
    ensures var same := x.name == y.name;
            ServiceFields(x, y)
            == Told("display_name", if same then x.displayName else WithoutSuffix(x.displayName, x.name),
                                    if same then y.displayName else WithoutSuffix(y.displayName, y.name))
               + (Told("service_type", x.serviceType, y.serviceType)
               + (Told("start_type", x.startType, y.startType)
               + (Told("error_control", x.errorControl, y.errorControl)
               + (Told("binary_path", x.binaryPath, y.binaryPath)
               + (Told("load_order_group", x.loadOrderGroup, y.loadOrderGroup)
               + (Told("start_name", x.startName, y.startName)
               + (Told("description", x.description, y.description)
               + (Told("dependencies", Join(x.dependencies, ';'), Join(y.dependencies, ';'))
               + (Told("delayed_auto_start", if x.delayedAutoStart then "true" else "false",
                                             if y.delayedAutoStart then "true" else "false") + [])))))))))
  {
    hide WithoutSuffix; hide Join; hide Told; hide Differences;
    var same := x.name == y.name;
    var was, now := Readings(x, same), Readings(y, same);
    TenFields(was, now);
    FieldNames();
  }

  lemma FieldNames()
    ensures SERVICE_FIELDS == [ "display_name", "service_type", "start_type", "error_control", "binary_path",
                                "load_order_group", "start_name", "description", "dependencies", "delayed_auto_start" ]
  {
  }

  lemma TenFields(was: seq<string>, now: seq<string>)
    requires |was| == |now| == |SERVICE_FIELDS|
    ensures var f := SERVICE_FIELDS;
            Differences(f, was, now)
            == Told(f[0], was[0], now[0]) + (Told(f[1], was[1], now[1]) + (Told(f[2], was[2], now[2])
               + (Told(f[3], was[3], now[3]) + (Told(f[4], was[4], now[4]) + (Told(f[5], was[5], now[5])
               + (Told(f[6], was[6], now[6]) + (Told(f[7], was[7], now[7]) + (Told(f[8], was[8], now[8])
               + (Told(f[9], was[9], now[9]) + [])))))))))
  {
    hide Told;
    assert SERVICE_FIELDS[0..] == SERVICE_FIELDS && was[0..] == was && now[0..] == now;
    assert Differences(SERVICE_FIELDS[10..], was[10..], now[10..]) == [];
    hide Differences; hide SERVICE_FIELDS;
    FiveDifferences(SERVICE_FIELDS, was, now, 0);
    FiveDifferences(SERVICE_FIELDS, was, now, 5);
  }

  lemma ServiceFieldsSwapped(before: ServiceRecord, after: ServiceRecord)
    ensures ServiceFields(after, before) == Swapped(ServiceFields(before, after))
  {
    hide Readings;
    var sameName := before.name == after.name;
    DifferencesSwapped(SERVICE_FIELDS, Readings(before, sameName), Readings(after, sameName));
  }

  /** A record differs from itself in nothing. */
  lemma ServiceIsItself(record: ServiceRecord)
    ensures ServiceFields(record, record) == []
  {
    hide Readings;
    NoDifferences(SERVICE_FIELDS, Readings(record, true), Readings(record, true));
  }

  // ----- names -----

  function Occurrences(filter: NoiseFilter, records: seq<ServiceRecord>, name: string): nat {
    if records == [] then 0
    else
      var n := |records| - 1;
      Occurrences(filter, records[..n], name) + if CanonicalName(filter, records[n].name) == name then 1 else 0
  }

  function CanonicalNames(filter: NoiseFilter, records: seq<ServiceRecord>): set<string> {
    set r | r in records :: CanonicalName(filter, r.name)
  }

  /** The canonical names one snapshot holds more than once. */
  function Repeated(filter: NoiseFilter, records: seq<ServiceRecord>): set<string> {
    set name | name in CanonicalNames(filter, records) && Occurrences(filter, records, name) > 1
  }

  function Crowded(filter: NoiseFilter, before: seq<ServiceRecord>, after: seq<ServiceRecord>): set<string> {
    Repeated(filter, before) + Repeated(filter, after)
  }

  /** The counting loop: one counter a canonical name. */
  lemma NoOccurrences(filter: NoiseFilter)
    ensures CanonicalNames(filter, []) == {} && forall name :: Occurrences(filter, [], name) == 0
  {
  }

  lemma OccurrencesMore(filter: NoiseFilter, records: seq<ServiceRecord>, record: ServiceRecord)
    ensures CanonicalNames(filter, records + [record]) == CanonicalNames(filter, records) + {CanonicalName(filter, record.name)}
    ensures forall name :: Occurrences(filter, records + [record], name)
                        == Occurrences(filter, records, name) + if CanonicalName(filter, record.name) == name then 1 else 0
  {
    hide CanonicalName;
    assert (records + [record])[..|records|] == records;
  }

  method CountNames(filter: NoiseFilter, records: seq<ServiceRecord>) returns (names: set<string>)
    ensures names == Repeated(filter, records)
  {
    hide CanonicalName;
    NoOccurrences(filter);
    var counts: map<string, nat> := map[];
    for i := 0 to |records|
      invariant counts.Keys == CanonicalNames(filter, records[..i])
      invariant forall name :: name in counts ==> counts[name] == Occurrences(filter, records[..i], name)
      invariant forall name :: name !in counts ==> Occurrences(filter, records[..i], name) == 0
    {
      var name := CanonicalName(filter, records[i].name);
      assert records[..i + 1] == records[..i] + [records[i]];
      OccurrencesMore(filter, records[..i], records[i]);
      hide Occurrences; hide CanonicalNames;
      counts := counts[name := (if name in counts then counts[name] else 0) + 1];
    }
    assert records[..|records|] == records;
    names := set name | name in counts && counts[name] > 1;
  }

  function IndexName(filter: NoiseFilter, crowded: set<string>, name: string): string {
    if CanonicalName(filter, name) in crowded then name else CanonicalName(filter, name)
  }

  function ServiceKey(filter: NoiseFilter, crowded: set<string>): ServiceRecord -> string {
    (record: ServiceRecord) => IndexName(filter, crowded, record.name)
  }

  function ServiceIndex(filter: NoiseFilter, crowded: set<string>, records: seq<ServiceRecord>): map<string, ServiceRecord> {
    Index(records, ServiceKey(filter, crowded))
  }

  // ----- changes -----

  function ServiceChangeOf(name: string, before: Option<ServiceRecord>, after: Option<ServiceRecord>): Option<ServiceChange> {
    match (before, after)
    case (None, None) => None
    case (None, Some(r)) => Some(ServiceChange(name, Added, IsDriver(r), IsBootStart(r), None, after, []))
    case (Some(r), None) => Some(ServiceChange(name, Removed, IsDriver(r), IsBootStart(r), before, None, []))
    case (Some(was), Some(now)) =>
      var fields := ServiceFields(was, now);
      if fields == [] then None
      else Some(ServiceChange(name, Modified, IsDriver(now), IsBootStart(now), before, after, fields))
  }

  function ServiceChangeAt(before: map<string, ServiceRecord>, after: map<string, ServiceRecord>): string -> Option<ServiceChange> {
    (name: string) => ServiceChangeOf(name, Look(before, name), Look(after, name))
  }

  /** `compare_services`. */
  function ServiceChanges(filter: NoiseFilter, before: seq<ServiceRecord>, after: seq<ServiceRecord>): seq<ServiceChange> {
    var crowded := Crowded(filter, before, after);
    var b, a := ServiceIndex(filter, crowded, before), ServiceIndex(filter, crowded, after);
    Collected(Names(b, a), ServiceChangeAt(b, a))
  }

  method CompareServices(filter: NoiseFilter, before: seq<ServiceRecord>, after: seq<ServiceRecord>)
    returns (changes: seq<ServiceChange>)
    ensures changes == ServiceChanges(filter, before, after)
  {
    var mine := CountNames(filter, before);
    var theirs := CountNames(filter, after);
    var crowded := mine + theirs;
    var b, a := ServiceIndex(filter, crowded, before), ServiceIndex(filter, crowded, after);
    changes := Collected(Names(b, a), ServiceChangeAt(b, a));
  }

  // ----- suppression -----

  function Survives(filter: NoiseFilter): ServiceChange -> bool {
    (change: ServiceChange) => !IsIgnored(filter, change.name)
  }

  function IsNoise(filter: NoiseFilter): ServiceChange -> bool {
    (change: ServiceChange) => IsIgnored(filter, change.name)
  }

  function SetAside(): ServiceChange -> Suppressed {
    (change: ServiceChange) => Suppressed(VOLATILE_SERVICE, change)
  }

  function KeptServices(filter: NoiseFilter, changes: seq<ServiceChange>): seq<ServiceChange> {
    Retained(changes, Survives(filter))
  }

  function SuppressedServices(filter: NoiseFilter, changes: seq<ServiceChange>): seq<Suppressed> {
    Mapped(Retained(changes, IsNoise(filter)), SetAside())
  }

  /** The loop that sets changes aside with the rule that moved them. */
  method Sift(filter: NoiseFilter, changes: seq<ServiceChange>) returns (kept: seq<ServiceChange>, suppressed: seq<Suppressed>)
    ensures kept == KeptServices(filter, changes)
    ensures suppressed == SuppressedServices(filter, changes)
  {
    hide IsIgnored;
    kept, suppressed := [], [];
    for i := 0 to |changes|
      invariant kept == KeptServices(filter, changes[..i])
      invariant suppressed == SuppressedServices(filter, changes[..i])
    {
      assert changes[..i + 1][..i] == changes[..i];
      MappedMore(Retained(changes[..i], IsNoise(filter)), changes[i], SetAside());
      if IsIgnored(filter, changes[i].name) {
        suppressed := suppressed + [Suppressed(VOLATILE_SERVICE, changes[i])];
      } else {
        kept := kept + [changes[i]];
      }
    }
    assert changes[..|changes|] == changes;
  }

  // ----- no service is merged into another -----

  ghost predicate DistinctNames(records: seq<ServiceRecord>) {
    forall i, j :: 0 <= i < j < |records| ==> records[i].name != records[j].name
  }

  /** Some crowded instance carries the very name another instance's template has. */
  ghost predicate Shadowed(filter: NoiseFilter, crowded: set<string>, records: seq<ServiceRecord>) {
    exists x, y :: x in records && y in records
      && CanonicalName(filter, x.name) in crowded && CanonicalName(filter, y.name) !in crowded
      && CanonicalName(filter, y.name) == x.name
  }

  ghost predicate Merges(filter: NoiseFilter, crowded: set<string>, records: seq<ServiceRecord>) {
    exists x, y :: x in records && y in records && x.name != y.name
      && IndexName(filter, crowded, x.name) == IndexName(filter, crowded, y.name)
  }

  lemma {:induction false} OccursOnce(filter: NoiseFilter, records: seq<ServiceRecord>, i: nat)
    requires i < |records|
    ensures Occurrences(filter, records, CanonicalName(filter, records[i].name)) >= 1
  {
    hide CanonicalName;
    if i < |records| - 1 {
      assert records[..|records| - 1][i] == records[i];
      OccursOnce(filter, records[..|records| - 1], i);
    }
  }

  lemma {:induction false} OccursTwice(filter: NoiseFilter, records: seq<ServiceRecord>, i: nat, j: nat)
    requires i < j < |records| && CanonicalName(filter, records[i].name) == CanonicalName(filter, records[j].name)
    ensures Occurrences(filter, records, CanonicalName(filter, records[i].name)) > 1
  {
    hide CanonicalName;
    var n := |records| - 1;
    assert records[..n][i] == records[i];
    if j < n {
      assert records[..n][j] == records[j];
      OccursTwice(filter, records[..n], i, j);
    } else {
      OccursOnce(filter, records[..n], i);
    }
  }

  lemma SharedNameIsCrowded(filter: NoiseFilter, records: seq<ServiceRecord>, x: ServiceRecord, y: ServiceRecord)
    requires x in records && y in records && x.name != y.name
    requires CanonicalName(filter, x.name) == CanonicalName(filter, y.name)
    ensures CanonicalName(filter, x.name) in Repeated(filter, records)
  {
    hide CanonicalName;
    var i :| 0 <= i < |records| && records[i] == x;
    var j :| 0 <= j < |records| && records[j] == y;
    if i < j { OccursTwice(filter, records, i, j); } else { OccursTwice(filter, records, j, i); }
    assert CanonicalName(filter, x.name) in CanonicalNames(filter, records);
  }

  /** Two services of a snapshot share an index entry exactly when one of a
      crowd of instances is named like the uncrowded template of another. */
  lemma ServicesMergeExactlyWhenShadowed(filter: NoiseFilter, before: seq<ServiceRecord>, after: seq<ServiceRecord>,
                                         records: seq<ServiceRecord>)
    requires records == before || records == after
    ensures var crowded := Crowded(filter, before, after);
            Merges(filter, crowded, records) <==> Shadowed(filter, crowded, records)
  {
    hide CanonicalName;
    var crowded := Crowded(filter, before, after);
    if Merges(filter, crowded, records) {
      var x, y :| x in records && y in records && x.name != y.name
        && IndexName(filter, crowded, x.name) == IndexName(filter, crowded, y.name);
      if CanonicalName(filter, x.name) !in crowded && CanonicalName(filter, y.name) !in crowded {
        SharedNameIsCrowded(filter, records, x, y);
      }
    }
    if Shadowed(filter, crowded, records) {
      var x, y :| x in records && y in records
        && CanonicalName(filter, x.name) in crowded && CanonicalName(filter, y.name) !in crowded
        && CanonicalName(filter, y.name) == x.name;
      assert x.name != y.name;
    }
  }

  /** Templates that do not themselves read as instances are never shadowed. */
  lemma StableNamesNeverMerge(filter: NoiseFilter, crowded: set<string>, records: seq<ServiceRecord>)
    requires forall r :: r in records ==>
               CanonicalName(filter, CanonicalName(filter, r.name)) == CanonicalName(filter, r.name)
    ensures !Shadowed(filter, crowded, records)
  {
    hide CanonicalName;
  }

  /** Unless one is shadowed, every service of both snapshots is compared. */
  lemma EveryServiceIsCompared(filter: NoiseFilter, before: seq<ServiceRecord>, after: seq<ServiceRecord>,
                               records: seq<ServiceRecord>, record: ServiceRecord)
    requires records == before || records == after
    requires DistinctNames(records) && record in records
    requires !Shadowed(filter, Crowded(filter, before, after), records)
    ensures var crowded := Crowded(filter, before, after);
            Look(ServiceIndex(filter, crowded, records), IndexName(filter, crowded, record.name)) == Some(record)
  {
    hide CanonicalName;
    var crowded := Crowded(filter, before, after);
    ServicesMergeExactlyWhenShadowed(filter, before, after, records);
    var i :| 0 <= i < |records| && records[i] == record;
    var key := ServiceKey(filter, crowded);
    forall j, k | 0 <= j < k < |records| ensures key(records[j]) != key(records[k]) {
      assert records[j].name != records[k].name;
    }
    IndexHoldsAll(records, key, i);
  }

  lemma InstanceName(filter: NoiseFilter, stem: string, suffix: string)
    requires filter.normalisePerUser && stem != "" && IsInstanceSuffix(suffix)
    ensures CanonicalName(filter, stem + "_" + suffix) == stem
  {
    var name := stem + "_" + suffix;
    assert name[|stem|] == '_' && name[|stem| + 1..] == suffix;
    forall j | |stem| < j < |name| ensures name[j] != '_' {
      assert name[j] == suffix[j - |stem| - 1] && suffix[j - |stem| - 1] in suffix;
    }
  }

  /** It does happen: of `foo_abcd`, `foo_ef01` and `foo_abcd_1234`, the first
      and the last share an entry, and one of them is never compared. */
  lemma NestedInstanceIsMerged(filter: NoiseFilter, stem: string, a: ServiceRecord, b: ServiceRecord, c: ServiceRecord,
                               first: string, second: string, third: string)
    requires filter.normalisePerUser && stem != "" && first != second
    requires IsInstanceSuffix(first) && IsInstanceSuffix(second) && IsInstanceSuffix(third)
    requires a.name == stem + "_" + first && b.name == stem + "_" + second && c.name == a.name + "_" + third
    ensures DistinctNames([a, b, c]) && Merges(filter, Crowded(filter, [a, b, c], []), [a, b, c])
  {
    InstanceName(filter, stem, first);
    InstanceName(filter, stem, second);
    InstanceName(filter, a.name, third);
    assert a.name[|stem| + 1..] == first && b.name[|stem| + 1..] == second;
    NestedInstance(filter, stem, a, b, c);
  }

  lemma NestedInstance(filter: NoiseFilter, stem: string, a: ServiceRecord, b: ServiceRecord, c: ServiceRecord)
    requires CanonicalName(filter, a.name) == stem && CanonicalName(filter, b.name) == stem
    requires CanonicalName(filter, c.name) == a.name && a.name != stem && a.name != b.name
    ensures DistinctNames([a, b, c]) && Merges(filter, Crowded(filter, [a, b, c], []), [a, b, c])
  {
    hide CanonicalName;
    var records := [a, b, c];
    assert a in records && b in records && c in records;
    SharedNameIsCrowded(filter, records, a, b);
    assert a.name !in Repeated(filter, records) by {
      assert records[..2] == [a, b] && [a, b][..1] == [a];
      assert Occurrences(filter, [a], a.name) == 0;
      assert Occurrences(filter, [a, b], a.name) == 0;
    }
    assert a.name !in Crowded(filter, records, []);
    assert Shadowed(filter, Crowded(filter, records, []), records);
    ServicesMergeExactlyWhenShadowed(filter, records, [], records);
  }

  // ----- the patch law -----

  function ServiceName(): ServiceChange -> string {
    (change: ServiceChange) => change.name
  }

  /** What a change makes of the record it is about. */
  function ServiceEffect(): (Option<ServiceRecord>, ServiceChange) -> Option<ServiceRecord> {
    (was: Option<ServiceRecord>, change: ServiceChange) => change.after
  }

  /** Absent alike, or the same in every field that is compared. */
  ghost predicate ServicesAgree(a: Option<ServiceRecord>, b: Option<ServiceRecord>) {
    a.Some? == b.Some? && (a.Some? ==> SameService(a.value, b.value))
  }

  lemma ServiceChangesAreListed(before: map<string, ServiceRecord>, after: map<string, ServiceRecord>, filter: NoiseFilter)
    ensures var changes := Collected(Names(before, after), ServiceChangeAt(before, after));
            && Lists(changes, Names(before, after), ServiceChangeAt(before, after), ServiceName())
            && Lists(KeptServices(filter, changes) + Retained(changes, IsNoise(filter)),
                     Names(before, after), ServiceChangeAt(before, after), ServiceName())
  {
    hide IsIgnored;
    hide ServiceFields;
    NamesAre(before, after);
    CollectedLists(Names(before, after), ServiceChangeAt(before, after), ServiceName());
    SplitLists(Collected(Names(before, after), ServiceChangeAt(before, after)), Survives(filter), IsNoise(filter),
               Names(before, after), ServiceChangeAt(before, after), ServiceName());
  }

  /** Applying what survived and what was set aside to the earlier services
      gives the later ones, field for field. */
  lemma ServicePatch(filter: NoiseFilter, before: seq<ServiceRecord>, after: seq<ServiceRecord>, name: string)
    ensures var crowded := Crowded(filter, before, after);
            var b, a := ServiceIndex(filter, crowded, before), ServiceIndex(filter, crowded, after);
            var changes := ServiceChanges(filter, before, after);
            var all := KeptServices(filter, changes) + Retained(changes, IsNoise(filter));
            && ServicesAgree(Look(Applied(b, all, ServiceName(), ServiceEffect()), name), Look(a, name))
            && ((exists c :: c in all && c.name == name) <==> !ServicesAgree(Look(b, name), Look(a, name)))
  {
    var crowded := Crowded(filter, before, after);
    var b, a := ServiceIndex(filter, crowded, before), ServiceIndex(filter, crowded, after);
    var changes := ServiceChanges(filter, before, after);
    ServiceChangesAreListed(b, a, filter);
    ServicePatchAt(b, a, KeptServices(filter, changes) + Retained(changes, IsNoise(filter)), name);
  }

  lemma ServicePatchAt(b: map<string, ServiceRecord>, a: map<string, ServiceRecord>, all: seq<ServiceChange>, name: string)
    requires Lists(all, Names(b, a), ServiceChangeAt(b, a), ServiceName())
    ensures ServicesAgree(Look(Applied(b, all, ServiceName(), ServiceEffect()), name), Look(a, name))
    ensures (exists c :: c in all && c.name == name) <==> !ServicesAgree(Look(b, name), Look(a, name))
  {
    hide ServiceFields; hide IsDriver; hide IsBootStart; hide Names; hide Applied; hide SameService;
    NamesAre(b, a);
    if name in b && name in a {
      ServicesDifferInFields(b[name], a[name]);
    }
    AppliedEverywhere(b, all, Names(b, a), ServiceChangeAt(b, a), ServiceName(), ServiceEffect(), name);
    ListedAt(all, Names(b, a), ServiceChangeAt(b, a), ServiceName(), name);
    if name in a {
      ServiceIsItself(a[name]);
      ServicesDifferInFields(a[name], a[name]);
    }
  }

  // ----- the other way round -----

  /** A change read backwards; its flags come from the record that is now later. */
  function ReverseService(): ServiceChange -> ServiceChange {
    (change: ServiceChange) => ServiceReversed(change)
  }

  function ServiceReversed(change: ServiceChange): ServiceChange {
    var later := if change.before.Some? then change.before else change.after;
    ServiceChange(
      change.name, Flip(change.kind),
      if later.Some? then IsDriver(later.value) else change.isDriver,
      if later.Some? then IsBootStart(later.value) else change.isBootStart,
      change.after, change.before, Swapped(change.fields))
  }

  lemma ServiceChangeReversed(name: string, before: Option<ServiceRecord>, after: Option<ServiceRecord>)
    ensures ServiceChangeOf(name, after, before) == OptionMapped(ServiceChangeOf(name, before, after), ReverseService())
  {
    hide IsDriver;
    hide IsBootStart;
    if before.Some? && after.Some? {
      ServiceFieldsSwapped(before.value, after.value);
      hide ServiceFields;
    }
  }

  /** Comparing the other way round is reading the changes backwards. */
  lemma ServiceSymmetry(filter: NoiseFilter, before: seq<ServiceRecord>, after: seq<ServiceRecord>)
    ensures ServiceChanges(filter, after, before) == Mapped(ServiceChanges(filter, before, after), ReverseService())
  {
    assert Crowded(filter, after, before) == Crowded(filter, before, after);
    var crowded := Crowded(filter, before, after);
    var b, a := ServiceIndex(filter, crowded, before), ServiceIndex(filter, crowded, after);
    assert b.Keys + a.Keys == a.Keys + b.Keys;
    forall name | name in Names(b, a)
      ensures ServiceChangeAt(a, b)(name) == OptionMapped(ServiceChangeAt(b, a)(name), ReverseService())
    {
      ServiceChangeReversed(name, Look(b, name), Look(a, name));
    }
    CollectedMapped(Names(b, a), ServiceChangeAt(b, a), ServiceChangeAt(a, b), ReverseService());
  }
}
