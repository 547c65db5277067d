// What the harness refuses to keep: tools/observe/src/policy.rs, and the
// exclusions of tools/observe/src/collect/filesystem.rs. The tables of
// fragments, terms and names are parameters; the rules over them are not.
module Policies {
  import opened Prelude
  import opened Text
  import opened Observed
  import opened Keyed

  datatype Policy = Policy(
    terms: seq<string>,
    personalNames: seq<string>,
    keyFragments: seq<string>,
    pathFragments: seq<string>)

  predicate HoldsAny(s: string, parts: seq<string>) {
    exists part :: part in parts && Holds(s, part)
  }

  /** The text of a key in which a fragment is looked for. */
  function SearchedKey(key: string): string {
    "\\" + LowerAll(key) + "\\"
  }

  function SearchedPath(path: string): string {
    Unified(LowerAll(path)) + "\\"
  }

  /** A key in an excluded subtree. */
  predicate ExcludedKey(policy: Policy, key: string) {
    HoldsAny(SearchedKey(key), policy.keyFragments)
  }

  /** A path in one. */
  predicate ExcludedPath(policy: Policy, path: string) {
    HoldsAny(SearchedPath(path), policy.pathFragments)
  }

  predicate IsHardwareIdentity(policy: Policy, name: string, data: string) {
    || HoldsAny(LowerAll(name), policy.terms)
    || (!("prop:" <= LowerAll(data)) && HoldsAny(LowerAll(data), policy.terms))
  }

  predicate IsPersonalIdentity(policy: Policy, name: string) {
    exists known :: known in policy.personalNames && EqFold(known, Trim(name))
  }

  predicate Refused(policy: Policy, value: RegistryValue) {
    IsHardwareIdentity(policy, value.name, value.data) || IsPersonalIdentity(policy, value.name)
  }

  function Keeps(policy: Policy): RegistryValue -> bool {
    (value: RegistryValue) => !Refused(policy, value)
  }

  /** What the policy makes of a record: the record, if any of it is allowed,
      and how many values a record that is kept lost. */
  datatype Admitted = Admitted(record: Option<RegistryRecord>, refusedValues: nat)

  function Admit(policy: Policy, record: RegistryRecord): Admitted {
    var values := Retained(record.values, Keeps(policy));
    if ExcludedKey(policy, record.key) then Admitted(None, 0)
    else if |values| == |record.values| then Admitted(Some(record), 0)
    else if values == [] then Admitted(None, 0)
    else Admitted(Some(record.(values := values)), |record.values| - |values|)
  }

  /** Nothing of a record is what the policy refuses. */
  ghost predicate Acceptable(policy: Policy, record: RegistryRecord) {
    && !ExcludedKey(policy, record.key)
    && forall value :: value in record.values ==> !Refused(policy, value)
  }

  /** What is admitted is acceptable, keeps its identity, loses exactly the
      refused values, and is admitted again as it is. */
  lemma AdmittedIsAcceptable(policy: Policy, record: RegistryRecord)
    ensures var r := Admit(policy, record);
            && (r.record.Some? ==>
                  && Acceptable(policy, r.record.value) && r.record.value.key == record.key && r.record.value.view == record.view
                  && r.record.value.values == Retained(record.values, Keeps(policy))
                  && |r.record.value.values| + r.refusedValues == |record.values|)
            && (r.record == Some(record) <==> Acceptable(policy, record))
            && (r.record == Some(record) ==> r.refusedValues == 0)
            && (r.record.Some? && r.refusedValues == 0 ==> r.record.value == record)
  {
    RetainedAll(record.values, Keeps(policy));
  }

  lemma AcceptableIsAdmitted(policy: Policy, record: RegistryRecord)
    requires Acceptable(policy, record)
    ensures Admit(policy, record) == Admitted(Some(record), 0)
  {
    RetainedAll(record.values, Keeps(policy));
  }

  // ----- denied items -----

  function LastCut(s: string, part: string): (i: int)
    requires part != ""
    ensures -1 <= i <= |s|
    ensures i >= 0 ==> part <= s[i..]
  {
    if |s| < |part| then -1
    else if s[|s| - |part|..] == part then |s| - |part|
    else
      var i := LastCut(s[..|s| - 1], part);
      assert i >= 0 ==> s[i..] == s[..|s| - 1][i..] + [s[|s| - 1]];
      i
  }

  /** The key an item of the registry's `access_denied` names: without the view
      at its end, and without the value after it. */
  function DeniedKey(item: string): string {
    var view := LastCut(item, " [view ");
    var name := if view < 0 then item else item[..view];
    var value := Find(name, " :: ");
    if value < 0 then name else name[..value]
  }

  predicate ExcludedDenial(policy: Policy, denied: AccessDenied) {
    match denied.domain
    case Registry => ExcludedKey(policy, DeniedKey(denied.item))
    case Filesystem => ExcludedPath(policy, denied.item)
    case _ => false
  }

  // ----- a fragment names a whole subtree -----

  lemma HoldsWithin(s: string, after: string, part: string)
    requires Holds(s, part)
    ensures Holds(s + after, part)
  {
    var i :| 0 <= i <= |s| && part <= s[i..];
    assert (s + after)[i..] == s[i..] + after;
  }

  lemma Spanned(u: string, v: string, w: string, x: string, y: string)
    ensures u + (v + w + x) + y == (u + v + w) + (x + y)
  {
  }

  /** Excluding a key excludes everything below it, in any case. */
  lemma ExclusionCoversSubtree(policy: Policy, key: string, below: string)
    requires ExcludedKey(policy, key)
    ensures ExcludedKey(policy, key + "\\" + below)
    ensures forall other :: EqFold(other, key) ==> ExcludedKey(policy, other)
  {
    var whole := key + "\\" + below;
    LowerConcat(key + "\\", below);
    LowerConcat(key, "\\");
    assert LowerAll("\\") == "\\";
    var part :| part in policy.keyFragments && Holds("\\" + LowerAll(key) + "\\", part);
    HoldsWithin("\\" + LowerAll(key) + "\\", LowerAll(below) + "\\", part);
    Spanned("\\", LowerAll(key), "\\", LowerAll(below), "\\");
  }
}
