// What a diff says of one item: the field changes and the change kinds of
// tools/observe/src/diff.rs, and the noise filter's rules.
module Changes {
  import opened Prelude
  import opened Text
  import opened Observed
  import opened Keyed

  datatype ChangeKind = Added | Removed | Modified

  datatype FieldChange = FieldChange(field: string, before: string, after: string)

  function Swap(field: FieldChange): FieldChange {
    FieldChange(field.field, field.after, field.before)
  }

  function Flip(kind: ChangeKind): ChangeKind {
    match kind
    case Added => Removed
    case Removed => Added
    case Modified => Modified
  }

  lemma FlipTwice()
    ensures forall kind :: Flip(Flip(kind)) == kind
    ensures Flip(Modified) == Modified && Flip(Added) == Removed
  {
  }

  function Swapped(fields: seq<FieldChange>): seq<FieldChange> {
    Mapped(fields, Swap)
  }

  /** One field change for each reading that differs, in order. */
  function Differences(names: seq<string>, before: seq<string>, after: seq<string>): seq<FieldChange>
    requires |names| == |before| == |after|
  {
    if names == [] then []
    else
      (if before[0] != after[0] then [FieldChange(names[0], before[0], after[0])] else [])
      + Differences(names[1..], before[1..], after[1..])
  }

  /** What a field says of a change, if it reads differently. */
  function Told(field: string, before: string, after: string): seq<FieldChange> {
    if before == after then [] else [FieldChange(field, before, after)]
  }

  lemma DifferencesFrom(names: seq<string>, was: seq<string>, now: seq<string>, i: nat)
    requires |names| == |was| == |now| && i < |names|
    ensures Differences(names[i..], was[i..], now[i..])
         == Told(names[i], was[i], now[i]) + Differences(names[i + 1..], was[i + 1..], now[i + 1..])
  {
    assert names[i..][1..] == names[i + 1..] && was[i..][1..] == was[i + 1..] && now[i..][1..] == now[i + 1..];
  }

  lemma FiveDifferences(names: seq<string>, was: seq<string>, now: seq<string>, i: nat)
    requires |names| == |was| == |now| && i + 5 <= |names|
    ensures Differences(names[i..], was[i..], now[i..])
         == Told(names[i], was[i], now[i]) + (Told(names[i + 1], was[i + 1], now[i + 1])
            + (Told(names[i + 2], was[i + 2], now[i + 2]) + (Told(names[i + 3], was[i + 3], now[i + 3])
            + (Told(names[i + 4], was[i + 4], now[i + 4]) + Differences(names[i + 5..], was[i + 5..], now[i + 5..])))))
  {
    hide Differences; hide Told;
    DifferencesFrom(names, was, now, i);
    DifferencesFrom(names, was, now, i + 1);
    DifferencesFrom(names, was, now, i + 2);
    DifferencesFrom(names, was, now, i + 3);
    DifferencesFrom(names, was, now, i + 4);
  }

  lemma {:induction false} DifferencesSwapped(names: seq<string>, before: seq<string>, after: seq<string>)
    requires |names| == |before| == |after|
    ensures Differences(names, after, before) == Swapped(Differences(names, before, after))
  {
    if names != [] {
      DifferencesSwapped(names[1..], before[1..], after[1..]);
    }
  }

  /** Nothing to report exactly when every reading is the same. */
  lemma {:induction false} NoDifferences(names: seq<string>, before: seq<string>, after: seq<string>)
    requires |names| == |before| == |after|
    ensures Differences(names, before, after) == [] <==> before == after
  {
    if names != [] {
      NoDifferences(names[1..], before[1..], after[1..]);
      assert before == [before[0]] + before[1..] && after == [after[0]] + after[1..];
    }
  }

  lemma SwappedTwice(fields: seq<FieldChange>)
    ensures Swapped(Swapped(fields)) == fields
  {
  }

  function Shown(text: Option<string>): string {
    match text case Some(t) => t case None => ""
  }

  // ----- the noise filter -----

  datatype NoiseFilter = NoiseFilter(ignored: seq<string>, normalisePerUser: bool)

  predicate IsHex(c: char) {
    IsDigit(c) || 'A' <= Upper(c) <= 'F'
  }

  predicate IsInstanceSuffix(suffix: string) {
    |suffix| >= 4 && forall c :: c in suffix ==> IsHex(c)
  }

  /** The name a service is indexed under: a per-user instance's template. */
  function CanonicalName(filter: NoiseFilter, name: string): string {
    var cut := LastIndexOf(name, '_');
    if filter.normalisePerUser && cut > 0 && IsInstanceSuffix(name[cut + 1..]) then name[..cut] else name
  }

  predicate IsIgnored(filter: NoiseFilter, name: string) {
    exists ignored :: ignored in filter.ignored && EqFold(ignored, name)
  }

  const VOLATILE_SERVICE: string := "volatile-service"
  const TIMESTAMP_ONLY: string := "timestamp-only"
}
