// Collapsing what an observation added to the entries of a draft:
// tools/observe/src/suggest.rs.
module Draft {
  import opened Prelude
  import opened Ordered
  import opened Text
  import opened Keyed
  import opened Changes
  import opened RegKeys
  import opened DenyList
  import opened RegistryDiff
  import opened Catalog

  // ----- ancestors -----

  /** One name is a proper ancestor of another: the other goes on below it. */
  predicate IsAncestor(a: string, b: string) {
    a + "\\" <= b
  }

  /** `has_listed_ancestor`, by the candidate's own separators. */
  predicate HasListedAncestor(candidate: string, listed: set<string>) {
    exists at :: 0 <= at < |candidate| && candidate[at] == '\\' && candidate[..at] in listed
  }

  lemma AncestorIsCut(a: string, b: string)
    ensures IsAncestor(a, b) <==> |a| < |b| && b[|a|] == '\\' && b[..|a|] == a
  {
    if |a| < |b| && b[|a|] == '\\' && b[..|a|] == a {
      assert b[..|a| + 1] == a + "\\";
    }
    if IsAncestor(a, b) {
      assert (a + "\\")[|a|] == '\\' && b[..|a| + 1] == a + "\\";
      assert b[..|a|] == b[..|a| + 1][..|a|];
    }
  }

  /** Walking one candidate's separators finds an ancestor exactly when some
      listed name is one. */
  lemma ListedAncestors(candidate: string, listed: set<string>)
    ensures HasListedAncestor(candidate, listed) <==> exists a :: a in listed && IsAncestor(a, candidate)
  {
    if HasListedAncestor(candidate, listed) {
      var at :| 0 <= at < |candidate| && candidate[at] == '\\' && candidate[..at] in listed;
      AncestorIsCut(candidate[..at], candidate);
      assert IsAncestor(candidate[..at], candidate);
    }
    if a :| a in listed && IsAncestor(a, candidate) {
      AncestorIsCut(a, candidate);
    }
  }

  lemma AncestorsAreTransitive(a: string, b: string, c: string)
    requires IsAncestor(a, b) && IsAncestor(b, c)
    ensures IsAncestor(a, c)
  {
    assert a + "\\" <= b <= b + "\\" <= c;
  }

  /** Of two ancestors of one name, one is the other's ancestor. */
  lemma AncestorsAreAChain(a: string, b: string, c: string)
    requires IsAncestor(a, c) && IsAncestor(b, c) && a != b
    ensures IsAncestor(a, b) || IsAncestor(b, a)
  {
    AncestorIsCut(a, c);
    AncestorIsCut(b, c);
    AncestorIsCut(a, b);
    AncestorIsCut(b, a);
    if |a| < |b| {
      assert b[|a|] == c[|a|] && b[..|a|] == c[..|a|];
    } else if |b| < |a| {
      assert a[|b|] == c[|b|] && a[..|b|] == c[..|b|];
    }
  }

  /** A kept name: one with no ancestor among the listed ones. */
  predicate IsRoot(name: string, listed: set<string>) {
    name in listed && !HasListedAncestor(name, listed)
  }

  predicate IsUnder(name: string, root: string) {
    name == root || IsAncestor(root, name)
  }

  /** Every listed name is under a kept one. */
  lemma {:induction false} SomeRoot(name: string, listed: set<string>) returns (root: string)
    requires name in listed
    ensures IsRoot(root, listed) && IsUnder(name, root)
    decreases |name|
  {
    ListedAncestors(name, listed);
    if HasListedAncestor(name, listed) {
      var a :| a in listed && IsAncestor(a, name);
      AncestorIsCut(a, name);
      root := SomeRoot(a, listed);
      if root != a {
        AncestorsAreTransitive(root, a, name);
      }
    } else {
      root := name;
    }
  }

  /** And under no second one. */
  lemma OneRoot(name: string, listed: set<string>, r: string, s: string)
    requires IsRoot(r, listed) && IsRoot(s, listed) && IsUnder(name, r) && IsUnder(name, s)
    ensures r == s
  {
    ListedAncestors(r, listed);
    ListedAncestors(s, listed);
    if r != s && name != r && name != s {
      AncestorsAreAChain(r, s, name);
    }
  }

  // ----- what was added -----

  const ALIAS: string := "HKLM\\SOFTWARE\\WOW6432Node\\"

  /** A key as the native view names it: below `WOW6432Node` in the 64-bit view
      is the 32-bit view. */
  function NativeView(key: string, view: string): (string, string) {
    if view == "64" && |key| > |ALIAS| && EqFold(key[..|ALIAS|], ALIAS) then
      ("HKLM\\SOFTWARE\\" + key[|ALIAS|..], "32")
    else (key, view)
  }

  type Views = map<string, set<string>>

  function WithView(added: Views, key: string, view: string): Views {
    added[key := (if key in added then added[key] else {}) + {view}]
  }

  /** The added keys a draft claims, each with the views it was seen in. */
  function AddedKeys(changes: seq<RegistryChange>, claims: string -> bool): Views {
    if changes == [] then map[]
    else
      var last := changes[|changes| - 1];
      var earlier := AddedKeys(changes[..|changes| - 1], claims);
      if last.kind == ChangeKind.Added && claims(LowerAll(last.key)) then
        var native := NativeView(last.key, last.view);
        WithView(earlier, native.0, native.1)
      else earlier
  }

  predicate IsUnattributed(change: RegistryChange, claims: string -> bool) {
    change.kind == ChangeKind.Added && !claims(LowerAll(change.key))
  }

  /** How many added keys a draft does not claim. */
  function Unattributed(changes: seq<RegistryChange>, claims: string -> bool): nat {
    if changes == [] then 0
    else
      var n := |changes| - 1;
      Unattributed(changes[..n], claims) + if IsUnattributed(changes[n], claims) then 1 else 0
  }

  /** The loop of `registry_entries` that gathers them, and counts the rest. */
  method Gather(changes: seq<RegistryChange>, claims: string -> bool) returns (added: Views, unattributed: nat)
    ensures added == AddedKeys(changes, claims) && unattributed == Unattributed(changes, claims)
  {
    hide LowerAll;
    hide NativeView;
    added, unattributed := map[], 0;
    for i := 0 to |changes|
      invariant added == AddedKeys(changes[..i], claims) && unattributed == Unattributed(changes[..i], claims)
    {
      assert changes[..i + 1][..i] == changes[..i];
      if changes[i].kind != ChangeKind.Added {
        continue;
      }
      if !claims(LowerAll(changes[i].key)) {
        unattributed := unattributed + 1;
        continue;
      }
      var native := NativeView(changes[i].key, changes[i].view);
      added := WithView(added, native.0, native.1);
    }
    assert changes[..|changes|] == changes;
  }

  lemma {:induction false} AddedHolds(changes: seq<RegistryChange>, claims: string -> bool, key: string, view: string)
    ensures key in AddedKeys(changes, claims) && view in AddedKeys(changes, claims)[key] <==>
              exists c :: c in changes && c.kind == ChangeKind.Added && claims(LowerAll(c.key))
                          && NativeView(c.key, c.view) == (key, view)
  {
    hide LowerAll;
    hide NativeView;
    if changes != [] {
      var n := |changes| - 1;
      AddedHolds(changes[..n], claims, key, view);
      assert changes == changes[..n] + [changes[n]];
    }
  }

  // ----- views -----

  /** Every view any key under a root was seen in. */
  function ViewsUnder(added: Views, root: string): set<string> {
    set key, view | key in added && IsUnder(key, root) && view in added[key] :: view
  }

  function AllKeys(added: Views): seq<string> {
    TextOrderIsTotal();
    Ascending(added.Keys, Less)
  }

  /** The views of a list of keys. */
  function Scanned(added: Views, keys: seq<string>): set<string> {
    if keys == [] then {}
    else
      var n := |keys| - 1;
      Scanned(added, keys[..n]) + if keys[n] in added then added[keys[n]] else {}
  }

  lemma ScannedMore(added: Views, keys: seq<string>, key: string)
    requires key in added
    ensures Scanned(added, keys + [key]) == Scanned(added, keys) + added[key]
  {
    assert (keys + [key])[..|keys|] == keys;
  }

  predicate StartsWith(key: string, prefix: string) {
    prefix <= key
  }

  /** The range scan: from the first key at or after the root and a separator,
      to the first that does not begin with them. */
  method ScanViews(added: Views, root: string) returns (views: set<string>)
    requires root in added
    ensures views == ViewsUnder(added, root)
  {
    var keys, prefix := AllKeys(added), root + "\\";
    AllKeysAscend(added);
    hide AllKeys; hide Less; hide StrictTotal; hide Ascends; hide ViewsUnder; hide StartsWith; hide ScansBelow; hide Scanned;
    var start := 0;
    while start < |keys| && Less(keys[start], prefix)
      invariant start <= |keys| && forall j :: 0 <= j < start ==> Less(keys[j], prefix)
    {
      start := start + 1;
    }
    var end := start;
    views := added[root];
    assert keys[start..end] == [];
    assert Scanned(added, keys[start..end]) == {} by { ScannedNone(added); }
    while end < |keys| && StartsWith(keys[end], prefix)
      invariant start <= end <= |keys|
      invariant forall j :: start <= j < end ==> StartsWith(keys[j], prefix)
      invariant views == added[root] + Scanned(added, keys[start..end])
    {
      SliceMore(keys, start, end);
      assert keys[end] in keys;
      ScannedMore(added, keys[start..end], keys[end]);
      views := views + added[keys[end]];
      end := end + 1;
    }
    ScanIsBelow(keys, root, start, end);
    ScanIsComplete(added, root, keys, start, end);
  }

  lemma ScannedNone(added: Views)
    ensures Scanned(added, []) == {}
  {
  }

  lemma AllKeysAscend(added: Views)
    ensures StrictTotal(Less) && Ascends(AllKeys(added), Less)
    ensures forall k :: k in AllKeys(added) <==> k in added
  {
    TextOrderIsTotal();
  }

  /** Where a range scan starts and stops. */
  ghost predicate ScanEnds(keys: seq<string>, prefix: string, start: nat, end: nat) {
    && start <= end <= |keys|
    && (forall j :: 0 <= j < start ==> Less(keys[j], prefix)) && (start < |keys| ==> !Less(keys[start], prefix))
    && (forall j :: start <= j < end ==> StartsWith(keys[j], prefix)) && (end < |keys| ==> !StartsWith(keys[end], prefix))
  }

  /** Between the two ends of the scan lie exactly the keys with the prefix. */
  lemma PrefixedAreARange(keys: seq<string>, prefix: string, start: nat, end: nat, k: nat)
    requires StrictTotal(Less) && Ascends(keys, Less) && ScanEnds(keys, prefix, start, end) && k < |keys|
    ensures StartsWith(keys[k], prefix) <==> start <= k < end
  {
    if prefix <= keys[k] {
      PrefixIsLess(prefix, keys[k]);
      if end < k {
        assert Less(keys[end], keys[k]);
        assert keys[end] == prefix || Less(prefix, keys[end]) by {
          assert start == end || Less(keys[start], keys[end]);
        }
        PrefixRange(prefix, keys[end], keys[k]);
      }
    }
  }

  /** The keys scanned are those below the root. */
  ghost predicate ScansBelow(keys: seq<string>, root: string, start: nat, end: nat)
    requires start <= end <= |keys|
  {
    forall k :: 0 <= k < |keys| ==> (IsAncestor(root, keys[k]) <==> start <= k < end)
  }

  lemma ScanIsBelow(keys: seq<string>, root: string, start: nat, end: nat)
    requires StrictTotal(Less) && Ascends(keys, Less) && ScanEnds(keys, root + "\\", start, end)
    ensures ScansBelow(keys, root, start, end)
  {
    hide StrictTotal; hide Ascends; hide Less;
    forall k | 0 <= k < |keys| ensures IsAncestor(root, keys[k]) <==> start <= k < end {
      PrefixedAreARange(keys, root + "\\", start, end, k);
    }
  }

  lemma {:induction false} ScannedHolds(added: Views, keys: seq<string>, view: string)
    ensures view in Scanned(added, keys) <==> exists key :: key in keys && key in added && view in added[key]
  {
    if keys != [] {
      var n := |keys| - 1;
      ScannedHolds(added, keys[..n], view);
      assert keys == keys[..n] + [keys[n]];
    }
  }

  lemma ScanIsComplete(added: Views, root: string, keys: seq<string>, start: nat, end: nat)
    requires root in added && start <= end <= |keys| && ScansBelow(keys, root, start, end)
    requires forall k :: k in keys <==> k in added
    ensures added[root] + Scanned(added, keys[start..end]) == ViewsUnder(added, root)
  {
    hide IsAncestor;
    forall view ensures view in added[root] + Scanned(added, keys[start..end]) <==> view in ViewsUnder(added, root) {
      ScannedHolds(added, keys[start..end], view);
      hide Scanned;
      if view in ViewsUnder(added, root) {
        var key :| key in added && IsUnder(key, root) && view in added[key];
        if key != root {
          var k :| 0 <= k < |keys| && keys[k] == key;
          assert keys[start..end][k - start] == key;
        }
      }
      if key :| key in keys[start..end] && key in added && view in added[key] {
        var j :| 0 <= j < end - start && keys[start..end][j] == key;
        assert IsUnder(keys[start + j], root);
      }
    }
  }

  function ViewOf(views: set<string>): View {
    if "32" in views && "64" !in views then Bits32
    else if "64" in views && "32" !in views then Bits64
    else Both
  }

  predicate Includes(view: View, seen: string) {
    match view
    case Both => true
    case Bits32 => seen == "32"
    case Bits64 => seen == "64"
  }

  // ----- the entries -----

  function EntryAt(added: Views, exceptions: Exceptions): string -> Option<RegistryEntry> {
    (key: string) =>
      if IsRoot(key, added.Keys) && KeySafe(key, exceptions)
      then Some(RegistryEntry(key, ViewOf(ViewsUnder(added, key)))) else None
  }

  function DroppedAt(added: Views, exceptions: Exceptions): string -> Option<string> {
    (key: string) => if IsRoot(key, added.Keys) && !KeySafe(key, exceptions) then Some(key) else None
  }

  /** The entries of a draft, and the roots the deny-list refused. */
  method RegistryEntries(added: Views, exceptions: Exceptions)
    returns (entries: seq<RegistryEntry>, dropped: seq<string>)
    ensures entries == Collected(AllKeys(added), EntryAt(added, exceptions))
    ensures dropped == Collected(AllKeys(added), DroppedAt(added, exceptions))
  {
    hide KeySafe;
    hide HasListedAncestor;
    hide ViewsUnder;
    hide StrictTotal; hide Ascends;
    AllKeysAscend(added);
    CollectedNone(EntryAt(added, exceptions));
    CollectedNone(DroppedAt(added, exceptions));
    var keys := AllKeys(added);
    hide AllKeys; hide Collected; hide ViewOf;
    entries, dropped := [], [];
    for i := 0 to |keys|
      invariant entries == Collected(keys[..i], EntryAt(added, exceptions))
      invariant dropped == Collected(keys[..i], DroppedAt(added, exceptions))
    {
      var key := keys[i];
      assert keys[..i + 1] == keys[..i] + [key];
      CollectedMore(keys[..i], key, EntryAt(added, exceptions));
      CollectedMore(keys[..i], key, DroppedAt(added, exceptions));
      assert key in keys;
      if !HasListedAncestor(key, added.Keys) {
        if KeySafe(key, exceptions) {
          var views := ScanViews(added, key);
          entries := entries + [RegistryEntry(key, ViewOf(views))];
        } else {
          dropped := dropped + [key];
        }
      }
    }
    assert keys[..|keys|] == keys;
  }

  /** An entry is drafted exactly for each allowed key that no other added key
      contains, under the views anything below it was seen in. */
  lemma EntriesAreRoots(added: Views, exceptions: Exceptions, entry: RegistryEntry)
    ensures entry in Collected(AllKeys(added), EntryAt(added, exceptions)) <==>
              && entry.key in added && KeySafe(entry.key, exceptions)
              && (forall a :: a in added ==> !IsAncestor(a, entry.key))
              && entry.view == ViewOf(ViewsUnder(added, entry.key))
  {
    AllKeysAscend(added);
    ListedAncestors(entry.key, added.Keys);
    hide KeySafe;
    hide HasListedAncestor;
    CollectedHolds(AllKeys(added), EntryAt(added, exceptions), entry);
    hide AllKeys;
    hide ViewsUnder;
    assert EntryAt(added, exceptions)(entry.key) == Some(entry) <==>
      IsRoot(entry.key, added.Keys) && KeySafe(entry.key, exceptions) && entry.view == ViewOf(ViewsUnder(added, entry.key));
  }

  /** Every added key is below exactly one kept root, and the entry for that
      root includes every view the key was seen in: every one of the two Windows
      has, and one it has not exactly when the entry takes both. */
  lemma EveryKeyIsCovered(added: Views, key: string, view: string) returns (root: string)
    requires key in added && view in added[key]
    ensures IsRoot(root, added.Keys) && IsUnder(key, root)
    ensures forall other :: IsRoot(other, added.Keys) && IsUnder(key, other) ==> other == root
    ensures Includes(ViewOf(ViewsUnder(added, root)), view) <==>
              view == "32" || view == "64" || ViewOf(ViewsUnder(added, root)) == Both
  {
    root := SomeRoot(key, added.Keys);
    forall other | IsRoot(other, added.Keys) && IsUnder(key, other) ensures other == root {
      OneRoot(key, added.Keys, root, other);
    }
    assert view in ViewsUnder(added, root);
  }

  /** And an entry is narrowed to one view only when nothing below its root was
      seen in the other. */
  lemma NarrowedIsObserved(added: Views, root: string)
    ensures ViewOf(ViewsUnder(added, root)) == Bits32 ==>
              forall key :: key in added && IsUnder(key, root) ==> "64" !in added[key]
    ensures ViewOf(ViewsUnder(added, root)) == Bits64 ==>
              forall key :: key in added && IsUnder(key, root) ==> "32" !in added[key]
  {
    forall key, view | key in added && IsUnder(key, root) && view in added[key] ensures view in ViewsUnder(added, root) {
    }
  }
}
