// The entry a draft proposes: its directories, its registry keys, and the
// carve-outs its own drivers and services earn it.
// tools/observe/src/suggest.rs.
module DraftEntry {
  import opened Prelude
  import opened Ordered
  import opened Text
  import opened Keyed
  import opened Changes
  import opened FileDiff
  import opened RegistryDiff
  import opened DenyList
  import opened Templates
  import opened Catalog
  import opened Draft

  // ----- directories -----

  /** `parent_of`. */
  function ParentOf(path: string): Option<string> {
    var cut := LastIndexOf(path, '\\');
    if cut < 0 then None else Some(path[..cut])
  }

  predicate IsClaimed(change: FileChange, claims: string -> bool) {
    change.kind == ChangeKind.Added && claims(LowerAll(change.path))
  }

  /** The directories that gained a file a draft claims. */
  function Directories(changes: seq<FileChange>, claims: string -> bool): set<string> {
    if changes == [] then {}
    else
      var last := changes[|changes| - 1];
      Directories(changes[..|changes| - 1], claims)
      + if IsClaimed(last, claims) && ParentOf(last.path).Some? then {ParentOf(last.path).value} else {}
  }

  function UnclaimedFiles(changes: seq<FileChange>, claims: string -> bool): nat {
    if changes == [] then 0
    else
      var last := changes[|changes| - 1];
      UnclaimedFiles(changes[..|changes| - 1], claims)
      + if last.kind == ChangeKind.Added && !IsClaimed(last, claims) then 1 else 0
  }

  /** The closure that gathers them, called for the footprint and the residue. */
  method GatherDirectories(changes: seq<FileChange>, claims: string -> bool, sofar: set<string>, counted: nat)
    returns (directories: set<string>, dropped: nat)
    ensures directories == sofar + Directories(changes, claims)
    ensures dropped == counted + UnclaimedFiles(changes, claims)
  {
    hide LowerAll; hide ParentOf;
    directories, dropped := sofar, counted;
    for i := 0 to |changes|
      invariant directories == sofar + Directories(changes[..i], claims)
      invariant dropped == counted + UnclaimedFiles(changes[..i], claims)
    {
      assert changes[..i + 1][..i] == changes[..i];
      if changes[i].kind != ChangeKind.Added {
        continue;
      }
      if !claims(LowerAll(changes[i].path)) {
        dropped := dropped + 1;
        continue;
      }
      var parent := ParentOf(changes[i].path);
      if parent.Some? {
        directories := directories + {parent.value};
      }
    }
    assert changes[..|changes|] == changes;
  }

  lemma {:induction false} DirectoriesHold(changes: seq<FileChange>, claims: string -> bool, directory: string)
    ensures directory in Directories(changes, claims) <==>
              exists c :: c in changes && IsClaimed(c, claims) && ParentOf(c.path) == Some(directory)
  {
    hide IsClaimed; hide ParentOf;
    if changes != [] {
      var n := |changes| - 1;
      DirectoriesHold(changes[..n], claims, directory);
      assert changes == changes[..n] + [changes[n]];
    }
  }

  /** The directories a draft keeps, below no other, that the deny-list allows. */
  predicate IsDrafted(directory: string, directories: set<string>, exceptions: Exceptions) {
    IsRoot(directory, directories) && PathSafe(directory, exceptions)
  }

  function PathAt(directories: set<string>, exceptions: Exceptions): string -> Option<string> {
    (directory: string) => if IsDrafted(directory, directories, exceptions) then Some(Templated(directory)) else None
  }

  function DirectoriesInOrder(directories: set<string>): (r: seq<string>)
    ensures forall d :: d in r <==> d in directories
  {
    TextOrderIsTotal();
    Ascending(directories, Less)
  }

  function DraftedTemplates(directories: set<string>, exceptions: Exceptions): seq<string> {
    Collected(DirectoriesInOrder(directories), PathAt(directories, exceptions))
  }

  /** `path_entries`: the collapsing, the deny-list and the templates. */
  method PathEntries(footprint: seq<FileChange>, residue: seq<FileChange>, claims: string -> bool, exceptions: Exceptions)
    returns (paths: seq<string>, dropped: nat)
    ensures paths == DraftedTemplates(Directories(footprint, claims) + Directories(residue, claims), exceptions)
    ensures dropped == UnclaimedFiles(footprint, claims) + UnclaimedFiles(residue, claims)
  {
    hide Directories; hide HasListedAncestor; hide PathSafe; hide Templated; hide Collected; hide DirectoriesInOrder;
    var directories;
    directories, dropped := GatherDirectories(footprint, claims, {}, 0);
    directories, dropped := GatherDirectories(residue, claims, directories, dropped);
    assert directories == Directories(footprint, claims) + Directories(residue, claims);
    var all := DirectoriesInOrder(directories);
    paths := [];
    CollectedNone(PathAt(directories, exceptions));
    for i := 0 to |all|
      invariant paths == Collected(all[..i], PathAt(directories, exceptions))
    {
      assert all[..i + 1] == all[..i] + [all[i]];
      assert all[i] in all;
      CollectedMore(all[..i], all[i], PathAt(directories, exceptions));
      if !HasListedAncestor(all[i], directories) && PathSafe(all[i], exceptions) {
        paths := paths + [Templated(all[i])];
      }
    }
    assert all[..|all|] == all;
  }

  lemma TemplatesAreRoots(directories: set<string>, exceptions: Exceptions, path: string)
    ensures path in DraftedTemplates(directories, exceptions) <==>
              exists d :: d in directories && PathSafe(d, exceptions) && Templated(d) == path
                          && forall a :: a in directories ==> !IsAncestor(a, d)
  {
    hide PathSafe; hide Templated; hide IsAncestor; hide HasListedAncestor;
    CollectedHolds(DirectoriesInOrder(directories), PathAt(directories, exceptions), path);
    forall d ensures HasListedAncestor(d, directories) <==> exists a :: a in directories && IsAncestor(a, d) {
      ListedAncestors(d, directories);
    }
    hide DirectoriesInOrder; hide Collected;
    if d :| d in directories && PathSafe(d, exceptions) && Templated(d) == path
              && forall a :: a in directories ==> !IsAncestor(a, d)
    {
      assert PathAt(directories, exceptions)(d) == Some(path);
    }
  }

  /** An added file the draft claims, directly in a directory. */
  ghost predicate Gained(footprint: seq<FileChange>, residue: seq<FileChange>, claims: string -> bool, directory: string) {
    exists c :: (c in footprint || c in residue) && IsClaimed(c, claims) && ParentOf(c.path) == Some(directory)
  }

  /** A path is drafted exactly for each allowed directory that gained a claimed
      file, in the footprint or the residue, and that lies in no other such. */
  lemma PathsAreRoots(footprint: seq<FileChange>, residue: seq<FileChange>, claims: string -> bool, exceptions: Exceptions,
                      path: string)
    ensures path in DraftedTemplates(Directories(footprint, claims) + Directories(residue, claims), exceptions) <==>
              exists d :: Gained(footprint, residue, claims, d) && PathSafe(d, exceptions) && Templated(d) == path
                          && forall a :: Gained(footprint, residue, claims, a) ==> !IsAncestor(a, d)
  {
    hide PathSafe; hide Templated; hide IsAncestor; hide DraftedTemplates; hide Gained; hide Directories;
    var directories := Directories(footprint, claims) + Directories(residue, claims);
    TemplatesAreRoots(directories, exceptions, path);
    forall d ensures d in directories <==> Gained(footprint, residue, claims, d) {
      DirectoriesGained(footprint, residue, claims, d);
    }
  }

  lemma DirectoriesGained(footprint: seq<FileChange>, residue: seq<FileChange>, claims: string -> bool, d: string)
    ensures d in Directories(footprint, claims) + Directories(residue, claims) <==> Gained(footprint, residue, claims, d)
  {
    hide Directories; hide IsClaimed; hide ParentOf;
    DirectoriesHold(footprint, claims, d);
    DirectoriesHold(residue, claims, d);
  }

  // ----- the entry -----

  function DraftedKeys(added: Views, exceptions: Exceptions): seq<RegistryEntry> {
    Collected(AllKeys(added), EntryAt(added, exceptions))
  }

  /** What a draft proposes, under the carve-outs its own fields earn. */
  function Drafted(inbox: Inbox, id: string, risk: Risk, publishers: seq<string>, services: seq<string>, drivers: seq<string>,
                   directories: set<string>, added: Views): AntiCheat
  {
    var exceptions := NewExceptions(inbox, drivers, services);
    AntiCheat(id, risk, publishers, services, drivers, DraftedTemplates(directories, exceptions), DraftedKeys(added, exceptions))
  }

  /** The end of `draft_scoped`, from what was attributed to the entry. */
  method DraftScoped(inbox: Inbox, id: string, risk: Risk, publishers: seq<string>, services: seq<string>, drivers: seq<string>,
               files: seq<FileChange>, residue: seq<FileChange>, registry: seq<RegistryChange>,
               claimsPath: string -> bool, claimsKey: string -> bool)
    returns (entry: AntiCheat)
    ensures entry == Drafted(inbox, id, risk, publishers, services, drivers,
                             Directories(files, claimsPath) + Directories(residue, claimsPath), AddedKeys(registry, claimsKey))
  {
    hide NewExceptions; hide Directories; hide DraftedTemplates; hide Collected; hide AddedKeys; hide EntryAt; hide AllKeys;
    var exceptions := NewExceptions(inbox, drivers, services);
    var paths, unclaimed := PathEntries(files, residue, claimsPath, exceptions);
    var added, unattributed := Gather(registry, claimsKey);
    var keys, refused := RegistryEntries(added, exceptions);
    entry := AntiCheat(id, risk, publishers, services, drivers, paths, keys);
  }
}
