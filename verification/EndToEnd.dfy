// Results that run through several parts: when the catalog check accepts what a
// draft proposes, and that the audit finds no key it accepted to be protected.
module EndToEnd {
  import opened Prelude
  import opened Text
  import opened Keyed
  import opened Paths
  import opened PathSpellings
  import opened RegKeys
  import opened DenyList
  import opened Expand
  import opened Templates
  import opened DraftedPaths
  import opened TemplatePercents
  import opened Catalog
  import opened CatalogGate
  import opened Machine
  import opened Audit
  import Draft
  import opened DraftEntry

  /** What is made of a path: the error it is refused with unread, or the verdict
      on it. What is on disk was read back from a handle. */
  function VerdictOn(path: string, exceptions: Exceptions, stage: Stage): Result<Verdict, PathError> {
    match if stage.OnDisk? then CanonicalResolved(path) else Canonical(path)
    case Err(error) => Err(error)
    case Ok(canonical) => Ok(EvaluatePath(canonical, exceptions, stage))
  }

  /** The verdict on a path, the reason it is denied for included, does not depend
      on its letter case, when a catalog is loaded or when something is removed. */
  lemma CaseDoesNotMoveAVerdict(s: string, t: string, exceptions: Exceptions, stage: Stage)
    requires EqFold(s, t)
    ensures VerdictOn(s, exceptions, stage) == VerdictOn(t, exceptions, stage)
  {
    hide Canonical; hide EqFold; hide EvaluatePath;
    CaseIsIgnored(s, t);
    if Canonical(t).Ok? {
      SameVerdict(Canonical(s).value, Canonical(t).value, exceptions, stage);
      SameVerdict(CanonicalResolved(s).value, CanonicalResolved(t).value, exceptions, stage);
    }
  }

  lemma CaseDoesNotMoveSafety(s: string, t: string, exceptions: Exceptions)
    requires EqFold(s, t)
    ensures PathSafe(s, exceptions) <==> PathSafe(t, exceptions)
  {
    hide Canonical; hide EqFold; hide EvaluatePath;
    CaseDoesNotMoveAVerdict(s, t, exceptions, CatalogLoad);
  }

  lemma SameVerdict(p: CanonicalPath, q: CanonicalPath, exceptions: Exceptions, stage: Stage)
    requires p.(text := q.text) == q
    ensures EvaluatePath(p, exceptions, stage) == EvaluatePath(q, exceptions, stage)
  {
    hide IsProtectedTop; hide WindowsDirectoryException; hide EvaluateOrdinary;
  }

  /** In no profile, or in one named as Windows names them. */
  predicate InPlainProfile(path: string) {
    SplitProfile(path).Some? ==> PlainProfile(SplitProfile(path).value.0)
  }

  lemma RelocatedStays(path: string, exceptions: Exceptions)
    requires InPlainProfile(path) && PathSafe(path, exceptions)
    ensures PathSafe(Relocated(path), exceptions)
  {
    hide PathSafe;
    if SplitProfile(path).Some? {
      RelocatedIsSafe(path, exceptions);
    }
  }

  lemma TemplateIsSafe(path: string, exceptions: Exceptions)
    requires KeepsNoPercent(path)
    ensures TemplateFaults(Templated(path), exceptions) == [] <==> PathSafe(Relocated(path), exceptions)
  {
    hide Templated; hide PathSafe; hide EqFold; hide Relocated; hide KeepsNoPercent;
    TemplatedLeadsBack(path);
    var e :| ValidationExpansions(Templated(path)) == Ok([e]) && EqFold(e, Relocated(path));
    CaseDoesNotMoveSafety(e, Relocated(path), exceptions);
    ExpansionsSafe([e], exceptions);
    hide ValidationExpansions; hide ExpansionFaults;
    assert e in [e];
  }

  /** A directory the deny-list allows is drafted as a template the catalog check
      has nothing against, exactly when the template keeps no `%` of its own and
      the directory is also allowed with its profile's name replaced. */
  lemma DraftedPathPasses(path: string, exceptions: Exceptions)
    requires PathSafe(path, exceptions)
    ensures TemplateFaults(Templated(path), exceptions) == [] <==>
              KeepsNoPercent(path) && PathSafe(Relocated(path), exceptions)
  {
    hide PathSafe; hide Templated; hide TemplateFaults; hide Relocated; hide KeepsNoPercent;
    if KeepsNoPercent(path) {
      TemplateIsSafe(path, exceptions);
    } else {
      PercentIsRefused(path, exceptions);
    }
  }

  /** Out of a profile, or in one named as Windows names them, only a `%` fails. */
  lemma PlainlyDraftedPathPasses(path: string, exceptions: Exceptions)
    requires InPlainProfile(path) && PathSafe(path, exceptions)
    ensures TemplateFaults(Templated(path), exceptions) == [] <==> KeepsNoPercent(path)
  {
    hide PathSafe; hide Templated; hide TemplateFaults; hide Relocated; hide KeepsNoPercent; hide InPlainProfile;
    DraftedPathPasses(path, exceptions);
    RelocatedStays(path, exceptions);
  }

  /** Every allowed path in a profile of one name drafts well, if it keeps no `%`. */
  ghost predicate ProfileDrafts(profile: string) {
    forall path, exceptions :: DraftsWell(profile, path, exceptions)
  }

  predicate DraftsWell(profile: string, path: string, exceptions: Exceptions) {
    SplitProfile(path).Some? && SplitProfile(path).value.0 == profile && KeepsNoPercent(path) && PathSafe(path, exceptions) ==>
      TemplateFaults(Templated(path), exceptions) == []
  }

  /** It is exactly `.` and `..` that do not: the draft takes them for names, and
      the path they lead to is not in a profile. */
  lemma OnlyRelativeProfilesFail(profile: string)
    requires '/' !in profile
    ensures ProfileDrafts(profile) <==> profile != "." && profile != ".."
  {
    if profile == "." || profile == ".." {
      var path := RelativeProfileFails(profile, NO_EXCEPTIONS);
      hide PathSafe; hide Templated; hide TemplateFaults; hide Relocated; hide KeepsNoPercent; hide SplitProfile;
      TemplateIsSafe(path, NO_EXCEPTIONS);
      assert !DraftsWell(profile, path, NO_EXCEPTIONS);
    } else {
      hide PathSafe; hide Templated; hide TemplateFaults; hide Relocated; hide KeepsNoPercent; hide SplitProfile;
      forall path, exceptions ensures DraftsWell(profile, path, exceptions) {
        if SplitProfile(path).Some? && SplitProfile(path).value.0 == profile {
          if KeepsNoPercent(path) && PathSafe(path, exceptions) {
            PlainlyDraftedPathPasses(path, exceptions);
          }
        }
      }
    }
  }

  // ----- a whole draft -----

  /** A directory the draft keeps: allowed, and in no other of the directories. */
  ghost predicate IsKept(d: string, directories: set<string>, exceptions: Exceptions) {
    d in directories && PathSafe(d, exceptions) && forall a :: a in directories ==> !Draft.IsAncestor(a, d)
  }

  /** What the check asks of it. */
  predicate Redrafts(d: string, exceptions: Exceptions) {
    KeepsNoPercent(d) && PathSafe(Relocated(d), exceptions)
  }

  lemma KeptPathPasses(d: string, exceptions: Exceptions)
    requires PathSafe(d, exceptions)
    ensures EntrySafe(Templates(exceptions), Templated(d)) <==> Redrafts(d, exceptions)
  {
    hide PathSafe; hide Templated; hide EntrySafe; hide TemplateFaults; hide Relocated; hide KeepsNoPercent;
    DraftedPathPasses(d, exceptions);
    EntryIsSafe(Templates(exceptions), Templated(d));
  }

  lemma DraftedPathsAreSafe(directories: set<string>, exceptions: Exceptions)
    ensures ListSafe(DraftedTemplates(directories, exceptions), Templates(exceptions)) <==>
              forall d :: IsKept(d, directories, exceptions) ==> Redrafts(d, exceptions)
  {
    hide DraftedTemplates; hide Templated; hide PathSafe; hide EntrySafe; hide Draft.IsAncestor; hide Redrafts;
    var paths := DraftedTemplates(directories, exceptions);
    forall d | IsKept(d, directories, exceptions)
      ensures Templated(d) in paths && (EntrySafe(Templates(exceptions), Templated(d)) <==> Redrafts(d, exceptions))
    {
      TemplatesAreRoots(directories, exceptions, Templated(d));
      KeptPathPasses(d, exceptions);
    }
    forall path | path in paths ensures exists d :: IsKept(d, directories, exceptions) && Templated(d) == path {
      TemplatesAreRoots(directories, exceptions, path);
    }
  }

  lemma DraftedKeysAreSafe(added: Draft.Views, exceptions: Exceptions)
    ensures ListSafe(KeysOf(DraftedKeys(added, exceptions)), Keys(exceptions))
  {
    hide KeySafe; hide Draft.ViewOf; hide Draft.ViewsUnder; hide Draft.IsAncestor; hide Draft.AllKeys; hide Collected;
    var entries := DraftedKeys(added, exceptions);
    forall key | key in KeysOf(entries) ensures KeySafe(key, exceptions) {
      var i :| 0 <= i < |entries| && KeysOf(entries)[i] == key;
      assert entries[i] in entries;
      Draft.EntriesAreRoots(added, exceptions, entries[i]);
    }
  }

  /** A drafted entry passes the catalog check exactly when no driver and no
      service of it ships with Windows and every directory it keeps drafts well.
      No key of a draft is ever refused. */
  lemma DraftedEntryPasses(inbox: Inbox, id: string, risk: Risk, publishers: seq<string>, services: seq<string>,
                           drivers: seq<string>, directories: set<string>, added: Draft.Views)
    ensures var exceptions := NewExceptions(inbox, drivers, services);
            AntiCheatProblems(inbox, Drafted(inbox, id, risk, publishers, services, drivers, directories, added)) == [] <==>
              && (forall d :: IsKept(d, directories, exceptions) ==> KeepsNoPercent(d) && PathSafe(Relocated(d), exceptions))
              && (forall driver :: driver in drivers ==> !IsInboxDriver(inbox, driver))
              && (forall service :: service in services ==> !IsInboxService(inbox, service))
  {
    hide AntiCheatProblems; hide NewExceptions; hide DraftedTemplates; hide DraftedKeys; hide IsKept; hide Relocated;
    hide PathSafe; hide KeySafe; hide KeepsNoPercent;
    hide IsInboxDriver; hide IsInboxService; hide ValidationExpansions; hide KeysOf;
    var entry := Drafted(inbox, id, risk, publishers, services, drivers, directories, added);
    var exceptions := NewExceptions(inbox, drivers, services);
    AntiCheatIsSafe(inbox, entry);
    DraftedPathsAreSafe(directories, exceptions);
    DraftedKeysAreSafe(added, exceptions);
  }

  lemma {:induction false} KeysHold(entries: seq<RegistryEntry>, e: RegistryEntry)
    requires e in entries
    ensures e.key in KeysOf(entries)
  {
    if e != entries[0] {
      KeysHold(entries[1..], e);
    }
  }

  lemma CheckedKeyIsAllowed(inbox: Inbox, catalog: Catalog, ac: AntiCheat, e: RegistryEntry)
    requires DenylistProblems(inbox, catalog) == [] && ac in catalog.anticheat && e in ac.registry
    ensures KeyRefusal(e.key, ExceptionsFor(inbox, ac)).None?
  {
    hide KeysOf; hide KeyRefusal; hide DenylistProblems; hide KeySafe; hide ExceptionsFor;
    NoProblemsIsSafe(inbox, catalog);
    assert AntiCheatSafe(inbox, ac);
    KeysHold(ac.registry, e);
    assert EntrySafe(Keys(ExceptionsFor(inbox, ac)), e.key);
    RefusalMeansDenied(e.key, "", ReparsePoint, ExceptionsFor(inbox, ac));
  }

  /** Of a catalog that passed the check, an audit reports no registry key as
      protected: all it may report is a place that a template leads to. */
  lemma CheckedKeysAreNeverProtected(inbox: Inbox, catalog: Catalog, machine: MachineView, environment: Environment,
                                     ac: AntiCheat, p: Protected)
    requires DenylistProblems(inbox, catalog) == [] && ac in catalog.anticheat
    ensures var c := ContextFor(inbox, machine, environment, ac);
            p in EntryReport(c).protected <==> p.anticheat == ac.id && ProtectedPath(c, p)
  {
    hide DenylistProblems; hide KeyRefusal; hide ExceptionsFor; hide EntryReport; hide Machine.Views; hide ProtectedPath;
    var c := ContextFor(inbox, machine, environment, ac);
    ProtectedIsRefused(c, p);
    if ProtectedKey(c, p) {
      var e, view :| e in ac.registry && e.key == p.target && view in Machine.Views(e.key, e.view);
      CheckedKeyIsAllowed(inbox, catalog, ac, e);
      assert false;
    }
  }

  /** So each such key is found, unreadable, or truly absent. */
  lemma CheckedKeysAreFoundOrAbsent(inbox: Inbox, catalog: Catalog, machine: MachineView, environment: Environment,
                                    ac: AntiCheat, e: RegistryEntry, view: RegView)
    requires DenylistProblems(inbox, catalog) == [] && ac in catalog.anticheat && e in ac.registry
    requires view in Machine.Views(e.key, e.view)
    ensures var c := ContextFor(inbox, machine, environment, ac);
            && |KeyOutcome(c, e.key, view).protected| == 0
            && (machine.registryKey(e.key, view).Found? ==>
                  exists f :: f in EntryReport(c).findings && f.artifact == RegistryKey(e.key, view))
            && (machine.registryKey(e.key, view).Unreadable? ==> IsPartial(EntryReport(c)))
  {
    hide DenylistProblems; hide KeyRefusal; hide ExceptionsFor; hide EntryReport; hide Machine.Views; hide KeyItem;
    CheckedKeyIsAllowed(inbox, catalog, ac, e);
    KeyIsReported(ContextFor(inbox, machine, environment, ac), e, view);
  }
}
