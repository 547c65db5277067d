// What an audit asks a machine for, and what it takes from the answers:
// core/src/scan/engine.rs, core/src/scan/view.rs.
module MachineReads {
  import opened Prelude
  import opened Text
  import opened PathLaws
  import opened PathSpellings
  import opened Catalog
  import opened CatalogGate
  import opened DenyList
  import opened Machine
  import opened Audit

  /** Below the machine's `SOFTWARE`, in any case. */
  ghost predicate IsRedirected(key: string) {
    exists head, rest :: key == head + rest && EqFold(head, "HKLM\\SOFTWARE\\")
  }

  /** A key is read in the view its entry gives, and one given in both is read in
      both only where Windows keeps two. */
  lemma ViewsExactly(key: string, view: View)
    ensures view == Bits32 ==> Views(key, view) == [View32]
    ensures view == Bits64 ==> Views(key, view) == [View64]
    ensures view == Both && IsRedirected(key) ==> Views(key, view) == [View64, View32]
    ensures view == Both && !IsRedirected(key) ==> Views(key, view) == [View64]
  {
    hide EqFold;
    if head, rest :| key == head + rest && EqFold(head, "HKLM\\SOFTWARE\\") {
      HeadLength(head);
      assert key[..|SOFTWARE_PREFIX|] == head;
    }
    if |key| >= |SOFTWARE_PREFIX| && EqFold(key[..|SOFTWARE_PREFIX|], SOFTWARE_PREFIX) {
      assert key == key[..|SOFTWARE_PREFIX|] + key[|SOFTWARE_PREFIX|..];
    }
  }

  lemma HeadLength(head: string)
    requires EqFold(head, "HKLM\\SOFTWARE\\")
    ensures |head| == |SOFTWARE_PREFIX|
  {
    FoldIndex(head, "HKLM\\SOFTWARE\\", 0);
  }

  /** What ends in one of the four extensions is worth a signature. */
  lemma SignableExactly(path: string)
    ensures IsSignable(path) <==>
              exists a, e :: path == a + e && (EqFold(e, ".exe") || EqFold(e, ".dll") || EqFold(e, ".sys") || EqFold(e, ".msi"))
  {
    hide EqFold;
    if |path| >= 4 {
      assert path == path[..|path| - 4] + path[|path| - 4..];
    }
    if a, e :| path == a + e && (EqFold(e, ".exe") || EqFold(e, ".dll") || EqFold(e, ".sys") || EqFold(e, ".msi")) {
      ExtensionLength(e);
      assert path[|path| - 4..] == e;
    }
  }

  lemma ExtensionLength(e: string)
    requires EqFold(e, ".exe") || EqFold(e, ".dll") || EqFold(e, ".sys") || EqFold(e, ".msi")
    ensures |e| == 4
  {
    if EqFold(e, ".exe") { FoldIndex(e, ".exe", 0); }
    if EqFold(e, ".dll") { FoldIndex(e, ".dll", 0); }
    if EqFold(e, ".sys") { FoldIndex(e, ".sys", 0); }
    if EqFold(e, ".msi") { FoldIndex(e, ".msi", 0); }
  }

  /** The name of a file is what follows its last separator, if anything does. */
  lemma FileNameExactly(folder: string, name: string)
    requires '\\' !in name
    ensures FileName(folder + ("\\" + name)) == if name == "" then None else Some(name)
    ensures FileName(name) == if name == "" then None else Some(name)
  {
    var path := folder + ("\\" + name);
    assert path[|folder|] == '\\';
    forall j | |folder| < j < |path| ensures path[j] != '\\' {
      assert path[j] == name[j - |folder| - 1] && name[j - |folder| - 1] in name;
    }
    assert LastIndexOf(path, '\\') == |folder|;
    assert path[|folder| + 1..] == name;
    assert LastIndexOf(name, '\\') < 0 ==> name[0..] == name;
  }

  /** The system's root is the first value of its variable, whatever case that was
      recorded in, and has a default. */
  lemma SystemRootIs(environment: Environment)
    ensures "SYSTEMROOT" !in environment.values ==> SystemRoot(environment) == "C:\\Windows"
    ensures "SYSTEMROOT" in environment.values && environment.values["SYSTEMROOT"] != [] ==>
              SystemRoot(environment) == environment.values["SYSTEMROOT"][0]
  {
    hide UpperAll;
    Uppers("SystemRoot", "SYSTEMROOT");
  }

  lemma ValuesInAnyCase(environment: Environment, a: string, b: string)
    requires EqFold(a, b)
    ensures ValueOf(environment)(a) == ValueOf(environment)(b)
  {
    EqFoldIsUpper(a, b);
  }

  /** Only the attestation's own signer is held to be nobody. */
  lemma AttestationIs(signer: string, entry: AntiCheat)
    ensures EqFold(signer, "Microsoft Windows Hardware Compatibility Publisher") ==>
              Judge(Verified(signer), entry) == Probable
    ensures !EqFold(signer, "Microsoft Windows Hardware Compatibility Publisher") && entry.authenticodeCn != [] ==>
              Judge(Verified(signer), entry)
              == if exists name :: name in entry.authenticodeCn && EqFold(name, signer) then Confirmed else Suspicious
    ensures forall reason :: Judge(Unknown(reason), entry) == Probable
    ensures Judge(Unsigned, entry) == Suspicious && Judge(Invalid, entry) == Suspicious
  {
    hide EqFold;
  }

  // ----- before the first entry -----

  lemma {:induction false} UnlistedExactly(items: seq<(string, string)>, u: Unread)
    ensures u in Unlisted(items) <==> u.anticheat == None && exists i :: i in items && u.item == i.0 && u.reason == Said(i.1)
  {
    if items != [] {
      var n := |items| - 1;
      UnlistedExactly(items[..n], u);
      assert items == items[..n] + [items[n]];
    }
  }

  lemma {:induction false} ClosedExactly(keys: seq<(string, string)>, u: Unread)
    ensures u in ClosedKeys(keys) <==>
              u.anticheat == None
              && exists k :: k in keys && u.item == "HKLM\\SYSTEM\\CurrentControlSet\\Services" + "\\" + k.0 && u.reason == Said(k.1)
  {
    if keys != [] {
      var n := |keys| - 1;
      ClosedExactly(keys[..n], u);
      assert keys == keys[..n] + [keys[n]];
    }
  }

  /** Before any entry an audit reports just what its sources could not list: a
      launcher's libraries, a closed driver key, or all driver keys at once. */
  lemma HeaderExactly(machine: MachineView, environment: Environment, u: Unread)
    ensures var header := Header(machine, environment);
            && header.findings == [] && header.protected == [] && header.disbelieved == []
            && (u in header.unreadable <==>
                  && u.anticheat == None
                  && (|| (exists i :: i in environment.unreadable && u.item == i.0 && u.reason == Said(i.1))
                      || (machine.driverKeys.Found?
                          && exists k :: k in machine.driverKeys.value.unreadable
                               && u.item == "HKLM\\SYSTEM\\CurrentControlSet\\Services" + "\\" + k.0 && u.reason == Said(k.1))
                      || (machine.driverKeys.Unreadable?
                          && u.item == "HKLM\\SYSTEM\\CurrentControlSet\\Services"
                          && u.reason == Said(machine.driverKeys.reason))))
  {
    UnlistedExactly(environment.unreadable, u);
    if machine.driverKeys.Found? {
      ClosedExactly(machine.driverKeys.value.unreadable, u);
    }
    hide Unlisted; hide ClosedKeys;
  }

  function ReportOf(inbox: Inbox, machine: MachineView, environment: Environment, entry: AntiCheat): Report {
    EntryReport(ContextFor(inbox, machine, environment, entry))
  }

  /** And of each entry, all its own report says, and nothing else. */
  lemma {:induction false} EntriesExactly(inbox: Inbox, machine: MachineView, environment: Environment,
                                          entries: seq<AntiCheat>, f: Finding, p: Protected, d: Disbelieved, u: Unread)
    ensures var all := EntryReports(inbox, machine, environment, entries);
            && (f in all.findings <==> exists e :: e in entries && f in ReportOf(inbox, machine, environment, e).findings)
            && (p in all.protected <==> exists e :: e in entries && p in ReportOf(inbox, machine, environment, e).protected)
            && (d in all.disbelieved <==> exists e :: e in entries && d in ReportOf(inbox, machine, environment, e).disbelieved)
            && (u in all.unreadable <==> exists e :: e in entries && u in ReportOf(inbox, machine, environment, e).unreadable)
  {
    hide EntryReport; hide ContextFor; hide ReportOf; hide EntryReports; hide Joined;
    if entries == [] {
      NoEntries(inbox, machine, environment);
    } else {
      var n := |entries| - 1;
      EntriesExactly(inbox, machine, environment, entries[..n], f, p, d, u);
      LastEntry(inbox, machine, environment, entries);
      JoinedHolds(EntryReports(inbox, machine, environment, entries[..n]), ReportOf(inbox, machine, environment, entries[n]), f, p, d, u);
      assert entries == entries[..n] + [entries[n]];
    }
  }

  lemma NoEntries(inbox: Inbox, machine: MachineView, environment: Environment)
    ensures EntryReports(inbox, machine, environment, []) == Report([], [], [], [])
  {
  }

  lemma LastEntry(inbox: Inbox, machine: MachineView, environment: Environment, entries: seq<AntiCheat>)
    requires entries != []
    ensures var n := |entries| - 1;
            EntryReports(inbox, machine, environment, entries)
            == Joined(EntryReports(inbox, machine, environment, entries[..n]), ReportOf(inbox, machine, environment, entries[n]))
  {
    hide EntryReport; hide ContextFor;
  }

  lemma JoinedHolds(a: Report, b: Report, f: Finding, p: Protected, d: Disbelieved, u: Unread)
    ensures f in Joined(a, b).findings <==> f in a.findings || f in b.findings
    ensures p in Joined(a, b).protected <==> p in a.protected || p in b.protected
    ensures d in Joined(a, b).disbelieved <==> d in a.disbelieved || d in b.disbelieved
    ensures u in Joined(a, b).unreadable <==> u in a.unreadable || u in b.unreadable
  {
  }

  /** An entry is audited under its own carve-outs, with every driver key. */
  lemma ContextIs(inbox: Inbox, machine: MachineView, environment: Environment, entry: AntiCheat)
    ensures var c := ContextFor(inbox, machine, environment, entry);
            && c.entry == entry && c.machine == machine && c.environment == environment
            && c.exceptions == NewExceptions(inbox, entry.drivers, entry.services)
            && c.driverKeys == if machine.driverKeys.Found? then machine.driverKeys.value.drivers else []
  {
    hide NewExceptions;
  }
}
