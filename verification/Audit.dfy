// The audit: every catalog entry matched against the machine, in
// core/src/scan/engine.rs. Each entry's audit pushes what it finds, what the
// deny-list protects and what it could not read.
module Audit {
  import opened Prelude
  import opened Text
  import opened Paths
  import opened RegKeys
  import opened DenyList
  import opened Expand
  import opened Catalog
  import opened CatalogGate
  import opened Machine

  /** A finding before its classification is settled: a file's comes from its
      own signature, anything else's from the entry's files. */
  datatype Pending = Pending(artifact: Artifact, judged: Option<Classification>)

  /** What looking at one thing adds. */
  datatype Outcome = Outcome(
    found: seq<Pending>,
    protected: seq<Protected>,
    disbelieved: seq<Disbelieved>,
    unreadable: seq<Unread>)

  const NOTHING: Outcome := Outcome([], [], [], [])

  function Plus(a: Outcome, b: Outcome): Outcome {
    Outcome(a.found + b.found, a.protected + b.protected, a.disbelieved + b.disbelieved, a.unreadable + b.unreadable)
  }

  function JustFound(pending: Pending): Outcome { NOTHING.(found := [pending]) }
  function JustProtected(protected: Protected): Outcome { NOTHING.(protected := [protected]) }
  function JustUnread(id: string, item: string, reason: Trouble): Outcome {
    NOTHING.(unreadable := [Unread(Some(id), item, reason)])
  }

  const SERVICES_KEY: string := "HKLM\\SYSTEM\\CurrentControlSet\\Services"

  /** What one entry's audit works with. */
  datatype Context = Context(
    entry: AntiCheat,
    exceptions: Exceptions,
    machine: MachineView,
    environment: Environment,
    driverKeys: seq<ServiceKey>)

  // ----- one thing at a time -----

  /** An artifact with a configured image, judged by that image's signature when
      it is on disk. */
  function WithImage(c: Context, artifact: Artifact, configured: string): Pending {
    match ImageFile(configured, SystemRoot(c.environment))
    case None => Pending(artifact, None)
    case Some(image) =>
      if c.machine.path(image) == Lookup.Found(PathKind.File)
      then Pending(artifact, Some(Judge(c.machine.signature(image), c.entry))) else Pending(artifact, None)
  }

  function ServiceOutcome(c: Context, name: string): Outcome {
    match c.machine.service(name)
    case Unreadable(reason) => JustUnread(c.entry.id, name, Said(reason))
    case Found(status) =>
      if status.stale then NOTHING.(disbelieved := [Disbelieved(c.entry.id, name)])
      else JustFound(WithImage(c, Service(name, Some(status.image), false), status.image))
    case Absent =>
      match c.machine.serviceKey(name)
      case Unreadable(reason) => JustUnread(c.entry.id, SERVICES_KEY + "\\" + name, Said(reason))
      case Absent => NOTHING
      case Found(key) =>
        JustFound(WithImage(c, Service(name, if key.image == "" then None else Some(key.image), true), key.image))
  }

  /** A driver key that registers an image of one file name. */
  predicate Registers(c: Context, key: ServiceKey, file: string) {
    var image := ImageFile(key.image, SystemRoot(c.environment));
    image.Some? && FileName(image.value).Some? && EqFold(FileName(image.value).value, file)
  }

  function Registered(c: Context, keys: seq<ServiceKey>, file: string): seq<ServiceKey> {
    if keys == [] then []
    else
      var n := |keys| - 1;
      Registered(c, keys[..n], file) + if Registers(c, keys[n], file) then [keys[n]] else []
  }

  function RegisteredDriver(c: Context, file: string, key: ServiceKey): Pending {
    var named := ImageFile(key.image, SystemRoot(c.environment));
    var image := if named.Some? then named.value else key.image;
    var present := c.machine.path(image) == Lookup.Found(PathKind.File);
    Pending(Driver(file, Some(key.name), image, present),
            if present then Some(Judge(c.machine.signature(image), c.entry)) else None)
  }

  function RegisteredDrivers(c: Context, file: string, keys: seq<ServiceKey>): seq<Pending> {
    if keys == [] then []
    else RegisteredDrivers(c, file, keys[..|keys| - 1]) + [RegisteredDriver(c, file, keys[|keys| - 1])]
  }

  /** Where Windows keeps a driver's file. */
  function DriverImage(c: Context, file: string): string {
    SystemRoot(c.environment) + "\\System32\\drivers\\" + file
  }

  function UnregisteredDriver(c: Context, file: string): Outcome {
    var image := DriverImage(c, file);
    match c.machine.path(image)
    case Unreadable(reason) => JustUnread(c.entry.id, image, Said(reason))
    case Absent => NOTHING
    case Found(kind) =>
      if kind == PathKind.File
      then JustFound(Pending(Driver(file, None, image, true), Some(Judge(c.machine.signature(image), c.entry))))
      else NOTHING
  }

  function DriverOutcome(c: Context, file: string): Outcome {
    var registered := Registered(c, c.driverKeys, file);
    if registered == [] then UnregisteredDriver(c, file)
    else NOTHING.(found := RegisteredDrivers(c, file, registered))
  }

  function KeyRefusal(key: string, exceptions: Exceptions): Option<Refusal> {
    match CanonicalKey(key)
    case Err(error) => Some(BadKey(error))
    case Ok(canonical) => (match EvaluateKey(canonical, exceptions)
                           case Allowed => None
                           case Denied(reason) => Some(RefusedKey(reason)))
  }

  function KeyOutcome(c: Context, key: string, view: RegView): Outcome {
    match KeyRefusal(key, c.exceptions)
    case Some(reason) => JustProtected(Protected(c.entry.id, key, reason))
    case None =>
      match c.machine.registryKey(key, view)
      case Found(_) => JustFound(Pending(RegistryKey(key, view), None))
      case Absent => NOTHING
      case Unreadable(reason) => JustUnread(c.entry.id, KeyItem(key, view), Said(reason))
  }

  function KeyItem(key: string, view: RegView): string {
    key + (if view == View64 then " (Bits64)" else " (Bits32)")
  }

  /** A link is refused before the path is read, as any path through one is. */
  function PathRefusal(path: string, kind: PathKind, exceptions: Exceptions): Option<Refusal> {
    if kind == ReparsePoint then Some(ThroughLink)
    else
      match Canonical(path)
      case Err(error) => Some(BadPath(error))
      case Ok(canonical) => (match EvaluatePath(canonical, exceptions, CatalogLoad)
                             case Allowed => None
                             case Denied(reason) => Some(RefusedPath(reason)))
  }

  function PathOutcome(c: Context, path: string): Outcome {
    match c.machine.path(path)
    case Absent => NOTHING
    case Unreadable(reason) => JustUnread(c.entry.id, path, Said(reason))
    case Found(kind) =>
      match PathRefusal(path, kind, c.exceptions)
      case Some(reason) => JustProtected(Protected(c.entry.id, path, reason))
      case None =>
        JustFound(Pending(PathArtifact(path, kind == Directory),
                          if kind == PathKind.File && IsSignable(path)
                          then Some(Judge(c.machine.signature(path), c.entry)) else None))
  }

  // ----- lists of things -----

  datatype Look =
    | AtService(name: string)
    | AtDriver(file: string)
    | AtKey(key: string, view: RegView)
    | AtPath(path: string)
    | AtTemplate(template: string, error: ExpandError)

  function LookOutcome(c: Context, look: Look): Outcome {
    match look
    case AtService(name) => ServiceOutcome(c, name)
    case AtDriver(file) => DriverOutcome(c, file)
    case AtKey(key, view) => KeyOutcome(c, key, view)
    case AtPath(path) => PathOutcome(c, path)
    case AtTemplate(template, error) => JustUnread(c.entry.id, template, Unexpandable(error))
  }

  function Total(c: Context, looks: seq<Look>): Outcome {
    if looks == [] then NOTHING
    else Plus(Total(c, looks[..|looks| - 1]), LookOutcome(c, looks[|looks| - 1]))
  }

  function ServiceLooks(names: seq<string>): seq<Look> {
    if names == [] then [] else ServiceLooks(names[..|names| - 1]) + [AtService(names[|names| - 1])]
  }

  function DriverLooks(files: seq<string>): seq<Look> {
    if files == [] then [] else DriverLooks(files[..|files| - 1]) + [AtDriver(files[|files| - 1])]
  }

  function ViewLooks(key: string, views: seq<RegView>): seq<Look> {
    if views == [] then [] else ViewLooks(key, views[..|views| - 1]) + [AtKey(key, views[|views| - 1])]
  }

  function KeyLooks(entries: seq<RegistryEntry>): seq<Look> {
    if entries == [] then []
    else
      var last := entries[|entries| - 1];
      KeyLooks(entries[..|entries| - 1]) + ViewLooks(last.key, Views(last.key, last.view))
  }

  function PathLooks(paths: seq<string>): seq<Look> {
    if paths == [] then [] else PathLooks(paths[..|paths| - 1]) + [AtPath(paths[|paths| - 1])]
  }

  function TemplateLooks(environment: Environment, template: string): seq<Look> {
    match Expansions(template, ValueOf(environment))
    case Err(error) => [AtTemplate(template, error)]
    case Ok(paths) => PathLooks(paths)
  }

  function AllTemplateLooks(environment: Environment, templates: seq<string>): seq<Look> {
    if templates == [] then []
    else AllTemplateLooks(environment, templates[..|templates| - 1]) + TemplateLooks(environment, templates[|templates| - 1])
  }

  /** Everything an entry's audit looks at, in its order. */
  function Looks(c: Context): seq<Look> {
    ServiceLooks(c.entry.services) + DriverLooks(c.entry.drivers) + KeyLooks(c.entry.registry)
    + AllTemplateLooks(c.environment, c.entry.paths)
  }

  // ----- settling -----

  predicate Settles(found: seq<Pending>, classification: Classification) {
    exists p :: p in found && p.judged == Some(classification)
  }

  /** What an unjudged artifact of an entry is called. */
  function ByAssociation(found: seq<Pending>): Classification {
    if Settles(found, Confirmed) && !Settles(found, Suspicious) then Confirmed else Probable
  }

  function Settle(entry: AntiCheat, pending: Pending, association: Classification): Finding {
    Finding(entry.id, entry.risk, pending.artifact, if pending.judged.Some? then pending.judged.value else association)
  }

  function SettledWith(entry: AntiCheat, found: seq<Pending>, association: Classification): (findings: seq<Finding>)
    ensures |findings| == |found|
    ensures forall i :: 0 <= i < |found| ==> findings[i] == Settle(entry, found[i], association)
  {
    if found == [] then []
    else SettledWith(entry, found[..|found| - 1], association) + [Settle(entry, found[|found| - 1], association)]
  }

  function Settled(entry: AntiCheat, found: seq<Pending>): seq<Finding> {
    SettledWith(entry, found, ByAssociation(found))
  }

  /** What one entry adds to the report. */
  function EntryReport(c: Context): Report {
    var total := Total(c, Looks(c));
    Report(Settled(c.entry, total.found), total.protected, total.disbelieved, total.unreadable)
  }

  function Joined(a: Report, b: Report): Report {
    Report(a.findings + b.findings, a.protected + b.protected, a.disbelieved + b.disbelieved, a.unreadable + b.unreadable)
  }

  // ----- the audit itself -----

  lemma TotalMore(c: Context, looks: seq<Look>, look: Look)
    ensures Total(c, looks + [look]) == Plus(Total(c, looks), LookOutcome(c, look))
  {
    assert (looks + [look])[..|looks|] == looks;
  }

  ghost predicate PushedTo(was: Report, wasFound: seq<Pending>, outcome: Outcome, now: Report, nowFound: seq<Pending>) {
    && nowFound == wasFound + outcome.found
    && now.findings == was.findings
    && now.protected == was.protected + outcome.protected
    && now.disbelieved == was.disbelieved + outcome.disbelieved
    && now.unreadable == was.unreadable + outcome.unreadable
  }

  lemma PushedTwice(a: Report, aFound: seq<Pending>, x: Outcome, b: Report, bFound: seq<Pending>, y: Outcome,
                    d: Report, dFound: seq<Pending>)
    requires PushedTo(a, aFound, x, b, bFound) && PushedTo(b, bFound, y, d, dFound)
    ensures PushedTo(a, aFound, Plus(x, y), d, dFound)
  {
  }

  /** One catalog entry's audit, pushing into a report it shares with the rest. */
  class EntryAudit {
    const c: Context
    var report: Report
    var found: seq<Pending>

    constructor (context: Context, sofar: Report)
      ensures c == context && report == sofar && found == []
    {
      c := context;
      report := sofar;
      found := [];
    }

    /** What has been pushed since a state. */
    ghost predicate Pushed(was: Report, wasFound: seq<Pending>, outcome: Outcome)
      reads this
    {
      PushedTo(was, wasFound, outcome, report, found)
    }

    method Unreadable(item: string, reason: Trouble)
      modifies this
      ensures Pushed(old(report), old(found), JustUnread(c.entry.id, item, reason))
    {
      report := report.(unreadable := report.unreadable + [Unread(Some(c.entry.id), item, reason)]);
    }

    method Protect(target: string, reason: Refusal)
      modifies this
      ensures Pushed(old(report), old(found), JustProtected(Protected(c.entry.id, target, reason)))
    {
      report := report.(protected := report.protected + [Protected(c.entry.id, target, reason)]);
    }

    method Find(pending: Pending)
      modifies this
      ensures Pushed(old(report), old(found), JustFound(pending))
    {
      found := found + [pending];
    }

    method LookAtService(name: string)
      modifies this
      ensures Pushed(old(report), old(found), ServiceOutcome(c, name))
    {
      hide WithImage;
      match c.machine.service(name)
      case Unreadable(reason) => Unreadable(name, Said(reason));
      case Found(status) =>
        if status.stale {
          report := report.(disbelieved := report.disbelieved + [Disbelieved(c.entry.id, name)]);
        } else {
          Find(WithImage(c, Service(name, Some(status.image), false), status.image));
        }
      case Absent =>
        match c.machine.serviceKey(name)
        case Unreadable(reason) => Unreadable(SERVICES_KEY + "\\" + name, Said(reason));
        case Absent =>
        case Found(key) =>
          Find(WithImage(c, Service(name, if key.image == "" then None else Some(key.image), true), key.image));
    }

    method FindRegistered(file: string) returns (registered: seq<ServiceKey>)
      ensures registered == Registered(c, c.driverKeys, file)
    {
      hide Registers;
      registered := [];
      for i := 0 to |c.driverKeys|
        invariant registered == Registered(c, c.driverKeys[..i], file)
      {
        assert c.driverKeys[..i + 1][..i] == c.driverKeys[..i];
        if Registers(c, c.driverKeys[i], file) {
          registered := registered + [c.driverKeys[i]];
        }
      }
      assert c.driverKeys[..|c.driverKeys|] == c.driverKeys;
    }

    /** An image with no registration. */
    method LookAtImage(file: string)
      modifies this
      ensures Pushed(old(report), old(found), UnregisteredDriver(c, file))
    {
      hide Judge; hide SystemRoot;
      var image := DriverImage(c, file);
      match c.machine.path(image)
      case Unreadable(reason) => Unreadable(image, Said(reason));
      case Absent =>
      case Found(kind) =>
        if kind == PathKind.File {
          Find(Pending(Driver(file, None, image, true), Some(Judge(c.machine.signature(image), c.entry))));
        }
    }

    method LookAtDriver(file: string)
      modifies this
      ensures Pushed(old(report), old(found), DriverOutcome(c, file))
    {
      hide Registered; hide RegisteredDriver; hide UnregisteredDriver;
      var registered := FindRegistered(file);
      if registered == [] {
        LookAtImage(file);
        return;
      }
      for i := 0 to |registered|
        invariant report == old(report) && found == old(found) + RegisteredDrivers(c, file, registered[..i])
      {
        assert registered[..i + 1][..i] == registered[..i];
        found := found + [RegisteredDriver(c, file, registered[i])];
      }
      assert registered[..|registered|] == registered;
    }

    method LookAtKey(key: string, view: RegView)
      modifies this
      ensures Pushed(old(report), old(found), KeyOutcome(c, key, view))
    {
      hide KeyRefusal;
      var refused := KeyRefusal(key, c.exceptions);
      if refused.Some? {
        Protect(key, refused.value);
        return;
      }
      match c.machine.registryKey(key, view)
      case Found(_) => Find(Pending(RegistryKey(key, view), None));
      case Absent =>
      case Unreadable(reason) => Unreadable(KeyItem(key, view), Said(reason));
    }

    method LookAtPath(path: string)
      modifies this
      ensures Pushed(old(report), old(found), PathOutcome(c, path))
    {
      hide PathRefusal; hide Judge; hide IsSignable;
      match c.machine.path(path)
      case Absent =>
      case Unreadable(reason) => Unreadable(path, Said(reason));
      case Found(kind) =>
        var refused := PathRefusal(path, kind, c.exceptions);
        if refused.Some? {
          Protect(path, refused.value);
        } else {
          var signable := kind == PathKind.File && IsSignable(path);
          Find(Pending(PathArtifact(path, kind == Directory),
                       if signable then Some(Judge(c.machine.signature(path), c.entry)) else None));
        }
    }

    method LookAt(look: Look)
      modifies this
      ensures Pushed(old(report), old(found), LookOutcome(c, look))
    {
      hide ServiceOutcome; hide DriverOutcome; hide KeyOutcome; hide PathOutcome; hide PushedTo;
      match look
      case AtService(name) => LookAtService(name);
      case AtDriver(file) => LookAtDriver(file);
      case AtKey(key, view) => LookAtKey(key, view);
      case AtPath(path) => LookAtPath(path);
      case AtTemplate(template, error) => Unreadable(template, Unexpandable(error));
    }

    /** The loops of `run`, as one over everything they look at. */
    method LookThrough(looks: seq<Look>)
      modifies this
      ensures Pushed(old(report), old(found), Total(c, looks))
    {
      hide LookOutcome; hide PushedTo;
      NothingPushed(report, found);
      for i := 0 to |looks|
        invariant Pushed(old(report), old(found), Total(c, looks[..i]))
      {
        assert looks[..i + 1] == looks[..i] + [looks[i]];
        ghost var mid, midFound := report, found;
        LookAt(looks[i]);
        PushedOne(c, looks[..i], looks[i], old(report), old(found), mid, midFound, report, found);
      }
      assert looks[..|looks|] == looks;
    }

    /** `settle`: every artifact gets its classification and goes to the report. */
    method SettleAll()
      modifies this`report
      ensures report == old(report).(findings := old(report).findings + Settled(c.entry, found))
    {
      hide Settles;
      var confirmed, suspicious := Settles(found, Confirmed), Settles(found, Suspicious);
      var association := if confirmed && !suspicious then Confirmed else Probable;
      for i := 0 to |found|
        invariant report == old(report).(findings := old(report).findings + SettledWith(c.entry, found[..i], association))
      {
        assert found[..i + 1][..i] == found[..i];
        report := report.(findings := report.findings + [Settle(c.entry, found[i], association)]);
      }
      assert found[..|found|] == found;
    }

    /** `run`. */
    method Run()
      requires found == []
      modifies this
      ensures report == Joined(old(report), EntryReport(c))
    {
      hide Total; hide Looks; hide Settled;
      LookThrough(Looks(c));
      assert found == Total(c, Looks(c)).found;
      SettleAll();
    }
  }

  lemma PushedOne(c: Context, looks: seq<Look>, look: Look, a: Report, aFound: seq<Pending>, b: Report, bFound: seq<Pending>,
                d: Report, dFound: seq<Pending>)
    requires PushedTo(a, aFound, Total(c, looks), b, bFound) && PushedTo(b, bFound, LookOutcome(c, look), d, dFound)
    ensures PushedTo(a, aFound, Total(c, looks + [look]), d, dFound)
  {
    TotalMore(c, looks, look);
    hide Total; hide LookOutcome;
    PushedTwice(a, aFound, Total(c, looks), b, bFound, LookOutcome(c, look), d, dFound);
  }

  lemma NothingPushed(report: Report, found: seq<Pending>)
    ensures PushedTo(report, found, NOTHING, report, found)
  {
  }

  // ----- the whole catalog -----

  /** What the machine's own lists could not be read, before any entry. */
  function Header(machine: MachineView, environment: Environment): Report {
    Report([], [], [], Unlisted(environment.unreadable) + UnreadKeys(machine.driverKeys))
  }

  function Unlisted(items: seq<(string, string)>): seq<Unread> {
    if items == [] then []
    else
      var last := items[|items| - 1];
      Unlisted(items[..|items| - 1]) + [Unread(None, last.0, Said(last.1))]
  }

  function ClosedKeys(keys: seq<(string, string)>): seq<Unread> {
    if keys == [] then []
    else
      var last := keys[|keys| - 1];
      ClosedKeys(keys[..|keys| - 1]) + [Unread(None, SERVICES_KEY + "\\" + last.0, Said(last.1))]
  }

  function UnreadKeys(answer: Lookup<DriverKeys>): seq<Unread> {
    match answer
    case Found(keys) => ClosedKeys(keys.unreadable)
    case Absent => []
    case Unreadable(reason) => [Unread(None, SERVICES_KEY, Said(reason))]
  }

  function DriversOf(answer: Lookup<DriverKeys>): seq<ServiceKey> {
    match answer
    case Found(keys) => keys.drivers
    case _ => []
  }

  function ContextFor(inbox: Inbox, machine: MachineView, environment: Environment, entry: AntiCheat): Context {
    Context(entry, ExceptionsFor(inbox, entry), machine, environment, DriversOf(machine.driverKeys))
  }

  function EntryReports(inbox: Inbox, machine: MachineView, environment: Environment, entries: seq<AntiCheat>): Report {
    if entries == [] then Report([], [], [], [])
    else
      var n := |entries| - 1;
      Joined(EntryReports(inbox, machine, environment, entries[..n]),
             EntryReport(ContextFor(inbox, machine, environment, entries[n])))
  }

  /** `audit`. */
  method AuditCatalog(inbox: Inbox, catalog: Catalog, machine: MachineView, environment: Environment) returns (report: Report)
    ensures report == Joined(Header(machine, environment), EntryReports(inbox, machine, environment, catalog.anticheat))
  {
    hide EntryReport; hide ContextFor; hide Header;
    report := Header(machine, environment);
    ghost var header := report;
    for i := 0 to |catalog.anticheat|
      invariant report == Joined(header, EntryReports(inbox, machine, environment, catalog.anticheat[..i]))
    {
      assert catalog.anticheat[..i + 1][..i] == catalog.anticheat[..i];
      var audit := new EntryAudit(ContextFor(inbox, machine, environment, catalog.anticheat[i]), report);
      audit.Run();
      JoinedAssociates(header, EntryReports(inbox, machine, environment, catalog.anticheat[..i]), EntryReport(audit.c));
      report := audit.report;
    }
    assert catalog.anticheat[..|catalog.anticheat|] == catalog.anticheat;
  }

  lemma JoinedAssociates(a: Report, b: Report, d: Report)
    ensures Joined(Joined(a, b), d) == Joined(a, Joined(b, d))
    ensures Joined(a, Report([], [], [], [])) == a
  {
  }

  /** An entry's results do not depend on the rest of the catalog: auditing two
      catalogs as one gives the results of each, one after the other. */
  lemma {:induction false} AuditIsLocal(inbox: Inbox, machine: MachineView, environment: Environment,
                                        x: seq<AntiCheat>, y: seq<AntiCheat>)
    ensures EntryReports(inbox, machine, environment, x + y)
         == Joined(EntryReports(inbox, machine, environment, x), EntryReports(inbox, machine, environment, y))
  {
    hide EntryReport; hide ContextFor;
    if y == [] {
      assert x + y == x;
      JoinedAssociates(EntryReports(inbox, machine, environment, x), Report([], [], [], []), Report([], [], [], []));
    } else {
      var n := |y| - 1;
      assert (x + y)[..|x + y| - 1] == x + y[..n] && (x + y)[|x + y| - 1] == y[n];
      AuditIsLocal(inbox, machine, environment, x, y[..n]);
      JoinedAssociates(EntryReports(inbox, machine, environment, x), EntryReports(inbox, machine, environment, y[..n]),
                       EntryReport(ContextFor(inbox, machine, environment, y[n])));
    }
  }

  // ----- accounting -----

  function Size(o: Outcome): nat {
    |o.found| + |o.protected| + |o.disbelieved| + |o.unreadable|
  }

  /** How many things there are to say of what is looked at, by what the machine
      answers: nothing of what is absent, one thing of anything else, and of a
      driver one for each key that registers it. */
  function Answers(c: Context, look: Look): nat {
    match look
    case AtService(name) => if c.machine.service(name).Absent? && c.machine.serviceKey(name).Absent? then 0 else 1
    case AtDriver(file) =>
      var registrations := |Registered(c, c.driverKeys, file)|;
      if registrations > 0 then registrations
      else
        var answer := c.machine.path(DriverImage(c, file));
        if answer == Lookup.Found(PathKind.File) || answer.Unreadable? then 1 else 0
    case AtKey(key, view) =>
      if KeyRefusal(key, c.exceptions).None? && c.machine.registryKey(key, view).Absent? then 0 else 1
    case AtPath(path) => if c.machine.path(path).Absent? then 0 else 1
    case AtTemplate(_, _) => 1
  }

  function AllAnswers(c: Context, looks: seq<Look>): nat {
    if looks == [] then 0 else AllAnswers(c, looks[..|looks| - 1]) + Answers(c, looks[|looks| - 1])
  }

  /** A key in a view ends as exactly one thing, and as nothing only when the
      deny-list allows it and the machine says it is not there. */
  lemma KeyIsAccounted(c: Context, key: string, view: RegView)
    ensures Size(KeyOutcome(c, key, view)) <= 1
    ensures Size(KeyOutcome(c, key, view)) == 0 <==>
              KeyRefusal(key, c.exceptions).None? && c.machine.registryKey(key, view) == Lookup.Absent
    ensures |KeyOutcome(c, key, view).found| == 1 <==>
              KeyRefusal(key, c.exceptions).None? && c.machine.registryKey(key, view).Found?
  {
    hide KeyRefusal;
  }

  /** So does a path. */
  lemma PathIsAccounted(c: Context, path: string)
    ensures Size(PathOutcome(c, path)) <= 1
    ensures Size(PathOutcome(c, path)) == 0 <==> c.machine.path(path) == Lookup.Absent
    ensures |PathOutcome(c, path).unreadable| == 1 <==> c.machine.path(path).Unreadable?
    ensures |PathOutcome(c, path).found| == 1 <==>
              c.machine.path(path).Found? && PathRefusal(path, c.machine.path(path).value, c.exceptions).None?
  {
    hide PathRefusal; hide Judge; hide IsSignable;
  }

  lemma {:induction false} DriversAreAll(c: Context, file: string, keys: seq<ServiceKey>)
    ensures |RegisteredDrivers(c, file, keys)| == |keys|
  {
    if keys != [] {
      DriversAreAll(c, file, keys[..|keys| - 1]);
    }
  }

  /** A look adds just what the machine's answers say there is, and only a driver
      can add more than one thing. */
  lemma LookIsAccounted(c: Context, look: Look)
    ensures Size(LookOutcome(c, look)) == Answers(c, look)
    ensures !look.AtDriver? ==> Answers(c, look) <= 1
  {
    hide WithImage; hide KeyRefusal; hide PathRefusal; hide Judge; hide IsSignable; hide RegisteredDriver; hide SystemRoot;
    if look.AtDriver? {
      DriversAreAll(c, look.file, Registered(c, c.driverKeys, look.file));
    }
    hide Registered; hide RegisteredDrivers;
  }

  lemma {:induction false} TotalAccounts(c: Context, looks: seq<Look>)
    ensures Size(Total(c, looks)) == AllAnswers(c, looks)
  {
    hide LookOutcome; hide Answers;
    if looks != [] {
      var n := |looks| - 1;
      TotalAccounts(c, looks[..n]);
      LookIsAccounted(c, looks[n]);
    }
  }

  function Counted(report: Report): nat {
    |report.findings| + |report.protected| + |report.disbelieved| + |report.unreadable|
  }

  /** Nothing an entry's audit looks at is lost or counted twice: what it reports
      adds up to what the machine answered. */
  lemma AuditAccounts(c: Context)
    ensures Counted(EntryReport(c)) == AllAnswers(c, Looks(c))
  {
    TotalAccounts(c, Looks(c));
    hide Looks; hide Total; hide AllAnswers;
  }

  /** What a list adds up to holds what each thing looked at adds. */
  lemma {:induction false} TotalHolds(c: Context, looks: seq<Look>, look: Look)
    requires look in looks
    ensures forall p :: p in LookOutcome(c, look).found ==> p in Total(c, looks).found
    ensures forall p :: p in LookOutcome(c, look).protected ==> p in Total(c, looks).protected
    ensures forall d :: d in LookOutcome(c, look).disbelieved ==> d in Total(c, looks).disbelieved
    ensures forall u :: u in LookOutcome(c, look).unreadable ==> u in Total(c, looks).unreadable
  {
    hide LookOutcome;
    var n := |looks| - 1;
    assert looks == looks[..n] + [looks[n]];
    if look != looks[n] {
      TotalHolds(c, looks[..n], look);
    }
  }

  lemma {:induction false} ViewLooksHold(key: string, views: seq<RegView>, look: Look)
    ensures look in ViewLooks(key, views) <==> look.AtKey? && look.key == key && look.view in views
  {
    if views != [] {
      ViewLooksHold(key, views[..|views| - 1], look);
      assert views == views[..|views| - 1] + [views[|views| - 1]];
    }
  }

  lemma {:induction false} KeyLooksHold(entries: seq<RegistryEntry>, look: Look)
    ensures look in KeyLooks(entries) <==> look.AtKey? && exists e :: e in entries && e.key == look.key && look.view in Views(e.key, e.view)
  {
    hide Views;
    if entries != [] {
      var n := |entries| - 1;
      KeyLooksHold(entries[..n], look);
      ViewLooksHold(entries[n].key, Views(entries[n].key, entries[n].view), look);
      hide ViewLooks;
      assert entries == entries[..n] + [entries[n]];
    }
  }

  lemma {:induction false} PathLooksHold(paths: seq<string>, look: Look)
    ensures look in PathLooks(paths) <==> look.AtPath? && look.path in paths
  {
    if paths != [] {
      PathLooksHold(paths[..|paths| - 1], look);
      assert paths == paths[..|paths| - 1] + [paths[|paths| - 1]];
    }
  }

  /** A path some template expands to on this machine. */
  ghost predicate ExpandsTo(environment: Environment, template: string, path: string) {
    var r := Expansions(template, ValueOf(environment)); r.Ok? && path in r.value
  }

  lemma OneTemplateHolds(environment: Environment, template: string, path: string)
    ensures AtPath(path) in TemplateLooks(environment, template) <==> ExpandsTo(environment, template, path)
  {
    var r := Expansions(template, ValueOf(environment));
    hide Expansions;
    if r.Ok? {
      PathLooksHold(r.value, AtPath(path));
      hide PathLooks;
    }
  }

  lemma {:induction false} TemplateLooksHold(environment: Environment, templates: seq<string>, path: string)
    ensures AtPath(path) in AllTemplateLooks(environment, templates) <==>
              exists t :: t in templates && ExpandsTo(environment, t, path)
  {
    if templates != [] {
      var n := |templates| - 1;
      hide TemplateLooks; hide ExpandsTo;
      TemplateLooksHold(environment, templates[..n], path);
      OneTemplateHolds(environment, templates[n], path);
      assert templates == templates[..n] + [templates[n]];
    }
  }

  lemma {:induction false} OtherLooks(names: seq<string>, look: Look)
    ensures look in ServiceLooks(names) ==> look.AtService?
    ensures look in DriverLooks(names) ==> look.AtDriver?
  {
    if names != [] {
      OtherLooks(names[..|names| - 1], look);
    }
  }

  /** An entry's audit looks at each of its keys in each of its views, and at
      each expansion of each of its templates, and at no other key or path. */
  lemma LooksAreTheEntrys(c: Context, key: string, view: RegView, path: string)
    ensures AtKey(key, view) in Looks(c) <==> exists e :: e in c.entry.registry && e.key == key && view in Views(e.key, e.view)
    ensures AtPath(path) in Looks(c) <==> exists t :: t in c.entry.paths && ExpandsTo(c.environment, t, path)
  {
    KeyLooksHold(c.entry.registry, AtKey(key, view));
    KeyLooksHold(c.entry.registry, AtPath(path));
    TemplateLooksHold(c.environment, c.entry.paths, path);
    NoKeysInTemplates(c.environment, c.entry.paths, AtKey(key, view));
    OtherLooks(c.entry.services, AtKey(key, view));
    OtherLooks(c.entry.drivers, AtKey(key, view));
    OtherLooks(c.entry.services, AtPath(path));
    OtherLooks(c.entry.drivers, AtPath(path));
    hide ServiceLooks; hide DriverLooks; hide KeyLooks; hide AllTemplateLooks; hide Views; hide ExpandsTo;
  }

  lemma {:induction false} NoKeysInTemplates(environment: Environment, templates: seq<string>, look: Look)
    ensures look in AllTemplateLooks(environment, templates) ==> look.AtPath? || look.AtTemplate?
  {
    hide Expansions;
    if templates != [] {
      var n := |templates| - 1;
      NoKeysInTemplates(environment, templates[..n], look);
      if Expansions(templates[n], ValueOf(environment)).Ok? {
        PathLooksHold(Expansions(templates[n], ValueOf(environment)).value, look);
      }
      hide PathLooks;
    }
  }

  /** Something an entry's audit found. */
  ghost predicate Finds(c: Context, artifact: Artifact) {
    exists f :: f in EntryReport(c).findings && f.artifact == artifact
  }

  lemma FoundIsReported(c: Context, p: Pending)
    requires p in Total(c, Looks(c)).found
    ensures Finds(c, p.artifact)
  {
    hide Looks; hide Total;
    var found := Total(c, Looks(c)).found;
    var i :| 0 <= i < |found| && found[i] == p;
    assert Settled(c.entry, found)[i] in EntryReport(c).findings;
  }

  /** So each of an entry's keys, in each of its views, is in the report as
      protected, found or unreadable, unless it is allowed and absent. */
  lemma KeyIsReported(c: Context, e: RegistryEntry, view: RegView)
    requires e in c.entry.registry && view in Views(e.key, e.view)
    ensures match KeyRefusal(e.key, c.exceptions)
            case Some(refusal) => Protected(c.entry.id, e.key, refusal) in EntryReport(c).protected
            case None =>
              match c.machine.registryKey(e.key, view)
              case Absent => true
              case Found(_) => exists f :: f in EntryReport(c).findings && f.artifact == RegistryKey(e.key, view)
              case Unreadable(reason) =>
                Unread(Some(c.entry.id), e.key + (if view == View64 then " (Bits64)" else " (Bits32)"), Said(reason))
                in EntryReport(c).unreadable
  {
    hide KeyRefusal; hide Views; hide Looks; hide Total;
    LooksAreTheEntrys(c, e.key, view, "");
    var look := AtKey(e.key, view);
    TotalHolds(c, Looks(c), look);
    assert LookOutcome(c, look) == KeyOutcome(c, e.key, view);
    if KeyRefusal(e.key, c.exceptions).None? && c.machine.registryKey(e.key, view).Found? {
      var p := Pending(RegistryKey(e.key, view), None);
      assert p in LookOutcome(c, look).found;
      FoundIsReported(c, p);
    }
  }

  /** And each expansion of each of its templates, unless it is absent: one that
      could not be looked at makes the report partial. */
  lemma PathIsReported(c: Context, template: string, path: string)
    requires template in c.entry.paths && ExpandsTo(c.environment, template, path)
    ensures match c.machine.path(path)
            case Absent => true
            case Unreadable(reason) =>
              Unread(Some(c.entry.id), path, Said(reason)) in EntryReport(c).unreadable && IsPartial(EntryReport(c))
            case Found(kind) =>
              match PathRefusal(path, kind, c.exceptions)
              case Some(refusal) => Protected(c.entry.id, path, refusal) in EntryReport(c).protected
              case None => exists f :: f in EntryReport(c).findings && f.artifact == PathArtifact(path, kind == Directory)
  {
    hide PathRefusal; hide Looks; hide Total; hide ExpandsTo; hide Judge; hide IsSignable;
    LooksAreTheEntrys(c, "", View64, path);
    var look := AtPath(path);
    TotalHolds(c, Looks(c), look);
    assert LookOutcome(c, look) == PathOutcome(c, path);
    if c.machine.path(path).Found? && PathRefusal(path, c.machine.path(path).value, c.exceptions).None? {
      var p := PathOutcome(c, path).found[0];
      assert p in LookOutcome(c, look).found;
      FoundIsReported(c, p);
    }
  }

  // ----- what findings may be -----

  /** A path or a key found passes the deny-list under its entry's carve-outs,
      and the machine says it is there; a link is never found. */
  ghost predicate Passes(c: Context, artifact: Artifact) {
    match artifact
    case RegistryKey(key, view) => KeySafe(key, c.exceptions) && c.machine.registryKey(key, view).Found?
    case PathArtifact(path, _) =>
      && PathSafe(path, c.exceptions)
      && c.machine.path(path).Found? && c.machine.path(path).value != ReparsePoint
    case _ => true
  }

  lemma RefusalMeansDenied(key: string, path: string, kind: PathKind, exceptions: Exceptions)
    ensures KeyRefusal(key, exceptions).None? <==> KeySafe(key, exceptions)
    ensures PathRefusal(path, kind, exceptions).None? <==> kind != ReparsePoint && PathSafe(path, exceptions)
  {
    hide CanonicalKey; hide EvaluateKey; hide Canonical; hide EvaluatePath;
  }

  lemma {:induction false} DriversPass(c: Context, file: string, keys: seq<ServiceKey>)
    ensures forall p :: p in RegisteredDrivers(c, file, keys) ==> p.artifact.Driver?
  {
    if keys != [] {
      DriversPass(c, file, keys[..|keys| - 1]);
    }
  }

  lemma LookPasses(c: Context, look: Look)
    ensures forall p :: p in LookOutcome(c, look).found ==> Passes(c, p.artifact)
  {
    hide KeyRefusal; hide PathRefusal; hide KeySafe; hide PathSafe; hide Judge; hide IsSignable; hide ImageFile;
    hide RegisteredDrivers; hide RegisteredDriver; hide Registered; hide SystemRoot;
    match look
    case AtService(name) =>
    case AtDriver(file) => DriversPass(c, file, Registered(c, c.driverKeys, file));
    case AtKey(key, view) => RefusalMeansDenied(key, "", ReparsePoint, c.exceptions);
    case AtPath(path) =>
      if c.machine.path(path).Found? {
        RefusalMeansDenied("", path, c.machine.path(path).value, c.exceptions);
      }
    case AtTemplate(_, _) =>
  }

  lemma {:induction false} TotalPasses(c: Context, looks: seq<Look>)
    ensures forall p :: p in Total(c, looks).found ==> Passes(c, p.artifact)
  {
    hide LookOutcome; hide Passes;
    if looks != [] {
      TotalPasses(c, looks[..|looks| - 1]);
      LookPasses(c, looks[|looks| - 1]);
    }
  }

  /** No finding is a path or key the deny-list protects. */
  lemma FindingsPass(c: Context, finding: Finding)
    requires finding in EntryReport(c).findings
    ensures finding.anticheat == c.entry.id && finding.risk == c.entry.risk && Passes(c, finding.artifact)
  {
    TotalPasses(c, Looks(c));
    hide Looks; hide Total; hide Passes;
    var found := Total(c, Looks(c)).found;
    var i :| 0 <= i < |found| && Settled(c.entry, found)[i] == finding;
    assert found[i] in found;
  }

  // ----- where findings come from -----

  lemma {:induction false} TotalComesFrom(c: Context, looks: seq<Look>, p: Pending) returns (look: Look)
    requires p in Total(c, looks).found
    ensures look in looks && p in LookOutcome(c, look).found
  {
    hide LookOutcome;
    var n := |looks| - 1;
    if p in LookOutcome(c, looks[n]).found {
      look := looks[n];
    } else {
      look := TotalComesFrom(c, looks[..n], p);
    }
  }

  /** What an entry declares that an artifact is an instance of. */
  ghost predicate Declared(c: Context, artifact: Artifact) {
    match artifact
    case Service(name, _, _) => name in c.entry.services
    case Driver(file, _, _, _) => file in c.entry.drivers
    case RegistryKey(key, view) => exists e :: e in c.entry.registry && e.key == key && view in Views(e.key, e.view)
    case PathArtifact(path, _) => exists t :: t in c.entry.paths && ExpandsTo(c.environment, t, path)
  }

  lemma {:induction false} NamedLooks(names: seq<string>, look: Look)
    ensures look in ServiceLooks(names) <==> look.AtService? && look.name in names
    ensures look in DriverLooks(names) <==> look.AtDriver? && look.file in names
  {
    if names != [] {
      NamedLooks(names[..|names| - 1], look);
      assert names == names[..|names| - 1] + [names[|names| - 1]];
    }
  }

  lemma NamesAreTheEntrys(c: Context, look: Look)
    requires look in Looks(c)
    ensures look.AtService? ==> look.name in c.entry.services
    ensures look.AtDriver? ==> look.file in c.entry.drivers
  {
    NamedLooks(c.entry.services, look);
    NamedLooks(c.entry.drivers, look);
    KeyLooksHold(c.entry.registry, look);
    NoKeysInTemplates(c.environment, c.entry.paths, look);
    hide ServiceLooks; hide DriverLooks; hide KeyLooks; hide AllTemplateLooks; hide Views;
  }

  lemma {:induction false} DriversAreOf(c: Context, file: string, keys: seq<ServiceKey>)
    ensures forall p :: p in RegisteredDrivers(c, file, keys) ==> p.artifact.Driver? && p.artifact.file == file
  {
    hide ImageFile; hide Judge;
    if keys != [] {
      DriversAreOf(c, file, keys[..|keys| - 1]);
    }
  }

  lemma FoundAt(c: Context, look: Look, p: Pending)
    requires p in LookOutcome(c, look).found
    ensures match p.artifact
            case Service(name, _, _) => look == AtService(name)
            case Driver(file, _, _, _) => look == AtDriver(file)
            case RegistryKey(key, view) => look == AtKey(key, view)
            case PathArtifact(path, _) => look == AtPath(path)
  {
    hide KeyRefusal; hide PathRefusal; hide Judge; hide IsSignable; hide ImageFile; hide SystemRoot;
    if look.AtDriver? {
      DriversAreOf(c, look.file, Registered(c, c.driverKeys, look.file));
    }
    hide Registered; hide RegisteredDrivers;
  }

  lemma LookFinds(c: Context, look: Look, p: Pending)
    requires look in Looks(c) && p in LookOutcome(c, look).found
    ensures Finds(c, p.artifact)
  {
    hide Looks; hide LookOutcome; hide Total; hide Finds;
    TotalHolds(c, Looks(c), look);
    FoundIsReported(c, p);
  }

  /** What was found was found at one look. */
  lemma FindsComeFrom(c: Context, artifact: Artifact) returns (p: Pending)
    requires Finds(c, artifact)
    ensures p.artifact == artifact
    ensures artifact.Service? ==> p in ServiceOutcome(c, artifact.name).found
    ensures artifact.Driver? ==> p in DriverOutcome(c, artifact.file).found
  {
    var found := Total(c, Looks(c)).found;
    hide Looks; hide Total; hide ServiceOutcome; hide DriverOutcome;
    var f :| f in EntryReport(c).findings && f.artifact == artifact;
    var i :| 0 <= i < |found| && Settled(c.entry, found)[i] == f;
    p := found[i];
    var look := TotalComesFrom(c, Looks(c), p);
    hide Settled; hide EntryReport;
    FoundAt(c, look, p);
  }

  /** Something an entry's audit could not read. */
  ghost predicate LeavesUnread(c: Context, item: string, reason: string) {
    Unread(Some(c.entry.id), item, Said(reason)) in EntryReport(c).unreadable
  }

  lemma NamesAreLookedAt(c: Context)
    ensures forall name :: name in c.entry.services ==> AtService(name) in Looks(c)
    ensures forall file :: file in c.entry.drivers ==> AtDriver(file) in Looks(c)
  {
    hide KeyLooks; hide AllTemplateLooks;
    forall name | name in c.entry.services ensures AtService(name) in ServiceLooks(c.entry.services) {
      NamedLooks(c.entry.services, AtService(name));
    }
    forall file | file in c.entry.drivers ensures AtDriver(file) in DriverLooks(c.entry.drivers) {
      NamedLooks(c.entry.drivers, AtDriver(file));
    }
    hide ServiceLooks; hide DriverLooks;
  }

  lemma NameLooks(c: Context, name: string)
    ensures LookOutcome(c, AtService(name)) == ServiceOutcome(c, name)
    ensures LookOutcome(c, AtDriver(name)) == DriverOutcome(c, name)
  {
    hide ServiceOutcome; hide DriverOutcome;
  }

  /** Each of an entry's services is in the report as the machine answers: one
      the manager does not list by its key, and one with neither not at all. */
  lemma ServiceIsReported(c: Context, name: string)
    requires name in c.entry.services
    ensures match c.machine.service(name)
            case Unreadable(reason) => LeavesUnread(c, name, reason)
            case Found(status) =>
              if status.stale then Disbelieved(c.entry.id, name) in EntryReport(c).disbelieved
              else Finds(c, Service(name, Some(status.image), false))
            case Absent =>
              match c.machine.serviceKey(name)
              case Unreadable(reason) => LeavesUnread(c, SERVICES_KEY + "\\" + name, reason)
              case Found(key) => Finds(c, Service(name, if key.image == "" then None else Some(key.image), true))
              case Absent => forall configured, alone :: !Finds(c, Service(name, configured, alone))
  {
    hide Looks; hide Total; hide WithImage; hide Finds; hide LookOutcome; hide DriverOutcome; hide Settled;
    var look := AtService(name);
    NamesAreLookedAt(c);
    NameLooks(c, name);
    TotalHolds(c, Looks(c), look);
    if |ServiceOutcome(c, name).found| > 0 {
      ServiceArtifact(c, name);
      LookFinds(c, look, ServiceOutcome(c, name).found[0]);
    } else {
      forall configured, alone ensures !Finds(c, Service(name, configured, alone)) {
        if Finds(c, Service(name, configured, alone)) {
          var p := FindsComeFrom(c, Service(name, configured, alone));
        }
      }
    }
  }

  lemma ServiceArtifact(c: Context, name: string)
    ensures c.machine.service(name).Found? && !c.machine.service(name).value.stale ==>
              |ServiceOutcome(c, name).found| == 1
              && ServiceOutcome(c, name).found[0].artifact == Service(name, Some(c.machine.service(name).value.image), false)
    ensures c.machine.service(name).Absent? && c.machine.serviceKey(name).Found? ==>
              var image := c.machine.serviceKey(name).value.image;
              && |ServiceOutcome(c, name).found| == 1
              && ServiceOutcome(c, name).found[0].artifact == Service(name, if image == "" then None else Some(image), true)
  {
    hide ImageFile; hide Judge; hide SystemRoot;
  }

  lemma {:induction false} RegisteredHolds(c: Context, keys: seq<ServiceKey>, file: string, key: ServiceKey)
    ensures key in Registered(c, keys, file) <==> key in keys && Registers(c, key, file)
  {
    hide Registers;
    if keys != [] {
      var n := |keys| - 1;
      RegisteredHolds(c, keys[..n], file, key);
      assert keys == keys[..n] + [keys[n]];
    }
  }

  lemma {:induction false} RegisteredDriversHold(c: Context, file: string, keys: seq<ServiceKey>, p: Pending)
    ensures p in RegisteredDrivers(c, file, keys) <==> exists key :: key in keys && p == RegisteredDriver(c, file, key)
  {
    hide RegisteredDriver;
    if keys != [] {
      var n := |keys| - 1;
      RegisteredDriversHold(c, file, keys[..n], p);
      assert keys == keys[..n] + [keys[n]];
    }
  }

  /** A key of the machine's that registers a driver file. */
  predicate IsRegistration(c: Context, file: string, key: ServiceKey) {
    key in c.driverKeys && Registers(c, key, file)
  }

  /** The artifact of one registration. */
  function RegisteredArtifact(c: Context, file: string, key: ServiceKey): Artifact
    requires Registers(c, key, file)
  {
    var image := ImageFile(key.image, SystemRoot(c.environment)).value;
    Driver(file, Some(key.name), image, c.machine.path(image) == Lookup.Found(PathKind.File))
  }

  /** The artifact of some registration. */
  ghost predicate IsRegistered(c: Context, file: string, artifact: Artifact) {
    exists key :: IsRegistration(c, file, key) && artifact == RegisteredArtifact(c, file, key)
  }

  /** No key of the machine's registers a driver file. */
  ghost predicate Lone(c: Context, file: string) {
    forall key :: !IsRegistration(c, file, key)
  }

  ghost predicate DriverHas(c: Context, file: string, artifact: Artifact) {
    exists p :: p in DriverOutcome(c, file).found && p.artifact == artifact
  }

  lemma DriverOutcomeHolds(c: Context, file: string, artifact: Artifact)
    requires !Lone(c, file)
    ensures DriverHas(c, file, artifact) <==> IsRegistered(c, file, artifact)
  {
    hide RegisteredDriver; hide Registers; hide UnregisteredDriver;
    var keys := Registered(c, c.driverKeys, file);
    forall key ensures key in keys <==> IsRegistration(c, file, key) {
      RegisteredHolds(c, c.driverKeys, file, key);
    }
    hide Registered;
    forall p ensures p in RegisteredDrivers(c, file, keys) <==> exists key :: key in keys && p == RegisteredDriver(c, file, key) {
      RegisteredDriversHold(c, file, keys, p);
    }
    forall key | IsRegistration(c, file, key)
      ensures RegisteredDriver(c, file, key).artifact == RegisteredArtifact(c, file, key)
    {
      OneRegistration(c, file, key);
    }
    hide RegisteredDrivers; hide RegisteredArtifact;
    if p :| p in DriverOutcome(c, file).found && p.artifact == artifact {
      var key :| key in keys && p == RegisteredDriver(c, file, key);
      assert IsRegistration(c, file, key);
    }
    if key :| IsRegistration(c, file, key) && artifact == RegisteredArtifact(c, file, key) {
      assert RegisteredDriver(c, file, key) in DriverOutcome(c, file).found;
    }
  }

  lemma OneRegistration(c: Context, file: string, key: ServiceKey)
    requires Registers(c, key, file)
    ensures RegisteredDriver(c, file, key).artifact == RegisteredArtifact(c, file, key)
  {
    hide ImageFile; hide SystemRoot; hide Judge; hide EqFold; hide FileName;
  }

  /** The image of a driver no key registers, on disk. */
  predicate IsLoneImage(c: Context, file: string, artifact: Artifact) {
    var image := DriverImage(c, file);
    artifact == Driver(file, None, image, true) && c.machine.path(image) == Lookup.Found(PathKind.File)
  }

  /** Each of its drivers is found for every key that registers its file and
      for nothing else; one no key registers, only as a file on disk. */
  lemma DriverIsReported(c: Context, file: string, artifact: Artifact)
    requires file in c.entry.drivers && artifact.Driver? && artifact.file == file
    ensures Finds(c, artifact) <==>
              IsRegistered(c, file, artifact) || (Lone(c, file) && IsLoneImage(c, file, artifact))
    ensures var answer := c.machine.path(DriverImage(c, file));
            Lone(c, file) && answer.Unreadable? ==> LeavesUnread(c, DriverImage(c, file), answer.reason)
  {
    hide Finds; hide LeavesUnread; hide DriverHas; hide DriverImage; hide IsRegistration; hide RegisteredArtifact;
    hide Registered; hide IsLoneImage;
    DriverFinds(c, file, artifact);
    if Lone(c, file) {
      NoneRegistered(c, file);
      UnregisteredIsUnread(c, file);
      UnregisteredHas(c, file, artifact);
    } else {
      DriverOutcomeHolds(c, file, artifact);
    }
  }

  lemma DriverFinds(c: Context, file: string, artifact: Artifact)
    requires file in c.entry.drivers && artifact.Driver? && artifact.file == file
    ensures Finds(c, artifact) <==> DriverHas(c, file, artifact)
  {
    hide Looks; hide Finds; hide DriverOutcome; hide ServiceOutcome; hide LookOutcome;
    NamesAreLookedAt(c);
    NameLooks(c, file);
    if Finds(c, artifact) {
      var p := FindsComeFrom(c, artifact);
    }
    if p :| p in DriverOutcome(c, file).found && p.artifact == artifact {
      LookFinds(c, AtDriver(file), p);
    }
  }

  lemma NoneRegistered(c: Context, file: string)
    requires Lone(c, file)
    ensures Registered(c, c.driverKeys, file) == []
  {
    hide Registers; hide Registered;
    if Registered(c, c.driverKeys, file) != [] {
      var key := SomeRegistration(c, file);
    }
  }

  lemma SomeRegistration(c: Context, file: string) returns (key: ServiceKey)
    requires Registered(c, c.driverKeys, file) != []
    ensures IsRegistration(c, file, key)
  {
    hide Registers; hide Registered;
    key := Registered(c, c.driverKeys, file)[0];
    RegisteredHolds(c, c.driverKeys, file, key);
  }

  lemma UnregisteredHas(c: Context, file: string, artifact: Artifact)
    requires Registered(c, c.driverKeys, file) == []
    ensures DriverHas(c, file, artifact) <==> IsLoneImage(c, file, artifact)
  {
    hide Registered; hide RegisteredDrivers; hide SystemRoot; hide Judge;
    assert DriverOutcome(c, file) == UnregisteredDriver(c, file);
    if IsLoneImage(c, file, artifact) {
      assert DriverOutcome(c, file).found[0].artifact == artifact;
    }
  }

  lemma UnregisteredIsUnread(c: Context, file: string)
    requires file in c.entry.drivers && Registered(c, c.driverKeys, file) == []
    ensures var image := DriverImage(c, file);
            match c.machine.path(image)
            case Unreadable(reason) => LeavesUnread(c, image, reason)
            case _ => true
  {
    hide Looks; hide Total; hide Registered; hide RegisteredDrivers; hide SystemRoot; hide Judge; hide Settled;
    NamesAreLookedAt(c);
    hide LookOutcome; hide ServiceOutcome;
    TotalHolds(c, Looks(c), AtDriver(file));
    NameLooks(c, file);
    assert LookOutcome(c, AtDriver(file)) == UnregisteredDriver(c, file);
  }

  // ----- where what is protected comes from -----

  lemma {:induction false} TotalProtects(c: Context, looks: seq<Look>, p: Protected) returns (look: Look)
    requires p in Total(c, looks).protected
    ensures look in looks && p in LookOutcome(c, look).protected
  {
    hide LookOutcome;
    var n := |looks| - 1;
    if p in LookOutcome(c, looks[n]).protected {
      look := looks[n];
    } else {
      look := TotalProtects(c, looks[..n], p);
    }
  }

  /** A key an entry names that the deny-list refuses. */
  ghost predicate ProtectedKey(c: Context, p: Protected) {
    && (exists e, view :: e in c.entry.registry && e.key == p.target && view in Views(e.key, e.view))
    && KeyRefusal(p.target, c.exceptions) == Some(p.reason)
  }

  /** A place an entry's template leads to that is there and is refused. */
  ghost predicate ProtectedPath(c: Context, p: Protected) {
    && (exists t :: t in c.entry.paths && ExpandsTo(c.environment, t, p.target))
    && c.machine.path(p.target).Found?
    && PathRefusal(p.target, c.machine.path(p.target).value, c.exceptions) == Some(p.reason)
  }

  lemma ProtectedAt(c: Context, look: Look, p: Protected)
    requires look in Looks(c) && p in LookOutcome(c, look).protected
    ensures p.anticheat == c.entry.id && (ProtectedKey(c, p) || ProtectedPath(c, p))
  {
    hide Looks; hide KeyRefusal; hide PathRefusal; hide Judge; hide IsSignable; hide ImageFile; hide SystemRoot; hide Views;
    hide ExpandsTo; hide Registered; hide RegisteredDrivers; hide UnregisteredDriver; hide WithImage;
    match look
    case AtService(name) =>
    case AtDriver(file) => UnregisteredProtectsNothing(c, file);
    case AtKey(key, view) => LooksAreTheEntrys(c, key, view, "");
    case AtPath(path) => LooksAreTheEntrys(c, "", View64, path);
    case AtTemplate(_, _) =>
  }

  lemma UnregisteredProtectsNothing(c: Context, file: string)
    ensures UnregisteredDriver(c, file).protected == []
  {
    hide SystemRoot; hide Judge;
  }

  /** What an entry's audit reports as protected is exactly its refused keys and
      the refused places its templates lead to. */
  lemma ProtectedIsRefused(c: Context, p: Protected)
    ensures p in EntryReport(c).protected <==> p.anticheat == c.entry.id && (ProtectedKey(c, p) || ProtectedPath(c, p))
  {
    hide Looks; hide Total; hide KeyRefusal; hide PathRefusal; hide LookOutcome; hide Views; hide ExpandsTo; hide Settled;
    hide ProtectedKey; hide ProtectedPath;
    if p in EntryReport(c).protected {
      var look := TotalProtects(c, Looks(c), p);
      ProtectedAt(c, look, p);
    }
    if p.anticheat == c.entry.id && ProtectedKey(c, p) {
      RefusedKeyIsProtected(c, p);
    }
    if p.anticheat == c.entry.id && ProtectedPath(c, p) {
      RefusedPathIsProtected(c, p);
    }
  }

  lemma RefusedKeyIsProtected(c: Context, p: Protected)
    requires p.anticheat == c.entry.id && ProtectedKey(c, p)
    ensures p in EntryReport(c).protected
  {
    hide EntryReport; hide KeyRefusal; hide Views;
    var e, view :| e in c.entry.registry && e.key == p.target && view in Views(e.key, e.view);
    KeyIsReported(c, e, view);
  }

  lemma RefusedPathIsProtected(c: Context, p: Protected)
    requires p.anticheat == c.entry.id && ProtectedPath(c, p)
    ensures p in EntryReport(c).protected
  {
    hide EntryReport; hide PathRefusal; hide ExpandsTo;
    var t :| t in c.entry.paths && ExpandsTo(c.environment, t, p.target);
    PathIsReported(c, t, p.target);
  }

  /** Every finding is of something its own entry declares. */
  lemma FindingsAreDeclared(c: Context, finding: Finding)
    requires finding in EntryReport(c).findings
    ensures Declared(c, finding.artifact)
  {
    var found := Total(c, Looks(c)).found;
    hide Looks; hide Total; hide Views; hide ExpandsTo; hide LookOutcome;
    var i :| 0 <= i < |found| && Settled(c.entry, found)[i] == finding;
    var look := TotalComesFrom(c, Looks(c), found[i]);
    hide Settled;
    FoundAt(c, look, found[i]);
    NamesAreTheEntrys(c, look);
    match finding.artifact
    case RegistryKey(key, view) => LooksAreTheEntrys(c, key, view, "");
    case PathArtifact(path, _) => LooksAreTheEntrys(c, "", View64, path);
    case _ =>
  }

  // ----- classifications -----

  predicate OnDisk(c: Context, image: string) {
    c.machine.path(image) == Lookup.Found(PathKind.File)
  }

  /** The file on disk that an artifact has: its own, its image, or none. */
  function OwnFile(c: Context, artifact: Artifact): Option<string> {
    match artifact
    case Service(_, configured, _) =>
      var image := if configured.Some? then ImageFile(configured.value, SystemRoot(c.environment)) else None;
      if image.Some? && OnDisk(c, image.value) then image else None
    case Driver(_, _, image, _) => if OnDisk(c, image) then Some(image) else None
    case RegistryKey(_, _) => None
    case PathArtifact(path, _) => if OnDisk(c, path) && IsSignable(path) then Some(path) else None
  }

  /** A file signed by a publisher the entry names. */
  predicate ConfirmedFile(c: Context, artifact: Artifact) {
    var file := OwnFile(c, artifact);
    && file.Some?
    && var signature := c.machine.signature(file.value);
       signature.Verified? && !EqFold(signature.signer, ATTESTATION_SIGNER) && IsPublisher(c.entry, signature.signer)
  }

  /** A file not signed, badly signed, or signed by somebody the entry, which
      names its publishers, does not name. */
  predicate SuspiciousFile(c: Context, artifact: Artifact) {
    var file := OwnFile(c, artifact);
    && file.Some?
    && var signature := c.machine.signature(file.value);
       || signature.Unsigned? || signature.Invalid?
       || (signature.Verified? && !EqFold(signature.signer, ATTESTATION_SIGNER)
           && !IsPublisher(c.entry, signature.signer) && c.entry.authenticodeCn != [])
  }

  /** The judgement of an artifact's own file, if it has one. */
  function Judgement(c: Context, artifact: Artifact): Option<Classification> {
    match OwnFile(c, artifact)
    case None => None
    case Some(file) => Some(Judge(c.machine.signature(file), c.entry))
  }

  lemma JudgementIsOfTheFile(c: Context, artifact: Artifact)
    ensures Judgement(c, artifact) == Some(Confirmed) <==> ConfirmedFile(c, artifact)
    ensures Judgement(c, artifact) == Some(Suspicious) <==> SuspiciousFile(c, artifact)
  {
    hide EqFold; hide IsPublisher; hide OwnFile;
  }

  lemma NoImage(root: string)
    ensures ImageFile("", root) == None
  {
    assert ImageText("") == "" by {
      assert Trim("") == "";
    }
  }

  lemma RegisteredIsJudged(c: Context, file: string, key: ServiceKey)
    ensures var p := RegisteredDriver(c, file, key); p.judged == Judgement(c, p.artifact)
  {
    hide ImageFile; hide Judge;
  }

  lemma {:induction false} RegisteredAreJudged(c: Context, file: string, keys: seq<ServiceKey>)
    ensures forall p :: p in RegisteredDrivers(c, file, keys) ==> p.judged == Judgement(c, p.artifact)
  {
    hide Judgement; hide RegisteredDriver;
    if keys != [] {
      RegisteredAreJudged(c, file, keys[..|keys| - 1]);
      RegisteredIsJudged(c, file, keys[|keys| - 1]);
    }
  }

  lemma LookIsJudged(c: Context, look: Look)
    ensures forall p :: p in LookOutcome(c, look).found ==> p.judged == Judgement(c, p.artifact)
  {
    NoImage(SystemRoot(c.environment));
    hide KeyRefusal; hide PathRefusal; hide Judge; hide IsSignable; hide ImageFile; hide SystemRoot;
    if look.AtDriver? {
      RegisteredAreJudged(c, look.file, Registered(c, c.driverKeys, look.file));
    }
    hide Registered; hide RegisteredDrivers; hide Registers;
  }

  lemma {:induction false} TotalIsJudged(c: Context, looks: seq<Look>)
    ensures forall p :: p in Total(c, looks).found ==> p.judged == Judgement(c, p.artifact)
  {
    hide LookOutcome; hide Judgement;
    if looks != [] {
      TotalIsJudged(c, looks[..|looks| - 1]);
      LookIsJudged(c, looks[|looks| - 1]);
    }
  }

  lemma SettlesByFiles(c: Context, classification: Classification)
    ensures var found := Total(c, Looks(c)).found;
            Settles(found, classification) <==>
              exists g :: g in EntryReport(c).findings && Judgement(c, g.artifact) == Some(classification)
  {
    hide Looks; hide Total; hide Judgement; hide ByAssociation;
    TotalIsJudged(c, Looks(c));
    var found := Total(c, Looks(c)).found;
    var findings := Settled(c.entry, found);
    assert EntryReport(c).findings == findings && |findings| == |found|;
    if p :| p in found && p.judged == Some(classification) {
      var i :| 0 <= i < |found| && found[i] == p;
      assert findings[i] in findings && findings[i].artifact == p.artifact;
    }
    if g :| g in findings && Judgement(c, g.artifact) == Some(classification) {
      var i :| 0 <= i < |findings| && findings[i] == g;
      assert found[i] in found && found[i].artifact == g.artifact;
    }
  }

  lemma SettledAs(c: Context, finding: Finding)
    requires finding in EntryReport(c).findings
    ensures finding.classification
         == match Judgement(c, finding.artifact)
            case Some(judged) => judged
            case None => ByAssociation(Total(c, Looks(c)).found)
  {
    hide Looks; hide Total; hide Judgement; hide ByAssociation;
    TotalIsJudged(c, Looks(c));
    var found := Total(c, Looks(c)).found;
    var i :| 0 <= i < |found| && Settled(c.entry, found)[i] == finding;
    assert found[i] in found;
  }

  /** Some file found of the entry confirms its publisher. */
  ghost predicate AnyConfirmed(c: Context) {
    exists g :: g in EntryReport(c).findings && ConfirmedFile(c, g.artifact)
  }

  ghost predicate AnySuspicious(c: Context) {
    exists g :: g in EntryReport(c).findings && SuspiciousFile(c, g.artifact)
  }

  lemma AnySettles(c: Context)
    ensures Settles(Total(c, Looks(c)).found, Confirmed) <==> AnyConfirmed(c)
    ensures Settles(Total(c, Looks(c)).found, Suspicious) <==> AnySuspicious(c)
  {
    hide EntryReport; hide Looks; hide Total; hide Judgement; hide ConfirmedFile; hide SuspiciousFile; hide Settles;
    SettlesByFiles(c, Confirmed);
    SettlesByFiles(c, Suspicious);
    forall g: Finding
      ensures Judgement(c, g.artifact) == Some(Confirmed) <==> ConfirmedFile(c, g.artifact)
      ensures Judgement(c, g.artifact) == Some(Suspicious) <==> SuspiciousFile(c, g.artifact)
    {
      JudgementIsOfTheFile(c, g.artifact);
    }
  }

  /** A finding with a file of its own is what that file's signature says. One
      without is confirmed exactly when some file found of the entry is signed by
      a publisher it names and none is suspicious, and is never suspicious. */
  lemma SettledByTheFiles(c: Context, finding: Finding)
    requires finding in EntryReport(c).findings
    ensures finding.classification == Confirmed <==>
              || ConfirmedFile(c, finding.artifact)
              || (OwnFile(c, finding.artifact).None? && AnyConfirmed(c) && !AnySuspicious(c))
    ensures finding.classification == Suspicious <==> SuspiciousFile(c, finding.artifact)
  {
    hide EntryReport; hide Looks; hide Total; hide Settles; hide AnyConfirmed; hide AnySuspicious;
    hide ConfirmedFile; hide SuspiciousFile; hide Judge; hide OwnFile;
    SettledAs(c, finding);
    AnySettles(c);
    JudgementIsOfTheFile(c, finding.artifact);
  }
}
