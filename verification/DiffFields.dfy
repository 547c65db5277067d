// A comparison field by field, on the snapshots' own fields: tools/observe/src/diff.rs.
module DiffFields {
  import opened Prelude
  import opened Ordered
  import opened Text
  import opened PathSpellings
  import opened Observed
  import opened Policies
  import opened Keyed
  import opened Changes
  import opened ServiceDiff
  import opened FileDiff
  import opened RegistryDiff
  import opened SnapshotDiff

  // ----- what a change says -----

  /** A change of a service says whether it came, went or differs, carries both
      sides as they are, and takes its flags from the later one. */
  lemma ServiceChangeSays(name: string, before: Option<ServiceRecord>, after: Option<ServiceRecord>)
    ensures var c := ServiceChangeOf(name, before, after);
            var later := if after.Some? then after else before;
            && (c.Some? <==> before.Some? != after.Some? || (before.Some? && !SameService(before.value, after.value)))
            && (c.Some? ==>
                  && c.value.name == name && c.value.before == before && c.value.after == after
                  && (c.value.kind == Added <==> before.None?) && (c.value.kind == Removed <==> after.None?)
                  && (c.value.isDriver <==> exists a, b :: later.value.serviceType == a + ("driver" + b))
                  && (c.value.isBootStart <==> later.value.startType == "boot")
                  && (before.None? || after.None? ==> c.value.fields == []))
  {
    var later := if after.Some? then after else before;
    if before.Some? && after.Some? {
      ServicesDifferInFields(before.value, after.value);
    }
    hide ServiceFields; hide SameService;
    if later.Some? {
      DriverType(later.value.serviceType);
    }
    hide Holds;
  }

  lemma DriverType(serviceType: string)
    ensures Holds(serviceType, "driver") <==> exists a, b :: serviceType == a + ("driver" + b)
  {
    if i :| 0 <= i <= |serviceType| && "driver" <= serviceType[i..] {
      assert serviceType == serviceType[..i] + ("driver" + serviceType[i..][6..]);
    }
    if a, b :| serviceType == a + ("driver" + b) {
      assert serviceType[|a|..] == "driver" + b;
    }
  }

  /** And of a file, with the later record's spelling and signer. */
  lemma FileChangeSays(before: Option<FileRecord>, after: Option<FileRecord>)
    ensures var c := FileChangeOf(before, after);
            var later := if after.Some? then after else before;
            && (c.Some? <==> before.Some? != after.Some? || (before.Some? && !SameContent(before.value, after.value)))
            && (c.Some? ==>
                  && c.value.before == before && c.value.after == after
                  && c.value.path == later.value.path && c.value.signer == later.value.signer
                  && (c.value.kind == Added <==> before.None?) && (c.value.kind == Removed <==> after.None?)
                  && (c.value.isDriverImage <==> exists a, e :: later.value.path == a + e && EqFold(e, ".sys"))
                  && (before.None? || after.None? ==> c.value.fields == []))
  {
    var later := if after.Some? then after else before;
    if before.Some? && after.Some? {
      ContentIsSame(before.value, after.value);
    }
    hide FileFields; hide SameContent;
    if later.Some? {
      DriverPath(later.value.path);
    }
    hide LowerAll; hide EndsWith;
  }

  lemma DriverPath(path: string)
    ensures EndsWith(LowerAll(path), ".sys") <==> exists a, e :: path == a + e && EqFold(e, ".sys")
  {
    hide LowerAll;
    SysIsLower();
    if |path| >= 4 {
      LowerPrefix(path, |path| - 4);
      Rejoined(path, |path| - 4);
    }
    if a, e :| path == a + e && EqFold(e, ".sys") {
      FoldIndex(e, ".sys", 0);
      LastFour(path, a, e);
    }
  }

  lemma SysIsLower()
    ensures LowerAll(".sys") == ".sys"
  {
  }

  lemma Rejoined(path: string, n: nat)
    requires n <= |path|
    ensures path == path[..n] + path[n..]
  {
  }

  lemma LastFour(path: string, a: string, e: string)
    requires path == a + e && |e| == 4
    ensures |path| >= 4 && path[|path| - 4..] == e
  {
  }

  /** And of a registry key: of one on both sides, only what differs is kept. */
  lemma RegistryChangeSays(before: Option<RegistryRecord>, after: Option<RegistryRecord>)
    ensures var c := RegistryChangeOf(before, after);
            var later := if after.Some? then after else before;
            && (c.Some? <==> before.Some? != after.Some?
                             || (before.Some? && exists name :: Differs(before.value.values, after.value.values, name)))
            && (c.Some? ==>
                  && c.value.key == later.value.key && c.value.view == later.value.view
                  && c.value.before.Some? == before.Some? && c.value.after.Some? == after.Some?
                  && (c.value.kind == Added <==> before.None?) && (c.value.kind == Removed <==> after.None?)
                  && (before.None? ==> c.value.after == after) && (after.None? ==> c.value.before == before)
                  && (before.Some? && after.Some? ==>
                        && c.value.before.value.key == before.value.key && c.value.before.value.view == before.value.view
                        && c.value.after.value.key == after.value.key && c.value.after.value.view == after.value.view
                        && (forall v :: v in c.value.before.value.values <==>
                              v in before.value.values && Differs(before.value.values, after.value.values, v.name))
                        && (forall v :: v in c.value.after.value.values <==>
                              v in after.value.values && Differs(before.value.values, after.value.values, v.name))))
  {
    if before.Some? && after.Some? {
      var was, now := before.value.values, after.value.values;
      NoFieldsMeansEqual(was, now);
      forall name ensures name in DifferingNames(was, now) <==> Differs(was, now, name) {
        NamesAreValues(was, now, name);
      }
    }
    hide Differs; hide DifferingNames; hide ValueFields;
  }

  // ----- values -----

  /** What a value is read by: its type, and its data unless it was too large. */
  lemma ValueText(value: RegistryValue)
    ensures value.oversizedBytes.None? ==> Comparable(value) == value.kind + (":" + value.data)
    ensures value.oversizedBytes.Some? ==>
              Comparable(value) == value.kind + (":<" + (Decimal(value.oversizedBytes.value) + " bytes, not recorded>"))
  {
    if value.oversizedBytes.Some? {
      var d := Decimal(value.oversizedBytes.value);
      assert value.kind + ":<" + d + " bytes, not recorded>" == value.kind + (":<" + (d + " bytes, not recorded>"));
    }
  }

  /** Two values of types without a colon read alike when their types do, and
      their data, or their sizes when neither was recorded. */
  lemma ValuesReadAlike(x: RegistryValue, y: RegistryValue)
    requires ':' !in x.kind && ':' !in y.kind && x.oversizedBytes.Some? == y.oversizedBytes.Some?
    ensures Comparable(x) == Comparable(y) <==>
              x.kind == y.kind && if x.oversizedBytes.Some? then x.oversizedBytes == y.oversizedBytes else x.data == y.data
  {
    ValueText(x);
    ValueText(y);
    hide Comparable; hide Decimal;
    if x.oversizedBytes.Some? {
      var a, b := Decimal(x.oversizedBytes.value), Decimal(y.oversizedBytes.value);
      DecimalIsExact(x.oversizedBytes.value, y.oversizedBytes.value);
      FirstColon(x.kind, "<" + (a + " bytes, not recorded>"));
      FirstColon(y.kind, "<" + (b + " bytes, not recorded>"));
      Bracketed(a, b);
    } else {
      FirstColon(x.kind, x.data);
      FirstColon(y.kind, y.data);
    }
  }

  lemma FirstColon(kind: string, rest: string)
    requires ':' !in kind
    ensures var t := kind + (":" + rest); IndexOf(t, ':') == |kind| && t[..|kind|] == kind && t[|kind| + 1..] == rest
    ensures kind + (":" + ("<" + rest)) == kind + (":<" + rest)
  {
    var t := kind + (":" + rest);
    assert t[|kind|] == ':';
    assert forall j :: 0 <= j < |kind| ==> t[j] == kind[j] && kind[j] in kind;
    assert ":" + ("<" + rest) == ":<" + rest;
  }

  lemma Bracketed(a: string, b: string)
    ensures "<" + (a + " bytes, not recorded>") == "<" + (b + " bytes, not recorded>") <==> a == b
    ensures ":" + ("<" + (a + " bytes, not recorded>")) == ":<" + (a + " bytes, not recorded>")
    ensures ":" + ("<" + (b + " bytes, not recorded>")) == ":<" + (b + " bytes, not recorded>")
  {
    var end := " bytes, not recorded>";
    if "<" + (a + end) == "<" + (b + end) {
      assert ("<" + (a + end))[1..] == a + end && ("<" + (b + end))[1..] == b + end;
      assert |a| == |b|;
      assert (a + end)[..|a|] == a && (b + end)[..|b|] == b;
    }
  }

  /** Of values of one name the last counts, and none reads as absent. */
  lemma {:induction false} LastValueCounts(values: seq<RegistryValue>, name: string, i: nat)
    requires i < |values| && values[i].name == name && forall j :: i < j < |values| ==> values[j].name != name
    ensures Was(values, name) == Some(Comparable(values[i]))
  {
    hide Comparable;
    if i < |values| - 1 {
      LastValueCounts(values[..|values| - 1], name, i);
    }
  }

  lemma {:induction false} NoValueIsAbsent(values: seq<RegistryValue>, name: string)
    requires forall v :: v in values ==> v.name != name
    ensures Was(values, name) == None
  {
    hide Comparable;
    if values != [] {
      NoValueIsAbsent(values[..|values| - 1], name);
    }
  }

  // ----- the noise filter -----

  /** A name that reads as a per-user instance: a stem, `_`, and at least four
      hexadecimal digits. */
  ghost predicate IsInstanceOf(name: string, stem: string) {
    exists suffix :: InstanceParts(name, stem, suffix)
  }

  ghost predicate InstanceParts(name: string, stem: string, suffix: string) {
    && name == stem + ("_" + suffix) && stem != "" && |suffix| >= 4
    && forall c :: c in suffix ==> '0' <= c <= '9' || 'a' <= c <= 'f' || 'A' <= c <= 'F'
  }

  lemma HexDigits(suffix: string)
    ensures (forall c :: c in suffix ==> IsHex(c)) <==>
            forall c :: c in suffix ==> '0' <= c <= '9' || 'a' <= c <= 'f' || 'A' <= c <= 'F'
  {
  }

  /** A service is matched under its template's name exactly when the filter
      normalises and its own name reads as an instance of that. */
  lemma CanonicalNameIs(filter: NoiseFilter, name: string, stem: string)
    ensures filter.normalisePerUser && IsInstanceOf(name, stem) ==> CanonicalName(filter, name) == stem
    ensures CanonicalName(filter, name) == stem ==>
              stem == name || (filter.normalisePerUser && IsInstanceOf(name, stem))
    ensures !filter.normalisePerUser ==> CanonicalName(filter, name) == name
  {
    var cut := LastIndexOf(name, '_');
    if suffix :| InstanceParts(name, stem, suffix) {
      HexDigits(suffix);
      assert name == stem + "_" + suffix;
      if filter.normalisePerUser {
        InstanceName(filter, stem, suffix);
      }
    }
    if CanonicalName(filter, name) == stem && stem != name {
      assert name == stem + ("_" + name[cut + 1..]);
      HexDigits(name[cut + 1..]);
      assert InstanceParts(name, stem, name[cut + 1..]);
    }
  }

  /** A change is set aside as volatile exactly when the filter lists its name,
      in any case, and is kept otherwise. */
  lemma IgnoredExactly(filter: NoiseFilter, changes: seq<ServiceChange>, change: ServiceChange)
    ensures change in KeptServices(filter, changes) <==>
              change in changes && forall name :: name in filter.ignored ==> !EqFold(name, change.name)
    ensures (exists e :: e in SuppressedServices(filter, changes) && e.change == change) <==>
              change in changes && exists name :: name in filter.ignored && EqFold(name, change.name)
    ensures forall e :: e in SuppressedServices(filter, changes) ==> e.rule == "volatile-service"
  {
    hide EqFold;
    var noise := Retained(changes, IsNoise(filter));
    var aside := Mapped(noise, SetAside());
    assert aside == SuppressedServices(filter, changes);
    hide Retained; hide Mapped;
    forall e | e in aside ensures e.rule == "volatile-service" && e.change in noise {
      var i :| 0 <= i < |aside| && aside[i] == e;
      assert noise[i] in noise;
    }
    forall c | c in noise ensures SetAside()(c) in aside {
      var i :| 0 <= i < |noise| && noise[i] == c;
      assert aside[i] in aside;
    }
  }

  // ----- the order of the changes -----

  /** Identities in ascending order. */
  ghost predicate InOrder<C, K>(cs: seq<C>, id: C -> K, less: (K, K) -> bool) {
    forall i, j :: 0 <= i < j < |cs| ==> less(id(cs[i]), id(cs[j]))
  }

  lemma {:induction false} CollectedAscends<K(!new), C(!new)>(ks: seq<K>, at: K -> Option<C>, id: C -> K, less: (K, K) -> bool)
    requires Ascends(ks, less) && forall k :: k in ks && at(k).Some? ==> id(at(k).value) == k
    ensures InOrder(Collected(ks, at), id, less)
    ensures forall c :: c in Collected(ks, at) ==> id(c) in ks
  {
    if ks != [] {
      var n := |ks| - 1;
      assert ks == ks[..n] + [ks[n]];
      CollectedAscends(ks[..n], at, id, less);
      CollectedMore(ks[..n], ks[n], at);
      hide Collected;
      var earlier := Collected(ks[..n], at);
      forall i | 0 <= i < |earlier| ensures id(earlier[i]) in ks[..n] {
        assert earlier[i] in earlier;
      }
    }
  }

  lemma {:induction false} RetainedAscends<C(!new), K>(cs: seq<C>, keep: C -> bool, id: C -> K, less: (K, K) -> bool)
    requires InOrder(cs, id, less)
    ensures InOrder(Retained(cs, keep), id, less)
  {
    if cs == [] {
      assert Retained(cs, keep) == [];
    } else {
      hide Retained;
      var n := |cs| - 1;
      RetainedAscends(cs[..n], keep, id, less);
      assert cs == cs[..n] + [cs[n]];
      RetainedMore(cs[..n], cs[n], keep);
      var earlier := Retained(cs[..n], keep);
      forall i | 0 <= i < |earlier| ensures less(id(earlier[i]), id(cs[n])) {
        assert earlier[i] in earlier;
        LessThanLast(cs, id, less, earlier[i]);
      }
    }
  }

  lemma LessThanLast<C(!new), K>(cs: seq<C>, id: C -> K, less: (K, K) -> bool, c: C)
    requires cs != [] && InOrder(cs, id, less) && c in cs[..|cs| - 1]
    ensures less(id(c), id(cs[|cs| - 1]))
  {
    var j :| 0 <= j < |cs| - 1 && cs[..|cs| - 1][j] == c;
    assert cs[j] == c;
  }

  /** Changes are in the order of what they are of: services by name, files by
      path, and keys by key and then view, the last two in lower case. */
  lemma ChangesAscend(filter: NoiseFilter, bs: seq<ServiceRecord>, as_: seq<ServiceRecord>,
                      b: map<string, FileRecord>, a: map<string, FileRecord>,
                      x: map<KeyIdentity, RegistryRecord>, y: map<KeyIdentity, RegistryRecord>)
    requires Folded(b) && Folded(a) && Identified(x) && Identified(y)
    ensures InOrder(KeptServices(filter, ServiceChanges(filter, bs, as_)), (c: ServiceChange) => c.name, Less)
    ensures InOrder(FileChanges(b, a), (c: FileChange) => LowerAll(c.path), Less)
    ensures InOrder(RegistryChanges(x, y), (c: RegistryChange) => (LowerAll(c.key), c.view), KeyThenView())
  {
    ServicesAscend(filter, bs, as_);
    FilesAscend(b, a);
    KeysAscend(x, y);
  }

  /** By key, and then by view. */
  function KeyThenView(): ((string, string), (string, string)) -> bool {
    (p: (string, string), q: (string, string)) => Less(p.0, q.0) || (p.0 == q.0 && Less(p.1, q.1))
  }

  lemma ServicesAscend(filter: NoiseFilter, bs: seq<ServiceRecord>, as_: seq<ServiceRecord>)
    ensures InOrder(KeptServices(filter, ServiceChanges(filter, bs, as_)), (c: ServiceChange) => c.name, Less)
  {
    var crowded := Crowded(filter, bs, as_);
    var b, a := ServiceIndex(filter, crowded, bs), ServiceIndex(filter, crowded, as_);
    TextOrderIsTotal();
    var id := (c: ServiceChange) => c.name;
    hide ServiceFields; hide Less; hide ServiceIndex; hide Crowded; hide IsDriver; hide IsBootStart; hide IsIgnored;
    assert Ascends(Names(b, a), Less);
    hide Names;
    CollectedAscends(Names(b, a), ServiceChangeAt(b, a), id, Less);
    RetainedAscends(ServiceChanges(filter, bs, as_), Survives(filter), id, Less);
  }

  lemma FilesAscend(b: map<string, FileRecord>, a: map<string, FileRecord>)
    requires Folded(b) && Folded(a)
    ensures InOrder(FileChanges(b, a), (c: FileChange) => LowerAll(c.path), Less)
  {
    TextOrderIsTotal();
    hide Less; hide LowerAll; hide FileChangeOf;
    assert Ascends(Names(b, a), Less);
    NamesAre(b, a);
    hide Names;
    forall path | path in Names(b, a) && FileChangeAt(b, a)(path).Some?
      ensures LowerAll(FileChangeAt(b, a)(path).value.path) == path
    {
      ChangeKeepsPath(Look(b, path), Look(a, path), path);
    }
    CollectedAscends(Names(b, a), FileChangeAt(b, a), (c: FileChange) => LowerAll(c.path), Less);
  }

  lemma KeysAscend(x: map<KeyIdentity, RegistryRecord>, y: map<KeyIdentity, RegistryRecord>)
    requires Identified(x) && Identified(y)
    ensures InOrder(RegistryChanges(x, y), (c: RegistryChange) => (LowerAll(c.key), c.view), KeyThenView())
  {
    TextOrderIsTotal();
    LexicographicIsTotal(Less, Less);
    hide Less; hide LowerAll; hide RegistryChangeOf;
    assert Ascends(KeyNames(x, y), RegistryOrder());
    assert Ascends(KeyNames(x, y), KeyThenView());
    KeyNamesAre(x, y);
    RegistryChangesAreListed(x, y);
    hide KeyNames;
    CollectedAscends(KeyNames(x, y), RegistryChangeAt(x, y), (c: RegistryChange) => (LowerAll(c.key), c.view), KeyThenView());
  }

  // ----- the lists and the scalars -----

  /** A domain both snapshots captured. */
  predicate BothCover(before: Snapshot, after: Snapshot, domain: Domain) {
    domain in before.coverage.captured && domain in after.coverage.captured
  }

  lemma CoveredExactly(before: Snapshot, after: Snapshot, domain: Domain)
    ensures Covers(SharedCoverage(before, after), domain) <==> BothCover(before, after, domain)
    ensures domain in SharedCoverage(before, after).notCaptured <==> !BothCover(before, after, domain)
  {
    hide DeniedUnion;
    EveryDomainIsListed(domain);
  }

  lemma EveryDomainIsListed(domain: Domain)
    ensures domain in ALL_DOMAINS
    ensures ALL_DOMAINS == [Services, Registry, Filesystem, ScheduledTasks, Firewall, EventSources, Environment]
    ensures forall i, j :: 0 <= i < |ALL_DOMAINS| && 0 <= j < |ALL_DOMAINS| ==>
              (DomainLess()(ALL_DOMAINS[i], ALL_DOMAINS[j]) <==> i < j)
  {
    assert ALL_DOMAINS[Rank(domain)] == domain;
  }

  lemma {:induction false} FirstOfBoth(mine: seq<AccessDenied>, theirs: seq<AccessDenied>, identity: Identity)
    ensures FirstDenied(mine + theirs, identity)
         == if FirstDenied(mine, identity).Some? then FirstDenied(mine, identity) else FirstDenied(theirs, identity)
  {
    if mine == [] {
      assert mine + theirs == theirs;
    } else {
      assert (mine + theirs)[1..] == mine[1..] + theirs;
      FirstOfBoth(mine[1..], theirs, identity);
    }
  }

  /** The first of a list for its item of its domain. */
  ghost predicate IsFirst(denied: seq<AccessDenied>, d: AccessDenied) {
    exists i :: 0 <= i < |denied| && denied[i] == d && forall j :: 0 <= j < i ==> denied[j].domain != d.domain || denied[j].item != d.item
  }

  lemma {:induction false} FirstIs(denied: seq<AccessDenied>, d: AccessDenied)
    ensures FirstDenied(denied, (d.domain, d.item)) == Some(d) <==> IsFirst(denied, d)
  {
    if denied != [] {
      FirstIs(denied[1..], d);
      if i :| 0 <= i < |denied[1..]| && denied[1..][i] == d
              && forall j :: 0 <= j < i ==> denied[1..][j].domain != d.domain || denied[1..][j].item != d.item
      {
        if DeniedIdentity(denied[0]) != DeniedIdentity(d) {
          FirstAfter(denied, d, i);
        }
      }
      if i :| 0 <= i < |denied| && denied[i] == d
              && forall j :: 0 <= j < i ==> denied[j].domain != d.domain || denied[j].item != d.item
      {
        if i > 0 {
          FirstBelow(denied, d, i);
        }
      }
    }
  }

  lemma FirstAfter(denied: seq<AccessDenied>, d: AccessDenied, i: nat)
    requires denied != [] && i < |denied[1..]| && denied[1..][i] == d && DeniedIdentity(denied[0]) != DeniedIdentity(d)
    requires forall j :: 0 <= j < i ==> denied[1..][j].domain != d.domain || denied[1..][j].item != d.item
    ensures IsFirst(denied, d)
  {
    assert denied[i + 1] == d;
    forall j | 0 <= j < i + 1 ensures denied[j].domain != d.domain || denied[j].item != d.item {
      if j > 0 {
        assert denied[j] == denied[1..][j - 1];
      }
    }
  }

  lemma FirstBelow(denied: seq<AccessDenied>, d: AccessDenied, i: nat)
    requires 0 < i < |denied| && denied[i] == d
    requires forall j :: 0 <= j < i ==> denied[j].domain != d.domain || denied[j].item != d.item
    ensures IsFirst(denied[1..], d)
  {
    assert denied[1..][i - 1] == d;
    forall j | 0 <= j < i - 1 ensures denied[1..][j].domain != d.domain || denied[1..][j].item != d.item {
      assert denied[1..][j] == denied[j + 1];
    }
  }

  /** What either was refused is refused, with the reason of the first that gave
      one. */
  lemma ReasonIsTheFirst(mine: seq<AccessDenied>, theirs: seq<AccessDenied>, d: AccessDenied)
    ensures d in DeniedUnion(mine, theirs) <==>
              IsFirst(mine, d) || (IsFirst(theirs, d) && forall m :: m in mine ==> m.domain != d.domain || m.item != d.item)
  {
    DeniedOrderIsTotal();
    var both, identity := mine + theirs, (d.domain, d.item);
    FirstOfBoth(mine, theirs, identity);
    FirstIs(mine, d);
    FirstIs(theirs, d);
    hide FirstDenied; hide IsFirst;
    CollectedHolds(Ordered.Ascending(Identities(both), DeniedOrder()), EachFirst(both), d);
    if FirstDenied(both, identity) == Some(d) {
      assert d in both;
      assert DeniedIdentity(d) in Identities(both);
    }
  }

  /** What is in one list and not in another, if both are known. */
  ghost predicate GainedExactly<T(!new)>(result: Option<seq<T>>, known: bool, was: Option<seq<T>>, now: Option<seq<T>>, keep: T -> bool) {
    && (result.Some? <==> known && was.Some? && now.Some?)
    && (result.Some? ==> forall t :: t in result.value <==> t in now.value && t !in was.value && keep(t))
  }

  lemma NewlyAllowed<T(!new)>(covered: bool, was: Option<seq<T>>, now: Option<seq<T>>, keep: T -> bool)
    ensures GainedExactly(Allowed(Newly(covered, was, now), keep), covered, was, now, keep)
  {
  }

  /** A directory or key counts as emptied when the later snapshot found it empty
      and the earlier did not, and as formerly empty the other way about; both
      only where both snapshots looked, and the policy does not exclude it. */
  lemma EmptiedExactly(before: Snapshot, after: Snapshot, filter: NoiseFilter, policy: Policy)
    ensures var d := Compared(before, after, filter, policy);
            var files, keys := BothCover(before, after, Filesystem), BothCover(before, after, Registry);
            var directory := (path: string) => !ExcludedPath(policy, path);
            var key := (k: RegistryKeyRef) => !ExcludedKey(policy, k.key);
            && GainedExactly(d.emptiedDirectories, files, before.emptyDirectories, after.emptyDirectories, directory)
            && GainedExactly(d.formerlyEmptyDirectories, files, after.emptyDirectories, before.emptyDirectories, directory)
            && GainedExactly(d.emptiedKeys, keys, before.emptyKeys, after.emptyKeys, key)
            && GainedExactly(d.formerlyEmptyKeys, keys, after.emptyKeys, before.emptyKeys, key)
  {
    CoveredExactly(before, after, Filesystem);
    CoveredExactly(before, after, Registry);
    var files, keys := BothCover(before, after, Filesystem), BothCover(before, after, Registry);
    NewlyAllowed(files, before.emptyDirectories, after.emptyDirectories, AllowedDirectory(policy));
    NewlyAllowed(files, after.emptyDirectories, before.emptyDirectories, AllowedDirectory(policy));
    NewlyAllowed(keys, before.emptyKeys, after.emptyKeys, AllowedKey(policy));
    NewlyAllowed(keys, after.emptyKeys, before.emptyKeys, AllowedKey(policy));
    hide SharedCoverage; hide BothCover; hide Newly; hide Allowed; hide ComparedParts; hide ExcludedKey; hide ExcludedPath;
    hide LostDenials; hide CommonLibraries; hide Lost;
  }

  /** The two machines' times and formats, the restart between them, which more
      than two minutes' difference of boot times tells, and what changed of the
      policies they were taken under. */
  lemma ComparedScalars(before: Snapshot, after: Snapshot, filter: NoiseFilter, policy: Policy)
    ensures var d := Compared(before, after, filter, policy);
            && d.formatVersion == 2 && d.snapshotFormatVersion == before.formatVersion
            && d.beforeTakenUtc == before.takenUtc && d.afterTakenUtc == after.takenUtc
            && (d.rebootedBetween.Some? <==> before.bootStartedMs.Some? && after.bootStartedMs.Some?)
            && (d.rebootedBetween == Some(true) <==>
                  && before.bootStartedMs.Some? && after.bootStartedMs.Some?
                  && (before.bootStartedMs.value > after.bootStartedMs.value + 120000
                      || after.bootStartedMs.value > before.bootStartedMs.value + 120000))
            && (d.registryPolicyChanged <==> before.registryPolicy != after.registryPolicy)
            && (d.filesystemPolicyChanged <==> before.filesystemPolicy != after.filesystemPolicy)
            && d.intersectionOf == None
  {
    hide SharedCoverage; hide ComparedParts; hide LostDenials; hide CommonLibraries; hide Lost; hide NewlyEmptyDirectories;
    hide NewlyEmptyKeys; hide Allowed;
  }

  /** A library is common when the earlier snapshot was taken with it and the
      later one too, in some spelling. */
  lemma ComparedLibraries(before: Snapshot, after: Snapshot, filter: NoiseFilter, policy: Policy, library: Library)
    ensures library in Compared(before, after, filter, policy).libraries <==>
              && before.filesystemPolicy.Some? && library in before.filesystemPolicy.value.libraries
              && after.filesystemPolicy.Some?
              && exists other :: other in after.filesystemPolicy.value.libraries
                   && other.launcher == library.launcher && EqFold(other.path, library.path)
  {
    hide Compared; hide CommonLibraries; hide EqFold;
    var lists := [Libraries(before.filesystemPolicy), Libraries(after.filesystemPolicy)];
    LibrariesOfCompared(before, after, filter, policy);
    CommonIsInEvery(lists, library);
    assert lists[1] == Libraries(after.filesystemPolicy);
  }

  lemma LibrariesOfCompared(before: Snapshot, after: Snapshot, filter: NoiseFilter, policy: Policy)
    ensures Compared(before, after, filter, policy).libraries
         == CommonLibraries([Libraries(before.filesystemPolicy), Libraries(after.filesystemPolicy)])
  {
    hide SharedCoverage; hide ComparedParts; hide LostDenials; hide CommonLibraries; hide Lost; hide NewlyEmptyDirectories;
    hide NewlyEmptyKeys; hide Allowed; hide Libraries;
  }

  /** Domains a snapshot did not capture are not compared at all. */
  lemma UncoveredIsSilent(before: Snapshot, after: Snapshot, filter: NoiseFilter, policy: Policy)
    ensures var d := Compared(before, after, filter, policy);
            && (!BothCover(before, after, Services) ==> d.services == [] && d.suppressed == [])
            && (!BothCover(before, after, Filesystem) ==>
                  d.files == [] && d.suppressedFiles == [] && d.refiltered.files == 0)
            && (!BothCover(before, after, Registry) ==>
                  d.registry == [] && d.refiltered.registryRecords == 0 && d.refiltered.registryValues == 0)
  {
    CoveredExactly(before, after, Services);
    CoveredExactly(before, after, Filesystem);
    CoveredExactly(before, after, Registry);
    SiftedNone(filter);
    assert KeptServices(filter, []) == [] && SuppressedServices(filter, []) == [];
    hide SharedCoverage; hide BothCover; hide LostDenials; hide CommonLibraries; hide Lost; hide NewlyEmptyDirectories;
    hide NewlyEmptyKeys; hide Allowed; hide KeptServices; hide SuppressedServices; hide KeptFiles; hide SuppressedFiles;
    hide ServiceChanges; hide FileChanges; hide RegistryChanges; hide SignerCounts; hide ExcludedFiles; hide DroppedRecords;
    hide RefusedValues;
  }

  lemma {:induction false} RetainedCount<T(!new)>(list: seq<T>, keep: T -> bool)
    ensures |list| - |Retained(list, keep)| == |Dropped(list, keep)|
  {
    if list != [] {
      var n := |list| - 1;
      RetainedCount(list[..n], keep);
      DroppedMore(list, keep);
    } else {
      assert Dropped(list, keep) == {};
    }
  }

  /** Where a list holds what is not kept. */
  ghost function Dropped<T(!new)>(list: seq<T>, keep: T -> bool): set<nat> {
    set i: nat | i < |list| && !keep(list[i])
  }

  lemma DroppedMore<T(!new)>(list: seq<T>, keep: T -> bool)
    requires list != []
    ensures var n := |list| - 1;
            |Dropped(list, keep)| == |Dropped(list[..n], keep)| + if keep(list[n]) then 0 else 1
  {
    var n := |list| - 1;
    assert Dropped(list, keep) == Dropped(list[..n], keep) + if keep(list[n]) then {} else {n};
  }

  /** The files counted as left out are those of either snapshot the exclusions
      refuse, where files are compared. */
  lemma ExcludedFilesAreCounted(before: Snapshot, after: Snapshot, filter: NoiseFilter, policy: Policy)
    requires BothCover(before, after, Filesystem)
    ensures var kept := (file: FileRecord) => !ExcludedPath(policy, file.path);
            Compared(before, after, filter, policy).refiltered.files
            == |Dropped(before.files, kept)| + |Dropped(after.files, kept)|
  {
    var kept := (file: FileRecord) => !ExcludedPath(policy, file.path);
    CoveredExactly(before, after, Filesystem);
    RetainedCount(before.files, Admits(policy));
    RetainedCount(after.files, Admits(policy));
    assert Dropped(before.files, kept) == Dropped(before.files, Admits(policy));
    assert Dropped(after.files, kept) == Dropped(after.files, Admits(policy));
    hide SharedCoverage; hide BothCover; hide LostDenials; hide CommonLibraries; hide Lost; hide NewlyEmptyDirectories;
    hide NewlyEmptyKeys; hide Allowed; hide KeptServices; hide SuppressedServices; hide KeptFiles; hide SuppressedFiles;
    hide ComparedServices; hide ComparedFiles; hide ComparedRegistry; hide SignerCounts; hide LostRecords; hide LostValues;
    hide Dropped; hide Retained; hide ExcludedPath;
  }
}
