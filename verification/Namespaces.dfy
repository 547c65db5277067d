// Which namespace a text is in, and what is left of it below the root:
// `split_root` of core/src/safety/paths.rs, and the hives of a registry key.
module Namespaces {
  import opened Prelude
  import opened Text
  import opened Paths
  import opened PathLaws
  import opened PathSpellings
  import opened RegKeys

  // ----- shares -----

  /** A name between separators. */
  predicate IsPart(name: string) {
    name != "" && '\\' !in name
  }

  lemma CutsAt(name: string, rest: string)
    requires '\\' !in name
    ensures BeforeSeparator(name + ("\\" + rest)) == name && AfterSeparator(name + ("\\" + rest)) == rest
    ensures BeforeSeparator(name) == name && AfterSeparator(name) == ""
  {
    var s := name + ("\\" + rest);
    assert s[|name|] == '\\';
    assert forall j :: 0 <= j < |name| ==> s[j] == name[j] && name[j] in name;
    assert IndexOf(s, '\\') == |name|;
    IndexOfFinds(name, '\\');
    assert name[..|name|] == name;
  }

  /** `host\share` is a root, with or without anything below it. */
  lemma SharesAreRoots(host: string, share: string, rest: string)
    requires IsPart(host) && IsPart(share)
    ensures UncRoot(host + ("\\" + (share + ("\\" + rest)))) == Ok(Root(Unc, "\\\\" + host + "\\" + share, rest))
    ensures UncRoot(host + ("\\" + share)) == Ok(Root(Unc, "\\\\" + host + "\\" + share, ""))
  {
    CutsAt(host, share + ("\\" + rest));
    CutsAt(share, rest);
    CutsAt(host, share);
  }

  ghost predicate IsShare(path: string, host: string, share: string, rest: string) {
    && IsPart(host) && IsPart(share)
    && (path == host + ("\\" + share) || path == host + ("\\" + (share + ("\\" + rest))))
  }

  /** And nothing else is: without a host or without a share it is malformed. */
  lemma OnlySharesAreRoots(path: string)
    requires UncRoot(path).Ok?
    ensures exists host, share, rest :: IsShare(path, host, share, rest)
  {
    var i := IndexOf(path, '\\');
    var host, after := BeforeSeparator(path), AfterSeparator(path);
    var share, rest := BeforeSeparator(after), AfterSeparator(after);
    Parted(path);
    Parted(after);
    hide BeforeSeparator; hide AfterSeparator;
    assert IsShare(path, host, share, rest);
  }

  lemma Parted(s: string)
    ensures '\\' !in BeforeSeparator(s)
    ensures s == BeforeSeparator(s) + ("\\" + AfterSeparator(s)) || (s == BeforeSeparator(s) && AfterSeparator(s) == "")
  {
    var i := IndexOf(s, '\\');
    if i < |s| {
      assert s == s[..i] + ("\\" + s[i + 1..]);
    } else {
      assert s[..i] == s;
    }
  }

  lemma UncErrors(path: string)
    ensures UncRoot(path).Err? ==> UncRoot(path) == Err(MalformedUnc)
    ensures UncRoot("") == Err(MalformedUnc)
  {
  }

  // ----- prefixes -----

  lemma StartsWithItself(k: string, prefix: string, p: string)
    requires EqFold(k, prefix)
    ensures StartsFold(k + p, prefix) && (k + p)[|prefix|..] == p && |k| == |prefix|
  {
    FoldIndex(k, prefix, 0);
    hide EqFold;
    assert (k + p)[..|prefix|] == k;
  }

  lemma FoldOf(s: string, prefix: string, i: nat)
    requires StartsFold(s, prefix) && i < |prefix|
    ensures i < |s| && Lower(s[i]) == Lower(prefix[i])
  {
    FoldIndex(s[..|prefix|], prefix, i);
  }

  lemma PrefixesSpelled()
    ensures var unc := "\\\\?\\UNC\\"; 
            |unc| == 8 && unc[0] == '\\' && unc[1] == '\\' && unc[2] == '?' && unc[3] == '\\' && unc[4] == 'U'
    ensures var verbatim := "\\\\?\\"; |verbatim| == 4 && verbatim[0] == '\\' && verbatim[1] == '\\' && verbatim[2] == '?' && verbatim[3] == '\\'
    ensures var device := "\\\\.\\"; |device| == 4 && device[0] == '\\' && device[1] == '\\' && device[2] == '.' && device[3] == '\\'
    ensures var nt := "\\??\\"; |nt| == 4 && nt[0] == '\\' && nt[1] == '?'
  {
  }

  /** `\\?\UNC\host\share` is the share's own name for itself. */
  lemma UncByItsLongName(k: string, p: string)
    requires EqFold(k, "\\\\?\\UNC\\")
    ensures SplitRoot(k + p) == UncRoot(p)
  {
    StartsWithItself(k, "\\\\?\\UNC\\", p);
    hide StartsFold; hide UncRoot; hide EqFold;
  }

  /** `\\?\` before anything else is a drive or the device namespace. */
  lemma VerbatimIs(p: string)
    requires !StartsFold(p, "UNC\\")
    ensures SplitRoot("\\\\?\\" + p) == VerbatimRoot(p)
  {
    var s, verbatim := "\\\\?\\" + p, "\\\\?\\";
    NotUnc(p);
    FoldsItself(verbatim);
    StartsWithItself(verbatim, verbatim, p);
    hide StartsFold; hide VerbatimRoot; hide EqFold;
  }

  lemma NotUnc(p: string)
    requires !StartsFold(p, "UNC\\")
    ensures !StartsFold("\\\\?\\" + p, "\\\\?\\UNC\\")
  {
    hide StartsFold;
    if StartsFold("\\\\?\\" + p, "\\\\?\\UNC\\") {
      UncFollows(p);
    }
  }

  lemma UncFollows(p: string)
    requires StartsFold("\\\\?\\" + p, "\\\\?\\UNC\\")
    ensures StartsFold(p, "UNC\\")
  {
    var s, unc := "\\\\?\\" + p, "\\\\?\\UNC\\";
    hide LowerAll;
    LowerPrefix(s[..8], 4);
    LowerPrefix(unc, 4);
    assert unc[4..] == "UNC\\" && s[..8][4..] == p[..4];
  }

  /** The device namespace by its other names, with all that follows. */
  lemma DevicesAre(p: string)
    ensures SplitRoot("\\\\.\\" + p) == Ok(Root(Device, "\\\\.\\", p))
    ensures SplitRoot("\\??\\" + p) == Ok(Root(Device, "\\??\\", p))
    ensures StartsFold(p, "GLOBALROOT\\") || EqFold(p, "GLOBALROOT") ==> VerbatimRoot(p) == Ok(Root(Device, "\\\\?\\", p))
  {
    PrefixesSpelled();
    var device, nt := "\\\\.\\", "\\??\\";
    FoldsItself(device);
    StartsWithItself(device, device, p);
    hide EqFold; hide StartsFold;
    var s, t := device + p, nt + p;
    if StartsFold(s, "\\\\?\\UNC\\") { FoldOf(s, "\\\\?\\UNC\\", 2); }
    if StartsFold(s, "\\\\?\\") { FoldOf(s, "\\\\?\\", 2); }
    if StartsFold(t, "\\\\?\\UNC\\") { FoldOf(t, "\\\\?\\UNC\\", 1); }
    if StartsFold(t, "\\\\?\\") { FoldOf(t, "\\\\?\\", 1); }
    if StartsFold(t, "\\\\.\\") { FoldOf(t, "\\\\.\\", 1); }
    assert t[4..] == p && t[..4] == nt;
  }

  /** Two separators before anything else are a share. */
  lemma SharesAre(p: string)
    requires !("?\\" <= p) && !(".\\" <= p)
    ensures SplitRoot("\\\\" + p) == UncRoot(p)
  {
    PrefixesSpelled();
    var s := "\\\\" + p;
    hide EqFold; hide StartsFold; hide UncRoot;
    if StartsFold(s, "\\\\?\\UNC\\") { FoldOf(s, "\\\\?\\UNC\\", 2); FoldOf(s, "\\\\?\\UNC\\", 3); SecondPart(p, '?'); }
    if StartsFold(s, "\\\\?\\") { FoldOf(s, "\\\\?\\", 2); FoldOf(s, "\\\\?\\", 3); SecondPart(p, '?'); }
    if StartsFold(s, "\\\\.\\") { FoldOf(s, "\\\\.\\", 2); FoldOf(s, "\\\\.\\", 3); SecondPart(p, '.'); }
    assert s[2..] == p;
  }

  lemma SecondPart(p: string, c: char)
    requires |p| >= 2 && p[0] == c && p[1] == '\\'
    ensures [c] + "\\" <= p
  {
  }

  /** Anything else must be a drive: its letter, a colon, and a separator or the
      end. A relative path is in no namespace. */
  lemma DrivesAre(path: string)
    requires !("\\\\" <= path) && !("\\??\\" <= path)
    ensures SplitRoot(path) == DriveRoot(path)
    ensures DriveRoot(path).Ok? <==>
              |path| >= 2 && ('a' <= path[0] <= 'z' || 'A' <= path[0] <= 'Z') && path[1] == ':' && (|path| == 2 || path[2] == '\\')
    ensures DriveRoot(path).Err? ==> DriveRoot(path) == Err(NotAbsolute)
    ensures DriveRoot(path).Ok? ==>
              && DriveRoot(path).value.kind == DriveRooted && DriveRoot(path).value.root == [Upper(path[0]), ':']
              && DriveRoot(path).value.rest == if |path| == 2 then "" else path[3..]
  {
    PrefixesSpelled();
    hide StartsFold; hide EqFold;
    if StartsFold(path, "\\\\?\\UNC\\") { FoldOf(path, "\\\\?\\UNC\\", 0); FoldOf(path, "\\\\?\\UNC\\", 1); TwoSeparators(path); }
    if StartsFold(path, "\\\\?\\") { FoldOf(path, "\\\\?\\", 0); FoldOf(path, "\\\\?\\", 1); TwoSeparators(path); }
    if StartsFold(path, "\\\\.\\") { FoldOf(path, "\\\\.\\", 0); FoldOf(path, "\\\\.\\", 1); TwoSeparators(path); }
  }

  lemma TwoSeparators(path: string)
    requires |path| >= 2 && path[0] == '\\' && path[1] == '\\'
    ensures "\\\\" <= path
  {
  }

  // ----- the errors of a path -----

  /** A NUL is an error of its own, wherever it stands, and so is a path of
      nothing but white space. */
  lemma UnreadablePaths(input: string)
    ensures Canonical(input) == Err(EmbeddedNul) <==> '\0' in input
    ensures '\0' !in input && Trim(Unified(input)) == "" ==> Canonical(input) == Err(EmptyPath)
  {
    hide Trim; hide Unified; hide SplitRoot; hide PushAll; hide Split;
    if '\0' !in input && Trim(Unified(input)) != "" {
      NeverNul(Trim(Unified(input)));
    }
  }

  lemma NeverNul(t: string)
    requires t != ""
    ensures CanonicalTrimmed(t) != Err(EmbeddedNul)
  {
    hide Split;
    RootNeverNul(t);
    hide SplitRoot;
    if SplitRoot(t).Ok? {
      PushAllNeverNul(Stack([], false), Split(SplitRoot(t).value.rest, '\\'), SplitRoot(t).value.kind);
    }
    hide PushAll;
  }

  lemma RootNeverNul(t: string)
    ensures SplitRoot(t) != Err(EmbeddedNul)
  {
    hide StartsFold; hide EqFold; hide IndexOf;
  }

  lemma {:induction false} PushAllNeverNul(stack: Stack, segments: seq<string>, kind: Kind)
    ensures PushAll(stack, segments, kind) != Err(EmbeddedNul)
    decreases |segments|
  {
    hide Stem; hide UpperAll; hide IsShortName;
    if segments != [] && Push(stack, segments[0], kind).Ok? {
      PushAllNeverNul(Push(stack, segments[0], kind).value, segments[1..], kind);
    }
  }

  /** The error of one segment, exactly. */
  lemma SegmentErrors(stack: Stack, raw: string, kind: Kind)
    ensures var r := Push(stack, raw, kind);
            var dotted := forall c :: c in raw ==> c == '.' || c == ' ';
            && (r == Err(EscapesRoot) <==> raw == ".." && stack.components == [])
            && (r == Err(DotsOnlyComponent) <==> raw != "" && raw != "." && raw != ".." && dotted)
            && (r == Err(StreamSyntax) <==> kind != Device && ':' in raw && !dotted)
            && (r.Err? ==> r == Err(EscapesRoot) || r == Err(DotsOnlyComponent) || r == Err(StreamSyntax))
  {
    StemIsEmpty(raw);
    StemHasColons(raw);
    hide Stem; hide IsShortName; hide UpperAll;
  }

  lemma {:induction false} StemIsEmpty(raw: string)
    ensures Stem(raw) == "" <==> forall c :: c in raw ==> c == '.' || c == ' '
  {
    if raw != "" {
      var n := |raw| - 1;
      assert raw == raw[..n] + [raw[n]];
      assert forall c :: c in raw <==> c in raw[..n] || c == raw[n];
      if raw[n] == '.' || raw[n] == ' ' {
        StemIsEmpty(raw[..n]);
      } else {
        assert raw[n] in raw;
      }
    }
  }

  lemma {:induction false} StemHasColons(raw: string)
    ensures ':' in Stem(raw) <==> ':' in raw
  {
    if raw != "" && (raw[|raw| - 1] == '.' || raw[|raw| - 1] == ' ') {
      StemHasColons(raw[..|raw| - 1]);
      assert raw == raw[..|raw| - 1] + [raw[|raw| - 1]];
    }
  }

  // ----- hives -----

  /** The two names of a hive. */
  predicate NamesHive(head: string, hive: Hive) {
    match hive
    case Hklm => head == "HKLM" || head == "HKEY_LOCAL_MACHINE"
    case Hkcu => head == "HKCU" || head == "HKEY_CURRENT_USER"
    case Hku => head == "HKU" || head == "HKEY_USERS"
    case Hkcr => head == "HKCR" || head == "HKEY_CLASSES_ROOT"
    case Hkcc => head == "HKCC" || head == "HKEY_CURRENT_CONFIG"
  }

  /** A hive goes by those two names and no other, and by its short one in the
      text of a key. */
  lemma HivesAreNamed(head: string, hive: Hive)
    ensures HiveNamed(head) == Some(hive) <==> NamesHive(head, hive)
    ensures NamesHive(Short(hive), hive) && |Short(hive)| <= 4
  {
    HeadsDiffer();
  }

  lemma HeadsDiffer()
    ensures "HKLM" != "HKCU" && "HKLM" != "HKCR" && "HKLM" != "HKCC" && "HKCU" != "HKCR" && "HKCU" != "HKCC" && "HKCR" != "HKCC"
    ensures "HKEY_LOCAL_MACHINE" != "HKEY_CURRENT_USER" && "HKEY_CURRENT_USER" != "HKEY_CLASSES_ROOT"
  {
    assert "HKLM"[2] == 'L' && "HKCU"[2] == 'C' && "HKCU"[3] == 'U' && "HKCR"[3] == 'R' && "HKCC"[3] == 'C';
    assert |"HKEY_LOCAL_MACHINE"| == 18 && |"HKEY_CURRENT_USER"| == 17 && |"HKEY_CLASSES_ROOT"| == 17;
    assert "HKEY_CURRENT_USER"[6] == 'U' && "HKEY_CLASSES_ROOT"[6] == 'L';
  }

  /** From the text of a key: the hive by its head in any case, and below it the
      names between separators, in upper case, trimmed, and none that is blank. */
  lemma KeyIsRead(head: string, tail: string, hive: Hive)
    requires PlainKey(head) && '\\' !in head && NamesHive(UpperAll(head), hive)
    ensures var r := CanonicalKey(head + "\\" + tail);
            r.Ok? && r.value.hive == hive && r.value.components == Subkeys(Split(Unified(tail), '\\'))
  {
    hide Subkeys; hide UpperAll; hide CanonicalKey; hide NamesHive; hide HiveNamed; hide Unified;
    HivesAreNamed(UpperAll(head), hive);
    SplitPiece(head, '\\');
    KeyBelow(head, tail, hive);
    hide Split;
    assert [head][1..] == [] && Subkeys([]) == [] by { NoSubkeys(); }
    assert [] + Subkeys(Split(Unified(tail), '\\')) == Subkeys(Split(Unified(tail), '\\'));
  }

  lemma NoSubkeys()
    ensures Subkeys([]) == []
  {
  }

  predicate IsBlank(name: string) {
    Trim(name) == ""
  }

  lemma SubkeyOf(name: string, more: seq<string>)
    ensures IsBlank(name) ==> Subkeys([name] + more) == Subkeys(more)
    ensures !IsBlank(name) ==> Subkeys([name] + more) == [UpperAll(Trim(name))] + Subkeys(more)
  {
    hide Trim;
    assert ([name] + more)[1..] == more;
    hide UpperAll;
    assert |UpperAll(Trim(name))| == |Trim(name)|;
  }

  /** A key without one of those heads is of no hive. */
  lemma OtherHeadsAreUnknown(head: string, tail: string)
    requires PlainKey(head) && '\\' !in head && forall hive :: !NamesHive(UpperAll(head), hive)
    ensures CanonicalKey(head + "\\" + tail) == Err(UnknownHive)
  {
    hide Subkeys; hide UpperAll; hide NamesHive; hide Unified; hide Trim; hide WithoutLeading; hide WithoutTrailing;
    var w := StrippedBelow(head, tail);
    forall hive ensures HiveNamed(UpperAll(head)) != Some(hive) {
      HivesAreNamed(UpperAll(head), hive);
    }
    hide HiveNamed;
    HeadOf(head, w, Unified(tail));
    hide Split;
  }

  lemma HeadOf(head: string, w: string, u: string)
    requires '\\' !in head && head != "" && w <= "\\" + u
    ensures Split(head + w, '\\')[0] == head
  {
    if w == "" {
      assert head + w == head;
      SplitPiece(head, '\\');
    } else {
      assert head + w == head + ['\\'] + w[1..];
      SplitAt(head, w[1..], '\\');
      SplitPiece(head, '\\');
    }
  }
}
