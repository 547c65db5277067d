// What canonicalisation promises: a fixed point, components of one clean form,
// and one result for every spelling of a location.
module PathLaws {
  import opened Prelude
  import opened Text
  import opened Paths

  // ----- the stack machine -----

  function Continued(r: Result<Stack, PathError>, segments: seq<string>, kind: Kind): Result<Stack, PathError> {
    match r
    case Err(_) => r
    case Ok(stack) => PushAll(stack, segments, kind)
  }

  lemma {:induction false} PushAllConcat(stack: Stack, a: seq<string>, b: seq<string>, kind: Kind)
    ensures PushAll(stack, a + b, kind) == Continued(PushAll(stack, a, kind), b, kind)
    decreases |a|
  {
    if a == [] {
      assert a + b == b;
    } else {
      assert (a + b)[1..] == a[1..] + b;
      match Push(stack, a[0], kind) {
        case Err(_) =>
        case Ok(next) => PushAllConcat(next, a[1..], b, kind);
      }
    }
  }

  /** A component no further canonicalisation would touch. */
  ghost predicate Clean(c: string, kind: Kind) {
    && c != "" && Stem(c) == c && UpperAll(c) == c
    && '\\' !in c && '/' !in c && '\0' !in c
    && (kind != Device ==> ':' !in c)
  }

  ghost predicate CleanStack(stack: Stack, kind: Kind) {
    && (forall c :: c in stack.components ==> Clean(c, kind))
    && (forall c :: c in stack.components ==> (IsShortName(c) ==> stack.shortName))
  }

  ghost predicate RawSegment(raw: string) {
    '\\' !in raw && '/' !in raw && '\0' !in raw
  }

  lemma StemOfUpper(s: string)
    requires Stem(s) == s
    ensures Stem(UpperAll(s)) == UpperAll(s)
  {
    if s != "" {
      var last := s[|s| - 1];
      UpperAllAt(s);
      assert UpperAll(s)[|s| - 1] == Upper(last);
    }
  }

  lemma {:induction false} UpperPrefix(s: string, n: nat)
    requires n <= |s|
    ensures UpperAll(s)[..n] == UpperAll(s[..n])
    ensures UpperAll(s)[n..] == UpperAll(s[n..])
  {
    UpperAllAt(s);
    UpperAllAt(s[..n]);
    UpperAllAt(s[n..]);
  }

  lemma UpperIndex(s: string, c: char)
    requires Upper(c) == c && Lower(c) == c
    ensures IndexOf(UpperAll(s), c) == IndexOf(s, c)
    ensures LastIndexOf(UpperAll(s), c) == LastIndexOf(s, c)
  {
    var u := UpperAll(s);
    UpperAllAt(s);
    var i, j := IndexOf(u, c), IndexOf(s, c);
    assert i < |u| ==> Upper(s[i]) == c;
    var k, l := LastIndexOf(u, c), LastIndexOf(s, c);
    assert k >= 0 ==> Upper(s[k]) == c;
  }

  lemma ShortNameOfUpper(s: string)
    ensures IsShortName(UpperAll(s)) == IsShortName(s)
  {
    UpperIndex(s, '.');
    var stem := s[..IndexOf(s, '.')];
    UpperPrefix(s, IndexOf(s, '.'));
    UpperIndex(stem, '~');
    var tilde := LastIndexOf(stem, '~');
    if tilde >= 0 {
      UpperPrefix(stem, tilde + 1);
      UpperDigits(stem[tilde + 1..]);
    }
  }

  lemma UpperDigits(s: string)
    ensures AllDigits(UpperAll(s)) == AllDigits(s)
  {
    UpperAllAt(s);
    if AllDigits(UpperAll(s)) {
      forall c | c in s ensures IsDigit(c) {
        var i :| 0 <= i < |s| && s[i] == c;
        assert UpperAll(s)[i] in UpperAll(s);
      }
    }
    if AllDigits(s) {
      assert UpperAll(s) == s by {
        forall i | 0 <= i < |s| ensures UpperAll(s)[i] == s[i] {
          assert s[i] in s;
        }
      }
    }
  }

  lemma StemCharacters(raw: string)
    requires RawSegment(raw)
    ensures RawSegment(Stem(raw)) && Stem(Stem(raw)) == Stem(raw)
  {
    assert forall i :: 0 <= i < |Stem(raw)| ==> Stem(raw)[i] == raw[i];
  }

  lemma UpperCharacters(s: string, c: char)
    requires c !in s && Lower(c) == c
    ensures Upper(c) == c ==> c !in UpperAll(s)
  {
    UpperAllAt(s);
    forall i | 0 <= i < |s| ensures Upper(c) == c ==> UpperAll(s)[i] != c {
      assert s[i] in s;
    }
  }

  lemma PushKeepsClean(stack: Stack, raw: string, kind: Kind)
    requires CleanStack(stack, kind) && RawSegment(raw) && Push(stack, raw, kind).Ok?
    ensures CleanStack(Push(stack, raw, kind).value, kind)
  {
    if raw != "" && raw != "." && raw != ".." {
      var segment := Stem(raw);
      StemCharacters(raw);
      StemOfUpper(segment);
      ShortNameOfUpper(segment);
      CaseOfCase(segment);
      UpperCharacters(segment, '\\');
      UpperCharacters(segment, '/');
      UpperCharacters(segment, '\0');
      if kind != Device {
        UpperCharacters(segment, ':');
      }
    }
  }

  lemma {:induction false} PushAllKeepsClean(stack: Stack, segments: seq<string>, kind: Kind)
    requires CleanStack(stack, kind) && PushAll(stack, segments, kind).Ok?
    requires forall s :: s in segments ==> RawSegment(s)
    ensures CleanStack(PushAll(stack, segments, kind).value, kind)
    decreases |segments|
  {
    if segments != [] {
      PushKeepsClean(stack, segments[0], kind);
      PushAllKeepsClean(Push(stack, segments[0], kind).value, segments[1..], kind);
    }
  }

  lemma PushClean(stack: Stack, c: string, kind: Kind)
    requires Clean(c, kind)
    ensures Push(stack, c, kind) == Ok(Stack(stack.components + [c], stack.shortName || IsShortName(c)))
  {
    hide IsShortName; hide UpperAll;
    assert Stem(".") == "" && Stem("..") == "";
  }

  /** Clean components are pushed as they are, each in its turn. */
  lemma {:induction false} CleanIsFixed(stack: Stack, components: seq<string>, kind: Kind)
    requires forall c :: c in components ==> Clean(c, kind)
    ensures var r := PushAll(stack, components, kind);
            && r.Ok? && r.value.components == stack.components + components
            && (r.value.shortName ==> stack.shortName || exists c :: c in components && IsShortName(c))
    decreases |components|
  {
    hide IsShortName;
    if components == [] {
      assert stack.components + components == stack.components;
    } else {
      var c := components[0];
      PushClean(stack, c, kind);
      hide Push; hide Clean;
      var next := Push(stack, c, kind).value;
      CleanIsFixed(next, components[1..], kind);
      assert [c] + components[1..] == components;
      assert next.components + components[1..] == stack.components + components;
    }
  }

  // ----- from text to segments and back -----

  lemma {:induction false} SplitCharacters(s: string, separator: char)
    ensures forall p, c :: p in Split(s, separator) && c in p ==> c in s
  {
    if s != "" {
      SplitCharacters(s[1..], separator);
      var rest := Split(s[1..], separator);
      assert rest[0] in rest;
    }
  }

  /** The segments of text with no `/` and no NUL. */
  lemma SegmentsAreRaw(s: string)
    requires '/' !in s && '\0' !in s
    ensures forall p :: p in Split(s, '\\') ==> RawSegment(p)
  {
    SplitPieces(s, '\\');
    SplitCharacters(s, '\\');
  }

  lemma RenderedNothing()
    ensures Rendered([]) == ""
  {
  }

  lemma RenderedMore(components: seq<string>)
    requires components != []
    ensures Rendered(components) == "\\" + components[0] + Rendered(components[1..])
  {
  }

  lemma {:induction false} SplitRendered(components: seq<string>)
    requires components != [] && forall c :: c in components ==> '\\' !in c
    ensures Rendered(components) != "" && Rendered(components)[0] == '\\'
    ensures Split(Rendered(components)[1..], '\\') == components
  {
    var c, rest := components[0], components[1..];
    assert c in components;
    SplitPiece(c, '\\');
    RenderedMore(components);
    if rest == [] {
      RenderedNothing();
      hide Rendered; hide Split;
      assert Rendered(components)[1..] == c;
      assert components == [c];
    } else {
      SplitRendered(rest);
      hide Rendered; hide Split;
      var tail := Rendered(rest)[1..];
      assert Rendered(rest) == "\\" + tail;
      assert Rendered(components)[1..] == c + ['\\'] + tail;
      SplitAt(c, tail, '\\');
      assert components == [c] + rest;
    }
  }

  lemma {:induction false} RenderedCharacters(components: seq<string>, x: char)
    requires x != '\\' && forall c :: c in components ==> x !in c
    ensures x !in Rendered(components)
  {
    if components != [] {
      RenderedCharacters(components[1..], x);
      assert components[0] in components;
    }
  }

  lemma {:induction false} UnifiedIsPlain(s: string)
    ensures '/' !in Unified(s)
    ensures '/' !in s ==> Unified(s) == s
    ensures '\0' !in s ==> '\0' !in Unified(s)
  {
    UnifiedAt(s);
    assert '/' !in s ==> forall i :: 0 <= i < |s| ==> s[i] in s && Unified(s)[i] == s[i];
    forall i | 0 <= i < |s| ensures Unified(s)[i] != '/' && ('\0' !in s ==> Unified(s)[i] != '\0') {
      assert s[i] in s;
    }
  }

  lemma {:induction false} TrimStartIsSuffix(s: string)
    ensures |TrimStart(s)| <= |s| && TrimStart(s) == s[|s| - |TrimStart(s)|..]
  {
    if s != "" && IsWhitespace(s[0]) {
      TrimStartIsSuffix(s[1..]);
    }
  }

  lemma TrimCharacters(s: string, x: char)
    requires x !in s
    ensures x !in Trim(s)
  {
    TrimStartIsSuffix(s);
  }

  // ----- drive-rooted text -----

  /** `X:` or `X:\...`, with either separator. */
  predicate Drive(s: string) {
    |s| >= 2 && IsLetter(s[0]) && s[1] == ':' && (|s| == 2 || s[2] == '\\' || s[2] == '/')
  }

  /** What is left of a drive's segments below its root. */
  function BelowDrive(s: string): seq<string>
    requires Drive(s)
  {
    if |s| == 2 then [] else Split(Unified(s)[3..], '\\')
  }

  function DrivePath(letter: char, stack: Result<Stack, PathError>): Result<CanonicalPath, PathError> {
    Finished(Root(DriveRooted, [Upper(letter), ':'], ""), stack)
  }

  lemma UnifiedConcat(a: string, b: string)
    ensures Unified(a + b) == Unified(a) + Unified(b)
  {
    UnifiedAt(a);
    UnifiedAt(b);
    UnifiedAt(a + b);
  }

  lemma {:induction false} TrimEndAfter(a: string, b: string)
    requires a != "" && !IsWhitespace(a[|a| - 1])
    ensures TrimEnd(a + b) == a + TrimEnd(b)
    decreases |b|
  {
    if b == "" {
      assert a + b == a;
    } else if IsWhitespace(b[|b| - 1]) {
      assert (a + b)[..|a + b| - 1] == a + b[..|b| - 1];
      TrimEndAfter(a, b[..|b| - 1]);
    }
  }

  lemma TrimmedDrive(pre: string, post: string)
    requires Drive(pre)
    ensures Trim(Unified(pre + "\\" + post)) == Unified(pre) + "\\" + TrimEnd(Unified(post))
  {
    var u := Unified(pre) + "\\";
    UnifiedConcat(pre + "\\", post);
    UnifiedConcat(pre, "\\");
    assert Unified("\\") == "\\";
    assert Unified(pre + "\\" + post) == u + Unified(post);
    assert u[0] == pre[0] && !IsWhitespace(pre[0]);
    assert TrimStart(u + Unified(post)) == u + Unified(post);
    TrimEndAfter(u, Unified(post));
  }

  lemma DoesNotStart(t: string, p: string)
    requires t != "" && IsLetter(t[0]) && p != "" && p[0] == '\\'
    ensures !StartsFold(t, p) && !(p <= t)
  {
    assert LowerAll(p)[0] == '\\';
    if |p| <= |t| {
      assert LowerAll(t[..|p|])[0] == Lower(t[0]);
    }
  }

  lemma NotNamespaced(t: string)
    requires t != "" && IsLetter(t[0])
    ensures SplitRoot(t) == DriveRoot(t)
  {
    DoesNotStart(t, "\\\\?\\UNC\\");
    DoesNotStart(t, "\\\\?\\");
    DoesNotStart(t, "\\\\.\\");
    DoesNotStart(t, "\\??\\");
    DoesNotStart(t, "\\\\");
  }

  lemma SplitBelowDrive(pre: string, tail: string)
    requires Drive(pre)
    ensures var t := Unified(pre) + "\\" + tail;
            && SplitRoot(t) == Ok(Root(DriveRooted, [Upper(pre[0]), ':'], t[3..]))
            && Split(t[3..], '\\') == BelowDrive(pre) + Split(tail, '\\')
  {
    hide SplitRoot; hide LowerAll;
    var t := Unified(pre) + "\\" + tail;
    UnifiedAt(pre);
    hide Unified;
    assert t[0] == pre[0] && t[1] == ':' && t[2] == '\\';
    NotNamespaced(t);
    if |pre| == 2 {
      assert t[3..] == tail;
    } else {
      assert t[3..] == Unified(pre)[3..] + ['\\'] + tail;
      SplitAt(Unified(pre)[3..], tail, '\\');
    }
  }

  /** The form every law below works on: a drive, a separator, and the rest. */
  lemma DriveForm(pre: string, post: string)
    requires Drive(pre) && '\0' !in pre && '\0' !in post
    ensures Canonical(pre + "\\" + post)
         == DrivePath(pre[0], PushAll(Stack([], false), BelowDrive(pre) + Split(TrimEnd(Unified(post)), '\\'), DriveRooted))
  {
    TrimmedDrive(pre, post);
    SplitBelowDrive(pre, TrimEnd(Unified(post)));
  }

  // ----- components are clean -----

  /** What every root leaves is an end of the path, and a drive's root is its
      letter. */
  ghost predicate RootOf(path: string, r: Result<Root, PathError>) {
    r.Ok? ==>
      && |r.value.rest| <= |path| && r.value.rest == path[|path| - |r.value.rest|..]
      && (r.value.kind == DriveRooted ==>
            && |r.value.root| == 2 && IsLetter(r.value.root[0])
            && Upper(r.value.root[0]) == r.value.root[0] && r.value.root[1] == ':')
  }

  lemma DriveRootRest(path: string)
    ensures RootOf(path, DriveRoot(path))
  {
  }

  lemma AfterSeparatorIsEnd(path: string)
    ensures |AfterSeparator(path)| <= |path| && AfterSeparator(path) == path[|path| - |AfterSeparator(path)|..]
  {
  }

  lemma UncRootRest(path: string)
    ensures RootOf(path, UncRoot(path))
  {
    AfterSeparatorIsEnd(path);
    AfterSeparatorIsEnd(AfterSeparator(path));
  }

  lemma RootOfEnd(path: string, n: nat, r: Result<Root, PathError>)
    requires n <= |path| && RootOf(path[n..], r)
    ensures RootOf(path, r)
  {
  }

  lemma RootRest(path: string)
    ensures RootOf(path, SplitRoot(path))
  {
    if StartsFold(path, "\\\\?\\UNC\\") {
      UncRootRest(path[8..]);
      RootOfEnd(path, 8, UncRoot(path[8..]));
    } else if StartsFold(path, "\\\\?\\") {
      DriveRootRest(path[4..]);
      RootOfEnd(path, 4, VerbatimRoot(path[4..]));
    } else if StartsFold(path, "\\\\.\\") || "\\??\\" <= path {
    } else if "\\\\" <= path {
      UncRootRest(path[2..]);
      RootOfEnd(path, 2, UncRoot(path[2..]));
    } else {
      DriveRootRest(path);
    }
  }

  lemma TrimmedIsPlain(input: string)
    requires '\0' !in input
    ensures var t := Trim(Unified(input)); '/' !in t && '\0' !in t
  {
    UnifiedIsPlain(input);
    TrimCharacters(Unified(input), '/');
    TrimCharacters(Unified(input), '\0');
  }

  lemma CleanIsNoRelative(c: string, kind: Kind)
    requires Clean(c, kind)
    ensures c != "" && c != "." && c != ".."
  {
    assert Stem(".") == "" && Stem("..") == "";
  }

  /** Every component of every result is upper case, never empty, never ends in
      a dot or a space, so never `.` or `..`, holds no separator and, outside
      the device namespace, no colon; and an 8.3 component is always flagged. */
  lemma CanonicalComponentsAreClean(input: string)
    requires Canonical(input).Ok?
    ensures var p := Canonical(input).value; CleanStack(Stack(p.components, p.shortName), p.kind)
  {
    TrimmedIsPlain(input);
    RootRest(Trim(Unified(input)));
    var root := SplitRoot(Trim(Unified(input))).value;
    SegmentsAreRaw(root.rest);
    PushAllKeepsClean(Stack([], false), Split(root.rest, '\\'), root.kind);
  }

  // ----- the fixed point -----

  predicate EndsInWhitespace(s: string) {
    s != "" && IsWhitespace(s[|s| - 1])
  }

  lemma {:induction false} RenderedConcat(a: seq<string>, b: seq<string>)
    ensures Rendered(a + b) == Rendered(a) + Rendered(b)
  {
    if a == [] {
      assert a + b == b;
    } else {
      assert (a + b)[1..] == a[1..] + b;
      RenderedConcat(a[1..], b);
    }
  }

  lemma {:induction false} RenderedSplit(s: string)
    ensures Rendered(Split(s, '\\')) == "\\" + s
  {
    if s != "" {
      RenderedSplit(s[1..]);
      var rest := Split(s[1..], '\\');
      var parts := Split(s, '\\');
      if s[0] == '\\' {
        assert parts[1..] == rest;
      } else {
        assert parts[1..] == rest[1..] && parts[0] == [s[0]] + rest[0];
        assert Rendered(rest)[1..] == s[1..];
      }
    }
  }

  lemma PushLength(stack: Stack, raw: string, kind: Kind)
    requires Push(stack, raw, kind).Ok?
    ensures |Rendered(Push(stack, raw, kind).value.components)| <= |Rendered(stack.components)| + 1 + |raw|
  {
    if raw == "" || raw == "." {
    } else if raw == ".." {
      var n := |stack.components| - 1;
      RenderedConcat(stack.components[..n], [stack.components[n]]);
      assert stack.components == stack.components[..n] + [stack.components[n]];
    } else {
      RenderedConcat(stack.components, [UpperAll(Stem(raw))]);
    }
  }

  lemma {:induction false} PushAllLength(stack: Stack, segments: seq<string>, kind: Kind)
    requires PushAll(stack, segments, kind).Ok?
    ensures |Rendered(PushAll(stack, segments, kind).value.components)| <= |Rendered(stack.components)| + |Rendered(segments)|
    decreases |segments|
  {
    if segments != [] {
      PushLength(stack, segments[0], kind);
      PushAllLength(Push(stack, segments[0], kind).value, segments[1..], kind);
    }
  }

  ghost predicate CleanDrive(letter: char, components: seq<string>) {
    && IsLetter(letter) && Upper(letter) == letter
    && forall c :: c in components ==> Clean(c, DriveRooted)
  }

  /** The text below a drive's root. */
  function Below(components: seq<string>): string {
    if components == [] then "" else Rendered(components)[1..]
  }

  lemma RecanonicalForm(letter: char, components: seq<string>)
    requires CleanDrive(letter, components)
    ensures RenderedPath(DriveRooted, [letter, ':'], components) == [letter, ':', '\\'] + Below(components)
    ensures Split(Below(components), '\\') == if components == [] then [""] else components
    ensures Canonical(RenderedPath(DriveRooted, [letter, ':'], components))
         == DrivePath(letter, PushAll(Stack([], false), Split(TrimEnd(Below(components)), '\\'), DriveRooted))
  {
    var pre, post := [letter, ':'], Below(components);
    RenderedCharacters(components, '/');
    RenderedCharacters(components, '\0');
    if components != [] {
      SplitRendered(components);
    }
    assert RenderedPath(DriveRooted, pre, components) == pre + "\\" + post;
    UnifiedIsPlain(post);
    DriveForm(pre, post);
    var segments := Split(TrimEnd(post), '\\');
    assert BelowDrive(pre) + segments == segments;
  }

  lemma RecanonicalPlain(letter: char, components: seq<string>)
    requires CleanDrive(letter, components)
    requires !EndsInWhitespace(RenderedPath(DriveRooted, [letter, ':'], components))
    ensures var text := RenderedPath(DriveRooted, [letter, ':'], components);
            var again := Canonical(text);
            && again.Ok? && again.value.text == text && again.value.kind == DriveRooted
            && again.value.drive == Some(letter) && again.value.components == components
            && (again.value.shortName ==> exists c :: c in components && IsShortName(c))
  {
    RecanonicalForm(letter, components);
    assert TrimEnd(Below(components)) == Below(components);
    PushedBack(components);
  }

  lemma PushedBack(components: seq<string>)
    requires forall c :: c in components ==> Clean(c, DriveRooted)
    ensures var r := PushAll(Stack([], false), if components == [] then [""] else components, DriveRooted);
            && r.Ok? && r.value.components == components
            && (r.value.shortName ==> exists c :: c in components && IsShortName(c))
  {
    CleanIsFixed(Stack([], false), components, DriveRooted);
  }

  lemma TrimShortens(letter: char, components: seq<string>)
    requires CleanDrive(letter, components)
    requires EndsInWhitespace(RenderedPath(DriveRooted, [letter, ':'], components))
    ensures |TrimEnd(Below(components))| < |Below(components)|
  {
    hide Canonical; hide PushAll; hide Split; hide Rendered; hide Clean;
    RecanonicalForm(letter, components);
    var text, below := RenderedPath(DriveRooted, [letter, ':'], components), Below(components);
    assert text == [letter, ':', '\\'] + below;
    assert below != "" ==> text[|text| - 1] == below[|below| - 1];
  }

  lemma RecanonicalTrimmed(letter: char, components: seq<string>)
    requires CleanDrive(letter, components)
    requires EndsInWhitespace(RenderedPath(DriveRooted, [letter, ':'], components))
    ensures var text := RenderedPath(DriveRooted, [letter, ':'], components);
            Canonical(text).Ok? ==> |Canonical(text).value.text| < |text|
  {
    hide CleanDrive; hide Canonical; hide PushAll; hide Split; hide Rendered; hide Clean;
    RecanonicalForm(letter, components);
    var trimmed := TrimEnd(Below(components));
    assert |trimmed| < |Below(components)| by { TrimShortens(letter, components); }
    RenderedNothing();
    RenderedSplit(trimmed);
    var segments := Split(trimmed, '\\');
    if PushAll(Stack([], false), segments, DriveRooted).Ok? {
      PushAllLength(Stack([], false), segments, DriveRooted);
    }
  }

  lemma DriveResult(input: string) returns (letter: char)
    requires Canonical(input).Ok? && Canonical(input).value.kind == DriveRooted
    ensures var p := Canonical(input).value;
            && IsLetter(letter) && Upper(letter) == letter && p.drive == Some(letter)
            && p.text == RenderedPath(DriveRooted, [letter, ':'], p.components)
  {
    hide Trim; hide Unified; hide SplitRoot; hide PushAll; hide RenderedPath; hide Split; hide LowerAll;
    var r := SplitRoot(Trim(Unified(input)));
    RootRest(Trim(Unified(input)));
    letter := r.value.root[0];
    assert r.value.root == [letter, ':'];
  }

  /** A drive-rooted result is a fixed point, exactly when its text does not
      end in white space, which a second reading would trim. The 8.3 flag can
      only be lost, for an alias that `..` had already removed. */
  lemma CanonicalIsFixed(input: string)
    requires Canonical(input).Ok? && Canonical(input).value.kind == DriveRooted
    ensures var p := Canonical(input).value;
            var again := Canonical(p.text);
            && (again.Ok? && again.value.text == p.text <==> !EndsInWhitespace(p.text))
            && (!EndsInWhitespace(p.text) ==>
                  && again.value.kind == p.kind && again.value.drive == p.drive
                  && again.value.components == p.components
                  && (again.value.shortName ==> p.shortName))
  {
    var letter := DriveResult(input);
    var p := Canonical(input).value;
    CanonicalComponentsAreClean(input);
    assert CleanStack(Stack(p.components, p.shortName), DriveRooted);
    if EndsInWhitespace(p.text) {
      RecanonicalTrimmed(letter, p.components);
    } else {
      RecanonicalPlain(letter, p.components);
    }
  }

  // ----- inputs whose results are fixed -----

  ghost predicate Without(parts: seq<string>, x: char) {
    forall c :: c in parts ==> x !in c
  }

  lemma PushKeepsOut(stack: Stack, raw: string, kind: Kind, x: char)
    requires IsWhitespace(x) && Without(stack.components, x) && x !in raw && Push(stack, raw, kind).Ok?
    ensures Without(Push(stack, raw, kind).value.components, x)
  {
    if raw != "" && raw != "." && raw != ".." {
      UpperCharacters(Stem(raw), x);
    }
  }

  lemma {:induction false} PushAllKeepsOut(stack: Stack, segments: seq<string>, kind: Kind, x: char)
    requires IsWhitespace(x) && Without(stack.components, x) && Without(segments, x) && PushAll(stack, segments, kind).Ok?
    ensures Without(PushAll(stack, segments, kind).value.components, x)
    decreases |segments|
  {
    hide IsWhitespace; hide Push;
    if segments != [] {
      PushKeepsOut(stack, segments[0], kind, x);
      PushAllKeepsOut(Push(stack, segments[0], kind).value, segments[1..], kind, x);
    }
  }

  lemma UnifiedKeepsOut(s: string, x: char)
    requires x !in s && x != '\\'
    ensures x !in Unified(s)
  {
    UnifiedAt(s);
    assert forall i :: 0 <= i < |s| ==> s[i] in s;
  }

  /** White space in a result was in the input. */
  lemma WhitespaceComesFromInput(input: string, x: char)
    requires Canonical(input).Ok? && IsWhitespace(x) && x !in input
    ensures Without(Canonical(input).value.components, x)
  {
    hide Trim; hide Unified; hide SplitRoot; hide PushAll; hide RenderedPath; hide Split;
    assert x != '\\';
    hide IsWhitespace;
    var t := Trim(Unified(input));
    UnifiedKeepsOut(input, x);
    TrimCharacters(Unified(input), x);
    RootRest(t);
    var root := SplitRoot(t).value;
    SplitCharacters(root.rest, '\\');
    PushAllKeepsOut(Stack([], false), Split(root.rest, '\\'), root.kind, x);
  }

  lemma {:induction false} RenderedEnds(components: seq<string>)
    requires components != [] && components[|components| - 1] != ""
    ensures var last, text := components[|components| - 1], Rendered(components);
            text != "" && text[|text| - 1] == last[|last| - 1]
  {
    if |components| == 1 {
      RenderedNothing();
      assert components[1..] == [];
    } else {
      RenderedEnds(components[1..]);
    }
    hide Rendered;
    RenderedMore(components);
  }

  /** Any input with no white space but U+0020 gives a fixed point. */
  lemma PlainSpacesAreFixed(input: string)
    requires Canonical(input).Ok? && Canonical(input).value.kind == DriveRooted
    requires forall c :: c in input && IsWhitespace(c) ==> c == ' '
    ensures var p := Canonical(input).value;
            var again := Canonical(p.text);
            && again.Ok? && again.value.text == p.text && again.value.drive == p.drive
            && again.value.components == p.components
  {
    hide Canonical; hide IsWhitespace; hide RenderedPath;
    var p := Canonical(input).value;
    CanonicalIsFixed(input);
    var letter := DriveResult(input);
    if EndsInWhitespace(p.text) {
      var x := p.text[|p.text| - 1];
      EndOfText(input, letter);
      if x in input {
        assert false;
      }
      WhitespaceComesFromInput(input, x);
      assert false;
    }
  }

  /** The last character of a result is its last component's, which is neither
      a space nor a dot. */
  lemma EndOfText(input: string, letter: char)
    requires Canonical(input).Ok? && EndsInWhitespace(Canonical(input).value.text)
    requires Canonical(input).value.text == RenderedPath(DriveRooted, [letter, ':'], Canonical(input).value.components)
    ensures var p := Canonical(input).value;
            var x := p.text[|p.text| - 1];
            x != ' ' && p.components != [] && p.components[|p.components| - 1] in p.components
            && x in p.components[|p.components| - 1]
  {
    hide Canonical; hide Rendered;
    var p := Canonical(input).value;
    CanonicalComponentsAreClean(input);
    if p.components != [] {
      var last := p.components[|p.components| - 1];
      assert last in Stack(p.components, p.shortName).components;
      assert last == Stem(last) != "";
      RenderedEnds(p.components);
    }
  }

  /** Some results do end in white space: a tab before the last separator stays,
      and a second reading trims it. */
  lemma TabIsTrimmedLater()
    ensures Canonical("C:\\a\t\\").Ok? && Canonical("C:\\a\t\\").value.kind == DriveRooted
    ensures EndsInWhitespace(Canonical("C:\\a\t\\").value.text)
    ensures var text := Canonical("C:\\a\t\\").value.text; !(Canonical(text).Ok? && Canonical(text).value.text == text)
  {
    hide Canonical; hide EndsInWhitespace; hide RenderedPath;
    TabForm("a\t", "a\t\\");
    assert "C:" + "\\" + "a\t\\" == "C:\\a\t\\";
    CanonicalIsFixed("C:\\a\t\\");
  }

  lemma TabForm(name: string, post: string)
    requires name == "a\t" && post == "a\t\\"
    ensures Canonical("C:" + "\\" + post) == DrivePath('C', Ok(Stack(["A\t"], false)))
    ensures EndsInWhitespace(RenderedPath(DriveRooted, ['C', ':'], ["A\t"]))
  {
    TabStack(name);
    TabPost(name, post);
    hide Canonical; hide PushAll; hide Split; hide Unified; hide RenderedPath; hide EndsInWhitespace; hide TrimEnd;
    assert ['C', ':'] == "C:" && BelowDrive("C:") + [name, ""] == [name, ""];
    DriveForm("C:", post);
  }

  lemma TabPost(name: string, post: string)
    requires name == "a\t" && post == "a\t\\"
    ensures '\0' !in post && Split(TrimEnd(Unified(post)), '\\') == [name, ""]
  {
    assert post == name + ['\\'] + "";
    UnifiedIsPlain(post);
    hide Unified; hide Split;
    assert TrimEnd(post) == post;
    SplitAt(name, "", '\\');
    SplitPiece(name, '\\');
    SplitPiece("", '\\');
  }

  lemma TabStack(name: string)
    requires name == "a\t"
    ensures PushAll(Stack([], false), [name, ""], DriveRooted) == Ok(Stack(["A\t"], false))
    ensures EndsInWhitespace(RenderedPath(DriveRooted, "C:", ["A\t"]))
  {
    assert [name, ""][1..] == [""] && [""][1..] == [];
    assert [] + ["A\t"] == ["A\t"] && ["A\t"][1..] == [];
    assert Stem(name) == name && UpperAll(name) == "A\t";
    assert !IsShortName(name) by {
      assert LastIndexOf(name[..IndexOf(name, '.')], '~') < 0;
    }
    assert Rendered(["A\t"]) == "\\A\t";
  }
}
